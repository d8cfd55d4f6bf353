/**
 Finding the run id among the OEM strings of a raw SMBIOS table. A structure is a header with
 its length, a formatted area and a string set (sections 6.1.2 and 6.1.3 of DSP0134); OEM
 strings are structures of type 11 (section 7.12); type 127 ends the table.
 */
module Smbios {
  import opened Common
  import opened Frames
  import opened Strings

  const OEM_STRINGS: byte := 11
  const END_OF_TABLE: byte := 127
  const NUL: byte := 0

  // `qol-run-id=`
  const RUN_ID_PREFIX: seq<byte> := [113, 111, 108, 45, 114, 117, 110, 45, 105, 100, 61]

  // Which byte strings are UTF-8.
  type Utf8 = seq<byte> -> bool

  // The position of the first two consecutive NULs.
  function DoubleNul(bytes: seq<byte>): (k: Option<nat>)
    ensures k.Some? ==> k.value + 2 <= |bytes|
  {
    if |bytes| < 2 then None
    else if bytes[0] == NUL && bytes[1] == NUL then Some(0)
    else
      var k := DoubleNul(bytes[1..]);
      if k.Some? then Some(k.value + 1) else None
  }

  function FindPrefixed(utf8: Utf8, values: seq<seq<byte>>): Option<seq<byte>> {
    if values == [] then None
    else if utf8(values[0]) && RUN_ID_PREFIX <= values[0] then Some(values[0][|RUN_ID_PREFIX|..])
    else FindPrefixed(utf8, values[1..])
  }

  // What the structure at the head of `bytes` decides.
  datatype Verdict = Stop | Found(runId: seq<byte>) | Next(length: nat)

  function Visit(utf8: Utf8, bytes: seq<byte>): (v: Verdict)
    ensures v.Next? ==> 0 < v.length <= |bytes|
  {
    if |bytes| < 4 then Stop
    else
      var length := bytes[1] as nat;
      if length < 4 || length > |bytes| then Stop
      else
        var strings := bytes[length..];
        var k := DoubleNul(strings);
        if k.None? then Stop
        else
          var found := if bytes[0] == OEM_STRINGS then FindPrefixed(utf8, Split(strings[..k.value], NUL)) else None;
          if found.Some? then Found(found.value)
          else if bytes[0] == END_OF_TABLE then Stop
          else Next(length + k.value + 2)
  }

  // The search over the rest of a table.
  function Search(utf8: Utf8, bytes: seq<byte>): Option<seq<byte>>
    decreases |bytes|
  {
    match Visit(utf8, bytes)
    case Stop => None
    case Found(runId) => Some(runId)
    case Next(length) => Search(utf8, bytes[length..])
  }

  // The structure at one offset, with every index in bounds.
  method VisitAt(utf8: Utf8, table: seq<byte>, offset: nat) returns (verdict: Verdict)
    requires offset + 4 <= |table|
    ensures verdict == Visit(utf8, table[offset..])
  {
    ghost var rest := table[offset..];
    var kind := table[offset];
    var formattedLength := table[offset + 1] as nat;
    if formattedLength < 4 || offset + formattedLength > |table| {
      return Stop;
    }
    var stringsStart := offset + formattedLength;
    assert rest[formattedLength..] == table[stringsStart..];
    var k := DoubleNul(table[stringsStart..]);
    if k.None? {
      return Stop;
    }
    var strings := table[stringsStart..stringsStart + k.value];
    assert strings == table[stringsStart..][..k.value];
    if kind == OEM_STRINGS {
      var found := FindPrefixed(utf8, Split(strings, NUL));
      if found.Some? {
        return Found(found.value);
      }
    }
    if kind == END_OF_TABLE {
      return Stop;
    }
    return Next(formattedLength + k.value + 2);
  }

  // On any bytes the walk stays in bounds and moves strictly forward.
  method SmbiosRunId(utf8: Utf8, table: seq<byte>) returns (runId: Option<seq<byte>>)
    ensures runId == Search(utf8, table)
  {
    var offset := 0;
    assert table[0..] == table;
    while offset + 4 <= |table|
      invariant offset <= |table|
      invariant Search(utf8, table[offset..]) == Search(utf8, table)
      decreases |table| - offset
    {
      var verdict := VisitAt(utf8, table, offset);
      match verdict {
        case Stop => return None;
        case Found(found) => return Some(found);
        case Next(length) =>
          assert table[offset..][length..] == table[offset + length..];
          offset := offset + length;
      }
    }
    return None;
  }

  // ----- Printed tables -----

  // `formatted` is the formatted area after its type and length bytes.
  datatype Structure = Structure(kind: byte, formatted: seq<byte>, strings: seq<seq<byte>>) {
    ghost predicate WellFormed() {
      && 2 <= |formatted| <= 253
      && forall s :: s in strings ==> s != [] && NUL !in s
    }
  }

  function PrintStrings(strings: seq<seq<byte>>): seq<byte> {
    Join(strings, [NUL]) + [NUL, NUL]
  }

  ghost predicate AllWellFormed(structures: seq<Structure>) {
    forall i :: 0 <= i < |structures| ==> structures[i].WellFormed()
  }

  ghost function Print(s: Structure): seq<byte>
    requires s.WellFormed()
  {
    [s.kind, (|s.formatted| + 2) as byte] + s.formatted + PrintStrings(s.strings)
  }

  ghost function PrintTable(structures: seq<Structure>): seq<byte>
    requires AllWellFormed(structures)
  {
    if structures == [] then [] else Print(structures[0]) + PrintTable(structures[1..])
  }

  // The first prefixed OEM string of a structure list, searching no further than type 127.
  function FirstRunId(utf8: Utf8, structures: seq<Structure>): Option<seq<byte>> {
    if structures == [] then None
    else
      var s := structures[0];
      var found := if s.kind == 11 then FindPrefixed(utf8, s.strings) else None;
      if found.Some? then found
      else if s.kind == 127 then None
      else FirstRunId(utf8, structures[1..])
  }

  // The string set ends at its own double NUL and nowhere earlier.
  lemma {:induction false} StringSetEnds(strings: seq<seq<byte>>, tail: seq<byte>)
    requires forall s :: s in strings ==> s != [] && NUL !in s
    ensures DoubleNul(PrintStrings(strings) + tail) == Some(|Join(strings, [NUL])|)
    decreases |strings|
  {
    if strings == [] {
      assert PrintStrings(strings) + tail == [NUL, NUL] + tail;
    } else if |strings| == 1 {
      assert strings[0] in strings && strings == [strings[0]];
      OneStringEnds(strings[0], tail);
    } else {
      assert strings[0] in strings && strings[1] in strings;
      assert forall s :: s in strings[1..] ==> s in strings;
      StringSetEnds(strings[1..], tail);
      MoreStringsEnd(strings, tail);
    }
  }

  lemma OneStringEnds(s: seq<byte>, tail: seq<byte>)
    requires s != [] && NUL !in s
    ensures DoubleNul(PrintStrings([s]) + tail) == Some(|Join([s], [NUL])|)
  {
    assert PrintStrings([s]) + tail == s + ([NUL] + ([NUL] + tail));
    SkipString(s, [NUL] + tail);
    assert DoubleNul([NUL] + ([NUL] + tail)) == Some(0);
  }

  lemma MoreStringsEnd(strings: seq<seq<byte>>, tail: seq<byte>)
    requires |strings| > 1 && strings[1] != [] && NUL !in strings[0] && NUL !in strings[1]
    requires DoubleNul(PrintStrings(strings[1..]) + tail) == Some(|Join(strings[1..], [NUL])|)
    ensures DoubleNul(PrintStrings(strings) + tail) == Some(|Join(strings, [NUL])|)
  {
    var rest := PrintStrings(strings[1..]) + tail;
    assert PrintStrings(strings) + tail == strings[0] + ([NUL] + rest);
    SkipString(strings[0], rest);
    StartsWithString(strings[1..]);
    assert ([NUL] + rest)[1..] == rest;
  }

  lemma StartsWithString(strings: seq<seq<byte>>)
    requires strings != [] && strings[0] != [] && NUL !in strings[0]
    ensures |Join(strings, [NUL])| > 0 && Join(strings, [NUL])[0] != NUL
  {
    assert strings[0][0] in strings[0];
  }

  // A NUL-free string before a NUL holds no double NUL.
  lemma {:induction false} SkipString(s: seq<byte>, rest: seq<byte>)
    requires NUL !in s
    ensures
      var after := DoubleNul([NUL] + rest);
      DoubleNul(s + ([NUL] + rest)) == if after.Some? then Some(|s| + after.value) else None
  {
    if s == [] {
      assert s + ([NUL] + rest) == [NUL] + rest;
    } else {
      assert s[0] in s;
      assert (s + ([NUL] + rest))[1..] == s[1..] + ([NUL] + rest);
      SkipString(s[1..], rest);
    }
  }

  // Splitting the string set gives the strings back; an empty set splits into one empty string,
  // which has no prefix.
  lemma StringSetSplits(utf8: Utf8, strings: seq<seq<byte>>)
    requires forall s :: s in strings ==> s != [] && NUL !in s
    ensures FindPrefixed(utf8, Split(Join(strings, [NUL]), NUL)) == FindPrefixed(utf8, strings)
  {
    if strings != [] {
      JoinThenSplit(strings, NUL);
    } else {
      assert Split(Join(strings, [NUL]), NUL) == [[]];
    }
  }

  lemma OneStructure(utf8: Utf8, s: Structure, rest: seq<byte>)
    requires s.WellFormed()
    ensures
      Search(utf8, Print(s) + rest) ==
        var found := if s.kind == OEM_STRINGS then FindPrefixed(utf8, s.strings) else None;
        if found.Some? then found else if s.kind == END_OF_TABLE then None else Search(utf8, rest)
  {
    var bytes := Print(s) + rest;
    var length, joined := |s.formatted| + 2, Join(s.strings, [NUL]);
    assert bytes[0] == s.kind && bytes[1] as nat == length;
    var strings := bytes[length..];
    assert strings == PrintStrings(s.strings) + rest;
    StringSetEnds(s.strings, rest);
    assert strings[..|joined|] == joined;
    assert strings[|joined| + 2..] == rest;
    StringSetSplits(utf8, s.strings);
  }

  // On every printed table the walk finds exactly the first prefixed OEM string before or at
  // the end-of-table structure. After that structure any bytes may follow.
  lemma {:induction false} PrintedTableSearched(utf8: Utf8, structures: seq<Structure>, tail: seq<byte>)
    requires AllWellFormed(structures)
    requires |tail| < 4 || exists s :: s in structures && s.kind == END_OF_TABLE
    ensures Search(utf8, PrintTable(structures) + tail) == FirstRunId(utf8, structures)
  {
    if structures == [] {
      assert PrintTable(structures) + tail == tail;
    } else {
      var first, others := structures[0], structures[1..];
      assert PrintTable(structures) + tail == Print(first) + (PrintTable(others) + tail);
      OneStructure(utf8, first, PrintTable(others) + tail);
      if first.kind != END_OF_TABLE {
        assert structures == [first] + others;
        PrintedTableSearched(utf8, others, tail);
      }
    }
  }

  // ----- Strings, ends and malformed structures, in plain terms -----

  // `qol-run-id=` in ASCII; NUL is zero.
  lemma PrefixIsText()
    ensures |RUN_ID_PREFIX| == |"qol-run-id="| && NUL == 0
    ensures forall i :: 0 <= i < |RUN_ID_PREFIX| ==> RUN_ID_PREFIX[i] as int == "qol-run-id="[i] as int
  {
  }

  ghost predicate CarriesRunId(utf8: Utf8, value: seq<byte>, runId: seq<byte>) {
    utf8(value) && value == RUN_ID_PREFIX + runId
  }

  // The run id is what follows the prefix in the first UTF-8 string that has it.
  lemma {:induction false} FindPrefixedIff(utf8: Utf8, values: seq<seq<byte>>, runId: seq<byte>)
    ensures FindPrefixed(utf8, values) == Some(runId) <==>
      exists n :: 0 <= n < |values| && CarriesRunId(utf8, values[n], runId)
        && forall m, other :: 0 <= m < n ==> !CarriesRunId(utf8, values[m], other)
    ensures FindPrefixed(utf8, values) == None <==>
      forall m, other :: 0 <= m < |values| ==> !CarriesRunId(utf8, values[m], other)
  {
    if values != [] {
      FindPrefixedIff(utf8, values[1..], runId);
      assert forall m :: 0 <= m < |values[1..]| ==> values[1..][m] == values[m + 1];
      if utf8(values[0]) && RUN_ID_PREFIX <= values[0] {
        assert CarriesRunId(utf8, values[0], values[0][|RUN_ID_PREFIX|..]);
      }
    }
  }

  lemma {:induction false} DoubleNulIff(bytes: seq<byte>, k: nat)
    ensures DoubleNul(bytes) == Some(k) <==>
      && k + 1 < |bytes| && bytes[k] == 0 && bytes[k + 1] == 0
      && forall m :: 0 <= m < k ==> bytes[m] != 0 || bytes[m + 1] != 0
    ensures DoubleNul(bytes) == None <==> forall m :: 0 <= m < |bytes| - 1 ==> bytes[m] != 0 || bytes[m + 1] != 0
  {
    if |bytes| >= 2 {
      if k > 0 {
        DoubleNulIff(bytes[1..], k - 1);
      } else {
        DoubleNulIff(bytes[1..], 0);
      }
      assert forall m :: 0 <= m < |bytes[1..]| ==> bytes[1..][m] == bytes[m + 1];
    }
  }

  ghost predicate Unterminated(bytes: seq<byte>, start: nat) {
    forall m :: start <= m < |bytes| - 1 ==> bytes[m] != 0 || bytes[m + 1] != 0
  }

  // The search ends without a result at a truncated header, at a length below four or beyond the
  // table, at a string set without its double NUL, and at the end-of-table structure.
  lemma MalformedEndsSearch(utf8: Utf8, bytes: seq<byte>)
    ensures |bytes| < 4 ==> Search(utf8, bytes) == None
    ensures |bytes| >= 4 && (bytes[1] < 4 || bytes[1] as nat > |bytes|) ==> Search(utf8, bytes) == None
    ensures |bytes| >= 4 && Unterminated(bytes, bytes[1] as nat) ==> Search(utf8, bytes) == None
    ensures |bytes| >= 4 && bytes[0] == 127 ==> Search(utf8, bytes) == None
  {
    if |bytes| >= 4 && 4 <= bytes[1] as nat <= |bytes| {
      var length := bytes[1] as nat;
      DoubleNulIff(bytes[length..], 0);
      assert forall m :: 0 <= m < |bytes[length..]| ==> bytes[length..][m] == bytes[length + m];
    }
  }
}
