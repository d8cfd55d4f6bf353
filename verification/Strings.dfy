/**
 Sequence and text operations of the Rust standard library that the configuration engine
 and the other parsers rely on: splitting at one element, whitespace, ASCII case.
 */
module Strings {

  // The pieces of `s` between separators; there is always at least one piece.
  function Split<T(==)>(s: seq<T>, sep: T): (parts: seq<seq<T>>)
    ensures |parts| >= 1
    ensures forall i :: 0 <= i < |parts| ==> sep !in parts[i]
  {
    if s == [] then [[]]
    else
      var rest := Split(s[1..], sep);
      if s[0] == sep then [[]] + rest else [[s[0]] + rest[0]] + rest[1..]
  }

  function Join<T>(parts: seq<seq<T>>, sep: seq<T>): seq<T> {
    if parts == [] then []
    else if |parts| == 1 then parts[0]
    else parts[0] + sep + Join(parts[1..], sep)
  }

  lemma {:induction false} SplitThenJoin<T>(s: seq<T>, sep: T)
    ensures Join(Split(s, sep), [sep]) == s
  {
    if s != [] {
      var rest := Split(s[1..], sep);
      SplitThenJoin(s[1..], sep);
      if s[0] == sep {
        assert Split(s, sep)[1..] == rest;
      } else if |rest| > 1 {
        assert Split(s, sep)[1..] == rest[1..];
      }
    }
  }

  lemma {:induction false} SplitPartsHaveNoSeparator<T>(s: seq<T>, sep: T)
    ensures forall part :: part in Split(s, sep) ==> sep !in part
  {
    if s != [] {
      SplitPartsHaveNoSeparator(s[1..], sep);
      assert Split(s[1..], sep)[0] in Split(s[1..], sep);
    }
  }

  lemma {:induction false} SplitIsInjective<T>(s: seq<T>, t: seq<T>, sep: T)
    ensures Split(s, sep) == Split(t, sep) <==> s == t
  {
    SplitThenJoin(s, sep);
    SplitThenJoin(t, sep);
  }

  // Splitting distributes over a separator.
  lemma {:induction false} SplitAtSeparator<T>(s: seq<T>, t: seq<T>, sep: T)
    ensures Split(s + [sep] + t, sep) == Split(s, sep) + Split(t, sep)
  {
    if s == [] {
      assert s + [sep] + t == [sep] + t;
    } else {
      assert (s + [sep] + t)[1..] == s[1..] + [sep] + t;
      SplitAtSeparator(s[1..], t, sep);
    }
  }

  lemma {:induction false} JoinAppends<T>(left: seq<seq<T>>, right: seq<seq<T>>, sep: seq<T>)
    requires left != [] && right != []
    ensures Join(left + right, sep) == Join(left, sep) + sep + Join(right, sep)
  {
    var all := left + right;
    assert all[0] == left[0];
    if |left| > 1 {
      assert all[1..] == left[1..] + right;
      JoinAppends(left[1..], right, sep);
      Regroup(left[0], sep, Join(left[1..], sep), sep, Join(right, sep));
    } else {
      assert all[1..] == right;
    }
  }

  lemma Regroup<T>(a: seq<T>, b: seq<T>, c: seq<T>, d: seq<T>, e: seq<T>)
    ensures a + b + (c + d + e) == a + b + c + d + e
  {
  }

  lemma {:induction false} SplitWithoutSeparator<T>(s: seq<T>, sep: T)
    requires sep !in s
    ensures Split(s, sep) == [s]
  {
    if s != [] {
      assert s[0] in s;
      SplitWithoutSeparator(s[1..], sep);
      assert [s[0]] + s[1..] == s;
    }
  }

  lemma {:induction false} JoinThenSplit<T>(parts: seq<seq<T>>, sep: T)
    requires parts != [] && forall part :: part in parts ==> sep !in part
    ensures Split(Join(parts, [sep]), sep) == parts
  {
    var first, rest := parts[0], parts[1..];
    assert first in parts;
    SplitWithoutSeparator(first, sep);
    if rest != [] {
      JoinThenSplit(rest, sep);
      SplitAtSeparator(first, Join(rest, [sep]), sep);
    }
  }

  // Unicode White_Space, which `char::is_whitespace` tests.
  predicate IsWhitespace(c: char) {
    || '\U{0009}' <= c <= '\U{000D}'
    || c in {'\U{0020}', '\U{0085}', '\U{00A0}', '\U{1680}', '\U{2028}', '\U{2029}', '\U{202F}', '\U{205F}', '\U{3000}'}
    || '\U{2000}' <= c <= '\U{200A}'
  }

  predicate IsAsciiAlphanumeric(c: char) {
    'a' <= c <= 'z' || 'A' <= c <= 'Z' || '0' <= c <= '9'
  }

  function AsciiLower(c: char): char {
    if 'A' <= c <= 'Z' then c - 'A' + 'a' else c
  }

  // `str::split_whitespace`: the maximal runs of non-whitespace characters.
  function Words(s: string): seq<string> {
    if s == "" then []
    else
      var rest := Words(s[1..]);
      if IsWhitespace(s[0]) then rest
      else if |s| > 1 && !IsWhitespace(s[1]) && rest != [] then [[s[0]] + rest[0]] + rest[1..]
      else [[s[0]]] + rest
  }

  function MapChars(f: char -> char, s: string): (r: string)
    ensures |r| == |s| && forall i :: 0 <= i < |s| ==> r[i] == f(s[i])
  {
    seq(|s|, i requires 0 <= i < |s| => f(s[i]))
  }
}
