/** Typed field values: printing to JSON, decoding from JSON, and widening to a declared kind. */
module FieldValues {
  import opened Common
  import opened JsonValues
  import opened ConfigSpecs

  // How numbers are read from and shown as text (`trim().parse::<f64>()` and `{number}`).
  datatype NumberText = NumberText(parse: string -> Option<Double>, show: Double -> string)

  // ----- Printing -----

  function NumberToJson(d: Double): Json {
    match d
    case Finite(r) => Num(if FitsI64AsDouble(r) then Integer(SaturateToI64(r.Floor)) else Float(r))
    case NonFinite => Null
  }

  function ToJson(v: FieldValue): Json {
    match v
    case Boolean(flag) => Bool(flag)
    case Text(text) => Str(text)
    case Numeric(d) => NumberToJson(d)
    case StringArray(strings) => Array(seq(|strings|, i requires 0 <= i < |strings| => Str(strings[i])))
    case ObjectArray(items) => Array(seq(|items|, i requires 0 <= i < |items| => ItemToJson(items[i])))
    case ObjectMap(entries) => Object(map k | k in entries :: ItemToJson(entries[k]))
  }

  function ItemToJson(item: Item): Json {
    Object(map k | k in item.members :: ToJson(item.members[k]))
  }

  // ----- Decoding -----

  predicate AllStrings(items: seq<Json>) {
    forall i :: 0 <= i < |items| ==> items[i].Str?
  }

  function DecodeStrings(items: seq<Json>): Option<seq<string>> {
    if AllStrings(items) then Some(seq(|items|, i requires 0 <= i < |items| => items[i].text)) else None
  }

  // A member of an object item: a scalar or a list of strings.
  function DecodeMember(j: Json): Option<FieldValue> {
    match j
    case Bool(flag) => Some(Boolean(flag))
    case Num(n) => Some(Numeric(Finite(AsDouble(n))))
    case Str(text) => Some(Text(text))
    case Array(items) =>
      var strings := DecodeStrings(items);
      if strings.Some? then Some(StringArray(strings.value)) else None
    case _ => None
  }

  function DecodeItem(j: Json): Option<Item> {
    if j.Object? && forall k :: k in j.fields ==> DecodeMember(j.fields[k]).Some? then
      Some(Item(map k | k in j.fields :: DecodeMember(j.fields[k]).value))
    else None
  }

  function DecodeItems(items: seq<Json>): Option<seq<Item>> {
    if forall i :: 0 <= i < |items| ==> DecodeItem(items[i]).Some? then
      Some(seq(|items|, i requires 0 <= i < |items| => DecodeItem(items[i]).value))
    else None
  }

  function DecodeEntries(fields: map<string, Json>): Option<map<string, Item>> {
    if forall k :: k in fields ==> DecodeItem(fields[k]).Some? then
      Some(map k | k in fields :: DecodeItem(fields[k]).value)
    else None
  }

  function Decode(j: Json): Option<FieldValue> {
    match j
    case Array(items) =>
      var strings := DecodeStrings(items);
      if strings.Some? then Some(StringArray(strings.value))
      else
        var decoded := DecodeItems(items);
        if decoded.Some? then Some(ObjectArray(decoded.value)) else None
    case Object(fields) =>
      var entries := DecodeEntries(fields);
      if entries.Some? then Some(ObjectMap(entries.value)) else None
    case _ => DecodeMember(j)
  }

  // The decoders as the loops they are: each stops at the first element it cannot read.
  method StringArrayFromJson(items: seq<Json>) returns (result: Option<seq<string>>)
    ensures result == DecodeStrings(items)
  {
    var buffer: seq<string> := [];
    for i := 0 to |items|
      invariant |buffer| == i
      invariant forall n :: 0 <= n < i ==> items[n] == Str(buffer[n])
    {
      if !items[i].Str? {
        return None;
      }
      buffer := buffer + [items[i].text];
    }
    assert buffer == seq(|items|, i requires 0 <= i < |items| => items[i].text);
    return Some(buffer);
  }

  method ObjectItemFromJson(j: Json) returns (result: Option<Item>)
    ensures result == DecodeItem(j)
  {
    if !j.Object? {
      return None;
    }
    var members: map<string, FieldValue> := map[];
    var remaining := j.fields.Keys;
    while remaining != {}
      invariant remaining <= j.fields.Keys
      invariant members.Keys == j.fields.Keys - remaining
      invariant forall k :: k in members ==> DecodeMember(j.fields[k]) == Some(members[k])
      decreases remaining
    {
      var key :| key in remaining;
      var member := DecodeMember(j.fields[key]);
      if member.None? {
        return None;
      }
      members := members[key := member.value];
      remaining := remaining - {key};
    }
    assert members == map k | k in j.fields :: DecodeMember(j.fields[k]).value;
    return Some(Item(members));
  }

  method ObjectArrayFromJson(items: seq<Json>) returns (result: Option<seq<Item>>)
    ensures result == DecodeItems(items)
  {
    var buffer: seq<Item> := [];
    for i := 0 to |items|
      invariant |buffer| == i
      invariant forall n :: 0 <= n < i ==> DecodeItem(items[n]) == Some(buffer[n])
    {
      var item := ObjectItemFromJson(items[i]);
      if item.None? {
        return None;
      }
      buffer := buffer + [item.value];
    }
    assert buffer == seq(|items|, i requires 0 <= i < |items| => DecodeItem(items[i]).value);
    return Some(buffer);
  }

  // ----- Widening -----

  function Widen(t: NumberText, v: FieldValue, kind: FieldKind): FieldValue {
    match (kind, v)
    case (NumberKind, Text(text)) =>
      var parsed := t.parse(text);
      if parsed.Some? && parsed.value.Finite? then Numeric(parsed.value) else v
    case (BooleanKind, Text(text)) =>
      if text == "true" then Boolean(true) else if text == "false" then Boolean(false) else v
    case (BooleanKind, Numeric(d)) =>
      if d == Finite(1.0) then Boolean(true) else if d == Finite(0.0) then Boolean(false) else v
    case (StringKind, Numeric(d)) => Text(t.show(d))
    case (SelectKind, Numeric(d)) => Text(t.show(d))
    case (ColorKind, Numeric(d)) => Text(t.show(d))
    case (StringKind, Boolean(flag)) => Text(if flag then "true" else "false")
    case (SelectKind, Boolean(flag)) => Text(if flag then "true" else "false")
    case (ColorKind, Boolean(flag)) => Text(if flag then "true" else "false")
    case (StringArrayKind, Text(text)) => StringArray([text])
    case (ObjectArrayKind, StringArray(strings)) => if strings == [] then ObjectArray([]) else v
    case _ => v
  }

  lemma WidenIsIdempotent(t: NumberText, v: FieldValue, kind: FieldKind)
    ensures Widen(t, Widen(t, v, kind), kind) == Widen(t, v, kind)
  {
  }

  predicate MatchesKind(v: FieldValue, kind: FieldKind) {
    match kind
    case BooleanKind => v.Boolean?
    case StringKind => v.Text?
    case SelectKind => v.Text?
    case ColorKind => v.Text?
    case PlacementKind => v.Text?
    case NumberKind => v.Numeric?
    case StringArrayKind => v.StringArray?
    case ObjectArrayKind => v.ObjectArray? || v == StringArray([])
    case ObjectMapKind => v.ObjectMap?
    case _ => false
  }

  // Widening gives a value of the declared kind or leaves the value alone.
  lemma WidenReachesKindOrKeeps(t: NumberText, v: FieldValue, kind: FieldKind)
    ensures MatchesKind(Widen(t, v, kind), kind) || Widen(t, v, kind) == v
  {
  }

  // Widening to text and back is the identity on flags, and on the finite numbers whose text
  // parses back; flags may also be written as one and zero.
  lemma WidenToTextAndBack(t: NumberText, flag: bool, d: Double)
    ensures Widen(t, Widen(t, Boolean(flag), StringKind), BooleanKind) == Boolean(flag)
    ensures Widen(t, Numeric(Finite(if flag then 1.0 else 0.0)), BooleanKind) == Boolean(flag)
    ensures d.Finite? && t.parse(t.show(d)) == Some(d) ==>
      Widen(t, Widen(t, Numeric(d), StringKind), NumberKind) == Numeric(d)
  {
  }

  // ----- The round trip -----

  ghost predicate NumbersAreDoubles(v: FieldValue) {
    match v
    case Numeric(d) => d.Finite? ==> IsDouble(d.value)
    case ObjectArray(items) =>
      forall i, k :: 0 <= i < |items| && k in items[i].members ==> NumbersAreDoubles(items[i].members[k])
    case ObjectMap(entries) =>
      forall e, k :: e in entries && k in entries[e].members ==> NumbersAreDoubles(entries[e].members[k])
    case _ => true
  }

  ghost predicate ItemNumbersAreDoubles(item: Item) {
    forall k :: k in item.members ==> NumbersAreDoubles(item.members[k])
  }

  // A scalar with a finite number, or a list of strings.
  predicate PlainMember(v: FieldValue) {
    v.Boolean? || v.Text? || v.StringArray? || (v.Numeric? && v.number.Finite?)
  }

  predicate PlainItem(item: Item) {
    forall k :: k in item.members ==> PlainMember(item.members[k])
  }

  // What the JSON form can carry: finite numbers, and items of plain members.
  predicate Printable(v: FieldValue) {
    match v
    case ObjectArray(items) => forall i :: 0 <= i < |items| ==> PlainItem(items[i])
    case ObjectMap(entries) => forall k :: k in entries ==> PlainItem(entries[k])
    case _ => PlainMember(v)
  }

  lemma MemberRoundTrip(v: FieldValue)
    requires NumbersAreDoubles(v)
    ensures DecodeMember(ToJson(v)) == Some(v) <==> PlainMember(v)
  {
    match v
    case Numeric(d) =>
      if d.Finite? && FitsI64AsDouble(d.value) {
        SaturatedTokenReadsBack(d.value);
      }
    case StringArray(strings) =>
      assert DecodeStrings(ToJson(v).items).value == strings;
    case ObjectArray(items) =>
      if items != [] {
        assert !ToJson(v).items[0].Str?;
      }
    case _ =>
  }

  lemma ItemRoundTrip(item: Item)
    requires ItemNumbersAreDoubles(item)
    ensures DecodeItem(ItemToJson(item)) == Some(item) <==> PlainItem(item)
  {
    var fields := ItemToJson(item).fields;
    forall k | k in item.members
      ensures DecodeMember(fields[k]) == Some(item.members[k]) <==> PlainMember(item.members[k])
    {
      MemberRoundTrip(item.members[k]);
    }
    if PlainItem(item) {
      assert DecodeItem(ItemToJson(item)).value.members == item.members;
    }
  }

  lemma ItemsRoundTrip(items: seq<Item>)
    requires items != []
    requires forall i :: 0 <= i < |items| ==> ItemNumbersAreDoubles(items[i])
    ensures Decode(ToJson(ObjectArray(items))) == Some(ObjectArray(items)) <==> Printable(ObjectArray(items))
  {
    var printed := ToJson(ObjectArray(items)).items;
    assert printed[0] == ItemToJson(items[0]);
    forall i | 0 <= i < |items|
      ensures DecodeItem(printed[i]) == Some(items[i]) <==> PlainItem(items[i])
    {
      ItemRoundTrip(items[i]);
    }
    if Printable(ObjectArray(items)) {
      assert DecodeItems(printed).value == items;
    }
  }

  lemma EntriesRoundTrip(entries: map<string, Item>)
    requires forall k :: k in entries ==> ItemNumbersAreDoubles(entries[k])
    ensures Decode(ToJson(ObjectMap(entries))) == Some(ObjectMap(entries)) <==> Printable(ObjectMap(entries))
  {
    var printed := ToJson(ObjectMap(entries)).fields;
    forall k | k in entries
      ensures DecodeItem(printed[k]) == Some(entries[k]) <==> PlainItem(entries[k])
    {
      ItemRoundTrip(entries[k]);
    }
    if Printable(ObjectMap(entries)) {
      assert DecodeEntries(printed).value == entries;
    }
  }

  function ReadAs(t: NumberText, raw: Json, kind: FieldKind): Option<FieldValue> {
    var decoded := Decode(raw);
    if decoded.Some? then Some(Widen(t, decoded.value, kind)) else None
  }

  // A value of the declared kind survives printing, decoding and widening exactly when it is printable.
  lemma PrintDecodeWiden(t: NumberText, v: FieldValue, kind: FieldKind)
    requires MatchesKind(v, kind) && Widen(t, v, kind) == v
    requires NumbersAreDoubles(v)
    ensures ReadAs(t, ToJson(v), kind) == Some(v) <==> Printable(v)
  {
    if v.ObjectArray? && v.items != [] {
      ItemsRoundTrip(v.items);
    } else if v.ObjectMap? {
      EntriesRoundTrip(v.entries);
    } else if !v.ObjectArray? {
      MemberRoundTrip(v);
    }
  }

  // ----- What decoding and widening make of a value, in plain terms -----

  ghost predicate ReadsStrings(items: seq<Json>, strings: seq<string>) {
    |strings| == |items| && forall i :: 0 <= i < |items| ==> items[i] == Str(strings[i])
  }

  // A member of an item: a scalar or a list of strings.
  ghost predicate ReadsMember(j: Json, v: FieldValue) {
    match v
    case Boolean(flag) => j == Bool(flag)
    case Text(text) => j == Str(text)
    case Numeric(d) => j.Num? && d == Finite(AsDouble(j.number))
    case StringArray(strings) => j.Array? && ReadsStrings(j.items, strings)
    case _ => false
  }

  ghost predicate ReadsItem(j: Json, item: Item) {
    && j.Object? && item.members.Keys == j.fields.Keys
    && forall k :: k in j.fields ==> ReadsMember(j.fields[k], item.members[k])
  }

  // A value: a member, a list of items that is not a list of strings, or a map of items.
  ghost predicate Reads(j: Json, v: FieldValue) {
    match v
    case ObjectArray(items) =>
      && j.Array? && |items| == |j.items| > 0
      && forall i :: 0 <= i < |items| ==> ReadsItem(j.items[i], items[i])
    case ObjectMap(entries) =>
      j.Object? && entries.Keys == j.fields.Keys && forall k :: k in entries ==> ReadsItem(j.fields[k], entries[k])
    case _ => ReadsMember(j, v)
  }

  lemma StringsIff(items: seq<Json>, strings: seq<string>)
    ensures DecodeStrings(items) == Some(strings) <==> ReadsStrings(items, strings)
  {
    if ReadsStrings(items, strings) {
      assert AllStrings(items);
      assert DecodeStrings(items).value == strings;
    }
  }

  lemma MemberIff(j: Json, v: FieldValue)
    ensures DecodeMember(j) == Some(v) <==> ReadsMember(j, v)
  {
    if j.Array? && v.StringArray? {
      StringsIff(j.items, v.strings);
    }
  }

  lemma ItemIff(j: Json, item: Item)
    ensures DecodeItem(j) == Some(item) <==> ReadsItem(j, item)
  {
    if j.Object? {
      forall k, v | k in j.fields
        ensures DecodeMember(j.fields[k]) == Some(v) <==> ReadsMember(j.fields[k], v)
      {
        MemberIff(j.fields[k], v);
      }
      if ReadsItem(j, item) {
        forall k | k in j.fields
          ensures DecodeMember(j.fields[k]) == Some(item.members[k])
        {
          MemberIff(j.fields[k], item.members[k]);
        }
        assert DecodeItem(j).value.members == item.members;
      }
    }
  }

  lemma ItemsIff(list: seq<Json>, items: seq<Item>)
    ensures DecodeItems(list) == Some(items) <==>
            |items| == |list| && forall i :: 0 <= i < |items| ==> ReadsItem(list[i], items[i])
  {
    forall j: Json, item: Item
      ensures DecodeItem(j) == Some(item) <==> ReadsItem(j, item)
    {
      ItemIff(j, item);
    }
    if |items| == |list| && forall i :: 0 <= i < |items| ==> ReadsItem(list[i], items[i]) {
      assert forall i :: 0 <= i < |list| ==> DecodeItem(list[i]) == Some(items[i]);
      assert DecodeItems(list).value == items;
    }
  }

  lemma EntriesIff(fields: map<string, Json>, entries: map<string, Item>)
    ensures DecodeEntries(fields) == Some(entries) <==>
            entries.Keys == fields.Keys && forall k :: k in entries ==> ReadsItem(fields[k], entries[k])
  {
    forall j: Json, item: Item
      ensures DecodeItem(j) == Some(item) <==> ReadsItem(j, item)
    {
      ItemIff(j, item);
    }
    if entries.Keys == fields.Keys && forall k :: k in entries ==> ReadsItem(fields[k], entries[k]) {
      assert forall k :: k in fields ==> k in entries && DecodeItem(fields[k]) == Some(entries[k]);
      assert DecodeEntries(fields).value == entries;
    }
  }

  // Decoding gives a value exactly when the document reads as that value; nothing else decodes.
  lemma DecodeIff(j: Json, v: FieldValue)
    ensures Decode(j) == Some(v) <==> Reads(j, v)
  {
    MemberIff(j, v);
    if j.Array? {
      ArrayIff(j, v);
    } else if j.Object? && v.ObjectMap? {
      EntriesIff(j.fields, v.entries);
    }
  }

  lemma ArrayIff(j: Json, v: FieldValue)
    requires j.Array?
    ensures Decode(j) == Some(v) <==> Reads(j, v)
  {
    if v.StringArray? {
      StringsIff(j.items, v.strings);
    }
    if v.ObjectArray? {
      ItemsIff(j.items, v.items);
      if j.items == [] {
        assert AllStrings(j.items) && DecodeStrings(j.items).value == [];
      } else if Reads(j, v) {
        assert !j.items[0].Str?;
      }
    }
  }

  // The value that widening gives, if it changes anything.
  ghost predicate WidensTo(t: NumberText, v: FieldValue, kind: FieldKind, w: FieldValue) {
    match v
    case Text(text) =>
      || (kind.NumberKind? && w.Numeric? && w.number.Finite? && t.parse(text) == Some(w.number))
      || (kind.BooleanKind? && text == "true" && w == Boolean(true))
      || (kind.BooleanKind? && text == "false" && w == Boolean(false))
      || (kind.StringArrayKind? && w == StringArray([text]))
    case Numeric(d) =>
      || (kind.BooleanKind? && d == Finite(1.0) && w == Boolean(true))
      || (kind.BooleanKind? && d == Finite(0.0) && w == Boolean(false))
      || ((kind.StringKind? || kind.SelectKind? || kind.ColorKind?) && w == Text(t.show(d)))
    case Boolean(flag) =>
      (kind.StringKind? || kind.SelectKind? || kind.ColorKind?) && w == Text(if flag then "true" else "false")
    case StringArray(strings) => kind.ObjectArrayKind? && |strings| == 0 && w == ObjectArray([])
    case _ => false
  }

  // Widening is these conversions and no other.
  lemma WidenIff(t: NumberText, v: FieldValue, kind: FieldKind, w: FieldValue)
    ensures WidensTo(t, v, kind, w) ==> Widen(t, v, kind) == w
    ensures Widen(t, v, kind) == v || WidensTo(t, v, kind, Widen(t, v, kind))
  {
  }

  // Which values are of a kind.
  lemma MatchesKindIff(v: FieldValue, kind: FieldKind)
    ensures MatchesKind(v, kind) <==>
      || (kind.BooleanKind? && v.Boolean?)
      || ((kind.StringKind? || kind.SelectKind? || kind.ColorKind? || kind.PlacementKind?) && v.Text?)
      || (kind.NumberKind? && v.Numeric?)
      || (kind.StringArrayKind? && v.StringArray?)
      || (kind.ObjectArrayKind? && (v.ObjectArray? || (v.StringArray? && |v.strings| == 0)))
      || (kind.ObjectMapKind? && v.ObjectMap?)
  {
  }
}
