/**
 The collision check on dotted configuration keys, which works on strings, and its meaning
 on the segments between the dots.
 */
module ConfigKeys {
  import opened Common
  import opened ConfigSpecs
  import opened Strings

  // `left.strip_prefix(right).is_some_and(|suffix| suffix.starts_with('.'))`
  predicate ContinuesWithDot(left: string, right: string) {
    |right| < |left| && left[..|right|] == right && left[|right|] == '.'
  }

  predicate PrefixCollision(left: string, right: string) {
    ContinuesWithDot(left, right) || ContinuesWithDot(right, left)
  }

  // Neither path leads through or to the other.
  predicate Apart<T(==)>(p: seq<T>, q: seq<T>) {
    !(p <= q) && !(q <= p)
  }

  lemma {:induction false} DotContinuationIsStrictSegmentPrefix(left: string, right: string)
    ensures ContinuesWithDot(left, right) <==> Split(right, '.') < Split(left, '.')
  {
    if ContinuesWithDot(left, right) {
      var rest := left[|right| + 1..];
      assert left == right + ['.'] + rest;
      SplitAtSeparator(right, rest, '.');
    }
    if Split(right, '.') < Split(left, '.') {
      var rest := Split(left, '.')[|Split(right, '.')|..];
      assert Split(left, '.') == Split(right, '.') + rest;
      JoinAppends(Split(right, '.'), rest, ".");
      SplitThenJoin(left, '.');
      SplitThenJoin(right, '.');
      assert left == right + "." + Join(rest, ".");
    }
  }

  // The whole check on two keys (equal, or one continues the other) is exactly
  // comparability of the two segment paths.
  lemma KeysClashIffPathsComparable(left: string, right: string)
    ensures left == right || PrefixCollision(left, right)
       <==> !Apart(Split(left, '.'), Split(right, '.'))
  {
    DotContinuationIsStrictSegmentPrefix(left, right);
    DotContinuationIsStrictSegmentPrefix(right, left);
    SplitIsInjective(left, right, '.');
  }

  const STORED: Field -> seq<Field> := (f: Field) => if f.HasStoredValue() then [f] else []

  function StoredFields(spec: Spec): seq<Field> {
    FlatMap(STORED, spec)
  }

  datatype KeyError =
    | Duplicates(field: string, earlier: string)
    | Collides(field: string, earlier: string)

  function PairErrors(left: Field, right: Field): seq<KeyError> {
    if left.Key() == right.Key() then [Duplicates(right.id, left.id)]
    else if PrefixCollision(left.Key(), right.Key()) then [Collides(right.id, left.id)]
    else []
  }

  const AGAINST: Field -> Field -> seq<KeyError> := (left: Field) => (right: Field) => PairErrors(left, right)

  ghost predicate PathsApart(fields: seq<Field>) {
    forall i, j :: 0 <= i < j < |fields| ==> Apart(fields[i].Path(), fields[j].Path())
  }

  method CollectStored(spec: Spec) returns (keys: seq<Field>)
    ensures keys == StoredFields(spec)
  {
    keys := [];
    for n := 0 to |spec|
      invariant keys == FlatMap(STORED, spec[..n])
    {
      FlatMapExtends(STORED, spec, n);
      if spec[n].HasStoredValue() {
        keys := keys + [spec[n]];
      }
    }
    assert spec[..|spec|] == spec;
  }

  method ValidateKeyCollisions(spec: Spec) returns (errors: seq<KeyError>)
    ensures errors == PairTable(AGAINST, StoredFields(spec), |StoredFields(spec)|)
    ensures errors == [] <==> PathsApart(StoredFields(spec))
  {
    var keys := CollectStored(spec);
    errors := [];
    for i := 0 to |keys|
      invariant errors == PairTable(AGAINST, keys, i)
    {
      var row := FindClashes(keys[i], keys[i + 1..]);
      errors := errors + row;
    }
    NoErrorsIffPathsApart(keys);
  }

  // The inner loop: one key against the keys after it.
  method FindClashes(left: Field, rights: seq<Field>) returns (errors: seq<KeyError>)
    ensures errors == FlatMap(AGAINST(left), rights)
  {
    errors := [];
    for j := 0 to |rights|
      invariant errors == FlatMap(AGAINST(left), rights[..j])
    {
      FlatMapExtends(AGAINST(left), rights, j);
      if left.Key() == rights[j].Key() {
        errors := errors + [Duplicates(rights[j].id, left.id)];
      } else if PrefixCollision(left.Key(), rights[j].Key()) {
        errors := errors + [Collides(rights[j].id, left.id)];
      }
    }
    assert rights[..|rights|] == rights;
  }

  // The collision check accepts exactly the specs whose stored paths are pairwise apart.
  lemma NoErrorsIffPathsApart(fields: seq<Field>)
    ensures PairTable(AGAINST, fields, |fields|) == [] <==> PathsApart(fields)
  {
    PairTableIsEmpty(AGAINST, fields, |fields|);
    forall i, j | 0 <= i < j < |fields|
      ensures AGAINST(fields[i])(fields[j]) == [] <==> Apart(fields[i].Path(), fields[j].Path())
    {
      NoErrorIffApart(fields[i], fields[j]);
    }
  }

  // An error names a field and an earlier one: a duplicate if their keys are the same, a
  // collision if the keys differ and one path leads to the other. Every such pair is reported.
  lemma ErrorReportedIff(fields: seq<Field>, e: KeyError)
    ensures e in PairTable(AGAINST, fields, |fields|) <==>
      exists i, j :: 0 <= i < j < |fields| && e.earlier == fields[i].id && e.field == fields[j].id
        && if e.Duplicates? then fields[i].Path() == fields[j].Path()
           else fields[i].Path() != fields[j].Path() && !Apart(fields[i].Path(), fields[j].Path())
  {
    PairTableMembers(AGAINST, fields, |fields|, e);
    forall i, j | 0 <= i < j < |fields|
      ensures e in AGAINST(fields[i])(fields[j]) <==>
        && e.earlier == fields[i].id && e.field == fields[j].id
        && if e.Duplicates? then fields[i].Path() == fields[j].Path()
           else fields[i].Path() != fields[j].Path() && !Apart(fields[i].Path(), fields[j].Path())
    {
      SplitIsInjective(fields[i].Key(), fields[j].Key(), '.');
      KeysClashIffPathsComparable(fields[i].Key(), fields[j].Key());
    }
  }

  lemma NoErrorIffApart(left: Field, right: Field)
    ensures AGAINST(left)(right) == [] <==> Apart(left.Path(), right.Path())
  {
    KeysClashIffPathsComparable(left.Key(), right.Key());
  }
}
