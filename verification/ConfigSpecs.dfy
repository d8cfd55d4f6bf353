/** The part of a configuration contract that defaults, overrides and collisions depend on. */
module ConfigSpecs {
  import opened Common
  import opened JsonValues
  import opened Strings

  datatype FieldKind =
    | BooleanKind | StringKind | NumberKind | SelectKind | StringArrayKind | ObjectArrayKind
    | ObjectMapKind | ColorKind | ActionKind | ListKind | StatusKind | QrCodeKind
    | GamepadKind | DisplayLayoutKind | PlacementKind

  datatype FieldValue =
    | Boolean(flag: bool)
    | Text(text: string)
    | Numeric(number: Double)
    | StringArray(strings: seq<string>)
    | ObjectArray(items: seq<Item>)
    | ObjectMap(entries: map<string, Item>)

  datatype Item = Item(members: map<string, FieldValue>)

  datatype Field = Field(
    id: string,
    kind: FieldKind,
    configKey: Option<string>,
    declared: Option<FieldValue>,
    options: seq<string>,
    hasQuery: bool,
    hasActiveQuery: bool
  ) {
    predicate HasStoredValue() {
      && kind !in {ActionKind, ListKind, StatusKind, QrCodeKind, GamepadKind, DisplayLayoutKind}
      && !(kind == NumberKind && hasActiveQuery)
    }

    function Key(): string {
      if configKey.Some? then configKey.value else id
    }

    function Path(): seq<string> {
      Split(Key(), '.')
    }

    predicate IsStaticSelect() {
      kind == SelectKind && options != [] && !hasQuery
    }
  }

  // The fields in declaration order.
  type Spec = seq<Field>

  // Values are stored for these kinds only, and not for a number that follows an active query.
  lemma StoredIff(f: Field)
    ensures f.HasStoredValue() <==>
      || f.kind in {BooleanKind, StringKind, SelectKind, StringArrayKind, ObjectArrayKind, ObjectMapKind, ColorKind, PlacementKind}
      || (f.kind.NumberKind? && !f.hasActiveQuery)
  {
  }

  // A select whose options are listed in the contract.
  lemma StaticSelectIff(f: Field)
    ensures f.IsStaticSelect() <==> f.kind.SelectKind? && |f.options| > 0 && !f.hasQuery
  {
  }

  // The path of a field is its key, or else its id, cut at every dot.
  lemma PathIsKeyCutAtDots(f: Field)
    ensures Join(f.Path(), ['.']) == match f.configKey case Some(key) => key case None => f.id
    ensures forall part :: part in f.Path() ==> '.' !in part
  {
    SplitThenJoin(f.Key(), '.');
    SplitPartsHaveNoSeparator(f.Key(), '.');
  }
}
