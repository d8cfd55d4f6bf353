/** File system paths, compared by component as `std::path::Path` compares them. */
module Paths {
  import opened Common
  import opened Strings

  datatype Path = Path(absolute: bool, parts: seq<string>) {
    function Child(name: string): Path {
      Path(absolute, parts + [name])
    }

    function Parent(): Option<Path> {
      if parts == [] then None else Some(Path(absolute, parts[..|parts| - 1]))
    }

    // None for the root, the empty path and paths ending in a dot component.
    function FileName(): Option<string> {
      if parts == [] || parts[|parts| - 1] in {".", ".."} then None else Some(parts[|parts| - 1])
    }
  }

  const NAMED_PART: string -> seq<string> := (part: string) => if part in {"", "."} then [] else [part]

  // Repeated separators and interior dots are not components; a leading dot is.
  function ParsePath(text: string): Path {
    var pieces := Split(text, '/');
    var absolute := text != "" && text[0] == '/';
    Path(absolute, (if pieces[0] == "." then ["."] else []) + FlatMap(NAMED_PART, pieces))
  }

  predicate StartsWith(s: string, prefix: string) {
    prefix <= s
  }

  predicate EndsWith(s: string, suffix: string) {
    |suffix| <= |s| && s[|s| - |suffix|..] == suffix
  }

  // ----- Paths in plain terms -----

  ghost predicate IsName(part: string) {
    part != "" && part != "." && '/' !in part
  }

  // Names joined by separators parse to those names, after a leading separator as absolute.
  lemma NamesParse(parts: seq<string>)
    requires parts != [] && forall part :: part in parts ==> IsName(part)
    ensures ParsePath(Join(parts, "/")) == Path(false, parts)
    ensures ParsePath("/" + Join(parts, "/")) == Path(true, parts)
  {
    var text := Join(parts, "/");
    JoinThenSplit(parts, '/');
    NamesStay(parts);
    assert parts[0] in parts;
    StartsWithName(parts);
    SplitAtSeparator("", text, '/');
    assert "" + ['/'] + text == "/" + text;
    assert Split("", '/') + parts == [""] + parts;
    PartsAround([""], parts);
  }

  lemma StartsWithName(parts: seq<string>)
    requires parts != [] && IsName(parts[0])
    ensures Join(parts, "/") != "" && Join(parts, "/")[0] != '/'
  {
    assert parts[0][0] in parts[0];
  }

  lemma {:induction false} NamesStay(parts: seq<string>)
    requires forall part :: part in parts ==> IsName(part)
    ensures FlatMap(NAMED_PART, parts) == parts
  {
    if parts != [] {
      assert parts[|parts| - 1] in parts;
      NamesStay(parts[..|parts| - 1]);
    }
  }

  lemma {:induction false} PartsAround(a: seq<string>, b: seq<string>)
    ensures FlatMap(NAMED_PART, a + b) == FlatMap(NAMED_PART, a) + FlatMap(NAMED_PART, b)
  {
    if b == [] {
      assert a + b == a;
    } else {
      assert (a + b)[..|a + b| - 1] == a + b[..|b| - 1];
      PartsAround(a, b[..|b| - 1]);
    }
  }

  // Repeated separators, and a dot between separators, make no difference.
  lemma SeparatorsCollapse(a: string, piece: string, b: string)
    requires a != "" && piece in {"", "."}
    ensures ParsePath(a + ['/'] + (piece + ['/'] + b)) == ParsePath(a + ['/'] + b)
  {
    SplitAtSeparator(a, b, '/');
    SplitAtSeparator(a, piece + ['/'] + b, '/');
    SplitAtSeparator(piece, b, '/');
    SplitWithoutSeparator(piece, '/');
    DroppedPiece(Split(a, '/'), piece, Split(b, '/'));
  }

  lemma DroppedPiece(a: seq<string>, piece: string, b: seq<string>)
    requires piece in {"", "."}
    ensures FlatMap(NAMED_PART, a + ([piece] + b)) == FlatMap(NAMED_PART, a + b)
  {
    PartsAround(a, [piece] + b);
    PartsAround([piece], b);
    PartsAround(a, b);
    OnePiece(piece);
    assert [] + FlatMap(NAMED_PART, b) == FlatMap(NAMED_PART, b);
  }

  lemma OnePiece(piece: string)
    ensures FlatMap(NAMED_PART, [piece]) == NAMED_PART(piece)
  {
    assert [piece][..0] == [];
    assert FlatMap(NAMED_PART, [piece]) == FlatMap(NAMED_PART, [piece][..0]) + NAMED_PART(piece);
  }

  // A path is its parent and its last component, which names a file unless it is two dots.
  lemma ParentAndName(path: Path, name: string)
    ensures path.Child(name).Parent() == Some(path)
    ensures path.Child(name).FileName() == if name in {".", ".."} then None else Some(name)
    ensures path.parts == [] ==> path.Parent() == None && path.FileName() == None
  {
  }

  lemma AffixIff(s: string, affix: string)
    ensures StartsWith(s, affix) <==> exists rest :: s == affix + rest
    ensures EndsWith(s, affix) <==> exists rest :: s == rest + affix
  {
    if StartsWith(s, affix) {
      assert s == affix + s[|affix|..];
    }
    if EndsWith(s, affix) {
      assert s == s[..|s| - |affix|] + affix;
    }
    if rest :| s == rest + affix {
      assert s[|s| - |affix|..] == affix;
    }
  }

  // A dot in front is kept.
  lemma LeadingDotParses(parts: seq<string>)
    requires parts != [] && forall part :: part in parts ==> IsName(part)
    ensures ParsePath("." + ['/'] + Join(parts, "/")) == Path(false, ["."] + parts)
  {
    var text := Join(parts, "/");
    JoinThenSplit(parts, '/');
    NamesStay(parts);
    SplitAtSeparator(".", text, '/');
    SplitWithoutSeparator(".", '/');
    PartsAround(["."], parts);
    OnePiece(".");
    assert [] + parts == parts;
  }
}
