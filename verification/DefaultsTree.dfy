/**
 Inserting values into a nested object at dotted paths, as the defaults of a contract are
 collected: a leaf must be new, and an interior member must be an object.
 */
module DefaultsTree {
  import opened Common
  import opened JsonValues
  import opened ConfigKeys
  import opened Folds
  import opened Merging

  type Tree = map<string, Json>

  // The tree after an insertion, and whether the insertion succeeded. A duplicate leaf
  // is overwritten even though it is reported.
  datatype Inserted = Inserted(tree: Tree, ok: bool)

  datatype Entry = Entry(path: seq<string>, value: Json)

  function Insert(tree: Tree, path: seq<string>, value: Json): Inserted
    decreases path
  {
    if path == [] then Inserted(tree, false)
    else if |path| == 1 then Inserted(tree[path[0] := value], path[0] !in tree)
    else
      var member := Branch(tree, path[0]);
      if !member.Object? then Inserted(tree, false)
      else
        var inner := Insert(member.fields, path[1..], value);
        Inserted(tree[path[0] := Object(inner.tree)], inner.ok)
  }

  // `entry(head).or_insert_with(empty object)`
  function Branch(tree: Tree, head: string): Json {
    if head in tree then tree[head] else Object(map[])
  }

  function InsertStep(so: Inserted, entry: Entry): Inserted {
    var after := Insert(so.tree, entry.path, entry.value);
    Inserted(after.tree, so.ok && after.ok)
  }

  // The tree after inserting all entries in turn, and whether none failed.
  function InsertAll(tree: Tree, entries: seq<Entry>): Inserted {
    Fold(InsertStep, Inserted(tree, true), entries)
  }

  ghost predicate EntriesApart(entries: seq<Entry>) {
    && (forall i :: 0 <= i < |entries| ==> entries[i].path != [])
    && (forall i, j :: 0 <= i < j < |entries| ==> Apart(entries[i].path, entries[j].path))
  }

  // ----- One insertion -----

  // An insertion succeeds exactly when the path is not empty, everything on the way is an object
  // or missing, and nothing is there yet.
  lemma {:induction false} InsertOkIff(tree: Tree, path: seq<string>, value: Json)
    ensures Insert(tree, path, value).ok <==>
            path != [] && !Blocked(Object(tree), path) && Lookup(Object(tree), path).None?
    decreases path
  {
    if |path| == 1 {
      assert path[1..] == [];
    } else if |path| > 1 && path[0] in tree && tree[path[0]].Object? {
      InsertOkIff(tree[path[0]].fields, path[1..], value);
    } else if |path| > 1 && path[0] !in tree {
      EmptyTreeAccepts(path[1..], value);
    }
  }

  lemma {:induction false} InsertThenLookup(tree: Tree, path: seq<string>, value: Json)
    requires Insert(tree, path, value).ok
    ensures Lookup(Object(Insert(tree, path, value).tree), path) == Some(value)
    decreases path
  {
    if |path| > 1 {
      InsertThenLookup(Branch(tree, path[0]).fields, path[1..], value);
    }
  }

  lemma ApartTails(p: seq<string>, q: seq<string>)
    requires p != [] && q != [] && Apart(p, q)
    ensures p[0] == q[0] ==> |p| > 1 && |q| > 1 && Apart(p[1..], q[1..])
  {
    if p[0] == q[0] {
      assert p == [p[0]] + p[1..] && q == [q[0]] + q[1..];
    }
  }

  // The effect of an insertion on the member at the head of its path.
  function HeadAfter(member: Option<Json>, path: seq<string>, value: Json): Option<Json>
    requires path != []
  {
    if |path| == 1 then
      if member.None? then Some(value) else None
    else if member.Some? && !member.value.Object? then None
    else
      var inner := Insert(if member.Some? then member.value.fields else map[], path[1..], value);
      if inner.ok then Some(Object(inner.tree)) else None
  }

  lemma InsertActsOnHead(tree: Tree, path: seq<string>, value: Json)
    requires path != []
    ensures
      var inserted, head := Insert(tree, path, value), HeadAfter(Object(tree).Get(path[0]), path, value);
      && (inserted.ok <==> head.Some?)
      && (inserted.ok ==> inserted.tree == tree[path[0] := head.value])
  {
  }

  // Two insertions, when the first succeeds, do the same to a member in either order.
  lemma {:induction false} HeadsCommute(member: Option<Json>, p: seq<string>, v: Json, q: seq<string>, w: Json)
    requires |p| > 1 && |q| > 1 && Apart(p[1..], q[1..])
    requires HeadAfter(member, p, v).Some?
    ensures HeadAfter(HeadAfter(member, p, v), q, w).Some? == HeadAfter(member, q, w).Some?
    ensures HeadAfter(member, q, w).Some? ==>
            HeadAfter(HeadAfter(member, p, v), q, w) == HeadAfter(HeadAfter(member, q, w), p, v)
    decreases |p|, 0
  {
    var fields := if member.Some? then member.value.fields else map[];
    InsertionsCommute(fields, p[1..], v, q[1..], w);
  }

  lemma DifferentHeadsAfter(tree: Tree, p: seq<string>, v: Json, q: seq<string>, w: Json)
    requires p != [] && q != [] && p[0] != q[0]
    requires Insert(tree, p, v).ok
    ensures Insert(Insert(tree, p, v).tree, q, w).ok == Insert(tree, q, w).ok
    ensures Insert(tree, q, w).ok ==>
      && HeadAfter(Object(tree).Get(p[0]), p, v).Some? && HeadAfter(Object(tree).Get(q[0]), q, w).Some?
      && Insert(Insert(tree, p, v).tree, q, w).tree ==
           tree[p[0] := HeadAfter(Object(tree).Get(p[0]), p, v).value][q[0] := HeadAfter(Object(tree).Get(q[0]), q, w).value]
  {
    InsertActsOnHead(tree, p, v);
    InsertActsOnHead(tree, q, w);
    InsertActsOnHead(Insert(tree, p, v).tree, q, w);
  }

  lemma UpdatesCommute(tree: Tree, x: string, a: Json, y: string, b: Json)
    requires x != y
    ensures tree[x := a][y := b] == tree[y := b][x := a]
  {
  }

  lemma DifferentHeadsCommute(tree: Tree, p: seq<string>, v: Json, q: seq<string>, w: Json)
    requires p != [] && q != [] && p[0] != q[0]
    requires Insert(tree, p, v).ok
    ensures Insert(Insert(tree, p, v).tree, q, w).ok == Insert(tree, q, w).ok
    ensures Insert(tree, q, w).ok ==>
            && Insert(Insert(tree, q, w).tree, p, v).ok
            && Insert(Insert(tree, p, v).tree, q, w).tree == Insert(Insert(tree, q, w).tree, p, v).tree
  {
    DifferentHeadsAfter(tree, p, v, q, w);
    if Insert(tree, q, w).ok {
      DifferentHeadsAfter(tree, q, w, p, v);
      UpdatesCommute(tree, p[0], HeadAfter(Object(tree).Get(p[0]), p, v).value,
                     q[0], HeadAfter(Object(tree).Get(q[0]), q, w).value);
    }
  }

  lemma {:induction false} SameHeadsCommute(tree: Tree, p: seq<string>, v: Json, q: seq<string>, w: Json)
    requires p != [] && q != [] && p[0] == q[0] && Apart(p, q)
    requires Insert(tree, p, v).ok
    ensures Insert(Insert(tree, p, v).tree, q, w).ok == Insert(tree, q, w).ok
    ensures Insert(tree, q, w).ok ==>
            && Insert(Insert(tree, q, w).tree, p, v).ok
            && Insert(Insert(tree, p, v).tree, q, w).tree == Insert(Insert(tree, q, w).tree, p, v).tree
    decreases |p|, 1
  {
    ApartTails(p, q);
    HeadsCommute(Object(tree).Get(p[0]), p, v, q, w);
    InsertActsOnHead(tree, p, v);
    InsertActsOnHead(tree, q, w);
    InsertActsOnHead(Insert(tree, p, v).tree, q, w);
    InsertActsOnHead(Insert(tree, q, w).tree, p, v);
  }

  // An insertion elsewhere neither enables nor disables an insertion, and two insertions
  // that both succeed can be swapped.
  lemma {:induction false} InsertionsCommute(tree: Tree, p: seq<string>, v: Json, q: seq<string>, w: Json)
    requires p != [] && q != [] && Apart(p, q)
    requires Insert(tree, p, v).ok
    ensures Insert(Insert(tree, p, v).tree, q, w).ok == Insert(tree, q, w).ok
    ensures Insert(tree, q, w).ok ==>
            && Insert(Insert(tree, q, w).tree, p, v).ok
            && Insert(Insert(tree, p, v).tree, q, w).tree == Insert(Insert(tree, q, w).tree, p, v).tree
    decreases |p|, 2
  {
    if p[0] == q[0] {
      SameHeadsCommute(tree, p, v, q, w);
    } else {
      DifferentHeadsCommute(tree, p, v, q, w);
    }
  }

  lemma {:induction false} InsertKeepsOthers(tree: Tree, p: seq<string>, v: Json, q: seq<string>)
    requires p != [] && q != [] && Apart(p, q)
    requires Insert(tree, p, v).ok
    ensures Lookup(Object(Insert(tree, p, v).tree), q) == Lookup(Object(tree), q)
    decreases p
  {
    ApartTails(p, q);
    if p[0] == q[0] {
      InsertKeepsOthers(Branch(tree, p[0]).fields, p[1..], v, q[1..]);
    }
  }

  lemma {:induction false} EmptyTreeAccepts(path: seq<string>, value: Json)
    requires path != []
    ensures Insert(map[], path, value).ok
  {
    if |path| > 1 {
      EmptyTreeAccepts(path[1..], value);
    }
  }

  // ----- Many insertions -----

  lemma {:induction false} AcceptedAfterApart(entries: seq<Entry>, path: seq<string>, value: Json)
    requires path != [] && EntriesApart(entries)
    requires forall i :: 0 <= i < |entries| ==> Apart(entries[i].path, path)
    ensures InsertAll(map[], entries).ok
    ensures Insert(InsertAll(map[], entries).tree, path, value).ok
  {
    if entries == [] {
      EmptyTreeAccepts(path, value);
    } else {
      var init, last := entries[..|entries| - 1], entries[|entries| - 1];
      AcceptedAfterApart(init, path, value);
      AcceptedAfterApart(init, last.path, last.value);
      InsertionsCommute(InsertAll(map[], init).tree, last.path, last.value, path, value);
    }
  }

  // Entries on pairwise apart paths all go in, and each is found again at its path.
  lemma {:induction false} ApartEntriesAllFound(entries: seq<Entry>, i: nat)
    requires EntriesApart(entries) && i < |entries|
    ensures InsertAll(map[], entries).ok
    ensures Lookup(Object(InsertAll(map[], entries).tree), entries[i].path) == Some(entries[i].value)
  {
    var init, last := entries[..|entries| - 1], entries[|entries| - 1];
    AcceptedAfterApart(init, last.path, last.value);
    var tree := InsertAll(map[], init).tree;
    if i == |init| {
      InsertThenLookup(tree, last.path, last.value);
    } else {
      ApartEntriesAllFound(init, i);
      InsertKeepsOthers(tree, last.path, last.value, entries[i].path);
    }
  }

  lemma ApartEntriesSucceed(entries: seq<Entry>)
    requires EntriesApart(entries)
    ensures InsertAll(map[], entries).ok
  {
    if entries != [] {
      ApartEntriesAllFound(entries, 0);
    }
  }

  ghost predicate SetApart(entries: set<Entry>) {
    && (forall e :: e in entries ==> e.path != [])
    && (forall e, f :: e in entries && f in entries && e != f ==> Apart(e.path, f.path))
  }

  // Every order of insertion gives the same tree.
  lemma OrderDoesNotMatter(a: seq<Entry>, b: seq<Entry>)
    requires EntriesApart(a) && EntriesApart(b)
    requires forall e :: e in a <==> e in b
    ensures InsertAll(map[], a) == InsertAll(map[], b)
  {
    var all := set e | e in a;
    InsertionStepsCommute(all);
    OrderIsIrrelevant(InsertStep, Inserted(map[], true), a, b, all);
  }

  lemma InsertionStepsCommute(all: set<Entry>)
    requires SetApart(all)
    ensures StepsCommute(InsertStep, Inserted(map[], true), all)
  {
    forall front: seq<Entry>, x, y |
      && Distinct(front) && x in all && y in all && x != y
      && (forall z :: z in front ==> z in all && z != x && z != y)
      ensures InsertStep(InsertStep(Fold(InsertStep, Inserted(map[], true), front), x), y)
           == InsertStep(InsertStep(Fold(InsertStep, Inserted(map[], true), front), y), x)
    {
      LastTwoCommute(all, front, x, y);
    }
  }

  lemma LastTwoCommute(all: set<Entry>, front: seq<Entry>, x: Entry, y: Entry)
    requires SetApart(all) && Distinct(front) && x in all && y in all && x != y
    requires forall z :: z in front ==> z in all && z != x && z != y
    ensures InsertStep(InsertStep(InsertAll(map[], front), x), y)
         == InsertStep(InsertStep(InsertAll(map[], front), y), x)
  {
    SubsetIsApart(all, front);
    AcceptedAfterApart(front, x.path, x.value);
    AcceptedAfterApart(front, y.path, y.value);
    InsertionsCommute(InsertAll(map[], front).tree, x.path, x.value, y.path, y.value);
  }

  lemma SubsetIsApart(all: set<Entry>, front: seq<Entry>)
    requires SetApart(all) && Distinct(front) && forall z :: z in front ==> z in all
    ensures EntriesApart(front)
  {
  }

  // Two entries on comparable paths cannot go in longer path first, whatever the values.
  lemma {:induction false} ComparablePathsFail(tree: Tree, longer: seq<string>, v: Json, shorter: seq<string>, w: Json)
    requires shorter != [] && shorter <= longer
    requires Insert(tree, longer, v).ok
    ensures !Insert(Insert(tree, longer, v).tree, shorter, w).ok
    decreases longer
  {
    if |shorter| > 1 {
      assert longer[0] == shorter[0] && shorter[1..] <= longer[1..];
      ComparablePathsFail(Branch(tree, longer[0]).fields, longer[1..], v, shorter[1..], w);
    }
  }
}
