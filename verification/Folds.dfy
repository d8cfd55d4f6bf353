/** Folding a step function over a list whose steps commute: the order is irrelevant. */
module Folds {
  import opened Common

  function Fold<S, X>(step: (S, X) -> S, start: S, xs: seq<X>): S {
    if xs == [] then start else step(Fold(step, start, xs[..|xs| - 1]), xs[|xs| - 1])
  }

  lemma FoldAppend<S, X>(step: (S, X) -> S, start: S, xs: seq<X>, x: X)
    ensures Fold(step, start, xs + [x]) == step(Fold(step, start, xs), x)
  {
    assert (xs + [x])[..|xs|] == xs;
  }

  // Steps over any two different elements commute after any list of other elements.
  ghost predicate StepsCommute<S, X(!new)>(step: (S, X) -> S, start: S, all: set<X>) {
    forall front: seq<X>, x, y {:trigger step(step(Fold(step, start, front), x), y)} ::
      Distinct(front) && (forall z :: z in front ==> z in all && z != x && z != y) && x in all && y in all && x != y ==>
      step(step(Fold(step, start, front), x), y) == step(step(Fold(step, start, front), y), x)
  }

  lemma {:induction false} MoveToEnd<S, X(!new)>(step: (S, X) -> S, start: S, front: seq<X>, x: X, back: seq<X>, all: set<X>)
    requires StepsCommute(step, start, all)
    requires Distinct(front + back) && x in all && x !in front && x !in back
    requires forall z :: z in front || z in back ==> z in all
    ensures Fold(step, start, front + [x] + back) == Fold(step, start, front + back + [x])
  {
    if back == [] {
      assert front + [x] + back == front + back + [x];
    } else {
      var init, last := back[..|back| - 1], back[|back| - 1];
      var others := front + init;
      assert front + back == others + [last];
      assert forall i :: 0 <= i < |others| ==> others[i] == (front + back)[i];
      assert (front + back)[|others|] == last;
      assert Distinct(others) && last !in others;
      MoveToEnd(step, start, front, x, init, all);
      assert front + [x] + back == (front + [x] + init) + [last];
      FoldAppend(step, start, front + [x] + init, last);
      FoldAppend(step, start, others, x);
      FoldAppend(step, start, others, last);
      FoldAppend(step, start, others + [last], x);
    }
  }

  lemma EmptyOrHasMember<X>(s: seq<X>)
    ensures s == [] || exists z :: z in s
  {
    if s != [] {
      assert s[0] in s;
    }
  }

  // Lists without duplicates and with the same elements fold to the same value.
  lemma {:induction false} OrderIsIrrelevant<S, X(!new)>(step: (S, X) -> S, start: S, a: seq<X>, b: seq<X>, all: set<X>)
    requires StepsCommute(step, start, all)
    requires Distinct(a) && Distinct(b)
    requires forall z :: z in a <==> z in b
    requires forall z :: z in a ==> z in all
    ensures Fold(step, start, a) == Fold(step, start, b)
    decreases |b|
  {
    if b == [] {
      EmptyOrHasMember(a);
    } else {
      var init, last := b[..|b| - 1], b[|b| - 1];
      assert last in b && last in a;
      var k :| 0 <= k < |a| && a[k] == last;
      var front, back := a[..k], a[k + 1..];
      assert a == front + [last] + back;
      RemovalKeepsDistinct(front, last, back);
      MoveToEnd(step, start, front, last, back, all);
      assert forall z :: z in front + back <==> z in a && z != last;
      assert forall z :: z in init <==> z in b && z != last;
      OrderIsIrrelevant(step, start, front + back, init, all);
      FoldAppend(step, start, front + back, last);
      FoldAppend(step, start, init, last);
    }
  }

  lemma RemovalKeepsDistinct<X>(front: seq<X>, x: X, back: seq<X>)
    requires Distinct(front + [x] + back)
    ensures Distinct(front + back) && x !in front && x !in back
  {
    var whole, rest := front + [x] + back, front + back;
    assert forall i :: 0 <= i < |front| ==> whole[i] == rest[i] == front[i];
    assert whole[|front|] == x;
    assert forall i :: |front| <= i < |rest| ==> rest[i] == whole[i + 1];
    assert forall i :: 0 <= i < |back| ==> back[i] == whole[|front| + 1 + i];
  }
}
