/** Option and Result values, and the sequence facts that several modules share. */
module Common {

  datatype Option<+T> = None | Some(value: T)

  datatype Result<+T, +E> = Ok(value: T) | Err(error: E)

  predicate Distinct<T(==)>(s: seq<T>) {
    forall i, j :: 0 <= i < j < |s| ==> s[i] != s[j]
  }

  // Two duplicate-free lists with the same elements are permutations of each other.
  lemma {:induction false} DistinctSameSetIsPermutation<T>(a: seq<T>, b: seq<T>)
    requires Distinct(a) && Distinct(b)
    requires forall x :: x in a <==> x in b
    ensures multiset(a) == multiset(b)
    ensures |a| == |b|
  {
    forall x
      ensures multiset(a)[x] == multiset(b)[x]
    {
      DistinctOccursOnce(a, x);
      DistinctOccursOnce(b, x);
    }
    assert multiset(a) == multiset(b);
    assert |multiset(a)| == |a| && |multiset(b)| == |b|;
  }

  lemma {:induction false} DistinctOccursOnce<T>(s: seq<T>, x: T)
    requires Distinct(s)
    ensures multiset(s)[x] == if x in s then 1 else 0
  {
    if s != [] {
      var rest := s[..|s| - 1];
      assert s == rest + [s[|s| - 1]];
      DistinctOccursOnce(rest, x);
    }
  }

  // The concatenation of f over the elements of s.
  function FlatMap<A, B>(f: A -> seq<B>, s: seq<A>): seq<B> {
    if s == [] then [] else FlatMap(f, s[..|s| - 1]) + f(s[|s| - 1])
  }

  lemma {:induction false} FlatMapIsEmpty<A, B>(f: A -> seq<B>, s: seq<A>)
    ensures FlatMap(f, s) == [] <==> forall i :: 0 <= i < |s| ==> f(s[i]) == []
  {
    if s != [] {
      FlatMapIsEmpty(f, s[..|s| - 1]);
    }
  }

  lemma {:induction false} FlatMapMembers<A, B>(f: A -> seq<B>, s: seq<A>, x: B)
    ensures x in FlatMap(f, s) <==> exists i :: 0 <= i < |s| && x in f(s[i])
  {
    if s != [] {
      FlatMapMembers(f, s[..|s| - 1], x);
    }
  }

  lemma {:induction false} FlatMapSame<A, B>(f: A -> seq<B>, g: A -> seq<B>, s: seq<A>)
    requires forall x :: x in s ==> f(x) == g(x)
    ensures FlatMap(f, s) == FlatMap(g, s)
  {
    if s != [] {
      assert s[|s| - 1] in s && forall x :: x in s[..|s| - 1] ==> x in s;
      FlatMapSame(f, g, s[..|s| - 1]);
    }
  }

  lemma FlatMapExtends<A, B>(f: A -> seq<B>, s: seq<A>, n: nat)
    requires n < |s|
    ensures FlatMap(f, s[..n + 1]) == FlatMap(f, s[..n]) + f(s[n])
  {
    assert s[..n + 1][..n] == s[..n];
  }

  lemma FlatMapSkips<A, B>(f: A -> seq<B>, s: seq<A>, n: nat)
    requires n < |s| && f(s[n]) == []
    ensures FlatMap(f, s[..n + 1]) == FlatMap(f, s[..n])
  {
    FlatMapExtends(f, s, n);
    assert FlatMap(f, s[..n]) + [] == FlatMap(f, s[..n]);
  }

  // ----- Pairwise relations -----

  ghost predicate Pairwise<T>(related: (T, T) -> bool, s: seq<T>) {
    forall i, j :: 0 <= i < j < |s| ==> related(s[i], s[j])
  }

  ghost predicate RelatedToAll<T>(related: (T, T) -> bool, s: seq<T>, x: T) {
    forall i :: 0 <= i < |s| ==> related(s[i], x)
  }

  ghost predicate Symmetric<T(!new)>(related: (T, T) -> bool) {
    forall x, y :: related(x, y) <==> related(y, x)
  }

  lemma PairwiseAppend<T>(related: (T, T) -> bool, s: seq<T>, x: T)
    ensures Pairwise(related, s + [x]) <==> Pairwise(related, s) && RelatedToAll(related, s, x)
  {
    var all := s + [x];
    assert all[|s|] == x;
    assert forall i :: 0 <= i < |s| ==> all[i] == s[i];
  }

  lemma PairwisePrepend<T(!new)>(related: (T, T) -> bool, s: seq<T>, x: T)
    requires Symmetric(related)
    ensures Pairwise(related, [x] + s) <==> Pairwise(related, s) && RelatedToAll(related, s, x)
  {
    var all := [x] + s;
    assert all[0] == x;
    assert forall i :: 0 <= i < |s| ==> all[i + 1] == s[i];
    if Pairwise(related, all) {
      forall i, j | 0 <= i < j < |s| ensures related(s[i], s[j]) { assert related(all[i + 1], all[j + 1]); }
      forall i | 0 <= i < |s| ensures related(s[i], x) { assert related(all[0], all[i + 1]); }
    }
    if Pairwise(related, s) && RelatedToAll(related, s, x) {
      forall i, j | 0 <= i < j < |all|
        ensures related(all[i], all[j])
      {
        assert all[j] == s[j - 1];
        if i > 0 {
          assert all[i] == s[i - 1];
        }
      }
    }
  }

  lemma RelatedToAllMembers<T>(related: (T, T) -> bool, s: seq<T>, x: T)
    ensures RelatedToAll(related, s, x) <==> forall y :: y in s ==> related(y, x)
  {
    forall y | RelatedToAll(related, s, x) && y in s
      ensures related(y, x)
    {
      var i :| 0 <= i < |s| && s[i] == y;
    }
  }

  // What `check` reports about each of the first `rows` elements against the elements after it.
  function PairTable<A, B>(check: A -> A -> seq<B>, s: seq<A>, rows: nat): seq<B>
    requires rows <= |s|
  {
    if rows == 0 then [] else PairTable(check, s, rows - 1) + FlatMap(check(s[rows - 1]), s[rows..])
  }

  lemma {:induction false} PairTableIsEmpty<A, B>(check: A -> A -> seq<B>, s: seq<A>, rows: nat)
    requires rows <= |s|
    ensures PairTable(check, s, rows) == [] <==>
            forall i, j :: 0 <= i < rows && i < j < |s| ==> check(s[i])(s[j]) == []
  {
    if rows > 0 {
      PairTableIsEmpty(check, s, rows - 1);
      FlatMapIsEmpty(check(s[rows - 1]), s[rows..]);
      assert forall j :: rows <= j < |s| ==> s[j] == s[rows..][j - rows];
    }
  }

  lemma {:induction false} PairTableMembers<A, B>(check: A -> A -> seq<B>, s: seq<A>, rows: nat, x: B)
    requires rows <= |s|
    ensures x in PairTable(check, s, rows) <==> exists i, j :: 0 <= i < rows && i < j < |s| && x in check(s[i])(s[j])
  {
    if rows > 0 {
      PairTableMembers(check, s, rows - 1, x);
      FlatMapMembers(check(s[rows - 1]), s[rows..], x);
      if n :| 0 <= n < |s[rows..]| && x in check(s[rows - 1])(s[rows..][n]) {
        assert s[rows..][n] == s[rows + n];
      }
      if j :| rows - 1 < j < |s| && x in check(s[rows - 1])(s[j]) {
        assert s[rows..][j - rows] == s[j];
      }
    }
  }

  // ----- Counting -----

  function Count<T>(p: T -> bool, s: seq<T>): nat {
    if s == [] then 0 else Count(p, s[..|s| - 1]) + if p(s[|s| - 1]) then 1 else 0
  }

  lemma CountExtends<T>(p: T -> bool, s: seq<T>, n: nat)
    requires n < |s|
    ensures Count(p, s[..n + 1]) == Count(p, s[..n]) + if p(s[n]) then 1 else 0
  {
    assert s[..n + 1][..n] == s[..n];
  }

  lemma {:induction false} CountIsZero<T>(p: T -> bool, s: seq<T>)
    ensures Count(p, s) == 0 <==> forall i :: 0 <= i < |s| ==> !p(s[i])
  {
    if s != [] {
      CountIsZero(p, s[..|s| - 1]);
    }
  }

  lemma {:induction false} CountIsOne<T>(p: T -> bool, s: seq<T>)
    ensures Count(p, s) == 1 <==>
            exists k :: 0 <= k < |s| && p(s[k]) && forall i :: 0 <= i < |s| && p(s[i]) ==> i == k
  {
    if s != [] {
      var init, last := s[..|s| - 1], s[|s| - 1];
      if p(last) {
        CountIsZero(p, init);
        assert Count(p, s) == 1 ==> p(s[|init|]) && forall i :: 0 <= i < |s| && p(s[i]) ==> i == |init|;
        assert forall i :: 0 <= i < |init| ==> init[i] == s[i];
      } else {
        CountIsOne(p, init);
        assert forall i :: 0 <= i < |init| ==> init[i] == s[i];
      }
    }
  }

  // ----- Exact division -----

  lemma ProductDivides(divisor: nat, each: nat)
    requires divisor > 0
    ensures (divisor * each) % divisor == 0 && (divisor * each) / divisor == each
  {
    DivideExactly(divisor * each, divisor, each);
  }

  lemma DivideExactly(total: nat, divisor: nat, each: nat)
    requires divisor > 0 && total == divisor * each
    ensures total % divisor == 0 && total / divisor == each
  {
    QuotientIsUnique(divisor, total / divisor, total % divisor, each);
  }

  lemma QuotientIsUnique(divisor: nat, q: nat, r: nat, each: nat)
    requires r < divisor && divisor * q + r == divisor * each
    ensures q == each && r == 0
  {
    NextMultiple(divisor, q, each);
    NextMultiple(divisor, each, q);
  }

  lemma NextMultiple(divisor: nat, low: nat, high: nat)
    ensures low < high ==> divisor * low + divisor <= divisor * high
  {
    if low < high {
      Distribute(divisor, low, high - low);
      TimesAtLeast(divisor, high - low);
    }
  }

  lemma Distribute(a: nat, b: nat, c: nat)
    ensures a * (b + c) == a * b + a * c
  {
  }

  lemma TimesAtLeast(a: nat, b: nat)
    requires b > 0
    ensures a <= a * b
  {
  }
}
