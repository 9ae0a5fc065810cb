/** Generic sequence operations the views are built from: `Array.prototype.filter`,
    `[...new Set(xs)]` (first-occurrence de-duplication) and `reduce` summation. */
module Seqs {

  /** No element occurs twice. */
  predicate NoDups<T(==,!new)>(xs: seq<T>) {
    forall i, j :: 0 <= i < j < |xs| ==> xs[i] != xs[j]
  }

  lemma NoDupsCons<T(!new)>(x: T, xs: seq<T>)
    ensures NoDups([x] + xs) <==> x !in xs && NoDups(xs)
  {
    if NoDups([x] + xs) {
      forall i, j | 0 <= i < j < |xs|
        ensures xs[i] != xs[j]
      {
        assert xs[i] == ([x] + xs)[i + 1] && xs[j] == ([x] + xs)[j + 1];
      }
      forall j | 0 <= j < |xs|
        ensures xs[j] != x
      {
        assert ([x] + xs)[0] == x && ([x] + xs)[j + 1] == xs[j];
      }
    }
  }

  lemma NoDupsSnoc<T(!new)>(xs: seq<T>, x: T)
    ensures NoDups(xs + [x]) <==> x !in xs && NoDups(xs)
  {
    if NoDups(xs + [x]) {
      forall i, j | 0 <= i < j < |xs|
        ensures xs[i] != xs[j]
      {
        assert xs[i] == (xs + [x])[i] && xs[j] == (xs + [x])[j];
      }
      forall j | 0 <= j < |xs|
        ensures xs[j] != x
      {
        assert (xs + [x])[j] == xs[j] && (xs + [x])[|xs|] == x;
      }
    }
  }

  /** `a` is an order-preserving subsequence of `b` (greedy leftmost matching,
      which finds an embedding whenever one exists). */
  predicate IsSubseq<T(==,!new)>(a: seq<T>, b: seq<T>)
    decreases |b|
  {
    if a == [] then true
    else if b == [] then false
    else if a[0] == b[0] then IsSubseq(a[1..], b[1..])
    else IsSubseq(a, b[1..])
  }

  lemma {:induction false} SubseqRefl<T(!new)>(xs: seq<T>)
    ensures IsSubseq(xs, xs)
  {
    if xs != [] {
      SubseqRefl(xs[1..]);
    }
  }

  /** Every element of a subsequence occurs in the whole. */
  lemma {:induction false} SubseqMembers<T(!new)>(a: seq<T>, b: seq<T>)
    requires IsSubseq(a, b)
    ensures forall x :: x in a ==> x in b
    decreases |b|
  {
    if a != [] {
      if a[0] == b[0] {
        SubseqMembers(a[1..], b[1..]);
        assert a == [a[0]] + a[1..];
      } else {
        SubseqMembers(a, b[1..]);
      }
    }
  }

  /** `xs.filter(p)`: keeps exactly the elements satisfying `p`, in their original order
      (`FilterCounts` and `FilterSubseq` state the multiplicities and the order). */
  function Filter<T(==,!new)>(xs: seq<T>, p: T -> bool): (r: seq<T>)
    ensures |r| <= |xs|
    ensures forall x :: x in r <==> x in xs && p(x)
    ensures (forall i :: 0 <= i < |xs| ==> p(xs[i])) ==> r == xs
  {
    if xs == [] then []
    else
      var rest := Filter(xs[1..], p);
      assert xs == [xs[0]] + xs[1..];
      if p(xs[0]) then [xs[0]] + rest else rest
  }

  /** Every element satisfying `p` keeps its multiplicity; the others are dropped. */
  lemma {:induction false} FilterCounts<T(!new)>(xs: seq<T>, p: T -> bool)
    ensures forall x :: multiset(Filter(xs, p))[x] == if p(x) then multiset(xs)[x] else 0
  {
    if xs != [] {
      FilterCounts(xs[1..], p);
      assert xs == [xs[0]] + xs[1..];
      assert multiset(xs) == multiset{xs[0]} + multiset(xs[1..]);
    }
  }

  /** The kept elements appear in their original order. */
  lemma {:induction false} FilterSubseq<T(!new)>(xs: seq<T>, p: T -> bool)
    ensures IsSubseq(Filter(xs, p), xs)
  {
    if xs != [] {
      FilterSubseq(xs[1..], p);
      var rest := Filter(xs[1..], p);
      if p(xs[0]) {
        assert ([xs[0]] + rest)[1..] == rest;
      } else {
        assert rest != [] ==> rest[0] in rest && rest[0] != xs[0];
      }
    }
  }

  lemma {:induction false} FilterAppend<T(!new)>(a: seq<T>, b: seq<T>, p: T -> bool)
    ensures Filter(a + b, p) == Filter(a, p) + Filter(b, p)
  {
    if a == [] {
      assert a + b == b;
    } else {
      assert (a + b)[0] == a[0];
      assert (a + b)[1..] == a[1..] + b;
      FilterAppend(a[1..], b, p);
    }
  }

  /** Position of the first occurrence of `x`. */
  function FirstIndex<T(==,!new)>(xs: seq<T>, x: T): (i: nat)
    requires x in xs
    ensures i < |xs| && xs[i] == x
    ensures forall j :: 0 <= j < i ==> xs[j] != x
  {
    if xs[0] == x then 0 else 1 + FirstIndex(xs[1..], x)
  }

  lemma FirstIndexSnoc<T(!new)>(xs: seq<T>, y: T, x: T)
    requires x in xs
    ensures FirstIndex(xs + [y], x) == FirstIndex(xs, x)
  {
    var a := FirstIndex(xs, x);
    var b := FirstIndex(xs + [y], x);
    assert (xs + [y])[a] == x;
  }

  /** Filtering depends only on the values of the predicate. */
  lemma {:induction false} FilterExt<T(!new)>(xs: seq<T>, p: T -> bool, q: T -> bool)
    requires forall x :: x in xs ==> p(x) == q(x)
    ensures Filter(xs, p) == Filter(xs, q)
  {
    if xs != [] {
      assert forall x :: x in xs[1..] ==> x in xs;
      FilterExt(xs[1..], p, q);
    }
  }

  /** Filtering keeps the relative order of first occurrences. */
  lemma {:induction false} FilterFirstIndexOrder<T(!new)>(xs: seq<T>, p: T -> bool, x: T, y: T)
    requires x in Filter(xs, p) && y in Filter(xs, p)
    requires FirstIndex(Filter(xs, p), x) < FirstIndex(Filter(xs, p), y)
    ensures FirstIndex(xs, x) < FirstIndex(xs, y)
  {
    var f := Filter(xs, p);
    assert y in xs;
    if xs[0] != x {
      var t := xs[1..];
      var ft := Filter(t, p);
      assert f == if p(xs[0]) then [xs[0]] + ft else ft;
      assert f[0] != y;
      assert xs[0] != y;
      if p(xs[0]) {
        assert f[1..] == ft;
      }
      assert FirstIndex(f, x) == (if p(xs[0]) then 1 else 0) + FirstIndex(ft, x);
      assert FirstIndex(f, y) == (if p(xs[0]) then 1 else 0) + FirstIndex(ft, y);
      FilterFirstIndexOrder(t, p, x, y);
    }
  }

  /** `[...new Set(xs)]`: each distinct element once, at its first occurrence. */
  function Dedup<T(==,!new)>(xs: seq<T>): (r: seq<T>)
    ensures NoDups(r)
    ensures forall x :: x in r <==> x in xs
    decreases |xs|
  {
    if xs == [] then []
    else
      var d := Dedup(xs[..|xs| - 1]);
      var x := xs[|xs| - 1];
      assert xs == xs[..|xs| - 1] + [x];
      if x in d then d else d + [x]
  }

  lemma DedupSnoc<T(!new)>(xs: seq<T>, x: T)
    ensures Dedup(xs + [x]) == if x in xs then Dedup(xs) else Dedup(xs) + [x]
  {
    assert (xs + [x])[..|xs + [x]| - 1] == xs;
  }

  /** De-duplication lists elements in the order of their first occurrences. */
  lemma {:induction false} DedupFirstOccurrenceOrder<T(!new)>(xs: seq<T>)
    ensures forall i, j :: 0 <= i < j < |Dedup(xs)| ==>
      Dedup(xs)[i] in xs && Dedup(xs)[j] in xs &&
      FirstIndex(xs, Dedup(xs)[i]) < FirstIndex(xs, Dedup(xs)[j])
    decreases |xs|
  {
    if xs == [] {
      assert Dedup(xs) == [];
    } else {
      var ys := xs[..|xs| - 1];
      var x := xs[|xs| - 1];
      assert xs == ys + [x];
      DedupFirstOccurrenceOrder(ys);
      DedupSnoc(ys, x);
      var d := Dedup(ys);
      var r := Dedup(xs);
      forall i, j | 0 <= i < j < |r|
        ensures r[i] in xs && r[j] in xs && FirstIndex(xs, r[i]) < FirstIndex(xs, r[j])
      {
        assert r[i] == d[i] && d[i] in ys;
        FirstIndexSnoc(ys, x, d[i]);
        if j < |d| {
          assert r[j] == d[j] && d[j] in ys;
          FirstIndexSnoc(ys, x, d[j]);
        } else {
          assert r[j] == x && x !in ys;
          assert FirstIndex(xs, x) == |ys|;
        }
      }
    }
  }

  /** A sequence without duplicates is its own de-duplication. */
  lemma {:induction false} DedupOfDistinct<T(!new)>(xs: seq<T>)
    requires NoDups(xs)
    ensures Dedup(xs) == xs
    decreases |xs|
  {
    if xs != [] {
      var ys := xs[..|xs| - 1];
      DedupOfDistinct(ys);
      DedupSnoc(ys, xs[|xs| - 1]);
      assert xs == ys + [xs[|xs| - 1]];
    }
  }

  /** De-duplicating a prefix first does not change the overall result. */
  lemma {:induction false} DedupPrefix<T(!new)>(a: seq<T>, b: seq<T>)
    ensures Dedup(Dedup(a) + b) == Dedup(a + b)
    decreases |b|
  {
    if b == [] {
      assert Dedup(a) + b == Dedup(a);
      assert a + b == a;
      DedupOfDistinct(Dedup(a));
    } else {
      var c := b[..|b| - 1];
      var y := b[|b| - 1];
      DedupPrefix(a, c);
      assert Dedup(a) + b == (Dedup(a) + c) + [y];
      assert a + b == (a + c) + [y];
      DedupSnoc(Dedup(a) + c, y);
      DedupSnoc(a + c, y);
      assert y in Dedup(a) + c <==> y in a + c;
    }
  }

  lemma AppendAssoc<T>(a: seq<T>, b: seq<T>, c: seq<T>)
    ensures a + (b + c) == (a + b) + c
  {
  }

  /** `xs.reduce((sum, x) => sum + f(x), 0)`. */
  function Sum<T>(xs: seq<T>, f: T -> int): int {
    if xs == [] then 0 else f(xs[0]) + Sum(xs[1..], f)
  }

  lemma {:induction false} SumAppend<T>(a: seq<T>, b: seq<T>, f: T -> int)
    ensures Sum(a + b, f) == Sum(a, f) + Sum(b, f)
  {
    if a == [] {
      assert a + b == b;
    } else {
      assert (a + b)[1..] == a[1..] + b;
      SumAppend(a[1..], b, f);
    }
  }

  /** Summing a constant is multiplying by the length. */
  lemma {:induction false} SumConst<T>(xs: seq<T>, f: T -> int, c: int)
    requires forall i :: 0 <= i < |xs| ==> f(xs[i]) == c
    ensures Sum(xs, f) == c * |xs|
  {
    if xs != [] {
      SumConst(xs[1..], f, c);
    }
  }
}
