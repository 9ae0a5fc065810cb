/** Association lists: ordered (key, value) pairs. They model both a JavaScript object with
    string keys (keys distinct, kept in insertion order) and a `URLSearchParams` list (ordered
    pairs, repeated names allowed). JavaScript lists integer-like keys such as "2" before all
    others, in ascending order; the lists here keep every key in insertion order. */
module Assoc {
  import opened Wrappers
  import Seqs

  function Keys<K, V>(l: seq<(K, V)>): (ks: seq<K>)
    ensures |ks| == |l|
    ensures forall i :: 0 <= i < |l| ==> ks[i] == l[i].0
  {
    if l == [] then [] else [l[0].0] + Keys(l[1..])
  }

  /** No key occurs twice, as in every JavaScript object. */
  predicate DistinctKeys<K(==,!new), V>(l: seq<(K, V)>) {
    Seqs.NoDups(Keys(l))
  }

  /** The value of the first pair stored under `k`: a property read on an object,
      `URLSearchParams.get` on a parameter list. */
  function Get<K(==,!new), V(==,!new)>(l: seq<(K, V)>, k: K): (r: Option<V>)
    ensures r.None? <==> k !in Keys(l)
    ensures r.Some? ==> (k, r.value) in l
  {
    if l == [] then None
    else if l[0].0 == k then Some(l[0].1)
    else Get(l[1..], k)
  }

  /** With repeated keys, a read finds the value of the first pair under the key. */
  lemma {:induction false} GetFirst<K(!new), V(!new)>(l: seq<(K, V)>, k: K)
    requires k in Keys(l)
    ensures Get(l, k) == Some(l[Seqs.FirstIndex(Keys(l), k)].1)
  {
    assert Keys(l) == [l[0].0] + Keys(l[1..]);
    if l[0].0 != k {
      GetFirst(l[1..], k);
    }
  }

  /** Drops every pair stored under `k`: `delete obj[k]`, `URLSearchParams.delete(k)`. */
  function Remove<K(==,!new), V(==,!new)>(l: seq<(K, V)>, k: K): (r: seq<(K, V)>)
    ensures k !in Keys(r)
    ensures forall k' :: k' != k ==> Get(r, k') == Get(l, k')
    ensures k !in Keys(l) ==> r == l
  {
    if l == [] then []
    else
      var rest := Remove(l[1..], k);
      if l[0].0 == k then
        rest
      else
        assert ([l[0]] + rest)[1..] == rest;
        [l[0]] + rest
  }

  /** Removal keeps exactly the pairs under other keys, in their original order and with
      their multiplicity: a repeated pair `a=1&a=1` survives `delete("b")` twice. */
  lemma RemoveKeepsOthers<K(!new), V(!new)>(l: seq<(K, V)>, k: K)
    ensures forall p :: p in Remove(l, k) <==> p in l && p.0 != k
    ensures Seqs.IsSubseq(Remove(l, k), l)
    ensures forall p: (K, V) :: p.0 != k ==> multiset(Remove(l, k))[p] == multiset(l)[p]
  {
    RemoveMembers(l, k);
    RemoveSubseq(l, k);
    RemoveIsFilter(l, k);
    Seqs.FilterCounts(l, (q: (K, V)) => q.0 != k);
  }

  /** Removal is the filter that keeps the pairs under other keys. */
  lemma {:induction false} RemoveIsFilter<K(!new), V(!new)>(l: seq<(K, V)>, k: K)
    ensures Remove(l, k) == Seqs.Filter(l, (q: (K, V)) => q.0 != k)
  {
    if l != [] {
      RemoveIsFilter(l[1..], k);
    }
  }

  lemma {:induction false} RemoveMembers<K(!new), V(!new)>(l: seq<(K, V)>, k: K)
    ensures forall p :: p in Remove(l, k) <==> p in l && p.0 != k
  {
    if l != [] {
      RemoveMembers(l[1..], k);
      assert l == [l[0]] + l[1..];
    }
  }

  lemma {:induction false} RemoveSubseq<K(!new), V(!new)>(l: seq<(K, V)>, k: K)
    ensures Seqs.IsSubseq(Remove(l, k), l)
  {
    if l != [] {
      RemoveSubseq(l[1..], k);
      var rest := Remove(l[1..], k);
      if l[0].0 != k {
        assert ([l[0]] + rest)[1..] == rest;
      } else {
        RemoveMembers(l[1..], k);
        assert rest != [] ==> rest[0] in rest && rest[0] != l[0];
      }
    }
  }

  lemma {:induction false} RemoveDistinct<K(!new), V(!new)>(l: seq<(K, V)>, k: K)
    requires DistinctKeys(l)
    ensures DistinctKeys(Remove(l, k))
  {
    if l != [] {
      var rest := Remove(l[1..], k);
      assert Keys(l) == [l[0].0] + Keys(l[1..]);
      assert DistinctKeys(l[1..]);
      RemoveDistinct(l[1..], k);
      if l[0].0 != k {
        RemoveMembers(l[1..], k);
        assert l[0].0 !in Keys(rest);
        assert Keys(Remove(l, k)) == [l[0].0] + Keys(rest);
      }
    }
  }

  /** Stores `v` under `k`. The first pair for `k` takes the new value in place and any later
      pair for `k` is dropped; a key not yet present is appended. This is
      `URLSearchParams.set` (WHATWG URL Standard, section 6.2) and, on a list with distinct
      keys none of which is integer-like, JavaScript property assignment (an existing property
      keeps its position). */
  function Put<K(==,!new), V(==,!new)>(l: seq<(K, V)>, k: K, v: V): (r: seq<(K, V)>)
    ensures Get(r, k) == Some(v)
    ensures forall k' :: k' != k ==> Get(r, k') == Get(l, k')
    ensures Remove(r, k) == Remove(l, k)
  {
    if l == [] then
      [(k, v)]
    else if l[0].0 == k then
      var rest := Remove(l[1..], k);
      assert Remove([(k, v)] + rest, k) == Remove(rest, k);
      [(k, v)] + rest
    else
      var rest := Put(l[1..], k, v);
      assert ([l[0]] + rest)[1..] == rest;
      [l[0]] + rest
  }

  lemma KeysCons<K, V>(h: (K, V), t: seq<(K, V)>)
    ensures Keys([h] + t) == [h.0] + Keys(t)
  {
  }

  lemma PutStep<K(!new), V(!new)>(l: seq<(K, V)>, k: K, v: V)
    requires l != [] && (l[0].0 == k ==> k !in Keys(l[1..]))
    ensures Put(l, k, v) == if l[0].0 == k then [(k, v)] + l[1..] else [l[0]] + Put(l[1..], k, v)
  {
  }

  /** Storing under a key that is already present keeps the keys as they are. */
  lemma {:induction false} PutPresentKeys<K(!new), V(!new)>(l: seq<(K, V)>, k: K, v: V)
    requires DistinctKeys(l) && k in Keys(l)
    ensures Keys(Put(l, k, v)) == Keys(l)
  {
    var h := l[0];
    var t := l[1..];
    assert l == [h] + t;
    KeysCons(h, t);
    Seqs.NoDupsCons(h.0, Keys(t));
    PutStep(l, k, v);
    if h.0 == k {
      KeysCons((k, v), t);
    } else {
      PutPresentKeys(t, k, v);
      KeysCons(h, Put(t, k, v));
    }
  }

  /** Storing under a new key appends the pair. */
  lemma {:induction false} PutAbsent<K(!new), V(!new)>(l: seq<(K, V)>, k: K, v: V)
    requires k !in Keys(l)
    ensures Put(l, k, v) == l + [(k, v)]
  {
    if l != [] {
      assert l == [l[0]] + l[1..];
      KeysCons(l[0], l[1..]);
      PutStep(l, k, v);
      PutAbsent(l[1..], k, v);
    }
  }

  /** Storing under a new key appends it to the keys. */
  lemma PutAbsentKeys<K(!new), V(!new)>(l: seq<(K, V)>, k: K, v: V)
    requires k !in Keys(l)
    ensures Keys(Put(l, k, v)) == Keys(l) + [k]
  {
    PutAbsent(l, k, v);
  }

  /** On distinct keys, storing keeps every key in place and appends a new one last. */
  lemma PutKeys<K(!new), V(!new)>(l: seq<(K, V)>, k: K, v: V)
    requires DistinctKeys(l)
    ensures Keys(Put(l, k, v)) == if k in Keys(l) then Keys(l) else Keys(l) + [k]
    ensures DistinctKeys(Put(l, k, v))
  {
    if k in Keys(l) {
      PutPresentKeys(l, k, v);
    } else {
      PutAbsentKeys(l, k, v);
      Seqs.NoDupsSnoc(Keys(l), k);
    }
  }

  /** `{...a, ...b}`: the pairs of `b` are stored into `a` one after the other, so a key of
      `b` takes `b`'s value and every other key keeps `a`'s. */
  function Overlay<K(==,!new), V(==,!new)>(a: seq<(K, V)>, b: seq<(K, V)>): (r: seq<(K, V)>)
    ensures DistinctKeys(b) ==>
      forall k :: Get(r, k) == if k in Keys(b) then Get(b, k) else Get(a, k)
    decreases |b|
  {
    if b == [] then a
    else
      var r := Overlay(Put(a, b[0].0, b[0].1), b[1..]);
      assert Keys(b) == [b[0].0] + Keys(b[1..]);
      assert DistinctKeys(b) ==> DistinctKeys(b[1..]) && b[0].0 !in Keys(b[1..]);
      r
  }

  /** Keys of `{...a, ...b}`: those of `a` in place, then the new keys of `b` in `b`'s order. */
  lemma {:induction false} OverlayKeys<K(!new), V(!new)>(a: seq<(K, V)>, b: seq<(K, V)>)
    requires DistinctKeys(a)
    ensures Keys(Overlay(a, b)) == Seqs.Dedup(Keys(a) + Keys(b))
    ensures DistinctKeys(Overlay(a, b))
    decreases |b|
  {
    var ka := Keys(a);
    if b == [] {
      assert ka + Keys(b) == ka;
      Seqs.DedupOfDistinct(ka);
    } else {
      var k := b[0].0;
      var a' := Put(a, k, b[0].1);
      var kt := Keys(b[1..]);
      PutKeys(a, k, b[0].1);
      OverlayKeys(a', b[1..]);
      assert Overlay(a, b) == Overlay(a', b[1..]);
      Seqs.DedupOfDistinct(ka);
      Seqs.DedupSnoc(ka, k);
      var kk := ka + [k];
      assert Keys(a') == Seqs.Dedup(kk);
      Seqs.DedupPrefix(kk, kt);
      assert Keys(b) == [k] + kt;
      Seqs.AppendAssoc(ka, [k], kt);
    }
  }
}
