/** Query-string parameters as the pages read and update them through `useSearchParams`. */
module SearchParams {
  import opened Wrappers
  import Seqs
  import Assoc

  /** A `URLSearchParams` list: ordered (name, value) pairs, a name may repeat. */
  type Params = seq<(string, string)>

  /** `searchParams.get(name) || ''`: the first value under `name`, empty when absent. */
  function Read(p: Params, name: string): (v: string)
    ensures name !in Assoc.Keys(p) ==> v == ""
    ensures name in Assoc.Keys(p) ==> (name, v) in p
    ensures name in Assoc.Keys(p) ==> v == p[Seqs.FirstIndex(Assoc.Keys(p), name)].1
  {
    assert name in Assoc.Keys(p) ==> Assoc.Get(p, name) == Some(p[Seqs.FirstIndex(Assoc.Keys(p), name)].1) by {
      if name in Assoc.Keys(p) {
        Assoc.GetFirst(p, name);
      }
    }
    Assoc.Get(p, name).GetOr("")
  }

  /** Copy the parameters, then `set(name, v)` for a non-empty `v` and `delete(name)` for an
      empty one. Afterwards `name` reads back as `v`, and the pairs under every other name
      are exactly the old ones in the old order. */
  function SetOrDelete(p: Params, name: string, v: string): (r: Params)
    ensures v != "" ==> Assoc.Get(r, name) == Some(v)
    ensures v == "" ==> name !in Assoc.Keys(r)
    ensures Read(r, name) == v
    ensures Assoc.Remove(r, name) == Assoc.Remove(p, name)
    ensures forall k :: k != name ==> Assoc.Get(r, k) == Assoc.Get(p, k)
  {
    if v != "" then Assoc.Put(p, name, v)
    else
      var r := Assoc.Remove(p, name);
      assert Assoc.Remove(r, name) == r;
      r
  }
}
