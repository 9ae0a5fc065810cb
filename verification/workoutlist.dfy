/** The catalogue page of `src/pages/WorkoutList.jsx`: a search and a type filter over the
    built-in seed, both kept in the query string. */
module WorkoutList {
  import Seqs
  import Text
  import Assoc
  import opened Workouts
  import SearchParams

  /** The lower-cased query occurs in the lower-cased name or description. */
  predicate SearchHit(w: Workout, query: string) {
    Text.Includes(Text.Lower(w.name), Text.Lower(query))
    || Text.Includes(Text.Lower(w.description), Text.Lower(query))
  }

  /** An empty type filter accepts every type. */
  predicate TypeHit(w: Workout, kind: string) {
    kind == "" || w.kind == kind
  }

  /** The workouts meeting both conditions, in their original order. */
  function Matching(ws: seq<Workout>, query: string, kind: string): (r: seq<Workout>)
    ensures Seqs.IsSubseq(r, ws)
    ensures forall w: Workout :: w in r <==> w in ws && SearchHit(w, query) && TypeHit(w, kind)
    ensures forall w: Workout :: SearchHit(w, query) && TypeHit(w, kind) ==> multiset(r)[w] == multiset(ws)[w]
  {
    Seqs.FilterSubseq(ws, (w: Workout) => SearchHit(w, query) && TypeHit(w, kind));
    Seqs.FilterCounts(ws, (w: Workout) => SearchHit(w, query) && TypeHit(w, kind));
    Seqs.Filter(ws, (w: Workout) => SearchHit(w, query) && TypeHit(w, kind))
  }

  /** `filteredWorkouts`: the seed (never the store's collection) filtered by the `q` and
      `type` parameters; every matching seed workout is listed, and nothing else. */
  function FilteredWorkouts(p: SearchParams.Params): (r: seq<Workout>)
    ensures Seqs.IsSubseq(r, Seed)
    ensures forall w: Workout :: w in r <==>
      w in Seed && SearchHit(w, SearchParams.Read(p, "q")) && TypeHit(w, SearchParams.Read(p, "type"))
  {
    Matching(Seed, SearchParams.Read(p, "q"), SearchParams.Read(p, "type"))
  }

  /** The empty query is a substring of every name, so it filters nothing out. */
  lemma EmptyQueryMatchesAll(ws: seq<Workout>, kind: string)
    ensures Matching(ws, "", kind) == Seqs.Filter(ws, (w: Workout) => TypeHit(w, kind))
    ensures Matching(ws, "", "") == ws
  {
    assert Text.Lower("") == "";
    forall w: Workout
      ensures SearchHit(w, "")
    {
      Text.IncludesEmpty(Text.Lower(w.name));
    }
    Seqs.FilterExt(ws, (w: Workout) => SearchHit(w, "") && TypeHit(w, kind),
      (w: Workout) => TypeHit(w, kind));
  }

  /** With neither parameter set, the page lists the whole seed. */
  lemma NoParamsListsSeed(p: SearchParams.Params)
    requires "q" !in Assoc.Keys(p) && "type" !in Assoc.Keys(p)
    ensures FilteredWorkouts(p) == Seed
  {
    EmptyQueryMatchesAll(Seed, "");
  }

  /** `handleSearchChange`: sets `q`, or deletes it for an empty value; `type` and every other
      parameter stay as they were, so the listing changes only in its search condition. */
  function HandleSearchChange(p: SearchParams.Params, query: string): (r: SearchParams.Params)
    ensures SearchParams.Read(r, "q") == query
    ensures SearchParams.Read(r, "type") == SearchParams.Read(p, "type")
    ensures Assoc.Remove(r, "q") == Assoc.Remove(p, "q")
    ensures FilteredWorkouts(r) == Matching(Seed, query, SearchParams.Read(p, "type"))
  {
    SearchParams.SetOrDelete(p, "q", query)
  }

  /** `handleTypeChange`: sets `type`, or deletes it for an empty value; `q` and every other
      parameter stay as they were, so the listing changes only in its type condition. */
  function HandleTypeChange(p: SearchParams.Params, kind: string): (r: SearchParams.Params)
    ensures SearchParams.Read(r, "type") == kind
    ensures SearchParams.Read(r, "q") == SearchParams.Read(p, "q")
    ensures Assoc.Remove(r, "type") == Assoc.Remove(p, "type")
    ensures FilteredWorkouts(r) == Matching(Seed, SearchParams.Read(p, "q"), kind)
  {
    SearchParams.SetOrDelete(p, "type", kind)
  }
}
