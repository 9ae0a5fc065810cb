/** The workout store of `src/context/WorkoutContext.jsx`: each handler is one atomic step
    from the old collection to the new one, followed by the save effect that mirrors the
    collection into the persisted slot. */
module Store {
  import opened Wrappers
  import Seqs
  import opened Workouts

  /** `Math.max(...workouts.map(w => w.id), 0)`. */
  function MaxId(ws: seq<Workout>): (m: int)
    ensures m >= 0
    ensures forall i :: 0 <= i < |ws| ==> ws[i].id <= m
    ensures m == 0 || exists i :: 0 <= i < |ws| && ws[i].id == m
  {
    if ws == [] then 0
    else
      var rest := MaxId(ws[1..]);
      assert forall i :: 1 <= i < |ws| ==> ws[i] == ws[1..][i - 1];
      if ws[0].id > rest then ws[0].id else rest
  }

  datatype Added = Added(workouts: seq<Workout>, id: int)

  /** `addWorkout`: appends the caller's record with a fresh identifier (one more than the
      largest present, 1 for an empty collection or one whose identifiers are all
      non-positive) and an empty log list, and returns that identifier. */
  function AddWorkout(ws: seq<Workout>, draft: Workout): (r: Added)
    ensures r.id >= 1
    ensures forall i :: 0 <= i < |ws| ==> ws[i].id < r.id
    ensures r.id == 1 || exists i :: 0 <= i < |ws| && ws[i].id == r.id - 1
    ensures |r.workouts| == |ws| + 1 && r.workouts[..|ws|] == ws
    ensures r.workouts[|ws|].id == r.id && r.workouts[|ws|].logs == []
    ensures r.workouts[|ws|].(id := draft.id, logs := draft.logs) == draft
  {
    var id := MaxId(ws) + 1;
    Added(ws + [draft.(id := id, logs := [])], id)
  }

  lemma AddWorkoutKeepsDistinctIds(ws: seq<Workout>, draft: Workout)
    requires DistinctIds(ws)
    ensures DistinctIds(AddWorkout(ws, draft).workouts)
  {
    var r := AddWorkout(ws, draft);
    forall i, j | 0 <= i < j < |r.workouts|
      ensures r.workouts[i].id != r.workouts[j].id
    {
      assert r.workouts[i] == ws[i];
    }
  }

  datatype Batch = Batch(workouts: seq<Workout>, ids: seq<int>)

  /** A run of `addWorkout` calls, collecting the identifiers they return. */
  function AddAll(ws: seq<Workout>, drafts: seq<Workout>): (r: Batch)
    ensures |r.ids| == |drafts|
    decreases |drafts|
  {
    if drafts == [] then Batch(ws, [])
    else
      var a := AddWorkout(ws, drafts[0]);
      var rest := AddAll(a.workouts, drafts[1..]);
      Batch(rest.workouts, [a.id] + rest.ids)
  }

  /** Identifiers returned by successive `addWorkout` calls strictly increase, exceed every
      identifier that was present before, and keep the collection's identifiers distinct. */
  lemma {:induction false} AddAllIdsIncrease(ws: seq<Workout>, drafts: seq<Workout>)
    ensures forall i, j :: 0 <= i < j < |drafts| ==> AddAll(ws, drafts).ids[i] < AddAll(ws, drafts).ids[j]
    ensures forall i, k :: 0 <= i < |drafts| && 0 <= k < |ws| ==> ws[k].id < AddAll(ws, drafts).ids[i]
    ensures DistinctIds(ws) ==> DistinctIds(AddAll(ws, drafts).workouts)
    decreases |drafts|
  {
    if drafts != [] {
      var a := AddWorkout(ws, drafts[0]);
      var rest := AddAll(a.workouts, drafts[1..]);
      AddAllIdsIncrease(a.workouts, drafts[1..]);
      var ids := AddAll(ws, drafts).ids;
      assert ids == [a.id] + rest.ids;
      assert a.workouts[|ws|].id == a.id;
      forall k | 0 <= k < |ws|
        ensures a.workouts[k] == ws[k]
      {
        assert a.workouts[..|ws|][k] == ws[k];
      }
      if DistinctIds(ws) {
        AddWorkoutKeepsDistinctIds(ws, drafts[0]);
      }
    }
  }

  /** The fields an `updateWorkout` call may carry; an absent field is left as it was. */
  datatype Patch = Patch(
    id: Option<int>,
    name: Option<string>,
    kind: Option<string>,
    duration: Option<int>,
    calories: Option<int>,
    description: Option<string>,
    difficulty: Option<string>,
    logs: Option<seq<Log>>)

  /** `{ ...w, ...patch }`. */
  function Merge(w: Workout, p: Patch): Workout {
    Workout(p.id.GetOr(w.id), p.name.GetOr(w.name), p.kind.GetOr(w.kind),
      p.duration.GetOr(w.duration), p.calories.GetOr(w.calories),
      p.description.GetOr(w.description), p.difficulty.GetOr(w.difficulty), p.logs.GetOr(w.logs))
  }

  /** A patch without fields changes nothing. */
  lemma MergeEmpty(w: Workout)
    ensures Merge(w, Patch(None, None, None, None, None, None, None, None)) == w
  {
  }

  /** Merging the same patch twice is merging it once, and the patched fields read back. */
  lemma MergeIdempotent(w: Workout, p: Patch)
    ensures Merge(Merge(w, p), p) == Merge(w, p)
    ensures p.name.Some? ==> Merge(w, p).name == p.name.value
    ensures p.logs.None? ==> Merge(w, p).logs == w.logs
  {
  }

  /** `workouts.map(w => w.id === id ? f(w) : w)`: every record with that identifier is
      rewritten in place, every other record is kept as it is. */
  function Adjust(ws: seq<Workout>, id: int, f: Workout -> Workout): (r: seq<Workout>)
    ensures |r| == |ws|
    ensures forall i :: 0 <= i < |ws| ==> r[i] == if ws[i].id == id then f(ws[i]) else ws[i]
  {
    if ws == [] then []
    else
      var rest := Adjust(ws[1..], id, f);
      assert forall i :: 1 <= i < |ws| ==> ws[i] == ws[1..][i - 1];
      [if ws[0].id == id then f(ws[0]) else ws[0]] + rest
  }

  /** Rewriting the records of `id` without touching identifiers lets `find` see the rewrite. */
  lemma {:induction false} FindAdjust(ws: seq<Workout>, id: int, f: Workout -> Workout)
    requires forall w :: f(w).id == w.id
    ensures Find(Adjust(ws, id, f), id) == match Find(ws, id) case Some(w) => Some(f(w)) case None => None
  {
    if ws != [] {
      FindAdjust(ws[1..], id, f);
      var r := Adjust(ws, id, f);
      assert r[1..] == Adjust(ws[1..], id, f);
    }
  }

  /** `updateWorkout`: shallow merge into every record with that identifier. */
  function UpdateWorkout(ws: seq<Workout>, id: int, p: Patch): (r: seq<Workout>)
    ensures |r| == |ws|
    ensures forall i :: 0 <= i < |ws| && ws[i].id != id ==> r[i] == ws[i]
    ensures forall i :: 0 <= i < |ws| && ws[i].id == id ==> r[i] == Merge(ws[i], p)
    ensures (forall i :: 0 <= i < |ws| ==> ws[i].id != id) ==> r == ws
  {
    Adjust(ws, id, (w: Workout) => Merge(w, p))
  }

  /** `deleteWorkout`: keeps exactly the records with another identifier, in order. */
  function DeleteWorkout(ws: seq<Workout>, id: int): (r: seq<Workout>)
    ensures forall i :: 0 <= i < |r| ==> r[i].id != id
    ensures forall w: Workout :: w in r <==> w in ws && w.id != id
    ensures forall w: Workout :: w.id != id ==> multiset(r)[w] == multiset(ws)[w]
    ensures Seqs.IsSubseq(r, ws)
    ensures (forall i :: 0 <= i < |ws| ==> ws[i].id != id) ==> r == ws
    ensures DistinctIds(ws) ==> DistinctIds(r)
  {
    var r := Seqs.Filter(ws, (w: Workout) => w.id != id);
    Seqs.FilterCounts(ws, (w: Workout) => w.id != id);
    Seqs.FilterSubseq(ws, (w: Workout) => w.id != id);
    assert forall i :: 0 <= i < |r| ==> r[i] in r;
    assert DistinctIds(ws) ==> DistinctIds(r) by {
      if DistinctIds(ws) {
        SubseqKeepsDistinctIds(r, ws);
      }
    }
    r
  }

  /** Updating an identifier that was just deleted changes nothing. */
  lemma UpdateAfterDelete(ws: seq<Workout>, id: int, p: Patch)
    ensures UpdateWorkout(DeleteWorkout(ws, id), id, p) == DeleteWorkout(ws, id)
  {
  }

  /** `addLog`: appends the entry to the logs of every record with that identifier. */
  function AddLog(ws: seq<Workout>, id: int, log: Log): (r: seq<Workout>)
    ensures |r| == |ws|
    ensures forall i :: 0 <= i < |ws| && ws[i].id != id ==> r[i] == ws[i]
    ensures forall i :: 0 <= i < |ws| && ws[i].id == id ==>
      |r[i].logs| == |ws[i].logs| + 1 && r[i].logs[..|ws[i].logs|] == ws[i].logs
      && r[i].logs[|ws[i].logs|] == log && r[i].(logs := ws[i].logs) == ws[i]
    ensures (forall i :: 0 <= i < |ws| ==> ws[i].id != id) ==> r == ws
  {
    Adjust(ws, id, (w: Workout) => w.(logs := w.logs + [log]))
  }

  /** Reading a workout back after `addLog` shows the new entry last, one more than before. */
  lemma AddLogThenFind(ws: seq<Workout>, id: int, log: Log)
    ensures Find(AddLog(ws, id, log), id) ==
      match Find(ws, id) case Some(w) => Some(w.(logs := w.logs + [log])) case None => None
  {
    FindAdjust(ws, id, (w: Workout) => w.(logs := w.logs + [log]));
  }

  /** `newLogs[i] = entry` on a copy of the logs, for an index that is in range, one past the
      end (the array grows by that entry) or negative (a non-element property is set and the
      elements are left alone). */
  function ReplaceAt(logs: seq<Log>, i: int, log: Log): seq<Log> {
    if 0 <= i < |logs| then logs[i := log] else if i == |logs| then logs + [log] else logs
  }

  /** `updateLog`: replaces entry `i` of every record with that identifier; at `i` equal to the
      number of entries, the entry is appended. */
  function UpdateLog(ws: seq<Workout>, id: int, i: int, log: Log): (r: seq<Workout>)
    requires forall j :: 0 <= j < |ws| && ws[j].id == id ==> i <= |ws[j].logs|
    ensures |r| == |ws|
    ensures forall j :: 0 <= j < |ws| && ws[j].id != id ==> r[j] == ws[j]
    ensures forall j :: 0 <= j < |ws| && ws[j].id == id ==> r[j].(logs := ws[j].logs) == ws[j]
    ensures forall j :: 0 <= j < |ws| && ws[j].id == id && i < |ws[j].logs| ==>
      |r[j].logs| == |ws[j].logs|
    ensures forall j :: 0 <= j < |ws| && ws[j].id == id && i == |ws[j].logs| ==>
      r[j].logs == ws[j].logs + [log]
    ensures forall j, k :: 0 <= j < |ws| && ws[j].id == id && 0 <= k < |ws[j].logs| ==>
      r[j].logs[k] == if k == i then log else ws[j].logs[k]
  {
    Adjust(ws, id, (w: Workout) => w.(logs := ReplaceAt(w.logs, i, log)))
  }

  /** Updating the entry one past the end of every matching record is adding that entry. */
  lemma UpdateLogAtEndIsAddLog(ws: seq<Workout>, id: int, i: int, log: Log)
    requires forall j :: 0 <= j < |ws| && ws[j].id == id ==> i == |ws[j].logs|
    ensures UpdateLog(ws, id, i, log) == AddLog(ws, id, log)
  {
  }

  /** `logs.filter((_, index) => index !== i)`. */
  function DropIndex(logs: seq<Log>, i: int): (r: seq<Log>)
    ensures 0 <= i < |logs| ==> r == logs[..i] + logs[i + 1..]
    ensures !(0 <= i < |logs|) ==> r == logs
  {
    if logs == [] then []
    else
      var rest := DropIndex(logs[1..], i - 1);
      assert 0 < i < |logs| ==> logs[1..][..i - 1] == logs[1..i] && logs[1..][i..] == logs[i + 1..];
      assert 0 < i < |logs| ==> [logs[0]] + logs[1..i] == logs[..i];
      (if i == 0 then [] else [logs[0]]) + rest
  }

  /** `deleteLog`: removes entry `i` from every record with that identifier; an index out of
      range, negative included, removes nothing. */
  function DeleteLog(ws: seq<Workout>, id: int, i: int): (r: seq<Workout>)
    ensures |r| == |ws|
    ensures forall j :: 0 <= j < |ws| && ws[j].id != id ==> r[j] == ws[j]
    ensures forall j :: 0 <= j < |ws| && ws[j].id == id ==>
      r[j].(logs := ws[j].logs) == ws[j] &&
      r[j].logs == if 0 <= i < |ws[j].logs| then ws[j].logs[..i] + ws[j].logs[i + 1..] else ws[j].logs
  {
    Adjust(ws, id, (w: Workout) => w.(logs := DropIndex(w.logs, i)))
  }

  /** The in-memory collection together with the persisted slot (`fitnessTrackerWorkouts`). */
  datatype Session = Session(workouts: seq<Workout>, slot: Option<seq<Workout>>)

  /** The load effect: the persisted snapshot when there is one, else the seed. */
  function Load(slot: Option<seq<Workout>>): seq<Workout> {
    slot.GetOr(Seed)
  }

  /** The save effect: a non-empty collection overwrites the slot, an empty one is never written. */
  function Sync(s: Session): (r: Session)
    ensures r.workouts == s.workouts
    ensures s.workouts != [] ==> r.slot == Some(s.workouts) && Load(r.slot) == s.workouts
    ensures s.workouts == [] ==> r.slot == s.slot
  {
    if |s.workouts| > 0 then s.(slot := Some(s.workouts)) else s
  }

  /** Start-up: the load effect, then the save effect on the loaded collection. */
  function Mount(slot: Option<seq<Workout>>): (r: Session)
    ensures slot.Some? ==> r.workouts == slot.value
    ensures slot.Some? && slot.value != [] ==> r.slot == slot
    ensures slot.None? ==> r == Session(Seed, Some(Seed))
  {
    Sync(Session(Load(slot), slot))
  }

  /** `resetWorkouts`: the seed comes back and the slot is removed. */
  function Reset(s: Session): (r: Session)
    ensures r.workouts == Seed && r.slot == None
    ensures Load(r.slot) == Seed
  {
    Session(Seed, None)
  }

  /** One user action on the store. */
  datatype Op =
    | AddWorkoutOp(draft: Workout)
    | UpdateWorkoutOp(id: int, patch: Patch)
    | DeleteWorkoutOp(id: int)
    | AddLogOp(workoutId: int, log: Log)
    | UpdateLogOp(workoutId: int, index: int, log: Log)
    | DeleteLogOp(workoutId: int, index: int)
    | ResetOp

  predicate Allowed(ws: seq<Workout>, op: Op) {
    op.UpdateLogOp? ==>
      forall j :: 0 <= j < |ws| && ws[j].id == op.workoutId ==> op.index <= |ws[j].logs|
  }

  /** The handler, then the save effect on the collection it produced. After a reset the
      collection is the seed again, so the save effect writes the seed back into the slot. */
  function Step(s: Session, op: Op): (r: Session)
    requires Allowed(s.workouts, op)
    ensures op.AddWorkoutOp? ==> r.workouts == AddWorkout(s.workouts, op.draft).workouts
    ensures op.UpdateWorkoutOp? ==> r.workouts == UpdateWorkout(s.workouts, op.id, op.patch)
    ensures op.DeleteWorkoutOp? ==> r.workouts == DeleteWorkout(s.workouts, op.id)
    ensures op.AddLogOp? ==> r.workouts == AddLog(s.workouts, op.workoutId, op.log)
    ensures op.UpdateLogOp? ==> r.workouts == UpdateLog(s.workouts, op.workoutId, op.index, op.log)
    ensures op.DeleteLogOp? ==> r.workouts == DeleteLog(s.workouts, op.workoutId, op.index)
    ensures op.ResetOp? ==> r.workouts == Seed && r.slot == Some(Seed)
    ensures r.workouts != [] ==> r.slot == Some(r.workouts)
    ensures r.workouts == [] ==> r.slot == s.slot
    ensures Load(r.slot) == if r.workouts == [] then Load(s.slot) else r.workouts
  {
    var ws := s.workouts;
    match op
    case AddWorkoutOp(d) => Sync(s.(workouts := AddWorkout(ws, d).workouts))
    case UpdateWorkoutOp(id, p) => Sync(s.(workouts := UpdateWorkout(ws, id, p)))
    case DeleteWorkoutOp(id) => Sync(s.(workouts := DeleteWorkout(ws, id)))
    case AddLogOp(id, log) => Sync(s.(workouts := AddLog(ws, id, log)))
    case UpdateLogOp(id, i, log) => Sync(s.(workouts := UpdateLog(ws, id, i, log)))
    case DeleteLogOp(id, i) => Sync(s.(workouts := DeleteLog(ws, id, i)))
    case ResetOp => Sync(Reset(s))
  }

  /** Persist, restart, reload: a non-empty collection comes back exactly. */
  lemma ReloadRoundTrip(s: Session, op: Op)
    requires Allowed(s.workouts, op)
    requires Step(s, op).workouts != []
    ensures Mount(Step(s, op).slot).workouts == Step(s, op).workouts
  {
  }

  /** Deleting the last workout is never persisted: after a restart it is back. */
  lemma DeletingLastWorkoutIsNotPersisted(w: Workout)
    ensures Step(Session([w], Some([w])), DeleteWorkoutOp(w.id)).workouts == []
    ensures Mount(Step(Session([w], Some([w])), DeleteWorkoutOp(w.id)).slot).workouts == [w]
  {
    var r := DeleteWorkout([w], w.id);
    assert w !in r;
  }
}
