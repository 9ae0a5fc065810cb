/** Facts about the built-in seed of `src/data/workouts.js` and what the store does with it,
    together with the hard-coded quick statistics of the home page. */
module SeedFacts {
  import opened Wrappers
  import Seqs
  import opened Workouts
  import Assoc
  import Store

  const Weekdays: seq<string> :=
    ["monday", "tuesday", "wednesday", "thursday", "friday", "saturday", "sunday"]

  /** Identifiers 1 to 8, in array order, hence pairwise distinct. */
  lemma SeedIds()
    ensures |Seed| == 8
    ensures forall i :: 0 <= i < |Seed| ==> Seed[i].id == i + 1
    ensures DistinctIds(Seed)
  {
  }

  /** Every type and difficulty is one of the values the pages know. */
  lemma SeedEnums()
    ensures forall w :: w in Seed ==> w.kind == "cardio" || w.kind == "strength"
    ensures forall w :: w in Seed ==>
      w.difficulty == "beginner" || w.difficulty == "intermediate" || w.difficulty == "advanced"
  {
  }

  /** A log carries a lower-case weekday under `day` and has `notes`. */
  predicate WellFormedLog(log: Log) {
    DayOf(log).Some? && DayOf(log).value in Weekdays && NotesOf(log).Some?
  }

  /** A seed-style log: `day` first, `notes` last, two other fields between. */
  lemma SeedStyleLog(d: string, a: (string, string), b: (string, string), n: string)
    requires d in Weekdays
    requires a.0 != "day" && a.0 != "notes" && b.0 != "day" && b.0 != "notes"
    ensures WellFormedLog([("day", d), a, b, ("notes", n)])
  {
    var l := [("day", d), a, b, ("notes", n)];
    assert Assoc.Keys(l)[3] == "notes";
  }

  /** Every seed log has a weekday and notes, so the day filter of the log page never fails
      on the seed. */
  lemma SeedLogsWellFormed()
    ensures forall i, j :: 0 <= i < |Seed| && 0 <= j < |Seed[i].logs| ==> WellFormedLog(Seed[i].logs[j])
  {
    forall i, j | 0 <= i < |Seed| && 0 <= j < |Seed[i].logs|
      ensures WellFormedLog(Seed[i].logs[j])
    {
      var l := Seed[i].logs[j];
      assert |l| == 4 && l[0].0 == "day" && l[3].0 == "notes" && l[0].1 in Weekdays;
      assert l[1].0 != "day" && l[1].0 != "notes" && l[2].0 != "day" && l[2].0 != "notes";
      SeedStyleLog(l[0].1, l[1], l[2], l[3].1);
      assert l == [("day", l[0].1), l[1], l[2], ("notes", l[3].1)];
    }
  }

  /** The largest seed identifier is 8, so the first workout a user adds gets 9. */
  lemma SeedNextId(draft: Workout)
    ensures Store.MaxId(Seed) == 8
    ensures Store.AddWorkout(Seed, draft).id == 9
  {
    SeedIds();
    var m := Store.MaxId(Seed);
    assert Seed[7].id == 8;
    assert m != 0;
    var k :| 0 <= k < |Seed| && Seed[k].id == m;
  }

  /** The seed is non-empty, so a first visit writes it to storage. */
  lemma SeedIsPersisted(slot: Option<seq<Workout>>)
    ensures Store.Mount(None) == Store.Session(Seed, Some(Seed))
    ensures Store.Sync(Store.Session(Seed, slot)).slot == Some(Seed)
  {
  }

  function Calories(w: Workout): int {
    w.calories
  }

  function Minutes(w: Workout): int {
    w.duration
  }

  /** The home page's quick statistics: workouts, calories and minutes. */
  datatype QuickStats = QuickStats(workouts: int, calories: int, minutes: int)

  /** The figures `src/pages/Home.jsx` shows, typed in as constants. */
  const HomeQuickStats := QuickStats(8, 2290, 365)

  /** The figures computed from a collection: one per workout, calories and durations summed. */
  function QuickStatsOf(ws: seq<Workout>): QuickStats {
    QuickStats(|ws|, Seqs.Sum(ws, Calories), Seqs.Sum(ws, Minutes))
  }

  lemma SumStep(xs: seq<Workout>, f: Workout -> int, i: int)
    requires 0 <= i < |xs|
    ensures Seqs.Sum(xs[i..], f) == f(xs[i]) + Seqs.Sum(xs[i + 1..], f)
  {
    assert xs[i..][1..] == xs[i + 1..];
  }

  lemma SumOfSeed(f: Workout -> int)
    ensures Seqs.Sum(Seed, f) == f(Seed[0]) + f(Seed[1]) + f(Seed[2]) + f(Seed[3])
      + f(Seed[4]) + f(Seed[5]) + f(Seed[6]) + f(Seed[7])
  {
    SumStep(Seed, f, 7);
    SumStep(Seed, f, 6);
    SumStep(Seed, f, 5);
    SumStep(Seed, f, 4);
    SumStep(Seed, f, 3);
    SumStep(Seed, f, 2);
    SumStep(Seed, f, 1);
    SumStep(Seed, f, 0);
    assert Seed[0..] == Seed;
    assert Seed[8..] == [];
  }

  /** On the seed the computed figures are 8 workouts, 2290 calories and 315 minutes. */
  lemma SeedQuickStats()
    ensures QuickStatsOf(Seed) == QuickStats(8, 2290, 315)
  {
    SumOfSeed(Calories);
    SumOfSeed(Minutes);
  }

  /** The typed-in workout count and calories match the seed; the minutes do not. */
  lemma HomeMinutesDisagree()
    ensures HomeQuickStats.workouts == QuickStatsOf(Seed).workouts
    ensures HomeQuickStats.calories == QuickStatsOf(Seed).calories
    ensures HomeQuickStats.minutes == QuickStatsOf(Seed).minutes + 50
  {
    SeedQuickStats();
  }
}
