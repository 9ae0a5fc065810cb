/** The data model: workouts, their free-form log entries, and the built-in seed dataset. */
module Workouts {
  import opened Wrappers
  import Seqs
  import Assoc

  /** A log entry: field name to text value, in insertion order. `day`, `notes` and
      `timestamp` are conventional; every other key is chosen by the user. */
  type Log = seq<(string, string)>

  /** A workout record. `kind` is the record's `type` property ("cardio" or "strength"). */
  datatype Workout = Workout(
    id: int,
    name: string,
    kind: string,
    duration: int,
    calories: int,
    description: string,
    difficulty: string,
    logs: seq<Log>)

  /** The three figures of a statistics panel. */
  datatype Stats = Stats(sessions: nat, minutes: int, calories: int)

  /** `log.day`, undefined when the entry has no such field. */
  function DayOf(log: Log): Option<string> {
    Assoc.Get(log, "day")
  }

  /** `log.notes`, undefined when the entry has no such field. */
  function NotesOf(log: Log): Option<string> {
    Assoc.Get(log, "notes")
  }

  /** Identifiers are pairwise distinct. */
  predicate DistinctIds(ws: seq<Workout>) {
    forall i, j :: 0 <= i < j < |ws| ==> ws[i].id != ws[j].id
  }

  /** Dropping records never makes two identifiers collide. */
  lemma {:induction false} SubseqKeepsDistinctIds(a: seq<Workout>, b: seq<Workout>)
    requires Seqs.IsSubseq(a, b)
    requires DistinctIds(b)
    ensures DistinctIds(a)
    decreases |b|
  {
    if a != [] {
      assert DistinctIds(b[1..]) by {
        forall i, j | 0 <= i < j < |b| - 1
          ensures b[1..][i].id != b[1..][j].id
        {
          assert b[1..][i] == b[i + 1] && b[1..][j] == b[j + 1];
        }
      }
      if a[0] == b[0] {
        SubseqKeepsDistinctIds(a[1..], b[1..]);
        Seqs.SubseqMembers(a[1..], b[1..]);
        forall j | 1 <= j < |a|
          ensures a[0].id != a[j].id
        {
          assert a[j] == a[1..][j - 1] && a[j] in a[1..];
          assert a[j] in b[1..];
          var k :| 0 <= k < |b| - 1 && b[1..][k] == a[j];
          assert b[k + 1] == a[j];
        }
      } else {
        SubseqKeepsDistinctIds(a, b[1..]);
      }
    }
  }

  /** `workouts.find(w => w.id === id)`: the first record with that identifier. */
  function Find(ws: seq<Workout>, id: int): (r: Option<Workout>)
    ensures r.Some? ==> r.value in ws && r.value.id == id
    ensures r.None? <==> forall i :: 0 <= i < |ws| ==> ws[i].id != id
    ensures r.Some? ==> exists i :: 0 <= i < |ws| && ws[i] == r.value && forall j :: 0 <= j < i ==> ws[j].id != id
  {
    if ws == [] then None
    else if ws[0].id == id then Some(ws[0])
    else
      var r := Find(ws[1..], id);
      assert r.Some? ==> exists i :: 0 <= i < |ws| && ws[i] == r.value && forall j :: 0 <= j < i ==> ws[j].id != id by {
        if r.Some? {
          var i :| 0 <= i < |ws[1..]| && ws[1..][i] == r.value && forall j :: 0 <= j < i ==> ws[1..][j].id != id;
          assert ws[i + 1] == r.value;
          forall j | 0 <= j < i + 1
            ensures ws[j].id != id
          {
            if j > 0 {
              assert ws[j] == ws[1..][j - 1];
            }
          }
        }
      }
      r
  }

  const MorningRun := Workout(1, "Morning Run", "cardio", 30, 300,
    "Start your day with an energizing 30-minute run", "intermediate",
    [ [("day", "monday"), ("distance", "5km"), ("time", "28:30"), ("notes", "Felt great!")],
      [("day", "wednesday"), ("distance", "5.5km"), ("time", "29:15"), ("notes", "Slightly faster today")],
      [("day", "friday"), ("distance", "6km"), ("time", "31:00"), ("notes", "Pushed harder")] ])

  const ChestTriceps := Workout(2, "Chest & Triceps", "strength", 45, 250,
    "Upper body strength training focusing on chest and triceps", "advanced",
    [ [("day", "tuesday"), ("sets", "4x10"), ("weight", "60kg"), ("notes", "Bench press PR!")],
      [("day", "thursday"), ("sets", "4x10"), ("weight", "62kg"), ("notes", "Increased weight")],
      [("day", "saturday"), ("sets", "4x8"), ("weight", "65kg"), ("notes", "Heavy day")] ])

  const HiitCardio := Workout(3, "HIIT Cardio", "cardio", 20, 400,
    "High-intensity interval training for maximum calorie burn", "advanced",
    [ [("day", "monday"), ("rounds", "10"), ("avgHR", "165 bpm"), ("notes", "Intense session")],
      [("day", "friday"), ("rounds", "12"), ("avgHR", "170 bpm"), ("notes", "New record!")] ])

  const LegDay := Workout(4, "Leg Day", "strength", 60, 350,
    "Complete lower body workout including squats and lunges", "intermediate",
    [ [("day", "wednesday"), ("sets", "5x5"), ("weight", "100kg"), ("notes", "Squats feeling strong")],
      [("day", "saturday"), ("sets", "5x5"), ("weight", "105kg"), ("notes", "Increased squat weight")] ])

  const YogaFlow := Workout(5, "Yoga Flow", "cardio", 40, 150,
    "Relaxing yoga session to improve flexibility and mindfulness", "beginner",
    [ [("day", "sunday"), ("poses", "20"), ("duration", "45 min"), ("notes", "Very relaxing")],
      [("day", "thursday"), ("poses", "22"), ("duration", "40 min"), ("notes", "Better balance today")] ])

  const BackBiceps := Workout(6, "Back & Biceps", "strength", 50, 280,
    "Pull day focusing on back muscles and biceps", "intermediate",
    [ [("day", "monday"), ("sets", "4x8"), ("weight", "50kg"), ("notes", "Deadlift day")],
      [("day", "friday"), ("sets", "4x8"), ("weight", "52kg"), ("notes", "Form improving")] ])

  const Cycling := Workout(7, "Cycling", "cardio", 45, 380,
    "Outdoor or indoor cycling for endurance", "beginner",
    [ [("day", "tuesday"), ("distance", "15km"), ("avgSpeed", "22 km/h"), ("notes", "Beautiful weather")],
      [("day", "saturday"), ("distance", "18km"), ("avgSpeed", "24 km/h"), ("notes", "Faster pace")] ])

  const CoreStrength := Workout(8, "Core Strength", "strength", 25, 180,
    "Targeted core workout for abs and obliques", "beginner",
    [ [("day", "wednesday"), ("exercises", "8"), ("reps", "3x15"), ("notes", "Planks getting easier")],
      [("day", "sunday"), ("exercises", "10"), ("reps", "3x20"), ("notes", "Added new exercises")] ])

  /** The static seed dataset used when nothing is persisted. */
  const Seed: seq<Workout> :=
    [MorningRun, ChestTriceps, HiitCardio, LegDay, YogaFlow, BackBiceps, Cycling, CoreStrength]
}
