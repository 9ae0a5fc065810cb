/** The per-workout log page of `src/pages/WorkoutLogs.jsx`: suggested fields, the day filter,
    the add-log form with its custom fields, the summary panel and the field placeholders. */
module WorkoutLogs {
  import opened Wrappers
  import Seqs
  import Text
  import Assoc
  import opened Workouts
  import Store
  import AllLogs
  import SearchParams

  const CardioDefaults: seq<string> := ["distance", "time", "avgHR"]
  const StrengthDefaults: seq<string> := ["sets", "reps", "weight"]

  /** Every key but the three the form fills in itself. */
  predicate IsUserField(k: string) {
    k != "day" && k != "notes" && k != "timestamp"
  }

  /** The keys of every log, log by log, each log's keys in insertion order. */
  function AllKeys(logs: seq<Log>): (ks: seq<string>)
    ensures forall k :: k in ks <==> exists i :: 0 <= i < |logs| && k in Assoc.Keys(logs[i])
  {
    if logs == [] then []
    else
      var rest := AllKeys(logs[1..]);
      assert forall i :: 1 <= i < |logs| ==> logs[i] == logs[1..][i - 1];
      assert forall k :: (exists i :: 1 <= i < |logs| && k in Assoc.Keys(logs[i])) ==> k in rest by {
        forall k | exists i :: 1 <= i < |logs| && k in Assoc.Keys(logs[i])
          ensures k in rest
        {
          var i :| 1 <= i < |logs| && k in Assoc.Keys(logs[i]);
          assert k in Assoc.Keys(logs[1..][i - 1]);
        }
      }
      Assoc.Keys(logs[0]) + rest
  }

  /** `getSuggestedFields`: type defaults for a workout without logs, otherwise the user keys of
      its logs. */
  function SuggestedFields(w: Workout): (r: seq<string>)
    ensures w.logs == [] && w.kind == "cardio" ==> r == ["distance", "time", "avgHR"]
    ensures w.logs == [] && w.kind != "cardio" ==> r == ["sets", "reps", "weight"]
    ensures w.logs != [] ==> Seqs.NoDups(r)
    ensures w.logs != [] ==> forall k :: k in r <==>
      IsUserField(k) && exists i :: 0 <= i < |w.logs| && k in Assoc.Keys(w.logs[i])
  {
    if w.logs == [] then
      if w.kind == "cardio" then CardioDefaults else StrengthDefaults
    else
      Seqs.Dedup(Seqs.Filter(AllKeys(w.logs), IsUserField))
  }

  /** The fields come in the order their keys first appear among the logs. */
  lemma SuggestedFieldsOrder(w: Workout)
    requires w.logs != []
    ensures forall i, j :: 0 <= i < j < |SuggestedFields(w)| ==>
      SuggestedFields(w)[i] in AllKeys(w.logs) && SuggestedFields(w)[j] in AllKeys(w.logs) &&
      Seqs.FirstIndex(AllKeys(w.logs), SuggestedFields(w)[i]) <
      Seqs.FirstIndex(AllKeys(w.logs), SuggestedFields(w)[j])
  {
    var ks := AllKeys(w.logs);
    var f := Seqs.Filter(ks, IsUserField);
    var r := SuggestedFields(w);
    Seqs.DedupFirstOccurrenceOrder(f);
    forall i, j | 0 <= i < j < |r|
      ensures r[i] in ks && r[j] in ks
      ensures Seqs.FirstIndex(ks, r[i]) < Seqs.FirstIndex(ks, r[j])
    {
      Seqs.FilterFirstIndexOrder(ks, IsUserField, r[i], r[j]);
    }
  }

  /** The filter compares `day` values case-insensitively. */
  predicate DayMatches(log: Log, day: string) {
    DayOf(log).Some? && Text.Lower(DayOf(log).value) == Text.Lower(day)
  }

  /** `filteredLogs`: all logs for an empty filter, otherwise those whose `day` matches it.
      `log.day.toLowerCase()` fails on a log without `day`, which is `None` here. */
  function FilterByDay(logs: seq<Log>, day: string): (r: Option<seq<Log>>)
    ensures day == "" ==> r == Some(logs)
    ensures day != "" ==> (r.None? <==> exists i :: 0 <= i < |logs| && DayOf(logs[i]).None?)
    ensures r.Some? ==> Seqs.IsSubseq(r.value, logs)
    ensures r.Some? && day != "" ==> forall l :: l in r.value <==> l in logs && DayMatches(l, day)
    ensures r.Some? ==> forall l :: l in logs && (day == "" || DayMatches(l, day)) ==>
      multiset(r.value)[l] == multiset(logs)[l]
  {
    if day == "" then
      Seqs.SubseqRefl(logs);
      Some(logs)
    else if exists i :: 0 <= i < |logs| && DayOf(logs[i]).None? then None
    else
      Seqs.FilterCounts(logs, (l: Log) => DayMatches(l, day));
      Seqs.FilterSubseq(logs, (l: Log) => DayMatches(l, day));
      Some(Seqs.Filter(logs, (l: Log) => DayMatches(l, day)))
  }

  /** The filter is case-insensitive in its argument. */
  lemma FilterByDayIgnoresCase(logs: seq<Log>, day: string)
    ensures FilterByDay(logs, Text.Lower(day)) == FilterByDay(logs, day)
  {
    Text.LowerIdempotent(day);
    Seqs.FilterExt(logs, (l: Log) => DayMatches(l, Text.Lower(day)), (l: Log) => DayMatches(l, day));
  }

  /** `handleDayFilter`: sets `day` for a non-empty choice, deletes it for "All Days". */
  function HandleDayFilter(p: SearchParams.Params, day: string): (r: SearchParams.Params)
    ensures SearchParams.Read(r, "day") == day
    ensures day == "" ==> "day" !in Assoc.Keys(r)
    ensures Assoc.Remove(r, "day") == Assoc.Remove(p, "day")
  {
    SearchParams.SetOrDelete(p, "day", day)
  }

  function LogDays(logs: seq<Log>): (ds: seq<Option<string>>)
    ensures |ds| == |logs|
    ensures forall i :: 0 <= i < |logs| ==> ds[i] == DayOf(logs[i])
  {
    seq(|logs|, i requires 0 <= i < |logs| => DayOf(logs[i]))
  }

  /** `uniqueDays`: each `day` value of the workout's logs, once, in first-occurrence order. */
  function UniqueDays(logs: seq<Log>): (r: seq<Option<string>>)
    ensures Seqs.NoDups(r)
    ensures forall d :: d in r <==> exists i :: 0 <= i < |logs| && DayOf(logs[i]) == d
  {
    var ds := LogDays(logs);
    assert forall d :: d in ds <==> exists i :: 0 <= i < |logs| && ds[i] == d;
    Seqs.Dedup(ds)
  }

  /** The day selector and notes box of the add-log form. */
  datatype LogForm = LogForm(day: string, notes: string)

  const BlankForm := LogForm("monday", "")

  /** The add-log form: its fixed inputs, the dynamic fields and whether it is shown. */
  datatype FormState = FormState(form: LogForm, fields: Log, open: bool)

  /** Submitting is accepted with non-blank notes or at least one dynamic field. */
  predicate CanSubmit(form: LogForm, fields: Log) {
    Text.Trim(form.notes) != [] || |fields| > 0
  }

  /** `{ ...newLog, ...dynamicFields, timestamp }`. */
  function NewEntry(form: LogForm, fields: Log, timestamp: string): Log {
    Assoc.Overlay(Assoc.Overlay(FormEntry(form), fields), [("timestamp", timestamp)])
  }

  /** The fixed inputs of the form as an entry. */
  function FormEntry(form: LogForm): Log {
    [("day", form.day), ("notes", form.notes)]
  }

  /** Reading a key other than `timestamp` from the entry: a dynamic field wins over the
      form's own input. */
  lemma NewEntryFormKey(form: LogForm, fields: Log, timestamp: string, k: string)
    requires Assoc.DistinctKeys(fields)
    requires k != "timestamp"
    ensures Assoc.Get(NewEntry(form, fields, timestamp), k) ==
      if k in Assoc.Keys(fields) then Assoc.Get(fields, k) else Assoc.Get(FormEntry(form), k)
  {
    var ts: Log := [("timestamp", timestamp)];
    assert Assoc.Keys(ts) == ["timestamp"];
    assert Assoc.DistinctKeys(ts);
    var mid := Assoc.Overlay(FormEntry(form), fields);
    assert Assoc.Get(NewEntry(form, fields, timestamp), k) == Assoc.Get(mid, k);
  }

  lemma NewEntryTimestamp(form: LogForm, fields: Log, timestamp: string)
    ensures Assoc.Get(NewEntry(form, fields, timestamp), "timestamp") == Some(timestamp)
  {
    var ts: Log := [("timestamp", timestamp)];
    assert Assoc.Keys(ts) == ["timestamp"];
    assert Assoc.DistinctKeys(ts);
  }

  /** Later sources win: the timestamp always, and a dynamic field over the form's `day`
      and `notes`. */
  lemma NewEntryValues(form: LogForm, fields: Log, timestamp: string)
    requires Assoc.DistinctKeys(fields)
    ensures Assoc.Get(NewEntry(form, fields, timestamp), "timestamp") == Some(timestamp)
    ensures Assoc.Get(NewEntry(form, fields, timestamp), "day") ==
      if "day" in Assoc.Keys(fields) then Assoc.Get(fields, "day") else Some(form.day)
    ensures Assoc.Get(NewEntry(form, fields, timestamp), "notes") ==
      if "notes" in Assoc.Keys(fields) then Assoc.Get(fields, "notes") else Some(form.notes)
  {
    NewEntryTimestamp(form, fields, timestamp);
    FormEntryValues(form);
    NewEntryFormKey(form, fields, timestamp, "day");
    NewEntryFormKey(form, fields, timestamp, "notes");
  }

  lemma FormEntryValues(form: LogForm)
    ensures Assoc.Get(FormEntry(form), "day") == Some(form.day)
    ensures Assoc.Get(FormEntry(form), "notes") == Some(form.notes)
  {
    assert FormEntry(form)[1..] == [("notes", form.notes)];
  }

  /** Every other key of the entry reads as in the dynamic fields. */
  lemma NewEntryUserFields(form: LogForm, fields: Log, timestamp: string, k: string)
    requires Assoc.DistinctKeys(fields)
    requires IsUserField(k)
    ensures Assoc.Get(NewEntry(form, fields, timestamp), k) == Assoc.Get(fields, k)
  {
    NewEntryFormKey(form, fields, timestamp, k);
    assert Assoc.Keys(FormEntry(form)) == ["day", "notes"];
  }

  /** The entry's keys: `day`, `notes`, then the new dynamic keys, then `timestamp`. */
  lemma NewEntryKeys(form: LogForm, fields: Log, timestamp: string)
    ensures Assoc.Keys(NewEntry(form, fields, timestamp)) ==
      Seqs.Dedup(["day", "notes"] + Assoc.Keys(fields) + ["timestamp"])
    ensures Assoc.DistinctKeys(NewEntry(form, fields, timestamp))
  {
    var base := FormEntry(form);
    var ts: Log := [("timestamp", timestamp)];
    assert Assoc.Keys(base) == ["day", "notes"];
    assert Assoc.DistinctKeys(base);
    Assoc.OverlayKeys(base, fields);
    var mid := Assoc.Overlay(base, fields);
    Assoc.OverlayKeys(mid, ts);
    assert Assoc.Keys(ts) == ["timestamp"];
    Seqs.DedupPrefix(["day", "notes"] + Assoc.Keys(fields), ["timestamp"]);
  }

  /** Outcome of a submit: the store's collection and the form afterwards. */
  datatype Submitted = Submitted(workouts: seq<Workout>, state: FormState)

  /** `handleAddLog`: on an accepted submit, the workout `id` gains the new entry and the form is
      cleared and closed; otherwise nothing changes. The timestamp is a parameter. */
  function HandleAddLog(ws: seq<Workout>, id: int, st: FormState, timestamp: string): (r: Submitted)
    ensures !CanSubmit(st.form, st.fields) ==> r == Submitted(ws, st)
    ensures CanSubmit(st.form, st.fields) ==> r.state == FormState(BlankForm, [], false)
    ensures |r.workouts| == |ws|
    ensures forall i :: 0 <= i < |ws| && (ws[i].id != id || !CanSubmit(st.form, st.fields)) ==>
      r.workouts[i] == ws[i]
    ensures CanSubmit(st.form, st.fields) ==> forall i :: 0 <= i < |ws| && ws[i].id == id ==>
      r.workouts[i].(logs := ws[i].logs) == ws[i]
      && r.workouts[i].logs == ws[i].logs + [NewEntry(st.form, st.fields, timestamp)]
  {
    if CanSubmit(st.form, st.fields) then
      Submitted(Store.AddLog(ws, id, NewEntry(st.form, st.fields, timestamp)),
        FormState(BlankForm, [], false))
    else Submitted(ws, st)
  }

  /** The custom-field inputs and the dynamic fields they add to. */
  datatype CustomFields = CustomFields(fields: Log, name: string, value: string)

  /** `handleAddCustomField`: with a non-blank name and value, the trimmed name maps to the
      trimmed value and both inputs are cleared; otherwise nothing changes. */
  function HandleAddCustomField(c: CustomFields): (r: CustomFields)
    ensures Text.Trim(c.name) == [] || Text.Trim(c.value) == [] ==> r == c
    ensures Text.Trim(c.name) != [] && Text.Trim(c.value) != [] ==>
      r.name == "" && r.value == ""
      && Assoc.Get(r.fields, Text.Trim(c.name)) == Some(Text.Trim(c.value))
      && forall k :: k != Text.Trim(c.name) ==> Assoc.Get(r.fields, k) == Assoc.Get(c.fields, k)
    ensures Assoc.DistinctKeys(c.fields) ==> Assoc.DistinctKeys(r.fields)
  {
    var n := Text.Trim(c.name);
    var v := Text.Trim(c.value);
    if n != [] && v != [] then
      assert Assoc.DistinctKeys(c.fields) ==> Assoc.DistinctKeys(Assoc.Put(c.fields, n, v)) by {
        if Assoc.DistinctKeys(c.fields) {
          Assoc.PutKeys(c.fields, n, v);
        }
      }
      CustomFields(Assoc.Put(c.fields, n, v), "", "")
    else c
  }

  /** `handleRemoveField`: drops exactly the given key. */
  function HandleRemoveField(fields: Log, name: string): (r: Log)
    ensures Assoc.Get(r, name) == None
    ensures forall k :: k != name ==> Assoc.Get(r, k) == Assoc.Get(fields, k)
    ensures forall kv :: kv in r <==> kv in fields && kv.0 != name
    ensures Assoc.DistinctKeys(fields) ==> Assoc.DistinctKeys(r)
  {
    Assoc.RemoveKeepsOthers(fields, name);
    assert Assoc.DistinctKeys(fields) ==> Assoc.DistinctKeys(Assoc.Remove(fields, name)) by {
      if Assoc.DistinctKeys(fields) {
        Assoc.RemoveDistinct(fields, name);
      }
    }
    Assoc.Remove(fields, name)
  }

  /** Adding a field and removing it again restores a map that lacked it. */
  lemma AddThenRemoveField(c: CustomFields)
    requires Text.Trim(c.name) !in Assoc.Keys(c.fields)
    ensures HandleRemoveField(HandleAddCustomField(c).fields, Text.Trim(c.name)) == c.fields
  {
    var n := Text.Trim(c.name);
    var v := Text.Trim(c.value);
    if n != [] && v != [] {
      assert Assoc.Remove(Assoc.Put(c.fields, n, v), n) == Assoc.Remove(c.fields, n);
    }
  }

  /** The summary panel: sessions, and the workout's duration and calories once per session. */
  function Summary(w: Workout, filtered: seq<Log>): (s: Stats)
    ensures s.sessions == |filtered|
  {
    Stats(|filtered|, w.duration * |filtered|, w.calories * |filtered|)
  }

  /** The per-workout summary agrees with the aggregate totals over the same logs. */
  lemma SummaryAgreesWithTotals(w: Workout, filtered: seq<Log>)
    ensures Summary(w, filtered) == AllLogs.Totals(AllLogs.TagLogs(w, filtered))
  {
    AllLogs.TotalsOfOneWorkout(w, filtered);
  }

  /** The keys of the placeholder table, as written. */
  const PlaceholderKeys: seq<string> := [
    "distance", "time", "avgHR", "sets", "reps", "weight", "rounds", "pace", "speed",
    "exercises", "duration", "poses"]

  /** The table's values, position by position with `PlaceholderKeys`. */
  const PlaceholderValues: seq<string> := [
    "5km", "28:30", "165 bpm", "4x10", "12", "60kg", "10", "5:40/km", "22 km/h",
    "8", "45 min", "20"]

  const DefaultPlaceholder := "Enter value"

  /** `getPlaceholder` as written: the table is read under the lower-cased field name, and a
      missing entry gives the default. */
  function Placeholder(field: string): (r: string)
    ensures Text.Lower(field) !in PlaceholderKeys ==> r == DefaultPlaceholder
    ensures forall i :: 0 <= i < |PlaceholderKeys| && i != 2 && Text.Lower(field) == PlaceholderKeys[i] ==>
      r == PlaceholderValues[i]
  {
    match Text.Lower(field)
    case "distance" => "5km"
    case "time" => "28:30"
    case "avgHR" => "165 bpm"
    case "sets" => "4x10"
    case "reps" => "12"
    case "weight" => "60kg"
    case "rounds" => "10"
    case "pace" => "5:40/km"
    case "speed" => "22 km/h"
    case "exercises" => "8"
    case "duration" => "45 min"
    case "poses" => "20"
    case _ => DefaultPlaceholder
  }

  /** The lookup goes through the lower-cased name, so it ignores case. */
  lemma PlaceholderIgnoresCase(field: string)
    ensures Placeholder(field) == Placeholder(Text.Lower(field))
  {
    Text.LowerIdempotent(field);
  }

  /** No lower-cased name equals `avgHR`. */
  lemma LowerIsNotAvgHR(field: string)
    ensures Text.Lower(field) != "avgHR"
  {
    var l := Text.Lower(field);
    if |l| == 5 {
      assert !Text.IsUpper(l[3]);
    }
  }

  /** The table key `avgHR` holds upper-case letters, which no lower-cased name has, so its
      entry is never returned: `Placeholder("avgHR")` is the default. */
  lemma PlaceholderMissesAvgHR(field: string)
    ensures Placeholder(field) != "165 bpm"
    ensures Placeholder("avgHR") == DefaultPlaceholder
  {
    LowerIsNotAvgHR(field);
    assert Text.Lower("avgHR") == "avghr";
  }

  /** The placeholder lookup as intended: the table key lower-cased, so that `avgHR`, under
      any capitalisation, finds its entry. */
  function PlaceholderCorrected(field: string): (r: string)
    ensures Text.Lower(field) != "avghr" ==> r == Placeholder(field)
  {
    if Text.Lower(field) == "avghr" then "165 bpm" else Placeholder(field)
  }

  /** The corrected lookup ignores case and reaches the heart-rate entry. */
  lemma PlaceholderCorrectedReachesAvgHR(field: string)
    ensures PlaceholderCorrected(Text.Lower(field)) == PlaceholderCorrected(field)
    ensures PlaceholderCorrected("avgHR") == "165 bpm"
    ensures PlaceholderCorrected("AVGHR") == "165 bpm"
  {
    Text.LowerIdempotent(field);
    assert Text.Lower("avgHR") == "avghr";
    assert Text.Lower("AVGHR") == "avghr";
  }
}
