# Fitness tracker core, modelled in Dafny

This project models the data layer of a small client-side fitness tracker, written as a React
single-page application. The model covers:

- **The workout store.** It holds an ordered collection of workouts, each with a free-form log
  list. It has add, update and delete handlers for workouts and for log entries, plus a reset
  handler. Its save effect mirrors the collection into one persisted storage slot.
- **The aggregate log view.** It flattens every log of every workout, tags each log with its
  workout, filters on three conditions, totals the results and groups them by workout name.
- **The per-workout log page.** This covers:
  - the suggested form fields;
  - the case-insensitive day filter;
  - the add-log form, with its custom fields;
  - the summary panel;
  - the field placeholders.
- **The workout catalogue.** It searches and filters by type, keeping both settings in the
  query string.
- **The built-in seed dataset.**

Modelling choices:

- Each handler is a pure function from the old state to the new one.
- A log entry, and a query string, is an association list of `(name, value)` pairs.
  - The list keeps insertion order. The order of suggested fields and of an entry's keys
    depends on it.
  - `Assoc.Put` has the semantics of `URLSearchParams.set` (section 6.2 of the WHATWG URL
    Standard). On a list with distinct keys that are not integer-like, it is also JavaScript
    property assignment.
  - `Assoc.Overlay` is object spread, with the same restriction on key order.
  - JavaScript lists integer-like keys such as `"2"` first, in ascending order. The model keeps
    every key in insertion order (see "Left out").
- The persisted slot is an `Option<seq<Workout>>`.
- The record field `type` is called `kind`, because `type` is a Dafny keyword.
- `toLowerCase` is ASCII lower-casing (`Text.Lower`).
- `trim` strips JavaScript's white-space and line-terminator characters (`Text.Trim`).

Two consequences of the save effect are easy to miss, and the model states both:

- **Emptying the collection.** The save effect writes only a non-empty collection. Deleting the
  last workout therefore leaves the previous snapshot in the slot, and that workout comes back
  on the next start (`Store.DeletingLastWorkoutIsNotPersisted`).
- **Reset.** Reset removes the slot, but the new collection is the seed, which is non-empty.
  The save effect that follows therefore writes the seed straight back (`Store.Step` on
  `ResetOp`). Either way, the next load yields the seed.

## Model

| member | source | states |
|---|---|---|
| Seqs.Filter | src/pages/AllLogs.jsx:25-33 | `filter` keeps exactly the elements that satisfy the predicate, and keeps everything when all do |
| Seqs.FilterCounts | src/pages/AllLogs.jsx:25-33 | `filter` keeps each accepted element with its multiplicity and drops the rest |
| Seqs.FilterSubseq | src/pages/AllLogs.jsx:25-33 | `filter` keeps the original order |
| Seqs.Dedup | src/pages/AllLogs.jsx:36 | `[...new Set(xs)]` has no duplicates and the same members as `xs` |
| Seqs.DedupFirstOccurrenceOrder | src/pages/AllLogs.jsx:36 | a `Set` lists its members in the order of their first insertion |
| Text.Lower | src/pages/WorkoutList.jsx:14-15 | `toLowerCase` keeps the length and lower-cases each character; applying it twice is applying it once (with `Text.LowerIdempotent`) |
| Text.Includes | src/pages/WorkoutList.jsx:14-15 | `includes` holds exactly when the query occurs at some position of the string |
| Text.Trim | src/pages/WorkoutLogs.jsx:88 | `trim` is empty exactly for an all-white-space string; otherwise it starts and ends with a non-space and sits inside the string between white-space runs |
| Assoc.Get | src/pages/WorkoutLogs.jsx:21 | a read finds nothing exactly when the key is absent, and otherwise finds a value stored under that key |
| Assoc.GetFirst | src/pages/WorkoutLogs.jsx:21 | with a repeated key, the read returns the value of the first pair under it, as `URLSearchParams.get` does |
| Assoc.Remove | src/pages/WorkoutLogs.jsx:123-127 | `delete`: the key is gone, every other key reads as before, and an absent key leaves the list as it was |
| Assoc.RemoveKeepsOthers | src/pages/WorkoutLogs.jsx:123-127 | removal keeps exactly the pairs under other keys, in their order, each as many times as it occurred (a repeated `a=1&a=1` survives deleting `b`) |
| Assoc.RemoveIsFilter | src/pages/WorkoutLogs.jsx:123-127 | removal equals the filter that keeps every pair under another key |
| Assoc.Put | src/pages/WorkoutLogs.jsx:112-121 | after a store, the key reads back the new value, every other key reads as before, and removing the key gives the same list as before the store |
| Assoc.PutAbsent | src/pages/WorkoutLogs.jsx:114-117 | a new key is appended after every existing pair |
| Assoc.PutPresentKeys | src/pages/WorkoutLogs.jsx:114-117 | on distinct keys, storing under an existing key keeps the key order |
| Assoc.PutKeys | src/pages/WorkoutLogs.jsx:112-121 | on distinct keys, an existing key keeps its position and a new key is appended last; the keys stay distinct |
| Assoc.Overlay | src/pages/WorkoutLogs.jsx:89-93 | object spread: a key of the later object takes its value there, every other key keeps the earlier value |
| Assoc.OverlayKeys | src/pages/WorkoutLogs.jsx:89-93 | the spread's keys are the earlier keys in place, then the new keys of the later object in its order, without repeats |
| Workouts.Find | src/pages/WorkoutLogs.jsx:22 | `find` returns the first record with that id, and returns nothing exactly when no record has that id |
| Store.MaxId | src/context/WorkoutContext.jsx:30 | the maximum of 0 and the ids is at least every id, and is 0 or one of the ids |
| Store.AddWorkout | src/context/WorkoutContext.jsx:27-35 | the new id is at least 1, above every existing id, and is 1 or one more than an existing id; the old records form an unchanged prefix; the new record is last, has the caller's fields and an empty log list |
| Store.AddWorkoutKeepsDistinctIds | src/context/WorkoutContext.jsx:27-33 | distinct ids stay distinct after an add |
| Store.AddAllIdsIncrease | src/context/WorkoutContext.jsx:27-35 | successive adds return strictly increasing ids that exceed every earlier id, and keep ids distinct |
| Store.Merge | src/context/WorkoutContext.jsx:40 | `{ ...workout, ...updatedData }`: each field comes from the patch when the patch has it, otherwise from the record; `Store.MergeEmpty` and `Store.MergeIdempotent` state that an empty patch changes nothing and a repeated patch changes nothing more |
| Store.UpdateWorkout | src/context/WorkoutContext.jsx:38-42 | the length and order are kept; a matching record becomes the shallow merge; every other record is identical; an absent id changes nothing |
| Store.DeleteWorkout | src/context/WorkoutContext.jsx:45-47 | no record with the id remains; every other record is kept, with its multiplicity and in its order; an absent id changes nothing; distinct ids stay distinct |
| Store.UpdateAfterDelete | src/context/WorkoutContext.jsx:38-47 | updating a just-deleted id is a no-op |
| Store.AddLog | src/context/WorkoutContext.jsx:50-60 | a matching workout gains exactly the new entry, last, with all its other fields unchanged; other workouts are identical; an unknown id changes nothing |
| Store.FindAdjust | src/context/WorkoutContext.jsx:51-59 | a per-record rewrite that keeps ids is what `find` then sees |
| Store.AddLogThenFind | src/context/WorkoutContext.jsx:50-60 | reading the workout back after `addLog` shows its old logs plus the new entry |
| Store.UpdateLog | src/context/WorkoutContext.jsx:63-75 | with an index in range, only that position of a matching workout changes and the length is kept; at an index equal to the length the entry is appended; the other fields are kept; other workouts are identical |
| Store.UpdateLogAtEndIsAddLog | src/context/WorkoutContext.jsx:66-67 | updating at the index one past the last entry of every matching workout is the same as adding the entry |
| Store.DropIndex | src/context/WorkoutContext.jsx:83 | an index in range removes exactly that entry (`logs[..i] + logs[i+1..]`); any other index removes nothing |
| Store.DeleteLog | src/context/WorkoutContext.jsx:78-88 | a matching workout loses entry i when i is in range and nothing otherwise; other workouts and fields are unchanged |
| Store.Load | src/context/WorkoutContext.jsx:11-16 | the load effect yields the stored snapshot when there is one, otherwise the seed; `Store.Sync` and `Store.ReloadRoundTrip` state that a saved collection loads back |
| Store.Sync | src/context/WorkoutContext.jsx:20-24 | the save effect writes a non-empty collection, which then loads back; an empty collection leaves the slot as it was |
| Store.Mount | src/context/WorkoutContext.jsx:10-24 | start-up uses the snapshot when present; with no snapshot, the seed is loaded and written back |
| Store.Reset | src/context/WorkoutContext.jsx:91-94 | reset restores the seed and removes the slot |
| Store.Step | src/context/WorkoutContext.jsx:26-94 | each action yields the collection of its handler (the seed after reset); after the save effect the slot holds a non-empty collection, an empty one leaves the slot untouched, and after reset the slot holds the seed again |
| Store.ReloadRoundTrip | src/context/WorkoutContext.jsx:10-24 | persist then restart gives back a non-empty collection exactly |
| Store.DeletingLastWorkoutIsNotPersisted | src/context/WorkoutContext.jsx:20-24 | deleting the only workout empties the collection, but a restart brings that workout back |
| AllLogs.Tag | src/pages/AllLogs.jsx:14-21 | an entry exposes its workout's id, name, type, duration and calories over same-named log keys; every other key reads as in the log |
| AllLogs.TagLogs | src/pages/AllLogs.jsx:14-21 | one tagged entry per log, in the log order |
| AllLogs.Flatten | src/pages/AllLogs.jsx:13-22 | `flatMap`: each workout's tagged logs, workout by workout; its length, splitting and positions are stated by the next three rows |
| AllLogs.FlattenLength | src/pages/AllLogs.jsx:13-22 | the flattened list has as many entries as all workouts have logs together |
| AllLogs.FlattenAppend | src/pages/AllLogs.jsx:13-22 | flattening distributes over concatenation (workout-major order) |
| AllLogs.FlattenPosition | src/pages/AllLogs.jsx:13-22 | log j of workout i sits right after the entries of the earlier workouts, at offset j |
| AllLogs.SearchHit | src/pages/AllLogs.jsx:28-30 | the lower-cased query occurs in the lower-cased workout name, or in the lower-cased notes when the log has non-empty notes |
| AllLogs.Matches | src/pages/AllLogs.jsx:26-32 | an empty type, day or query accepts everything; otherwise the type and day must equal the filter (the day case-sensitively) and the search must hit |
| AllLogs.FilterLogs | src/pages/AllLogs.jsx:25-33 | the result is an order-preserving subsequence; every kept entry meets the type, day and search conditions; every matching entry is kept with its multiplicity; empty filters keep everything |
| AllLogs.FilterFlattenAppend | src/pages/AllLogs.jsx:13-33 | filtering the flattened logs of two runs of workouts gives the filtered logs of the first run followed by those of the second |
| AllLogs.UniqueDays | src/pages/AllLogs.jsx:36 | the days are duplicate-free and are exactly the `day` values of the entries |
| AllLogs.Totals | src/pages/AllLogs.jsx:39-41 | the entry count, and the sums of the entries' workout durations and calories |
| AllLogs.TotalsAppend | src/pages/AllLogs.jsx:39-41 | each of the three totals is additive over concatenation of the entries |
| AllLogs.TotalsOfOneWorkout | src/pages/AllLogs.jsx:39-41 | the totals over one workout's entries are its log count, and its duration and calories times that count |
| AllLogs.TotalsOfFlatten | src/pages/AllLogs.jsx:39-41 | unfiltered totals count every log, and charge each workout's duration and calories once per log |
| AllLogs.GroupStep | src/pages/AllLogs.jsx:44-50 | one `reduce` step: the entry joins the group of its name, or opens a new group at the end; `AllLogs.GroupStepSpec` states it against the reference grouping |
| AllLogs.GroupFold | src/pages/AllLogs.jsx:44-50 | the `reduce` over the filtered entries; `AllLogs.GroupFoldSpec` states it against the reference grouping |
| AllLogs.GroupStepSpec | src/pages/AllLogs.jsx:44-50 | on distinct names, one step turns the reference grouping of the entries so far into that of the entries plus one |
| AllLogs.GroupFoldSpec | src/pages/AllLogs.jsx:44-50 | folding the remaining entries into the reference grouping of a prefix gives the reference grouping of the whole |
| AllLogs.GroupByName | src/pages/AllLogs.jsx:44-50 | groups are ordered by the first occurrence of each name; each holds exactly that name's entries in order, is non-empty, and no two share a name; every entry lands in a group |
| AllLogs.GroupByNameIsReference | src/pages/AllLogs.jsx:44-50 | the `reduce` fold equals the reference grouping, one filter per distinct name |
| AllLogs.ReferenceSizesSum | src/pages/AllLogs.jsx:44-50 | the reference groups' sizes add up to the number of entries |
| AllLogs.GroupSizesSum | src/pages/AllLogs.jsx:44-50 | the group sizes add up to the number of filtered entries |
| SearchParams.Read | src/pages/WorkoutList.jsx:9-10 | `get(name) \|\| ''` is empty for an absent name, and otherwise is the value of the first pair under the name |
| SearchParams.SetOrDelete | src/pages/WorkoutLogs.jsx:66-76 | a non-empty value is set and an empty one deletes the name; the name reads back as the value; pairs under other names are unchanged, in their order |
| WorkoutLogs.AllKeys | src/pages/WorkoutLogs.jsx:48-54 | the collected keys are exactly the keys of some log |
| WorkoutLogs.SuggestedFields | src/pages/WorkoutLogs.jsx:36-56 | with no logs, the type defaults; otherwise duplicate-free, excluding `day`/`notes`/`timestamp`, and holding exactly every other key of any log |
| WorkoutLogs.SuggestedFieldsOrder | src/pages/WorkoutLogs.jsx:46-55 | the suggested fields come in the order their keys first appear among the logs |
| WorkoutLogs.FilterByDay | src/pages/WorkoutLogs.jsx:61-63 | an empty filter returns all logs; otherwise an order-preserving subsequence of exactly the case-insensitive day matches, or failure when a log has no `day` |
| WorkoutLogs.FilterByDayIgnoresCase | src/pages/WorkoutLogs.jsx:62 | lower-casing the filter value does not change the result |
| WorkoutLogs.HandleDayFilter | src/pages/WorkoutLogs.jsx:66-76 | `day` reads back as the choice, is absent for "All Days", and every other parameter is unchanged |
| WorkoutLogs.UniqueDays | src/pages/WorkoutLogs.jsx:79 | the day buttons are duplicate-free and are exactly the `day` values of the logs |
| WorkoutLogs.CanSubmit | src/pages/WorkoutLogs.jsx:88 | a submit is accepted when the trimmed notes are non-empty or there is at least one dynamic field |
| WorkoutLogs.NewEntry | src/pages/WorkoutLogs.jsx:89-93 | `{ ...newLog, ...dynamicFields, timestamp }`; its values and keys are stated by the next five rows |
| WorkoutLogs.NewEntryFormKey | src/pages/WorkoutLogs.jsx:89-93 | in the new entry, a dynamic field wins over the form's own inputs |
| WorkoutLogs.NewEntryTimestamp | src/pages/WorkoutLogs.jsx:92 | the new entry's timestamp is the one supplied, whatever the dynamic fields hold |
| WorkoutLogs.NewEntryValues | src/pages/WorkoutLogs.jsx:89-93 | later sources win: the timestamp always, and a dynamic `day`/`notes` over the form's |
| WorkoutLogs.NewEntryUserFields | src/pages/WorkoutLogs.jsx:89-93 | every other key of the entry reads as in the dynamic fields |
| WorkoutLogs.NewEntryKeys | src/pages/WorkoutLogs.jsx:89-93 | the entry's keys are `day`, `notes`, then the new dynamic keys, then `timestamp`, all distinct |
| WorkoutLogs.HandleAddLog | src/pages/WorkoutLogs.jsx:85-99 | a submit with blank notes and no dynamic field changes nothing; otherwise the workout gains the new entry last, other workouts are identical, and the form is reset and closed |
| WorkoutLogs.HandleAddCustomField | src/pages/WorkoutLogs.jsx:112-121 | only a non-blank name and value change anything; the trimmed name then maps to the trimmed value, other keys are kept, and both inputs are cleared; keys stay distinct |
| WorkoutLogs.HandleRemoveField | src/pages/WorkoutLogs.jsx:123-127 | only the given key is dropped; every other pair is kept; keys stay distinct |
| WorkoutLogs.AddThenRemoveField | src/pages/WorkoutLogs.jsx:112-127 | adding a new custom field and then removing it restores the fields |
| WorkoutLogs.Summary | src/pages/WorkoutLogs.jsx:393 | the session count is the number of filtered logs |
| WorkoutLogs.SummaryAgreesWithTotals | src/pages/WorkoutLogs.jsx:386-410 | the per-workout summary (sessions, duration times sessions, calories times sessions) equals the aggregate totals over the same logs |
| WorkoutLogs.Placeholder | src/pages/WorkoutLogs.jsx:428-444 | a name whose lower-cased form is a table key (other than `avgHR`) gets that key's value; any other name gets `Enter value` |
| WorkoutLogs.PlaceholderIgnoresCase | src/pages/WorkoutLogs.jsx:443 | the table is read under the lower-cased name, so a name and its lower-cased form get the same placeholder |
| WorkoutLogs.LowerIsNotAvgHR | src/pages/WorkoutLogs.jsx:432 | no lower-cased name equals the mixed-case key `avgHR` |
| WorkoutLogs.PlaceholderMissesAvgHR | src/pages/WorkoutLogs.jsx:428-444 | the `165 bpm` placeholder is never returned, and `avgHR` gets the default |
| WorkoutLogs.PlaceholderCorrected | src/pages/WorkoutLogs.jsx:428-444 | the intended lookup agrees with the written one on every name other than the heart-rate key |
| WorkoutLogs.PlaceholderCorrectedReachesAvgHR | src/pages/WorkoutLogs.jsx:428-444 | the intended lookup ignores case and returns `165 bpm` for `avgHR` |
| WorkoutList.SearchHit | src/pages/WorkoutList.jsx:14-15 | the lower-cased query occurs in the lower-cased name or the lower-cased description |
| WorkoutList.TypeHit | src/pages/WorkoutList.jsx:16 | an empty type filter accepts every type; otherwise the type must equal it |
| WorkoutList.Matching | src/pages/WorkoutList.jsx:13-18 | the result is an order-preserving subsequence holding exactly the workouts whose lower-cased name or description contains the lower-cased query, and whose type equals a non-empty filter, each with its multiplicity |
| WorkoutList.FilteredWorkouts | src/pages/WorkoutList.jsx:13-18 | the listing is drawn from the static seed only, and lists exactly the seed workouts that meet both conditions of the query string |
| WorkoutList.EmptyQueryMatchesAll | src/pages/WorkoutList.jsx:14-16 | an empty query filters nothing out; with no type either, the input comes back unchanged |
| WorkoutList.NoParamsListsSeed | src/pages/WorkoutList.jsx:9-18 | with neither `q` nor `type` set, the page lists the whole seed |
| WorkoutList.HandleSearchChange | src/pages/WorkoutList.jsx:21-32 | `q` reads back as typed, `type` and the other parameters are unchanged, and the listing changes only in its search condition |
| WorkoutList.HandleTypeChange | src/pages/WorkoutList.jsx:35-45 | `type` reads back as picked, `q` and the other parameters are unchanged, and the listing changes only in its type condition |
| SeedFacts.SeedIds | src/data/workouts.js:2-109 | the seed has 8 workouts with ids 1 to 8 in array order, pairwise distinct |
| SeedFacts.SeedEnums | src/data/workouts.js:2-109 | every type is `cardio` or `strength`; every difficulty is `beginner`, `intermediate` or `advanced` |
| SeedFacts.SeedLogsWellFormed | src/data/workouts.js:11-107 | every seed log has a lower-case weekday under `day`, and has `notes` |
| SeedFacts.SeedNextId | src/data/workouts.js:97 | the largest seed id is 8, so the first added workout gets 9 |
| SeedFacts.SeedIsPersisted | src/data/workouts.js:2-109 | the seed is non-empty, so a first start writes it to storage |
| SeedFacts.SeedQuickStats | src/data/workouts.js:2-109 | over the seed: 8 workouts, 2290 calories, 315 minutes |
| SeedFacts.HomeMinutesDisagree | src/pages/Home.jsx:45-56 | the home page's typed-in count and calories match the seed, but its minutes are 50 more than the seed's |

## Left out

- Local storage and JSON: the slot is abstract, and serialising then parsing is taken to give the collection back unchanged. A snapshot that fails to parse, which throws in the code, is not modelled.
- The clock: the timestamp of a new log is a parameter.
- `confirm` dialogs and `toLocaleString` formatting: user interaction and display only.
- Rendering, routing, the settings page and the workout detail page: markup and local UI state only.
- Store.Step: React's batching is not modelled; each handler is one atomic step from the old collection to the new one. One further case is not modelled: when reset is called while the collection is still the seed array itself, React skips the re-render, so the slot stays removed rather than being rewritten. Either slot loads the seed.
- Text.Lower: lower-cases ASCII letters only, not the full Unicode mapping.
- AllLogs.GroupByName: groups follow first-occurrence order. A JavaScript object lists integer-like names such as `"12"` first, and names inherited from the object prototype, such as `constructor`, misbehave; neither is modelled.
- Assoc.PutAbsent: a new key is appended at the end. In a JavaScript object, a new integer-like key such as `"2"` goes before every non-integer key instead; such keys are not modelled.
- Assoc.PutKeys: the same restriction; the key order stated holds for keys that are not integer-like.
- Assoc.OverlayKeys: the spread's key order is stated for keys that are not integer-like; JavaScript lists integer-like keys first, in ascending order.
- WorkoutLogs.NewEntryKeys: with an integer-like dynamic field such as `"2"`, JavaScript lists it before `day`; the model lists it after `notes`.
- WorkoutLogs.SuggestedFieldsOrder: the order follows each log's key order, so an integer-like field is suggested later than JavaScript's `Object.keys` would list it.
- Store.UpdateWorkout: a patch carries only the record's eight fields. Extra properties that the spread would copy are not modelled, and neither are explicit `undefined` values, which the spread would copy over a field.
- WorkoutLogs.Placeholder: names inherited from the object prototype, such as `constructor`, are not modelled; in the code they return a non-string value.
- Store.MaxId: spreading an array with more elements than the engine's argument limit into `Math.max` is not modelled, and neither are non-numeric ids.
- Store.AddWorkout: a draft is a full record, so extra fields the caller passes along are not modelled.
- Store.UpdateLog: requires the index to be at most the number of entries of a matching workout. An index equal to that number appends the entry, and is modelled (`Store.UpdateLogAtEndIsAddLog`). A negative index is modelled too, and leaves the entries alone. An index further past the end grows a sparse array with holes, which a sequence cannot hold.
- WorkoutLogs.FilterByDay: a log without `day` makes the code throw; here the whole result is `None`. Values are always strings, so a non-string `day` does not arise.
- WorkoutLogs.HandleAddLog: the identifier comes from the route as an integer; `parseInt` on the route text is not modelled.
- Deleting a log from the log page passes `indexOf` of the rendered entry, an identity lookup. Objects have no identity here, so that step is not modelled; `Store.DeleteLog` takes the index directly.
- Typing into a suggested-field input, which stores the raw value under the field, is not modelled; the custom-field path is.
- Numbers are unbounded integers. In the code, ids, durations and calories are JavaScript numbers, which are exact integers only up to 2^53 in magnitude; sums and ids beyond that bound are not modelled. Fractional durations, calories and ids are not modelled either.

## Findings

| source | as written | input that shows it | evidently intended | confidence | as-written member | corrected member |
|---|---|---|---|---|---|---|
| src/pages/WorkoutLogs.jsx:428-444 | the placeholder table has the mixed-case key `avgHR`, but is read under the lower-cased field name | a cardio workout with no logs suggests `avgHR`; its placeholder is `Enter value` instead of `165 bpm` | the heart-rate field gets `165 bpm`, like every other table key | high, not executed | WorkoutLogs.PlaceholderMissesAvgHR | WorkoutLogs.PlaceholderCorrectedReachesAvgHR |
| src/pages/Home.jsx:54 | the home page shows 365 minutes exercised | the seed's durations sum to 315 | the figure matches the seed, as the workout count (8) and calories (2290) do | medium, not executed | SeedFacts.HomeMinutesDisagree | SeedFacts.SeedQuickStats |
