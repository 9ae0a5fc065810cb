/** The aggregate log view of `src/pages/AllLogs.jsx`: every log of every workout, tagged with
    its workout, filtered, summed and grouped by workout name. */
module AllLogs {
  import opened Wrappers
  import Seqs
  import Text
  import Assoc
  import opened Workouts

  /** `{ ...log, workoutId, workoutName, workoutType, workoutDuration, workoutCalories }`. */
  datatype Entry = Entry(
    log: Log,
    workoutId: int,
    workoutName: string,
    workoutType: string,
    workoutDuration: int,
    workoutCalories: int)

  /** A property value of an aggregate entry. */
  datatype Value = Str(s: string) | Num(n: int)

  /** Property read on an aggregate entry. */
  function Field(e: Entry, k: string): Option<Value> {
    if k == "workoutId" then Some(Num(e.workoutId))
    else if k == "workoutName" then Some(Str(e.workoutName))
    else if k == "workoutType" then Some(Str(e.workoutType))
    else if k == "workoutDuration" then Some(Num(e.workoutDuration))
    else if k == "workoutCalories" then Some(Num(e.workoutCalories))
    else match Assoc.Get(e.log, k)
      case Some(v) => Some(Str(v))
      case None => None
  }

  predicate IsTagKey(k: string) {
    k in ["workoutId", "workoutName", "workoutType", "workoutDuration", "workoutCalories"]
  }

  /** One log spread together with its workout's fields: the five workout fields win over
      same-named keys of the log, every other key reads as in the log. */
  function Tag(w: Workout, log: Log): (e: Entry)
    ensures Field(e, "workoutId") == Some(Num(w.id))
    ensures Field(e, "workoutName") == Some(Str(w.name))
    ensures Field(e, "workoutType") == Some(Str(w.kind))
    ensures Field(e, "workoutDuration") == Some(Num(w.duration))
    ensures Field(e, "workoutCalories") == Some(Num(w.calories))
    ensures forall k :: !IsTagKey(k) ==>
      Field(e, k) == match Assoc.Get(log, k) case Some(v) => Some(Str(v)) case None => None
  {
    Entry(log, w.id, w.name, w.kind, w.duration, w.calories)
  }

  /** `workout.logs.map(log => ({ ...log, ...workout fields }))`. */
  function TagLogs(w: Workout, logs: seq<Log>): (r: seq<Entry>)
    ensures |r| == |logs|
    ensures forall i :: 0 <= i < |logs| ==> r[i] == Tag(w, logs[i])
  {
    seq(|logs|, i requires 0 <= i < |logs| => Tag(w, logs[i]))
  }

  function LogCount(w: Workout): int {
    |w.logs|
  }

  /** `workouts.flatMap(...)`: all logs, workout by workout, each workout's logs in order. */
  function Flatten(ws: seq<Workout>): seq<Entry> {
    if ws == [] then [] else TagLogs(ws[0], ws[0].logs) + Flatten(ws[1..])
  }

  /** There is one entry per log of every workout. */
  lemma {:induction false} FlattenLength(ws: seq<Workout>)
    ensures |Flatten(ws)| == Seqs.Sum(ws, LogCount)
  {
    if ws != [] {
      FlattenLength(ws[1..]);
    }
  }

  lemma {:induction false} FlattenAppend(a: seq<Workout>, b: seq<Workout>)
    ensures Flatten(a + b) == Flatten(a) + Flatten(b)
  {
    if a == [] {
      assert a + b == b;
    } else {
      assert (a + b)[0] == a[0];
      assert (a + b)[1..] == a[1..] + b;
      FlattenAppend(a[1..], b);
    }
  }

  lemma FlattenCons(ws: seq<Workout>)
    requires ws != []
    ensures Flatten(ws) == TagLogs(ws[0], ws[0].logs) + Flatten(ws[1..])
  {
  }

  lemma FlattenSplit(ws: seq<Workout>, i: int)
    requires 0 <= i < |ws|
    ensures Flatten(ws) == Flatten(ws[..i]) + (TagLogs(ws[i], ws[i].logs) + Flatten(ws[i + 1..]))
  {
    var suf := ws[i..];
    assert ws == ws[..i] + suf;
    FlattenAppend(ws[..i], suf);
    assert suf[0] == ws[i] && suf[1..] == ws[i + 1..];
    FlattenCons(suf);
  }

  /** Log `j` of workout `i` sits after all entries of the earlier workouts (whose number is
      their total log count, by `FlattenLength`), at offset `j`. */
  lemma FlattenPosition(ws: seq<Workout>, i: int, j: int)
    requires 0 <= i < |ws| && 0 <= j < |ws[i].logs|
    ensures |Flatten(ws[..i])| + j < |Flatten(ws)|
    ensures Flatten(ws)[|Flatten(ws[..i])| + j] == Tag(ws[i], ws[i].logs[j])
  {
    var pre := Flatten(ws[..i]);
    var mid := TagLogs(ws[i], ws[i].logs);
    var post := Flatten(ws[i + 1..]);
    FlattenSplit(ws, i);
    IndexMiddle(pre, mid, post, j);
  }

  lemma IndexMiddle<T>(pre: seq<T>, mid: seq<T>, post: seq<T>, j: int)
    requires 0 <= j < |mid|
    ensures |pre| + j < |pre + (mid + post)|
    ensures (pre + (mid + post))[|pre| + j] == mid[j]
  {
  }

  /** `log.workoutName.toLowerCase().includes(q)` or, when the log has non-empty notes,
      `log.notes.toLowerCase().includes(q)`, with `q` the lower-cased query. */
  predicate SearchHit(e: Entry, query: string) {
    Text.Includes(Text.Lower(e.workoutName), Text.Lower(query))
    || (NotesOf(e.log).Some? && NotesOf(e.log).value != ""
        && Text.Includes(Text.Lower(NotesOf(e.log).value), Text.Lower(query)))
  }

  /** The three conditions of the filter; an empty filter value accepts everything. */
  predicate Matches(e: Entry, kind: string, day: string, query: string) {
    (kind == "" || e.workoutType == kind)
    && (day == "" || DayOf(e.log) == Some(day))
    && (query == "" || SearchHit(e, query))
  }

  /** `filteredLogs`: the entries meeting all three conditions, in their original order. */
  function FilterLogs(entries: seq<Entry>, kind: string, day: string, query: string): (r: seq<Entry>)
    ensures Seqs.IsSubseq(r, entries)
    ensures forall e :: e in r ==>
      (kind == "" || e.workoutType == kind)
      && (day == "" || DayOf(e.log) == Some(day))
      && (query == "" || SearchHit(e, query))
    ensures forall e :: e in entries && Matches(e, kind, day, query) ==> multiset(r)[e] == multiset(entries)[e]
    ensures kind == "" && day == "" && query == "" ==> r == entries
  {
    Seqs.FilterCounts(entries, (e: Entry) => Matches(e, kind, day, query));
    Seqs.FilterSubseq(entries, (e: Entry) => Matches(e, kind, day, query));
    Seqs.Filter(entries, (e: Entry) => Matches(e, kind, day, query))
  }

  /** Filtering the flattened logs of two runs of workouts is filtering each run's logs: the
      filter works entry by entry, whichever workout an entry came from. */
  lemma FilterFlattenAppend(a: seq<Workout>, b: seq<Workout>, kind: string, day: string, query: string)
    ensures FilterLogs(Flatten(a + b), kind, day, query)
      == FilterLogs(Flatten(a), kind, day, query) + FilterLogs(Flatten(b), kind, day, query)
  {
    FlattenAppend(a, b);
    Seqs.FilterAppend(Flatten(a), Flatten(b), (e: Entry) => Matches(e, kind, day, query));
  }

  /** The `day` value of every entry, undefined for an entry without one. */
  function Days(entries: seq<Entry>): (ds: seq<Option<string>>)
    ensures |ds| == |entries|
    ensures forall i :: 0 <= i < |entries| ==> ds[i] == DayOf(entries[i].log)
  {
    seq(|entries|, i requires 0 <= i < |entries| => DayOf(entries[i].log))
  }

  /** `uniqueDays`: each day value occurring among the entries, once. */
  function UniqueDays(entries: seq<Entry>): (r: seq<Option<string>>)
    ensures Seqs.NoDups(r)
    ensures forall d :: d in r <==> exists i :: 0 <= i < |entries| && DayOf(entries[i].log) == d
  {
    var ds := Days(entries);
    assert forall d :: d in ds <==> exists i :: 0 <= i < |entries| && ds[i] == d;
    Seqs.Dedup(ds)
  }

  function Duration(e: Entry): int {
    e.workoutDuration
  }

  function Calories(e: Entry): int {
    e.workoutCalories
  }

  /** `totalSessions`, `totalMinutes` and `totalCalories` of the filtered entries. */
  function Totals(entries: seq<Entry>): Stats {
    Stats(|entries|, Seqs.Sum(entries, Duration), Seqs.Sum(entries, Calories))
  }

  /** The totals are additive: splitting the entries splits each of the three figures. */
  lemma TotalsAppend(a: seq<Entry>, b: seq<Entry>)
    ensures Totals(a + b).sessions == Totals(a).sessions + Totals(b).sessions
    ensures Totals(a + b).minutes == Totals(a).minutes + Totals(b).minutes
    ensures Totals(a + b).calories == Totals(a).calories + Totals(b).calories
  {
    Seqs.SumAppend(a, b, Duration);
    Seqs.SumAppend(a, b, Calories);
  }

  /** The entries of one workout add up to its duration and calories once per log. */
  lemma TotalsOfOneWorkout(w: Workout, logs: seq<Log>)
    ensures Totals(TagLogs(w, logs)) == Stats(|logs|, w.duration * |logs|, w.calories * |logs|)
  {
    var es := TagLogs(w, logs);
    Seqs.SumConst(es, Duration, w.duration);
    Seqs.SumConst(es, Calories, w.calories);
  }

  function MinutesLogged(w: Workout): int {
    w.duration * |w.logs|
  }

  function CaloriesLogged(w: Workout): int {
    w.calories * |w.logs|
  }

  /** With no filter, the totals count every log and charge each workout's duration and
      calories once per log. */
  lemma {:induction false} TotalsOfFlatten(ws: seq<Workout>)
    ensures Totals(Flatten(ws)).sessions == Seqs.Sum(ws, LogCount)
    ensures Totals(Flatten(ws)).minutes == Seqs.Sum(ws, MinutesLogged)
    ensures Totals(Flatten(ws)).calories == Seqs.Sum(ws, CaloriesLogged)
  {
    if ws != [] {
      TotalsOfFlatten(ws[1..]);
      var head := TagLogs(ws[0], ws[0].logs);
      TotalsOfOneWorkout(ws[0], ws[0].logs);
      Seqs.SumAppend(head, Flatten(ws[1..]), Duration);
      Seqs.SumAppend(head, Flatten(ws[1..]), Calories);
    }
  }

  /** One group of `logsByWorkout`. */
  datatype Group = Group(name: string, logs: seq<Entry>)

  /** One step of the `reduce`: the entry joins the group of its workout name, or opens a
      new group at the end. */
  function GroupStep(acc: seq<Group>, e: Entry): seq<Group> {
    if acc == [] then [Group(e.workoutName, [e])]
    else if acc[0].name == e.workoutName then [acc[0].(logs := acc[0].logs + [e])] + acc[1..]
    else [acc[0]] + GroupStep(acc[1..], e)
  }

  function GroupFold(acc: seq<Group>, es: seq<Entry>): seq<Group>
    decreases |es|
  {
    if es == [] then acc else GroupFold(GroupStep(acc, es[0]), es[1..])
  }

  function Names(es: seq<Entry>): (ns: seq<string>)
    ensures |ns| == |es|
    ensures forall i :: 0 <= i < |es| ==> ns[i] == es[i].workoutName
  {
    seq(|es|, i requires 0 <= i < |es| => es[i].workoutName)
  }

  /** The entries of one workout name, in order. */
  function WithName(es: seq<Entry>, n: string): seq<Entry> {
    if es == [] then []
    else (if es[0].workoutName == n then [es[0]] else []) + WithName(es[1..], n)
  }

  lemma {:induction false} WithNameMembers(es: seq<Entry>, n: string)
    ensures forall e :: e in WithName(es, n) <==> e in es && e.workoutName == n
  {
    if es != [] {
      WithNameMembers(es[1..], n);
      assert es == [es[0]] + es[1..];
    }
  }

  lemma {:induction false} WithNameAppend(a: seq<Entry>, b: seq<Entry>, n: string)
    ensures WithName(a + b, n) == WithName(a, n) + WithName(b, n)
  {
    if a != [] {
      WithNameAppend(a[1..], b, n);
      assert (a + b)[1..] == a[1..] + b;
      Seqs.AppendAssoc(if a[0].workoutName == n then [a[0]] else [], WithName(a[1..], n), WithName(b, n));
    } else {
      assert a + b == b;
    }
  }

  /** Reference grouping: one group per name of `ks`, holding that name's entries. */
  function GroupsFor(ks: seq<string>, es: seq<Entry>): (gs: seq<Group>)
    ensures |gs| == |ks|
  {
    if ks == [] then [] else [Group(ks[0], WithName(es, ks[0]))] + GroupsFor(ks[1..], es)
  }

  lemma {:induction false} GroupsForAt(ks: seq<string>, es: seq<Entry>, i: int)
    requires 0 <= i < |ks|
    ensures GroupsFor(ks, es)[i] == Group(ks[i], WithName(es, ks[i]))
  {
    if i > 0 {
      GroupsForAt(ks[1..], es, i - 1);
    }
  }

  lemma WithNameSnoc(p: seq<Entry>, e: Entry, n: string)
    ensures WithName(p + [e], n) == WithName(p, n) + if e.workoutName == n then [e] else []
  {
    WithNameAppend(p, [e], n);
    assert WithName([e], n) == (if e.workoutName == n then [e] else []) + WithName([], n);
  }

  lemma WithNameAbsent(p: seq<Entry>, n: string)
    requires n !in Names(p)
    ensures WithName(p, n) == []
  {
    WithNameMembers(p, n);
    forall e | e in p
      ensures e.workoutName != n
    {
      var i :| 0 <= i < |p| && p[i] == e;
      assert Names(p)[i] == e.workoutName;
    }
    assert forall e :: e !in WithName(p, n);
  }

  /** An entry whose name has no group leaves every group unchanged. */
  lemma {:induction false} GroupsForIgnores(ks: seq<string>, p: seq<Entry>, e: Entry)
    requires e.workoutName !in ks
    ensures GroupsFor(ks, p + [e]) == GroupsFor(ks, p)
  {
    if ks != [] {
      WithNameSnoc(p, e, ks[0]);
      assert WithName(p + [e], ks[0]) == WithName(p, ks[0]);
      GroupsForIgnores(ks[1..], p, e);
      assert GroupsFor(ks, p + [e]) == [Group(ks[0], WithName(p + [e], ks[0]))] + GroupsFor(ks[1..], p + [e]);
    }
  }

  lemma {:induction false} GroupStepSpec(ks: seq<string>, p: seq<Entry>, e: Entry)
    requires Seqs.NoDups(ks)
    requires e.workoutName !in ks ==> WithName(p, e.workoutName) == []
    ensures GroupStep(GroupsFor(ks, p), e) ==
      GroupsFor(if e.workoutName in ks then ks else ks + [e.workoutName], p + [e])
  {
    var n := e.workoutName;
    var acc := GroupsFor(ks, p);
    if ks == [] {
      WithNameSnoc(p, e, n);
      assert WithName(p, n) == [];
      assert WithName(p + [e], n) == [e];
      assert acc == [];
      assert GroupStep(acc, e) == [Group(n, [e])];
      assert GroupsFor([n], p + [e]) == [Group(n, WithName(p + [e], n))] + GroupsFor([], p + [e]);
      assert ks + [n] == [n];
    } else {
      var k := ks[0];
      var rest := ks[1..];
      assert ks == [k] + rest;
      Seqs.NoDupsCons(k, rest);
      WithNameSnoc(p, e, k);
      assert acc == [Group(k, WithName(p, k))] + GroupsFor(rest, p);
      assert acc[0] == Group(k, WithName(p, k)) && acc[1..] == GroupsFor(rest, p);
      var after := GroupsFor(ks, p + [e]);
      assert after == [Group(k, WithName(p + [e], k))] + GroupsFor(rest, p + [e]);
      if k == n {
        GroupsForIgnores(rest, p, e);
        assert GroupStep(acc, e) == [Group(k, WithName(p, k) + [e])] + GroupsFor(rest, p);
      } else {
        assert n in ks <==> n in rest;
        GroupStepSpec(rest, p, e);
        assert WithName(p + [e], k) == WithName(p, k);
        var rr := if n in rest then rest else rest + [n];
        var ks' := if n in ks then ks else ks + [n];
        assert ks' == [k] + rr;
        assert ks'[0] == k && ks'[1..] == rr;
        assert GroupsFor(ks', p + [e]) == [Group(k, WithName(p + [e], k))] + GroupsFor(rr, p + [e]);
        assert GroupStep(acc[1..], e) == GroupsFor(rr, p + [e]);
        assert GroupStep(acc, e) == [acc[0]] + GroupStep(acc[1..], e);
      }
    }
  }

  /** The name order after one more entry: the old order, plus the entry's name if new. */
  lemma NamesSnoc(p: seq<Entry>, e: Entry)
    ensures Seqs.Dedup(Names(p + [e])) ==
      var ks := Seqs.Dedup(Names(p));
      if e.workoutName in ks then ks else ks + [e.workoutName]
  {
    assert Names(p + [e]) == Names(p) + [e.workoutName];
    Seqs.DedupSnoc(Names(p), e.workoutName);
  }

  /** One step of the fold keeps it equal to the reference grouping of the entries so far. */
  lemma GroupFoldStep(p: seq<Entry>, e: Entry)
    ensures GroupStep(GroupsFor(Seqs.Dedup(Names(p)), p), e) ==
      GroupsFor(Seqs.Dedup(Names(p + [e])), p + [e])
  {
    var ks := Seqs.Dedup(Names(p));
    if e.workoutName !in ks {
      WithNameAbsent(p, e.workoutName);
    }
    GroupStepSpec(ks, p, e);
    NamesSnoc(p, e);
  }

  lemma {:induction false} GroupFoldSpec(p: seq<Entry>, rest: seq<Entry>)
    ensures GroupFold(GroupsFor(Seqs.Dedup(Names(p)), p), rest) ==
      GroupsFor(Seqs.Dedup(Names(p + rest)), p + rest)
    decreases |rest|
  {
    if rest == [] {
      assert p + rest == p;
    } else {
      var e := rest[0];
      var p' := p + [e];
      var acc := GroupsFor(Seqs.Dedup(Names(p)), p);
      var acc' := GroupsFor(Seqs.Dedup(Names(p')), p');
      assert GroupFold(acc, rest) == GroupFold(GroupStep(acc, e), rest[1..]);
      GroupFoldStep(p, e);
      assert GroupStep(acc, e) == acc';
      GroupFoldSpec(p', rest[1..]);
      assert GroupFold(acc', rest[1..]) == GroupsFor(Seqs.Dedup(Names(p' + rest[1..])), p' + rest[1..]);
      assert p' + rest[1..] == p + rest;
    }
  }

  /** Group `i` of the reference grouping is the non-empty list of entries named after the
      `i`-th distinct name. */
  lemma GroupsForNamesAt(es: seq<Entry>, i: int)
    requires 0 <= i < |Seqs.Dedup(Names(es))|
    ensures GroupsFor(Seqs.Dedup(Names(es)), es)[i] ==
      Group(Seqs.Dedup(Names(es))[i], WithName(es, Seqs.Dedup(Names(es))[i]))
    ensures GroupsFor(Seqs.Dedup(Names(es)), es)[i].logs != []
    ensures forall e :: e in GroupsFor(Seqs.Dedup(Names(es)), es)[i].logs ==>
      e in es && e.workoutName == Seqs.Dedup(Names(es))[i]
  {
    var ks := Seqs.Dedup(Names(es));
    var k := ks[i];
    GroupsForAt(ks, es, i);
    WithNameMembers(es, k);
    assert k in Names(es);
    var j :| 0 <= j < |es| && Names(es)[j] == k;
    assert es[j] in WithName(es, k);
  }

  /** Every entry lands in the reference group of its name. */
  lemma GroupsForCovers(es: seq<Entry>, e: Entry)
    requires e in es
    ensures exists i :: 0 <= i < |Seqs.Dedup(Names(es))| && e in GroupsFor(Seqs.Dedup(Names(es)), es)[i].logs
  {
    var ks := Seqs.Dedup(Names(es));
    var j :| 0 <= j < |es| && es[j] == e;
    assert Names(es)[j] == e.workoutName;
    assert e.workoutName in ks;
    var i :| 0 <= i < |ks| && ks[i] == e.workoutName;
    GroupsForAt(ks, es, i);
    WithNameMembers(es, ks[i]);
    assert e in GroupsFor(ks, es)[i].logs;
  }

  /** `logsByWorkout`: one group per workout name, in the order the names first appear,
      each holding exactly that name's entries in their filtered order. */
  function GroupByName(es: seq<Entry>): (gs: seq<Group>)
    ensures |gs| == |Seqs.Dedup(Names(es))|
    ensures forall i :: 0 <= i < |gs| ==>
      gs[i].name == Seqs.Dedup(Names(es))[i] && gs[i].logs == WithName(es, gs[i].name)
    ensures forall i :: 0 <= i < |gs| ==> gs[i].logs != []
    ensures forall i, j :: 0 <= i < j < |gs| ==> gs[i].name != gs[j].name
    ensures forall i, e :: 0 <= i < |gs| && e in gs[i].logs ==> e in es && e.workoutName == gs[i].name
    ensures forall e :: e in es ==> exists i :: 0 <= i < |gs| && e in gs[i].logs
  {
    GroupFoldSpec([], es);
    assert [] + es == es;
    var gs := GroupFold([], es);
    var ks := Seqs.Dedup(Names(es));
    assert gs == GroupsFor(ks, es);
    forall i | 0 <= i < |gs|
      ensures gs[i].name == ks[i] && gs[i].logs == WithName(es, gs[i].name)
      ensures gs[i].logs != []
      ensures forall e :: e in gs[i].logs ==> e in es && e.workoutName == gs[i].name
    {
      GroupsForNamesAt(es, i);
    }
    forall e | e in es
      ensures exists i :: 0 <= i < |gs| && e in gs[i].logs
    {
      GroupsForCovers(es, e);
    }
    gs
  }

  function Size(g: Group): int {
    |g.logs|
  }

  lemma {:induction false} GroupsForSnocKey(ks: seq<string>, n: string, es: seq<Entry>)
    ensures GroupsFor(ks + [n], es) == GroupsFor(ks, es) + [Group(n, WithName(es, n))]
  {
    if ks == [] {
      assert ks + [n] == [n];
    } else {
      GroupsForSnocKey(ks[1..], n, es);
      assert (ks + [n])[0] == ks[0] && (ks + [n])[1..] == ks[1..] + [n];
    }
  }

  /** The fold agrees with the reference grouping. */
  lemma GroupByNameIsReference(es: seq<Entry>)
    ensures GroupByName(es) == GroupsFor(Seqs.Dedup(Names(es)), es)
  {
    GroupFoldSpec([], es);
    assert [] + es == es;
  }

  lemma {:induction false} SizesSnoc(ks: seq<string>, p: seq<Entry>, e: Entry)
    requires Seqs.NoDups(ks)
    ensures Seqs.Sum(GroupsFor(ks, p + [e]), Size) ==
      Seqs.Sum(GroupsFor(ks, p), Size) + if e.workoutName in ks then 1 else 0
  {
    if ks != [] {
      Seqs.NoDupsCons(ks[0], ks[1..]);
      assert ks == [ks[0]] + ks[1..];
      SizesSnoc(ks[1..], p, e);
      WithNameSnoc(p, e, ks[0]);
      assert GroupsFor(ks, p)[1..] == GroupsFor(ks[1..], p);
      assert GroupsFor(ks, p + [e])[1..] == GroupsFor(ks[1..], p + [e]);
    }
  }

  lemma {:induction false} ReferenceSizesSum(es: seq<Entry>)
    ensures Seqs.Sum(GroupsFor(Seqs.Dedup(Names(es)), es), Size) == |es|
    decreases |es|
  {
    if es != [] {
      var p := es[..|es| - 1];
      var e := es[|es| - 1];
      var n := e.workoutName;
      assert es == p + [e];
      ReferenceSizesSum(p);
      var kp := Seqs.Dedup(Names(p));
      assert Seqs.Dedup(Names(es)) == if n in kp then kp else kp + [n] by {
        NamesSnoc(p, e);
      }
      SizesSnoc(kp, p, e);
      if n !in kp {
        assert WithName(es, n) == [e] by {
          WithNameAbsent(p, n);
          WithNameSnoc(p, e, n);
        }
        assert Seqs.Sum(GroupsFor(kp + [n], es), Size) == Seqs.Sum(GroupsFor(kp, es), Size) + 1 by {
          GroupsForSnocKey(kp, n, es);
          Seqs.SumAppend(GroupsFor(kp, es), [Group(n, [e])], Size);
        }
      }
    }
  }

  /** Every filtered entry lands in exactly one group: the group sizes add up to the count. */
  lemma GroupSizesSum(es: seq<Entry>)
    ensures Seqs.Sum(GroupByName(es), Size) == |es|
  {
    GroupByNameIsReference(es);
    ReferenceSizesSum(es);
  }
}
