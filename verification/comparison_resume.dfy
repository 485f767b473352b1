/**
 compare_frozen_generation.py: a frozen snapshot answered job by job, saved after each one, stopped and resumed any
 number of times.  Job keys are the (case, model, repeat) triples of the result rows.
 */
module ComparisonResume {
  import opened Outcomes

  datatype Case = Case(id: nat, context: string, messages: seq<string>, contextDigest: string, messagesDigest: string)

  datatype Snapshot = Snapshot(cases: seq<Case>, models: seq<string>, seeds: seq<int>)

  /** The SHA-256 digests; only the snapshot's is taken to be injective. */
  datatype Digests = Digests(context: string -> string, messages: seq<string> -> string, snapshot: Snapshot -> string)

  ghost predicate ProperDigests(d: Digests) {
    forall a, b :: d.snapshot(a) == d.snapshot(b) ==> a == b
  }

  predicate Distinct<T(==)>(items: seq<T>) {
    forall i, j :: 0 <= i < j < |items| ==> items[i] != items[j]
  }

  predicate DistinctCases(cases: seq<Case>) {
    forall i, j :: 0 <= i < j < |cases| ==> cases[i].id != cases[j].id
  }

  predicate Contains(text: string, part: string) {
    exists i :: 0 <= i <= |text| - |part| && part <= text[i..]
  }

  predicate IntactCase(c: Case, d: Digests) {
    && d.messages(c.messages) == c.messagesDigest && d.context(c.context) == c.contextDigest
    && exists i :: 0 <= i < |c.messages| && Contains(c.messages[i], c.context)
  }

  /** validate_snapshot. */
  predicate ValidSnapshot(s: Snapshot, d: Digests) {
    && s.models != [] && Distinct(s.models) && s.seeds != [] && Distinct(s.seeds)
    && s.cases != [] && DistinctCases(s.cases) && forall i :: 0 <= i < |s.cases| ==> IntactCase(s.cases[i], d)
  }

  // ---------- Jobs ----------

  datatype Key = Key(id: nat, model: string, repeat: nat)

  function Ids(cases: seq<Case>): set<nat> {
    set i | 0 <= i < |cases| :: cases[i].id
  }

  function Models(models: seq<string>): set<string> {
    set i | 0 <= i < |models| :: models[i]
  }

  function Repeats(n: nat): (repeats: set<nat>)
    ensures forall r :: r in repeats <==> 1 <= r <= n
    ensures |repeats| == n
  {
    if n == 0 then {} else Repeats(n - 1) + {n}
  }

  function Triples(ids: set<nat>, models: set<string>, repeats: set<nat>): set<Key> {
    set id, model, r | id in ids && model in models && r in repeats :: Key(id, model, r)
  }

  /** The frozen product of cases, models and seeds. */
  function Product(s: Snapshot): set<Key> {
    Triples(Ids(s.cases), Models(s.models), Repeats(|s.seeds|))
  }

  function Expected(s: Snapshot): nat {
    |s.cases| * |s.models| * |s.seeds|
  }

  /** One result row: its key and the seed it was generated with; the answer's other columns do not matter here. */
  datatype Row = Row(key: Key, seed: int, answer: string)

  function Recorded(rows: seq<Row>): set<Key> {
    set i | 0 <= i < |rows| :: rows[i].key
  }

  function MakeJobs(s: Snapshot, completed: set<Key>): set<Key> {
    Product(s) - completed
  }

  // ---------- Runs ----------

  datatype Results = Results(digest: string, provider: Option<string>, rows: seq<Row>, errors: seq<Key>, finished: bool)

  /** A process at work.  `failed` are the jobs that raised in this run. */
  datatype Process = Process(
    snapshot: Snapshot, concurrency: nat, results: Results, waiting: set<Key>, inFlight: set<Key>, failed: set<Key>)

  /** `frozen` remembers the snapshot that the output file was started with. */
  datatype World = World(disk: Option<Results>, process: Option<Process>, frozen: Option<Snapshot>)

  datatype Event =
    | Start(snapshot: Snapshot, provider: Option<string>, concurrency: nat, preflight: bool)
    | Begin(job: Key)
    | Succeed(job: Key, answer: string)
    | Fail(job: Key)
    | Finish
    | Crash

  datatype StartError = InvalidSnapshot | InvalidConcurrency | SnapshotMismatch | ProviderMismatch | PreflightFailed

  /** initial_results: the saved file when it belongs to this snapshot, else an empty one. */
  function InitialResults(disk: Option<Results>, s: Snapshot, d: Digests): Result<Results, StartError> {
    if !ValidSnapshot(s, d) then Failure(InvalidSnapshot)
    else if disk.None? then Success(Results(d.snapshot(s), None, [], [], false))
    else if disk.value.digest != d.snapshot(s) then Failure(SnapshotMismatch)
    else Success(disk.value)
  }

  /** run_comparison up to its first save. */
  function Opened(disk: Option<Results>, s: Snapshot, provider: Option<string>, concurrency: nat, preflight: bool,
                  d: Digests)
    : Result<Process, StartError>
  {
    if concurrency < 1 then Failure(InvalidConcurrency)
    else
      match InitialResults(disk, s, d)
      case Failure(error) => Failure(error)
      case Success(results) =>
        var completed := Recorded(results.rows);
        var jobs := MakeJobs(s, completed);
        if results.provider != provider && completed != {} then Failure(ProviderMismatch)
        else if jobs != {} && !preflight then Failure(PreflightFailed)
        else Success(Process(s, concurrency, results.(provider := provider), jobs, {}, {}))
  }

  function SeedOf(s: Snapshot, key: Key): int {
    if 1 <= key.repeat <= |s.seeds| then s.seeds[key.repeat - 1] else 0
  }

  function Next(w: World, event: Event, d: Digests): World {
    match event
    case Start(s, provider, concurrency, preflight) =>
      if w.process.Some? then w
      else
        (match Opened(w.disk, s, provider, concurrency, preflight, d)
         case Failure(_) => w
         case Success(p) => World(Some(p.results), Some(p), if w.disk.None? then Some(s) else w.frozen))
    case Begin(job) =>
      if w.process.Some? && job in w.process.value.waiting && |w.process.value.inFlight| < w.process.value.concurrency
      then
        var p := w.process.value;
        w.(process := Some(p.(waiting := p.waiting - {job}, inFlight := p.inFlight + {job})))
      else w
    case Succeed(job, answer) =>
      if w.process.Some? && job in w.process.value.inFlight
      then
        var p := w.process.value;
        var results := p.results.(rows := p.results.rows + [Row(job, SeedOf(p.snapshot, job), answer)]);
        w.(disk := Some(results), process := Some(p.(results := results, inFlight := p.inFlight - {job})))
      else w
    case Fail(job) =>
      if w.process.Some? && job in w.process.value.inFlight
      then
        var p := w.process.value;
        var results := p.results.(errors := p.results.errors + [job]);
        w.(disk := Some(results),
            process := Some(p.(results := results, inFlight := p.inFlight - {job}, failed := p.failed + {job})))
      else w
    case Finish =>
      if CanFinish(w) then w.(disk := Some(w.process.value.results.(finished := true)), process := None) else w
    case Crash => w.(process := None)
  }

  predicate CanFinish(w: World) {
    w.process.Some? && w.process.value.waiting == {} && w.process.value.inFlight == {}
  }

  /** The final check of run_comparison is only a count. */
  predicate CountMatches(p: Process) {
    |p.results.rows| == Expected(p.snapshot)
  }

  function Run(w: World, events: seq<Event>, d: Digests): World {
    if events == [] then w else Next(Run(w, events[..|events| - 1], d), events[|events| - 1], d)
  }

  const FRESH := World(None, None, None)

  // ---------- The invariant ----------

  ghost predicate RowsFit(s: Snapshot, rows: seq<Row>) {
    && (forall i :: 0 <= i < |rows| ==> rows[i].key in Product(s) && rows[i].seed == SeedOf(s, rows[i].key))
    && (forall i, j :: 0 <= i < j < |rows| ==> rows[i].key != rows[j].key)
  }

  predicate Countable(s: Snapshot) {
    DistinctCases(s.cases) && Distinct(s.models)
  }

  ghost predicate Sound(w: World, d: Digests) {
    && (w.disk.Some? <==> w.frozen.Some?)
    && (w.disk.Some? ==>
          Countable(w.frozen.value) && w.disk.value.digest == d.snapshot(w.frozen.value)
          && RowsFit(w.frozen.value, w.disk.value.rows))
    && (w.process.Some? ==> w.disk.Some? && AtWork(w.process.value, w.disk.value, w.frozen.value))
  }

  /** Every job is recorded, failed, in flight or waiting, in one way only. */
  predicate Partition(waiting: set<Key>, inFlight: set<Key>, failed: set<Key>, recorded: set<Key>, all: set<Key>) {
    && waiting + inFlight + failed + recorded == all
    && waiting !! inFlight && waiting !! failed && inFlight !! failed
    && recorded !! waiting && recorded !! inFlight && recorded !! failed
  }

  /** What is in memory is on disk. */
  ghost predicate AtWork(p: Process, disk: Results, frozen: Snapshot) {
    && p.snapshot == frozen && p.results == disk && |p.inFlight| <= p.concurrency
    && Partition(p.waiting, p.inFlight, p.failed, Recorded(disk.rows), Product(frozen))
  }

  lemma RecordedAppend(rows: seq<Row>, row: Row)
    ensures Recorded(rows + [row]) == Recorded(rows) + {row.key}
  {
    forall key ensures key in Recorded(rows + [row]) <==> key in Recorded(rows) || key == row.key {
      if key in Recorded(rows) {
        var i :| 0 <= i < |rows| && rows[i].key == key;
        assert (rows + [row])[i].key == key;
      }
      if key == row.key {
        assert (rows + [row])[|rows|].key == key;
      }
    }
  }

  lemma RecordedFit(s: Snapshot, rows: seq<Row>)
    requires RowsFit(s, rows)
    ensures Recorded(rows) <= Product(s)
    ensures Partition(Product(s) - Recorded(rows), {}, {}, Recorded(rows), Product(s))
  {
    forall key | key in Recorded(rows) ensures key in Product(s) {
      var i :| 0 <= i < |rows| && rows[i].key == key;
    }
  }

  lemma ValidIsCountable(s: Snapshot, d: Digests)
    requires ValidSnapshot(s, d)
    ensures Countable(s)
  {
  }

  lemma StartIsSound(w: World, s: Snapshot, provider: Option<string>, concurrency: nat, preflight: bool, d: Digests)
    requires ProperDigests(d) && Sound(w, d)
    ensures Sound(Next(w, Start(s, provider, concurrency, preflight), d), d)
  {
    if w.process.None? && Opened(w.disk, s, provider, concurrency, preflight, d).Success? {
      ValidIsCountable(s, d);
      if w.disk.Some? {
        assert s == w.frozen.value;
        RecordedFit(s, w.disk.value.rows);
      } else {
        RecordedFit(s, []);
      }
    }
  }

  lemma RowsFitAppend(s: Snapshot, rows: seq<Row>, row: Row)
    requires RowsFit(s, rows) && row.key in Product(s) && row.seed == SeedOf(s, row.key) && row.key !in Recorded(rows)
    ensures RowsFit(s, rows + [row])
  {
    forall i | 0 <= i < |rows| ensures rows[i].key != row.key {
      assert rows[i].key in Recorded(rows);
    }
  }

  lemma PartitionMoves(waiting: set<Key>, inFlight: set<Key>, failed: set<Key>, recorded: set<Key>, all: set<Key>,
                       job: Key)
    requires Partition(waiting, inFlight, failed, recorded, all)
    ensures job in waiting ==> Partition(waiting - {job}, inFlight + {job}, failed, recorded, all)
    ensures job in inFlight ==>
              && Partition(waiting, inFlight - {job}, failed + {job}, recorded, all)
              && Partition(waiting, inFlight - {job}, failed, recorded + {job}, all)
              && job in all && job !in recorded
  {
  }

  lemma JobIsSound(w: World, event: Event, job: Key, d: Digests)
    requires Sound(w, d) && w.process.Some?
    requires event == Begin(job) || event == Fail(job) || (event.Succeed? && event.job == job)
    ensures Sound(Next(w, event, d), d)
  {
    var p := w.process.value;
    PartitionMoves(p.waiting, p.inFlight, p.failed, Recorded(p.results.rows), Product(p.snapshot), job);
    if event.Succeed? && job in p.inFlight {
      var row := Row(job, SeedOf(p.snapshot, job), event.answer);
      RecordedAppend(p.results.rows, row);
      RowsFitAppend(p.snapshot, p.results.rows, row);
    }
  }

  lemma NextIsSound(w: World, event: Event, d: Digests)
    requires ProperDigests(d) && Sound(w, d)
    ensures Sound(Next(w, event, d), d)
  {
    if event.Start? {
      StartIsSound(w, event.snapshot, event.provider, event.concurrency, event.preflight, d);
    } else if event.Finish? || event.Crash? {
    } else if w.process.Some? {
      JobIsSound(w, event, event.job, d);
    }
  }

  lemma {:induction false} RunIsSound(events: seq<Event>, d: Digests)
    requires ProperDigests(d)
    ensures Sound(Run(FRESH, events, d), d)
  {
    if events == [] {
    } else {
      RunIsSound(events[..|events| - 1], d);
      NextIsSound(Run(FRESH, events[..|events| - 1], d), events[|events| - 1], d);
    }
  }

  // ---------- Counting the product ----------

  lemma {:induction false} DistinctCount(cases: seq<Case>)
    requires DistinctCases(cases)
    ensures |Ids(cases)| == |cases|
  {
    if cases == [] {
    } else {
      var n := |cases| - 1;
      DistinctCount(cases[..n]);
      assert forall i :: 0 <= i < n ==> cases[..n][i] == cases[i];
      assert Ids(cases) == Ids(cases[..n]) + {cases[n].id};
    }
  }

  lemma {:induction false} ModelCount(models: seq<string>)
    requires Distinct(models)
    ensures |Models(models)| == |models|
  {
    if models == [] {
    } else {
      var n := |models| - 1;
      ModelCount(models[..n]);
      assert forall i :: 0 <= i < n ==> models[..n][i] == models[i];
      assert Models(models) == Models(models[..n]) + {models[n]};
    }
  }

  lemma SplitById(ids: set<nat>, models: set<string>, repeats: set<nat>, id: nat)
    requires id in ids
    ensures var rest, layer := Triples(ids - {id}, models, repeats), Triples({id}, models, repeats);
            Triples(ids, models, repeats) == rest + layer && rest !! layer
  {
  }

  lemma SplitByModel(id: nat, models: set<string>, repeats: set<nat>, model: string)
    requires model in models
    ensures var rest, row := Triples({id}, models - {model}, repeats), Triples({id}, {model}, repeats);
            Triples({id}, models, repeats) == rest + row && rest !! row
  {
  }

  lemma {:induction false} RowOfTriples(id: nat, model: string, repeats: set<nat>)
    ensures |Triples({id}, {model}, repeats)| == |repeats|
    decreases |repeats|
  {
    if repeats == {} {
      assert Triples({id}, {model}, repeats) == {};
    } else {
      var r :| r in repeats;
      RowOfTriples(id, model, repeats - {r});
      assert Triples({id}, {model}, repeats) == Triples({id}, {model}, repeats - {r}) + {Key(id, model, r)};
    }
  }

  lemma OneFewer<T>(items: set<T>, item: T, n: nat)
    requires item in items
    ensures |items - {item}| == |items| - 1 && |items| * n == |items - {item}| * n + n
  {
  }

  lemma {:induction false} LayerOfTriples(id: nat, models: set<string>, repeats: set<nat>)
    ensures |Triples({id}, models, repeats)| == |models| * |repeats|
    decreases |models|
  {
    if models == {} {
      assert Triples({id}, models, repeats) == {};
    } else {
      var model :| model in models;
      OneFewer(models, model, |repeats|);
      LayerOfTriples(id, models - {model}, repeats);
      RowOfTriples(id, model, repeats);
      SplitByModel(id, models, repeats, model);
    }
  }

  lemma {:induction false} TripleCount(ids: set<nat>, models: set<string>, repeats: set<nat>)
    ensures |Triples(ids, models, repeats)| == |ids| * (|models| * |repeats|)
    decreases |ids|
  {
    if ids == {} {
      assert Triples(ids, models, repeats) == {};
    } else {
      var id :| id in ids;
      OneFewer(ids, id, |models| * |repeats|);
      TripleCount(ids - {id}, models, repeats);
      LayerOfTriples(id, models, repeats);
      SplitById(ids, models, repeats, id);
    }
  }

  /** The product has as many keys as the final check expects rows. */
  lemma ProductCount(s: Snapshot)
    requires DistinctCases(s.cases) && Distinct(s.models)
    ensures |Product(s)| == Expected(s)
  {
    DistinctCount(s.cases);
    ModelCount(s.models);
    TripleCount(Ids(s.cases), Models(s.models), Repeats(|s.seeds|));
    assert |s.cases| * (|s.models| * |s.seeds|) == |s.cases| * |s.models| * |s.seeds|;
  }

  lemma {:induction false} RecordedCount(rows: seq<Row>)
    requires forall i, j :: 0 <= i < j < |rows| ==> rows[i].key != rows[j].key
    ensures |Recorded(rows)| == |rows|
  {
    if rows == [] {
    } else {
      var n := |rows| - 1;
      RecordedCount(rows[..n]);
      RecordedAppend(rows[..n], rows[n]);
      assert rows == rows[..n] + [rows[n]];
      assert rows[n].key !in Recorded(rows[..n]);
    }
  }

  lemma SameSizeSubset<T>(part: set<T>, whole: set<T>)
    requires part <= whole
    ensures |part| <= |whole| && (|part| == |whole| <==> part == whole)
  {
    assert whole == part + (whole - part);
  }

  // ---------- What holds over every history ----------

  lemma SoundRows(w: World, d: Digests, i: nat, j: nat)
    requires Sound(w, d) && w.disk.Some? && i < |w.disk.value.rows| && j < |w.disk.value.rows|
    ensures var rows := w.disk.value.rows;
            && w.frozen.Some? && rows[i].key in Product(w.frozen.value)
            && 1 <= rows[i].key.repeat <= |w.frozen.value.seeds|
            && rows[i].seed == w.frozen.value.seeds[rows[i].key.repeat - 1]
            && (i != j ==> rows[i].key != rows[j].key)
  {
  }

  /** Rows only name jobs of the frozen product, each with the right seed, and never one of them twice. */
  lemma RowsAreJobs(events: seq<Event>, d: Digests, i: nat, j: nat)
    requires ProperDigests(d)
    requires var w := Run(FRESH, events, d); w.disk.Some? && i < |w.disk.value.rows| && j < |w.disk.value.rows|
    ensures var w := Run(FRESH, events, d);
            var rows := w.disk.value.rows;
            && w.frozen.Some? && rows[i].key in Product(w.frozen.value)
            && 1 <= rows[i].key.repeat <= |w.frozen.value.seeds|
            && rows[i].seed == w.frozen.value.seeds[rows[i].key.repeat - 1]
            && (i != j ==> rows[i].key != rows[j].key)
  {
    RunIsSound(events, d);
    SoundRows(Run(FRESH, events, d), d, i, j);
  }

  /** At no time are more requests in flight than the concurrency allows, and never one that is already recorded. */
  lemma FlightIsBounded(events: seq<Event>, d: Digests)
    requires ProperDigests(d)
    requires Run(FRESH, events, d).process.Some?
    ensures var w := Run(FRESH, events, d);
            && w.disk.Some? && |w.process.value.inFlight| <= w.process.value.concurrency
            && w.process.value.inFlight !! Recorded(w.disk.value.rows) && w.process.value.results == w.disk.value
  {
    RunIsSound(events, d);
  }

  /** Rows and errors stay, the file keeps its snapshot, and its provider once anything is recorded. */
  predicate Extends(earlier: Option<Results>, later: Option<Results>) {
    earlier.Some? ==>
      && later.Some? && earlier.value.rows <= later.value.rows && earlier.value.errors <= later.value.errors
      && earlier.value.digest == later.value.digest
      && (earlier.value.rows != [] ==> earlier.value.provider == later.value.provider)
  }

  lemma SomethingRecorded(rows: seq<Row>)
    ensures Recorded(rows) == {} <==> rows == []
  {
    if rows != [] {
      assert rows[0].key in Recorded(rows);
    }
  }

  lemma OpenedExtends(disk: Option<Results>, s: Snapshot, provider: Option<string>, concurrency: nat, preflight: bool,
                      d: Digests)
    requires Opened(disk, s, provider, concurrency, preflight, d).Success?
    ensures Extends(disk, Some(Opened(disk, s, provider, concurrency, preflight, d).value.results))
  {
    if disk.Some? {
      SomethingRecorded(disk.value.rows);
    }
  }

  lemma ResultsExtend(results: Results, job: Key, row: Row)
    ensures Extends(Some(results), Some(results.(rows := results.rows + [row])))
    ensures Extends(Some(results), Some(results.(errors := results.errors + [job])))
    ensures Extends(Some(results), Some(results.(finished := true)))
  {
  }

  /** Memory never holds results that the file does not. */
  ghost predicate Saved(w: World) {
    (w.disk.Some? <==> w.frozen.Some?) && (w.process.Some? ==> w.disk == Some(w.process.value.results))
  }

  lemma RunIsSaved(events: seq<Event>, d: Digests)
    requires ProperDigests(d)
    ensures Saved(Run(FRESH, events, d))
  {
    RunIsSound(events, d);
  }

  lemma NextExtends(w: World, event: Event, d: Digests)
    requires Saved(w)
    ensures Extends(w.disk, Next(w, event, d).disk)
    ensures w.frozen.Some? ==> Next(w, event, d).frozen == w.frozen
  {
    match event {
      case Start(s, provider, concurrency, preflight) =>
        if Opened(w.disk, s, provider, concurrency, preflight, d).Success? {
          OpenedExtends(w.disk, s, provider, concurrency, preflight, d);
        }
      case Succeed(job, answer) =>
        if w.process.Some? {
          ResultsExtend(w.process.value.results, job, Row(job, SeedOf(w.process.value.snapshot, job), answer));
        }
      case Fail(job) =>
        if w.process.Some? {
          ResultsExtend(w.process.value.results, job, Row(job, 0, ""));
        }
      case Finish =>
        if w.process.Some? {
          ResultsExtend(w.process.value.results, Key(0, "", 0), Row(Key(0, "", 0), 0, ""));
        }
      case Begin(_) =>
      case Crash =>
    }
  }

  lemma ExtendsTransitive(a: Option<Results>, b: Option<Results>, c: Option<Results>)
    requires Extends(a, b) && Extends(b, c)
    ensures Extends(a, c)
  {
  }

  function RowsOf(disk: Option<Results>): seq<Row> {
    if disk.Some? then disk.value.rows else []
  }

  /** What a start asks of the state it finds. */
  ghost predicate CanStart(w: World, s: Snapshot, provider: Option<string>, concurrency: nat, preflight: bool,
                           d: Digests) {
    && concurrency >= 1 && ValidSnapshot(s, d) && (w.frozen.None? || w.frozen == Some(s))
    && (RowsOf(w.disk) != [] ==> w.disk.value.provider == provider)
    && (Recorded(RowsOf(w.disk)) == Product(s) || preflight)
  }

  /** What it leaves: every row kept, and exactly the jobs without a row to do. */
  predicate HasStarted(before: World, after: World, s: Snapshot, provider: Option<string>) {
    && after.process.Some? && after.disk == Some(after.process.value.results) && after.frozen == Some(s)
    && after.disk.value.rows == RowsOf(before.disk) && after.disk.value.provider == provider
    && after.process.value.waiting == Product(s) - Recorded(RowsOf(before.disk))
    && after.process.value.inFlight == {}
  }

  lemma LoadsItsOwn(w: World, s: Snapshot, d: Digests)
    requires ProperDigests(d) && Sound(w, d)
    ensures InitialResults(w.disk, s, d).Success? <==> ValidSnapshot(s, d) && (w.frozen.None? || w.frozen == Some(s))
    ensures InitialResults(w.disk, s, d).Success? ==>
              && InitialResults(w.disk, s, d).value.rows == RowsOf(w.disk)
              && (w.disk.Some? ==> InitialResults(w.disk, s, d).value.provider == w.disk.value.provider)
  {
  }

  lemma NoJobsLeft(w: World, s: Snapshot, d: Digests)
    requires Sound(w, d) && (w.frozen.None? || w.frozen == Some(s))
    ensures MakeJobs(s, Recorded(RowsOf(w.disk))) == {} <==> Recorded(RowsOf(w.disk)) == Product(s)
  {
    if w.disk.Some? {
      RecordedFit(s, w.disk.value.rows);
    }
  }

  lemma OpensIfItCan(w: World, s: Snapshot, provider: Option<string>, concurrency: nat, preflight: bool, d: Digests)
    requires ProperDigests(d) && Sound(w, d)
    ensures Opened(w.disk, s, provider, concurrency, preflight, d).Success?
            <==> CanStart(w, s, provider, concurrency, preflight, d)
  {
    LoadsItsOwn(w, s, d);
    if InitialResults(w.disk, s, d).Success? {
      NoJobsLeft(w, s, d);
      SomethingRecorded(RowsOf(w.disk));
    }
  }

  lemma OpenedProcess(w: World, s: Snapshot, provider: Option<string>, concurrency: nat, preflight: bool, d: Digests)
    requires ProperDigests(d) && Sound(w, d) && Opened(w.disk, s, provider, concurrency, preflight, d).Success?
    ensures var p := Opened(w.disk, s, provider, concurrency, preflight, d).value;
            && p.results.rows == RowsOf(w.disk) && p.results.provider == provider && p.inFlight == {}
            && p.waiting == Product(s) - Recorded(RowsOf(w.disk)) && (w.frozen.Some? ==> w.frozen == Some(s))
  {
    LoadsItsOwn(w, s, d);
  }

  /**
   Whatever happened before, a start succeeds if and only if the snapshot is valid and the one that was frozen, the
   provider is the one of the recorded rows, if there are any, and the models can be reached, if a job is left.  It
   then keeps every row and is left with exactly the jobs that have none; otherwise nothing changes.
   */
  lemma StartDecides(events: seq<Event>, s: Snapshot, provider: Option<string>, concurrency: nat, preflight: bool,
                     d: Digests)
    requires ProperDigests(d) && Run(FRESH, events, d).process.None?
    ensures var w := Run(FRESH, events, d);
            var after := Next(w, Start(s, provider, concurrency, preflight), d);
            if CanStart(w, s, provider, concurrency, preflight, d) then HasStarted(w, after, s, provider)
            else after == w
  {
    RunIsSound(events, d);
    var w := Run(FRESH, events, d);
    OpensIfItCan(w, s, provider, concurrency, preflight, d);
    if Opened(w.disk, s, provider, concurrency, preflight, d).Success? {
      OpenedProcess(w, s, provider, concurrency, preflight, d);
    }
  }

  /** Whatever happens later, nothing that was recorded disappears or changes. */
  lemma {:induction false} HistoryOnlyGrows(events: seq<Event>, later: seq<Event>, d: Digests)
    requires ProperDigests(d)
    ensures Extends(Run(FRESH, events, d).disk, Run(FRESH, events + later, d).disk)
    ensures Run(FRESH, events, d).frozen.Some? ==> Run(FRESH, events + later, d).frozen == Run(FRESH, events, d).frozen
  {
    if later == [] {
      assert events + later == events;
    } else {
      var n := |later| - 1;
      HistoryOnlyGrows(events, later[..n], d);
      assert (events + later)[..|events + later| - 1] == events + later[..n];
      RunIsSaved(events + later[..n], d);
      NextExtends(Run(FRESH, events + later[..n], d), later[n], d);
      ExtendsTransitive(Run(FRESH, events, d).disk, Run(FRESH, events + later[..n], d).disk,
                        Run(FRESH, events + later, d).disk);
    }
  }

  /**
   When a run ends, its count is right exactly when every job is recorded, and exactly when none of its jobs
   failed.
   */
  lemma CountDecides(events: seq<Event>, d: Digests)
    requires ProperDigests(d) && CanFinish(Run(FRESH, events, d))
    ensures var w := Run(FRESH, events, d);
            var p := w.process.value;
            && w.disk.Some? && p.results == w.disk.value
            && (CountMatches(p) <==> Recorded(p.results.rows) == Product(p.snapshot))
            && (CountMatches(p) <==> p.failed == {})
  {
    RunIsSound(events, d);
    var w := Run(FRESH, events, d);
    var p := w.process.value;
    ProductCount(p.snapshot);
    RecordedCount(p.results.rows);
    SameSizeSubset(Recorded(p.results.rows), Product(p.snapshot));
  }

  // ---------- The process itself ----------

  /** run_comparison as a process: what it holds in memory, and the file it writes after every job. */
  class Comparison {
    var disk: Option<Results>
    var process: Option<Process>

    ghost function View(frozen: Option<Snapshot>): World
      reads this
    {
      World(disk, process, frozen)
    }

    constructor (disk: Option<Results>)
      ensures View(None) == World(disk, None, None)
    {
      this.disk, process := disk, None;
    }

    /** Reads the file, checks it against the snapshot and saves it again before the first request. */
    method Open(s: Snapshot, provider: Option<string>, concurrency: nat, preflight: bool, d: Digests,
                ghost frozen: Option<Snapshot>)
      returns (error: Option<StartError>)
      requires process.None?
      modifies this
      ensures Next(old(View(frozen)), Start(s, provider, concurrency, preflight), d)
              == View(if error.None? && old(disk).None? then Some(s) else frozen)
      ensures error.None? <==> process.Some?
    {
      var started := Opened(disk, s, provider, concurrency, preflight, d);
      if started.Failure? {
        return Some(started.error);
      }
      disk, process := Some(started.value.results), Some(started.value);
      error := None;
    }

    /** Entering the limiter: a waiting job becomes a request when there is room. */
    method Acquire(job: Key, d: Digests, ghost frozen: Option<Snapshot>) returns (entered: bool)
      requires process.Some?
      modifies this`process
      ensures View(frozen) == Next(old(View(frozen)), Begin(job), d)
      ensures entered <==> View(frozen) != old(View(frozen))
    {
      var p := process.value;
      entered := job in p.waiting && |p.inFlight| < p.concurrency;
      if entered {
        process := Some(p.(waiting := p.waiting - {job}, inFlight := p.inFlight + {job}));
        assert job !in process.value.waiting;
      }
    }

    /** An answer: appended, saved, and the limiter released. */
    method Record(job: Key, answer: string, d: Digests, ghost frozen: Option<Snapshot>)
      requires process.Some? && job in process.value.inFlight
      modifies this
      ensures View(frozen) == Next(old(View(frozen)), Succeed(job, answer), d)
    {
      var p := process.value;
      var row := Row(job, SeedOf(p.snapshot, job), answer);
      p := p.(results := p.results.(rows := p.results.rows + [row]));
      disk := Some(p.results);
      process := Some(p.(inFlight := p.inFlight - {job}));
    }

    /** A failed attempt stays on record and can be repeated by a later run. */
    method RecordFailure(job: Key, d: Digests, ghost frozen: Option<Snapshot>)
      requires process.Some? && job in process.value.inFlight
      modifies this
      ensures View(frozen) == Next(old(View(frozen)), Fail(job), d)
    {
      var p := process.value;
      p := p.(results := p.results.(errors := p.results.errors + [job]));
      disk := Some(p.results);
      process := Some(p.(inFlight := p.inFlight - {job}, failed := p.failed + {job}));
    }

    /** The end of the run: a last save, then the count. */
    method Conclude(d: Digests, ghost frozen: Option<Snapshot>) returns (complete: bool)
      requires CanFinish(View(frozen))
      modifies this
      ensures View(frozen) == Next(old(View(frozen)), Finish, d)
      ensures complete == CountMatches(old(process.value))
    {
      var p := process.value;
      disk, process := Some(p.results.(finished := true)), None;
      complete := |p.results.rows| == |p.snapshot.cases| * |p.snapshot.models| * |p.snapshot.seeds|;
    }
  }
}
