/**
 The outbox dispatcher next to the commands: entries of one batch are applied concurrently, each by reading the
 version's committed row, writing the vector store and acknowledging, while commands commit in between; any of
 them may fail or crash and be retried.
 */
module ActDelivery {
  import opened Outcomes
  import opened Timeline
  import opened ActStore
  import opened ActCommands
  import opened ActInvariants
  import opened ActRuns

  datatype Progress = Pending | Claimed | Fetched(payload: Payload) | Written | Done

  datatype World = World(db: Db, progress: seq<Progress>, vectors: map<nat, Payload>)

  datatype Event =
    | Commit(command: Command)
    | Claim(batch: set<nat>)
    | Fetch(entry: nat)
    | Write(entry: nat)
    | Acknowledge(entry: nat)
    | Retry(entry: nat)

  predicate Idle(p: Progress) {
    p.Pending? || p.Done?
  }

  function Pendings(n: nat): (ps: seq<Progress>)
    ensures |ps| == n && forall i :: 0 <= i < n ==> ps[i] == Pending
  {
    if n == 0 then [] else Pendings(n - 1) + [Pending]
  }

  function ClaimAll(progress: seq<Progress>, batch: set<nat>): (claimed: seq<Progress>)
    ensures |claimed| == |progress|
    ensures forall i :: 0 <= i < |progress| ==>
              claimed[i] == if i in batch && progress[i].Pending? then Claimed else progress[i]
  {
    if progress == [] then []
    else
      var n := |progress| - 1;
      ClaimAll(progress[..n], batch) + [if n in batch && progress[n].Pending? then Claimed else progress[n]]
  }

  ghost predicate InStep(w: World) {
    && Consistent(w.db) && |w.progress| == |w.db.outbox|
    && (forall i :: 0 <= i < |w.db.outbox| ==> w.db.outbox[i].version < |w.db.versions|)
  }

  /** Events that do not apply in the present state change nothing. */
  ghost function Next(w: World, event: Event, dateOf: DateReader): World
    requires InStep(w)
  {
    match event
    case Commit(command) =>
      var db := Step(w.db, command, dateOf);
      if |db.outbox| < |w.db.outbox| then w
      else World(db, w.progress + Pendings(|db.outbox| - |w.db.outbox|), w.vectors)
    case Claim(batch) =>
      if forall i :: 0 <= i < |w.progress| ==> Idle(w.progress[i])
      then w.(progress := ClaimAll(w.progress, batch)) else w
    case Fetch(i) =>
      if i < |w.progress| && w.progress[i].Claimed?
      then w.(progress := w.progress[i := Fetched(PayloadOf(w.db.versions[w.db.outbox[i].version]))]) else w
    case Write(i) =>
      if i < |w.progress| && w.progress[i].Fetched?
      then
        w.(progress := w.progress[i := Written],
           vectors := w.vectors[w.db.outbox[i].version := w.progress[i].payload])
      else w
    case Acknowledge(i) =>
      if i < |w.progress| && w.progress[i].Written? then w.(progress := w.progress[i := Done]) else w
    case Retry(i) =>
      if i < |w.progress| && !w.progress[i].Done? then w.(progress := w.progress[i := Pending]) else w
  }

  // ---------- Commands only append, and announce every change ----------

  /** The outbox grows, and each version whose row changed in any column has a new entry. */
  ghost predicate Announces(before: Db, after: Db) {
    && |before.outbox| <= |after.outbox| && after.outbox[..|before.outbox|] == before.outbox
    && |before.versions| <= |after.versions|
    && (forall i :: 0 <= i < |before.versions| && after.versions[i] != before.versions[i] ==>
          exists j :: |before.outbox| <= j < |after.outbox| && after.outbox[j].version == i)
    && (forall j :: |before.outbox| <= j < |after.outbox| ==> after.outbox[j].version < |after.versions|)
  }

  lemma SavesAnnounce(db: Db, saved: Versions)
    requires Known(db.versions, saved) && SaveAll(db, saved).Success?
    ensures Announces(db, SaveAll(db, saved).value)
  {
    SaveAllOverwrites(db, saved);
    var after := SaveAll(db, saved).value;
    forall i | 0 <= i < |db.versions| && after.versions[i] != db.versions[i]
      ensures exists j :: |db.outbox| <= j < |after.outbox| && after.outbox[j].version == i
    {
      OverwrittenAt(db.versions, saved, i);
      var k :| 0 <= k < |saved| && saved[k] == after.versions[i];
      assert after.outbox[|db.outbox| + k] == Entry(saved[k].id, PayloadOf(saved[k]));
    }
    forall j | |db.outbox| <= j < |after.outbox| ensures after.outbox[j].version < |after.versions| {
      assert after.outbox[|db.outbox| + (j - |db.outbox|)]
               == Entry(saved[j - |db.outbox|].id, PayloadOf(saved[j - |db.outbox|]));
      assert saved[j - |db.outbox|] in saved;
    }
  }

  lemma LinkAnnounces(db: Db, act: nat, r: Request, today: Date)
    requires Consistent(db) && LinkUpload(db, act, r, today).Success?
    ensures Announces(db, LinkUpload(db, act, r, today).value)
  {
    ListMembers(db.versions, act);
    var previous := ListByAct(db.versions, act);
    if previous == [] || SharesScope(db.documents, r.document, previous) {
      BoundarySucceeds(db, previous, r.starts, today);
      SavesAnnounce(db, BoundaryChanges(previous, r.starts, today));
    }
  }

  lemma StepAnnounces(db: Db, command: Command, dateOf: DateReader)
    requires Consistent(db)
    ensures Announces(db, Step(db, command, dateOf))
  {
    match command {
      case UploadDocument(r, today) =>
        if !HasVersion(db.versions, r.document) && r.number.Some? && r.number.value != "" {
          var scope := if r.document in db.documents then DocumentScopeKey(db.documents[r.document])
                       else ScopeKey(InternalPublic, None);
          var found := FindOrCreate(db.acts, r, r.number.value, scope, dateOf);
          if found.Success? {
            NewActKeepsConsistency(db, found.value.0);
            var linked := LinkUpload(db.(acts := found.value.0), found.value.1, r, today);
            if linked.Success? {
              LinkAnnounces(db.(acts := found.value.0), found.value.1, r, today);
            }
          }
        }
      case ReviewVersion(id, o, today) =>
        if PlanReview(db, id, o, today).Success? {
          PlanIsKnown(db, id, o, today);
          ReviewKeepsConsistency(db, id, o, today);
          SavesAnnounce(db, PlanReview(db, id, o, today).value);
        }
      case IndexChunks(_, _) =>
    }
  }

  // ---------- The vector store catches up ----------

  predicate Waiting(w: World, v: nat) {
    exists i :: 0 <= i < |w.progress| && i < |w.db.outbox| && w.db.outbox[i].version == v && w.progress[i].Pending?
  }

  predicate Underway(w: World, v: nat) {
    exists i :: 0 <= i < |w.progress| && i < |w.db.outbox| && w.db.outbox[i].version == v
                && (w.progress[i].Pending? || w.progress[i].Claimed? || w.progress[i].Fetched?)
  }

  predicate Announced(db: Db, v: nat) {
    exists i :: 0 <= i < |db.outbox| && db.outbox[i].version == v
  }

  predicate UpToDate(w: World, v: nat) {
    v < |w.db.versions| && v in w.vectors && w.vectors[v] == PayloadOf(w.db.versions[v])
  }

  /** A row read for delivery is still the committed one, or a later entry will deliver again. */
  ghost predicate FreshOrRepeated(w: World)
    requires InStep(w)
  {
    forall i :: 0 <= i < |w.progress| && w.progress[i].Fetched? ==>
      var v := w.db.outbox[i].version;
      w.progress[i].payload == PayloadOf(w.db.versions[v]) || Waiting(w, v)
  }

  /** Every announced version is up to date in the vector store, or will be written again. */
  ghost predicate CatchesUp(w: World) {
    InStep(w) && FreshOrRepeated(w) && forall v: nat :: Announced(w.db, v) ==> UpToDate(w, v) || Underway(w, v)
  }

  lemma CommitCatchesUp(w: World, command: Command, dateOf: DateReader)
    requires CatchesUp(w)
    ensures CatchesUp(Next(w, Commit(command), dateOf))
  {
    StepAnnounces(w.db, command, dateOf);
    var after := Next(w, Commit(command), dateOf);
    assert forall i :: 0 <= i < |w.db.outbox| ==> after.db.outbox[i] == after.db.outbox[..|w.db.outbox|][i];
    assert forall i :: 0 <= i < |w.progress| ==> after.progress[i] == w.progress[i];
    forall v: nat ensures Waiting(w, v) ==> Waiting(after, v) {
      if Waiting(w, v) {
        var i :| 0 <= i < |w.progress| && w.db.outbox[i].version == v && w.progress[i].Pending?;
        assert after.db.outbox[i].version == v && after.progress[i].Pending?;
      }
    }
    forall v: nat | v < |w.db.versions| && PayloadOf(after.db.versions[v]) != PayloadOf(w.db.versions[v])
      ensures Waiting(after, v)
    {
      var j :| |w.db.outbox| <= j < |after.db.outbox| && after.db.outbox[j].version == v;
      assert after.progress[j].Pending?;
    }
    forall v: nat | Announced(after.db, v) ensures UpToDate(after, v) || Underway(after, v) {
      AnnouncedAfterCommit(w, after, v);
    }
  }

  lemma AnnouncedAfterCommit(w: World, after: World, v: nat)
    requires CatchesUp(w) && Announced(after.db, v) && after.vectors == w.vectors
    requires |w.db.outbox| <= |after.db.outbox| == |after.progress| && |w.db.versions| <= |after.db.versions|
    requires forall i :: 0 <= i < |w.db.outbox| ==>
               after.db.outbox[i] == w.db.outbox[i] && after.progress[i] == w.progress[i]
    requires forall i :: |w.db.outbox| <= i < |after.progress| ==> after.progress[i].Pending?
    requires v < |w.db.versions| && PayloadOf(after.db.versions[v]) != PayloadOf(w.db.versions[v]) ==> Waiting(after, v)
    ensures UpToDate(after, v) || Underway(after, v)
  {
    var i :| 0 <= i < |after.db.outbox| && after.db.outbox[i].version == v;
    if i < |w.db.outbox| {
      assert w.db.outbox[i].version == v;
      assert Announced(w.db, v);
      if Underway(w, v) {
        var k :| 0 <= k < |w.progress| && w.db.outbox[k].version == v
                 && (w.progress[k].Pending? || w.progress[k].Claimed? || w.progress[k].Fetched?);
        assert after.db.outbox[k].version == v && after.progress[k] == w.progress[k];
      }
    } else {
      assert after.progress[i].Pending?;
    }
  }

  lemma DeliveryCatchesUp(w: World, event: Event, dateOf: DateReader)
    requires CatchesUp(w) && !event.Commit?
    ensures CatchesUp(Next(w, event, dateOf))
  {
    var after := Next(w, event, dateOf);
    match event {
      case Claim(batch) =>
        forall v: nat | Underway(w, v) ensures Underway(after, v) {
          var k :| 0 <= k < |w.progress| && w.db.outbox[k].version == v
                   && (w.progress[k].Pending? || w.progress[k].Claimed? || w.progress[k].Fetched?);
          assert after.progress[k].Pending? || after.progress[k].Claimed? || after.progress[k].Fetched?;
        }
        if after != w {
          assert forall i :: 0 <= i < |w.progress| ==> Idle(w.progress[i]);
        }
      case Fetch(i) => OneEntryMoves(w, after, i);
      case Write(i) => OneEntryMoves(w, after, i);
      case Acknowledge(i) => OneEntryMoves(w, after, i);
      case Retry(i) => OneEntryMoves(w, after, i);
    }
  }

  /** One entry goes a step further, or back to the start. */
  lemma OneEntryMoves(w: World, after: World, i: nat)
    requires CatchesUp(w) && after.db == w.db && |after.progress| == |w.progress|
    requires after == w || i < |w.progress|
    requires forall j :: 0 <= j < |w.progress| && j != i ==> after.progress[j] == w.progress[j]
    requires i < |w.progress| && after != w ==>
               var v, p, q := w.db.outbox[i].version, w.progress[i], after.progress[i];
               || (p.Claimed? && q == Fetched(PayloadOf(w.db.versions[v])) && after.vectors == w.vectors)
               || (p.Fetched? && q.Written? && after.vectors == w.vectors[v := p.payload])
               || (p.Written? && q.Done? && after.vectors == w.vectors)
               || (q.Pending? && after.vectors == w.vectors)
    ensures CatchesUp(after)
  {
    if after != w {
      forall j | 0 <= j < |after.progress| && after.progress[j].Fetched?
        ensures var v := after.db.outbox[j].version;
                after.progress[j].payload == PayloadOf(after.db.versions[v]) || Waiting(after, v)
      {
        if j != i {
          WaitingStays(w, after, i, w.db.outbox[j].version);
        }
      }
      forall v: nat | Announced(after.db, v) ensures UpToDate(after, v) || Underway(after, v) {
        UnderwayStays(w, after, i, v);
      }
    }
  }

  lemma WaitingStays(w: World, after: World, i: nat, v: nat)
    requires after.db == w.db && |after.progress| == |w.progress| == |w.db.outbox| && i < |w.progress|
    requires forall j :: 0 <= j < |w.progress| && j != i ==> after.progress[j] == w.progress[j]
    requires w.progress[i].Pending? ==> after.progress[i].Pending?
    ensures Waiting(w, v) ==> Waiting(after, v)
  {
    if Waiting(w, v) {
      var k :| 0 <= k < |w.progress| && w.db.outbox[k].version == v && w.progress[k].Pending?;
      assert after.progress[k].Pending?;
    }
  }

  lemma UnderwayStays(w: World, after: World, i: nat, v: nat)
    requires CatchesUp(w) && after.db == w.db && |after.progress| == |w.progress| && i < |w.progress|
    requires forall j :: 0 <= j < |w.progress| && j != i ==> after.progress[j] == w.progress[j]
    requires var u, p, q := w.db.outbox[i].version, w.progress[i], after.progress[i];
             || (p.Claimed? && q.Fetched? && after.vectors == w.vectors)
             || (p.Fetched? && q.Written? && after.vectors == w.vectors[u := p.payload])
             || (p.Written? && q.Done? && after.vectors == w.vectors)
             || (q.Pending? && after.vectors == w.vectors)
    requires Announced(w.db, v)
    ensures UpToDate(after, v) || Underway(after, v)
  {
    WaitingStays(w, after, i, v);
    if w.db.outbox[i].version == v && after.progress[i].Written? {
      assert w.progress[i].Fetched?;
      if Waiting(after, v) {
        var k :| 0 <= k < |after.progress| && after.db.outbox[k].version == v && after.progress[k].Pending?;
      }
    } else if Underway(w, v) {
      var k :| 0 <= k < |w.progress| && w.db.outbox[k].version == v
               && (w.progress[k].Pending? || w.progress[k].Claimed? || w.progress[k].Fetched?);
      assert after.progress[k].Pending? || after.progress[k].Claimed? || after.progress[k].Fetched?;
    }
  }

  lemma NextCatchesUp(w: World, event: Event, dateOf: DateReader)
    requires CatchesUp(w)
    ensures CatchesUp(Next(w, event, dateOf))
  {
    match event
    case Commit(command) => CommitCatchesUp(w, command, dateOf);
    case _ => DeliveryCatchesUp(w, event, dateOf);
  }

  ghost function RunAll(w: World, events: seq<Event>, dateOf: DateReader): (after: World)
    requires CatchesUp(w)
    ensures CatchesUp(after)
    decreases |events|
  {
    if events == [] then w
    else
      var before := RunAll(w, events[..|events| - 1], dateOf);
      NextCatchesUp(before, events[|events| - 1], dateOf);
      Next(before, events[|events| - 1], dateOf)
  }

  /** After any interleaving, once every entry is acknowledged each saved version's vector payload is its row's. */
  lemma AcknowledgedMeansUpToDate(documents: map<nat, Document>, events: seq<Event>, dateOf: DateReader, v: nat)
    ensures CatchesUp(World(Empty(documents), [], map[]))
    ensures var w := RunAll(World(Empty(documents), [], map[]), events, dateOf);
            (forall i :: 0 <= i < |w.progress| ==> w.progress[i].Done?) && Announced(w.db, v) ==>
              && v < |w.db.versions| && v in w.vectors && w.vectors[v] == PayloadOf(w.db.versions[v])
  {
    EmptyIsConsistent(documents);
    assert CatchesUp(World(Empty(documents), [], map[]));
  }
}
