/** Any sequence of uploads, reviews and chunk insertions, and what is told to caches and to the vector store. */
module ActRuns {
  import opened Outcomes
  import opened Timeline
  import opened ActStore
  import opened ActCommands
  import opened ActInvariants

  // ---------- Runs ----------

  datatype Command =
    | UploadDocument(request: Request, today: Date)
    | ReviewVersion(id: nat, options: Options, today: Date)
    | IndexChunks(version: nat, ids: set<nat>)

  /** Chunks are inserted with the validity columns of their version's row. */
  function WithChunks(db: Db, version: nat, ids: set<nat>): Db
    requires version < |db.versions|
  {
    db.(chunks := db.chunks + map k | k in ids :: Chunk(version, PeriodOf(db.versions[version])))
  }

  /** A refused command is rolled back. */
  ghost function Step(db: Db, command: Command, dateOf: DateReader): (after: Db)
    requires Consistent(db)
    ensures Consistent(after)
  {
    match command
    case UploadDocument(request, today) =>
      UploadKeepsConsistency(db, request, dateOf, today);
      var result := Upload(db, request, dateOf, today);
      if result.Success? then result.value else db
    case ReviewVersion(id, options, today) =>
      ReviewKeepsConsistency(db, id, options, today);
      var result := Review(db, id, options, today);
      if result.Success? then result.value else db
    case IndexChunks(version, ids) =>
      if version < |db.versions| && ids !! db.chunks.Keys then WithChunks(db, version, ids) else db
  }

  ghost function Run(db: Db, commands: seq<Command>, dateOf: DateReader): (after: Db)
    requires Consistent(db)
    ensures Consistent(after)
  {
    if commands == [] then db
    else Step(Run(db, commands[..|commands| - 1], dateOf), commands[|commands| - 1], dateOf)
  }

  function Empty(documents: map<nat, Document>): Db {
    Db([], [], documents, map[], [])
  }

  lemma EmptyIsConsistent(documents: map<nat, Document>)
    ensures Consistent(Empty(documents))
  {
  }

  /** In every reachable state no document has two versions, and versions of one act share their visibility scope. */
  lemma ReachableVersions(documents: map<nat, Document>, commands: seq<Command>, dateOf: DateReader, i: nat, j: nat)
    requires i != j
    ensures Consistent(Empty(documents))
    ensures var db := Run(Empty(documents), commands, dateOf);
            i < |db.versions| && j < |db.versions| ==>
              && db.versions[i].document != db.versions[j].document
              && (db.versions[i].act.Some? && db.versions[i].act == db.versions[j].act ==>
                    && SameScope(db.documents[db.versions[i].document], db.documents[db.versions[j].document])
                    && !(db.versions[i].current && db.versions[j].current))
  {
  }

  // ---------- Replaying the outbox ----------

  function Replay(vectors: map<nat, Payload>, entries: seq<Entry>): map<nat, Payload> {
    if entries == [] then vectors
    else
      var last := entries[|entries| - 1];
      Replay(vectors, entries[..|entries| - 1])[last.version := last.payload]
  }

  lemma {:induction false} ReplayConcat(vectors: map<nat, Payload>, first: seq<Entry>, second: seq<Entry>)
    ensures Replay(vectors, first + second) == Replay(Replay(vectors, first), second)
  {
    if second == [] {
      assert first + second == first;
    } else {
      ReplayConcat(vectors, first, second[..|second| - 1]);
      assert (first + second)[..|first + second| - 1] == first + second[..|second| - 1];
    }
  }

  lemma {:induction false} ReplayEndsWithLast(vectors: map<nat, Payload>, entries: seq<Entry>, i: nat)
    requires LastEntry(entries, i).Some?
    ensures i in Replay(vectors, entries) && Some(Replay(vectors, entries)[i]) == LastEntry(entries, i)
  {
    if entries[|entries| - 1].version != i {
      ReplayEndsWithLast(vectors, entries[..|entries| - 1], i);
    }
  }

  /**
   Whatever was consumed before, delivering the rest in order leaves each saved version's payload equal to its
   row.
   */
  lemma DeliveryConverges(db: Db, vectors: map<nat, Payload>, consumed: nat, i: nat)
    requires Consistent(db) && consumed <= |db.outbox| && LastEntry(db.outbox, i).Some?
    ensures var final := Replay(Replay(vectors, db.outbox[..consumed]), db.outbox[consumed..]);
            i < |db.versions| && i in final && final[i] == PayloadOf(db.versions[i])
  {
    assert db.outbox == db.outbox[..consumed] + db.outbox[consumed..];
    ReplayConcat(vectors, db.outbox[..consumed], db.outbox[consumed..]);
    ReplayEndsWithLast(vectors, db.outbox, i);
  }

  // ---------- Cached answers ----------

  function DocumentsOf(versions: Versions, act: Option<nat>): set<nat> {
    if act.None? then {} else set v | v in ListByAct(versions, act.value) :: v.document
  }

  lemma LinkedDocument(versions: Versions, i: nat)
    requires IdsArePositions(versions) && i < |versions| && versions[i].act.Some?
    ensures versions[i].document in DocumentsOf(versions, versions[i].act)
  {
    ListMembers(versions, versions[i].act.value);
  }

  /** The version whose act handle_versioned_upload invalidates after the commit. */
  function VersionFor(versions: Versions, document: nat): (i: nat)
    requires HasVersion(versions, document)
    ensures i < |versions| && versions[i].document == document
  {
    var n := |versions| - 1;
    if versions[n].document == document then n
    else
      assert HasVersion(versions[..n], document) by {
        var i :| 0 <= i < |versions| && versions[i].document == document;
        assert versions[..n][i] == versions[i];
      }
      VersionFor(versions[..n], document)
  }

  function UploadInvalidates(after: Versions, document: nat): set<nat>
    requires HasVersion(after, document)
  {
    DocumentsOf(after, after[VersionFor(after, document)].act)
  }

  /** What invalidate_act_answers is asked for both acts, and invalidate_document_answers for the version itself. */
  function ReviewInvalidates(before: Versions, after: Versions, id: nat): set<nat>
    requires id < |before| == |after|
  {
    DocumentsOf(after, before[id].act) + DocumentsOf(after, after[id].act) + {after[id].document}
  }

  lemma BoundaryRow(versions: Versions, act: nat, starts: Option<Date>, today: Date, i: nat)
    requires IdsArePositions(versions) && i < |versions|
    requires Known(versions, BoundaryChanges(ListByAct(versions, act), starts, today))
    ensures var row := Overwritten(versions, BoundaryChanges(ListByAct(versions, act), starts, today))[i];
            row != versions[i] ==> row.act == Some(act)
  {
    ListMembers(versions, act);
    var previous := ListByAct(versions, act);
    var changes := BoundaryChanges(previous, starts, today);
    OverwrittenAt(versions, changes, i);
    var row := Overwritten(versions, changes)[i];
    if row in changes {
      var k := BoundaryComesFrom(previous, starts, today, row);
      assert previous[k] in previous;
    }
  }

  lemma LinkChanges(db: Db, act: nat, r: Request, today: Date, i: nat)
    requires Consistent(db) && act < |db.acts| && !HasVersion(db.versions, r.document)
    requires LinkUpload(db, act, r, today).Success? && i < |db.versions|
    ensures var after := LinkUpload(db, act, r, today).value.versions;
            && |after| == |db.versions| + 1 && after[|db.versions|].document == r.document
            && (after[i] != db.versions[i] ==> after[i].act == Some(act) == after[|db.versions|].act)
  {
    ListMembers(db.versions, act);
    var previous := ListByAct(db.versions, act);
    if previous == [] || SharesScope(db.documents, r.document, previous) {
      BoundarySucceeds(db, previous, r.starts, today);
      SaveAllOverwrites(db, BoundaryChanges(previous, r.starts, today));
      BoundaryRow(db.versions, act, r.starts, today, i);
    }
  }

  lemma UploadKeepsDocuments(db: Db, r: Request, dateOf: DateReader, today: Date, i: nat)
    requires Consistent(db) && Upload(db, r, dateOf, today).Success? && i < |db.versions|
    ensures var after := Upload(db, r, dateOf, today).value.versions;
            i < |after| && after[i].document == db.versions[i].document
  {
    if !HasVersion(db.versions, r.document) && r.number.Some? && r.number.value != "" {
      var scope := if r.document in db.documents then DocumentScopeKey(db.documents[r.document])
                   else ScopeKey(InternalPublic, None);
      var found := FindOrCreate(db.acts, r, r.number.value, scope, dateOf).value;
      NewActKeepsConsistency(db, found.0);
      LinkKeepsDocuments(db.(acts := found.0), found.1, r, today, i);
    }
  }

  lemma LinkKeepsDocuments(db: Db, act: nat, r: Request, today: Date, i: nat)
    requires Consistent(db) && i < |db.versions| && LinkUpload(db, act, r, today).Success?
    ensures var after := LinkUpload(db, act, r, today).value.versions;
            i < |after| && after[i].document == db.versions[i].document
  {
    ListMembers(db.versions, act);
    var previous := ListByAct(db.versions, act);
    if previous == [] || SharesScope(db.documents, r.document, previous) {
      BoundarySucceeds(db, previous, r.starts, today);
      BoundaryFits(db.versions, previous, r.starts, today, |db.versions|, None);
      SaveAllOverwrites(db, BoundaryChanges(previous, r.starts, today));
      FittingRow(db.versions, BoundaryChanges(previous, r.starts, today), |db.versions|, None, i);
    }
  }

  /** Every document whose version row an upload changed is invalidated after the commit. */
  lemma UploadInvalidationIsComplete(db: Db, r: Request, dateOf: DateReader, today: Date, i: nat)
    requires Consistent(db) && Upload(db, r, dateOf, today).Success? && i < |db.versions|
    requires Upload(db, r, dateOf, today).value.versions[i] != db.versions[i]
    ensures var after := Upload(db, r, dateOf, today).value.versions;
            HasVersion(after, r.document) && db.versions[i].document in UploadInvalidates(after, r.document)
  {
    UploadKeepsConsistency(db, r, dateOf, today);
    var after := Upload(db, r, dateOf, today).value;
    var scope := if r.document in db.documents then DocumentScopeKey(db.documents[r.document])
                 else ScopeKey(InternalPublic, None);
    var found := FindOrCreate(db.acts, r, r.number.value, scope, dateOf).value;
    NewActKeepsConsistency(db, found.0);
    LinkChanges(db.(acts := found.0), found.1, r, today, i);
    UploadKeepsDocuments(db, r, dateOf, today, i);
    LinkedDocument(after.versions, i);
    NewVersionIsFound(after, |db.versions|, r.document);
  }

  lemma NewVersionIsFound(db: Db, n: nat, document: nat)
    requires Consistent(db) && n < |db.versions| && db.versions[n].document == document
    ensures HasVersion(db.versions, document) && VersionFor(db.versions, document) == n
  {
  }

  /** A review saves no row but its own version's and those of the two acts. */
  lemma ReviewTouches(db: Db, id: nat, o: Options, today: Date, v: Version)
    requires Consistent(db) && PlanReview(db, id, o, today).Success? && v in PlanReview(db, id, o, today).value
    ensures v.id == id || (v.act.Some? && (v.act == db.versions[id].act || v.act == Edited(db.versions[id], o).act))
  {
    var row := db.versions[id];
    var timeline, edited := TimelineOf(db.versions, row), Edited(row, o);
    if edited.act == row.act {
      if edited.act.Some? && DatesGiven(o) {
        ListMembers(db.versions, row.act.value);
        CorrectedIsTimeline(db.versions, row.act.value, edited, EndGiven(o), today);
        var corrected := Correct(timeline, edited, EndGiven(o), today).value;
        StampingKeepsTimeline(db.versions, row.act.value, corrected, id, o);
      }
    } else {
      MoveTouches(db, id, o, today, v);
    }
  }

  lemma MoveTouches(db: Db, id: nat, o: Options, today: Date, v: Version)
    requires Consistent(db) && id < |db.versions| && Edited(db.versions[id], o).act != db.versions[id].act
    requires PlanReview(db, id, o, today).Success? && v in PlanReview(db, id, o, today).value
    ensures v.id == id || (v.act.Some? && (v.act == db.versions[id].act || v.act == Edited(db.versions[id], o).act))
  {
    var row := db.versions[id];
    var timeline, edited := TimelineOf(db.versions, row), Edited(row, o);
    var moved := if row.act.Some? && !EndGiven(o) then edited.(ends := ExplicitEnds(timeline)[id]) else edited;
    RelinkingSucceeds(db, moved, o, today);
    if row.act.Some? {
      RemovedIsTimeline(db.versions, row.act.value, id, today);
    }
  }

  /**
   Every document whose version row a review changed is invalidated after the commit, in the old act and in the
   new.
   */
  lemma ReviewInvalidationIsComplete(db: Db, id: nat, o: Options, today: Date, i: nat)
    requires Consistent(db) && Review(db, id, o, today).Success? && id < |db.versions| && i < |db.versions|
    requires Review(db, id, o, today).value.versions[i] != db.versions[i]
    ensures var after := Review(db, id, o, today).value.versions;
            |after| == |db.versions| && db.versions[i].document in ReviewInvalidates(db.versions, after, id)
  {
    ReviewKeepsConsistency(db, id, o, today);
    var saves, after := PlanReview(db, id, o, today).value, Review(db, id, o, today).value;
    PlanIsKnown(db, id, o, today);
    SaveAllOverwrites(db, saves);
    ReviewFits(db, id, o, today);
    OverwrittenAt(db.versions, saves, i);
    FittingRow(db.versions, saves, id, Edited(db.versions[id], o).act, i);
    ReviewTouches(db, id, o, today, after.versions[i]);
    ReviewedRow(db, id, o, today);
    if i != id {
      LinkedDocument(after.versions, i);
    }
  }

  lemma ReviewFits(db: Db, id: nat, o: Options, today: Date)
    requires Consistent(db) && PlanReview(db, id, o, today).Success?
    ensures Fits(db.versions, PlanReview(db, id, o, today).value, id, Edited(db.versions[id], o).act)
  {
    if Edited(db.versions[id], o).act == db.versions[id].act {
      InPlaceSucceeds(db, id, o, today);
    } else {
      MoveSucceeds(db, id, o, today);
    }
  }

  /** After a review the version is linked as the options say. */
  lemma ReviewedRow(db: Db, id: nat, o: Options, today: Date)
    requires Consistent(db) && PlanReview(db, id, o, today).Success?
    ensures Known(db.versions, PlanReview(db, id, o, today).value)
    ensures Overwritten(db.versions, PlanReview(db, id, o, today).value)[id].act == Edited(db.versions[id], o).act
  {
    PlanIsKnown(db, id, o, today);
    var saves := PlanReview(db, id, o, today).value;
    if Edited(db.versions[id], o).act == db.versions[id].act {
      ReviewFits(db, id, o, today);
      FittingRow(db.versions, saves, id, Edited(db.versions[id], o).act, id);
    } else {
      MovedRow(db, id, o, today);
      OverwrittenAt(db.versions, saves, id);
    }
  }

  lemma MovedRow(db: Db, id: nat, o: Options, today: Date)
    requires Consistent(db) && id < |db.versions| && Edited(db.versions[id], o).act != db.versions[id].act
    requires PlanReview(db, id, o, today).Success?
    ensures exists v :: v in PlanReview(db, id, o, today).value && v.id == id
    ensures forall v :: v in PlanReview(db, id, o, today).value && v.id == id ==>
              v.act == Edited(db.versions[id], o).act
  {
    var row := db.versions[id];
    var timeline, edited := TimelineOf(db.versions, row), Edited(row, o);
    var moved := if row.act.Some? && !EndGiven(o) then edited.(ends := ExplicitEnds(timeline)[id]) else edited;
    RelinkingSucceeds(db, moved, o, today);
    if row.act.Some? {
      RemovedIsTimeline(db.versions, row.act.value, id, today);
    }
    assert Stamped(Relink(db, moved, today).value.linked, o) in PlanReview(db, id, o, today).value;
  }
}
