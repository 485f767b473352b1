/**
 The tables that act versioning writes: acts, versions, chunk projections and the vector outbox, with the
 database constraints that can refuse a write.

 A row's id is its position in its table.  Documents keep their visibility scope; versions are never deleted.
 */
module ActStore {
  import opened Outcomes
  import opened Timeline

  datatype Visibility = InternalPublic | InternalGroup | InternalPrivate | ClientPrivate

  datatype Document = Document(visibility: Visibility, owner: Option<nat>, group: Option<nat>)

  predicate SameScope(left: Document, right: Document) {
    && left.visibility == right.visibility
    && match left.visibility
       case InternalPrivate | ClientPrivate => left.owner == right.owner
       case InternalGroup => left.group == right.group
       case InternalPublic => true
  }

  /** The text of document_scope_key: the visibility, and the owner or group when it restricts readers. */
  datatype ScopeKey = ScopeKey(visibility: Visibility, restriction: Option<Option<nat>>)

  function DocumentScopeKey(document: Document): ScopeKey {
    match document.visibility
    case InternalGroup => ScopeKey(document.visibility, Some(document.group))
    case InternalPrivate | ClientPrivate => ScopeKey(document.visibility, Some(document.owner))
    case InternalPublic => ScopeKey(document.visibility, None)
  }

  /** Two documents file their acts under the same key exactly when they may share an act. */
  lemma ScopeKeyDecides(left: Document, right: Document)
    ensures DocumentScopeKey(left) == DocumentScopeKey(right) <==> SameScope(left, right)
  {
  }

  datatype Act = Act(kind: string, number: string, date: Option<Date>, scope: ScopeKey, title: string)

  /** The validity columns that chunks repeat from their version. */
  datatype Period = Period(current: bool, starts: Option<Date>, ends: Option<Date>)

  datatype Chunk = Chunk(version: nat, period: Period)

  datatype Payload = Payload(act: Option<nat>, period: Period)

  datatype Entry = Entry(version: nat, payload: Payload)

  datatype Db = Db(
    acts: seq<Act>, versions: Versions, documents: map<nat, Document>, chunks: map<nat, Chunk>, outbox: seq<Entry>)

  datatype CommandError = NotFound | InvalidDates | ScopeMismatch | UniqueViolation | UnknownDocument | ActConflict

  function PeriodOf(v: Version): Period {
    Period(v.current, v.starts, v.ends)
  }

  function PayloadOf(v: Version): Payload {
    Payload(v.act, PeriodOf(v))
  }

  // ---------- Reading ----------

  function ListByAct(versions: Versions, act: nat): Versions {
    if versions == [] then []
    else
      var last, earlier := versions[|versions| - 1], ListByAct(versions[..|versions| - 1], act);
      if last.act == Some(act) then earlier + [last] else earlier
  }

  predicate IdsArePositions(versions: Versions) {
    forall i :: 0 <= i < |versions| ==> versions[i].id == i
  }

  lemma {:induction false} ListMembers(versions: Versions, act: nat)
    requires IdsArePositions(versions)
    ensures forall v :: v in ListByAct(versions, act) ==>
              v.id < |versions| && versions[v.id] == v && v.act == Some(act)
    ensures forall i :: 0 <= i < |versions| && versions[i].act == Some(act) ==> versions[i] in ListByAct(versions, act)
    ensures DistinctIds(ListByAct(versions, act))
  {
    if versions == [] {
    } else {
      ListMembers(versions[..|versions| - 1], act);
    }
  }

  // ---------- Writing ----------

  /** The partial unique index on act_id: another current version of the same act. */
  predicate Taken(versions: Versions, v: Version) {
    v.current && v.act.Some?
    && exists i :: 0 <= i < |versions| && i != v.id && versions[i].act == v.act && versions[i].current
  }

  function Projected(chunks: map<nat, Chunk>, v: Version): map<nat, Chunk> {
    map k | k in chunks :: if chunks[k].version == v.id then chunks[k].(period := PeriodOf(v)) else chunks[k]
  }

  /** ActVersionPersistence.save: the row, its chunks' columns and an outbox entry, in one transaction. */
  function SaveVersion(db: Db, v: Version): Result<Db, CommandError>
    requires v.id < |db.versions|
  {
    if Taken(db.versions, v) then Failure(UniqueViolation)
    else
      Success(db.(
        versions := db.versions[v.id := v],
        chunks := Projected(db.chunks, v),
        outbox := db.outbox + [Entry(v.id, PayloadOf(v))]))
  }

  predicate Known(versions: Versions, saved: Versions) {
    forall v :: v in saved ==> v.id < |versions|
  }

  function SaveAll(db: Db, saved: Versions): (result: Result<Db, CommandError>)
    requires Known(db.versions, saved)
    ensures result.Success? ==> |result.value.versions| == |db.versions|
  {
    if saved == [] then Success(db)
    else
      match SaveAll(db, saved[..|saved| - 1])
      case Failure(error) => Failure(error)
      case Success(earlier) => SaveVersion(earlier, saved[|saved| - 1])
  }

  function ByFlag(versions: Versions, flag: bool): (result: Versions)
    ensures forall v :: v in result <==> v in versions && v.current == flag
  {
    if versions == [] then []
    else
      var last, earlier := versions[|versions| - 1], ByFlag(versions[..|versions| - 1], flag);
      assert versions == versions[..|versions| - 1] + [last];
      if last.current == flag then earlier + [last] else earlier
  }

  function Differing(stored: Versions, candidates: Versions, edited: Option<nat>): (result: Versions)
    ensures forall v :: v in result <==> v in candidates && (edited == Some(v.id) || v !in stored)
  {
    if candidates == [] then []
    else
      var last, earlier := candidates[|candidates| - 1], Differing(stored, candidates[..|candidates| - 1], edited);
      assert candidates == candidates[..|candidates| - 1] + [last];
      if edited == Some(last.id) || last !in stored then earlier + [last] else earlier
  }

  /** changed_versions: what differs from the stored versions, or was edited; those not current come first. */
  function Changed(stored: Versions, candidates: Versions, edited: Option<nat>): (result: Versions)
    ensures forall v :: v in result <==> v in candidates && (edited == Some(v.id) || v !in stored)
  {
    ByFlag(Differing(stored, candidates, edited), false) + ByFlag(Differing(stored, candidates, edited), true)
  }

  // ---------- What a series of saves leaves behind ----------

  function Overwritten(versions: Versions, saved: Versions): (result: Versions)
    requires Known(versions, saved)
    ensures |result| == |versions|
  {
    if saved == [] then versions
    else Overwritten(versions, saved[..|saved| - 1])[saved[|saved| - 1].id := saved[|saved| - 1]]
  }

  lemma {:induction false} OverwrittenAt(versions: Versions, saved: Versions, i: nat)
    requires Known(versions, saved) && i < |versions|
    ensures var row := Overwritten(versions, saved)[i];
            if exists v :: v in saved && v.id == i then row in saved && row.id == i else row == versions[i]
  {
    if saved == [] {
    } else {
      OverwrittenAt(versions, saved[..|saved| - 1], i);
      assert saved == saved[..|saved| - 1] + [saved[|saved| - 1]];
    }
  }

  /** Every chunk of a version repeats its row. */
  ghost predicate Mirrored(db: Db) {
    forall k :: k in db.chunks ==>
      db.chunks[k].version < |db.versions| && db.chunks[k].period == PeriodOf(db.versions[db.chunks[k].version])
  }

  /** The last outbox entry of version i, if it has any. */
  function LastEntry(outbox: seq<Entry>, i: nat): Option<Payload> {
    if outbox == [] then None
    else if outbox[|outbox| - 1].version == i then Some(outbox[|outbox| - 1].payload)
    else LastEntry(outbox[..|outbox| - 1], i)
  }

  ghost predicate LastEntriesAreRows(db: Db) {
    forall i: nat :: LastEntry(db.outbox, i).Some? ==>
      i < |db.versions| && LastEntry(db.outbox, i) == Some(PayloadOf(db.versions[i]))
  }

  /** No act has two current versions: what the unique index enforces. */
  predicate OneCurrent(versions: Versions) {
    forall i, j | 0 <= i < |versions| && 0 <= j < |versions| && i != j ::
      versions[i].act.Some? && versions[i].act == versions[j].act ==> !(versions[i].current && versions[j].current)
  }

  lemma SaveKeepsProjections(db: Db, v: Version)
    requires v.id < |db.versions| && SaveVersion(db, v).Success?
    requires IdsArePositions(db.versions) && OneCurrent(db.versions) && Mirrored(db) && LastEntriesAreRows(db)
    ensures var after := SaveVersion(db, v).value;
            IdsArePositions(after.versions) && OneCurrent(after.versions) && Mirrored(after)
                && LastEntriesAreRows(after)
  {
    var after := SaveVersion(db, v).value;
    assert after.outbox[..|after.outbox| - 1] == db.outbox;
  }

  lemma {:induction false} SaveAllKeepsProjections(db: Db, saved: Versions)
    requires Known(db.versions, saved) && SaveAll(db, saved).Success?
    requires IdsArePositions(db.versions) && OneCurrent(db.versions) && Mirrored(db) && LastEntriesAreRows(db)
    ensures var after := SaveAll(db, saved).value;
            && IdsArePositions(after.versions) && OneCurrent(after.versions) && Mirrored(after)
            && LastEntriesAreRows(after)
  {
    if saved == [] {
    } else {
      SaveAllKeepsProjections(db, saved[..|saved| - 1]);
      SaveKeepsProjections(SaveAll(db, saved[..|saved| - 1]).value, saved[|saved| - 1]);
    }
  }

  lemma {:induction false} SaveAllOverwrites(db: Db, saved: Versions)
    requires Known(db.versions, saved) && SaveAll(db, saved).Success?
    ensures var after := SaveAll(db, saved).value;
            && after.versions == Overwritten(db.versions, saved)
            && after.acts == db.acts && after.documents == db.documents && after.chunks.Keys == db.chunks.Keys
            && (forall k :: k in db.chunks ==> after.chunks[k].version == db.chunks[k].version)
            && |after.outbox| == |db.outbox| + |saved| && after.outbox[..|db.outbox|] == db.outbox
            && (forall i :: 0 <= i < |saved| ==>
                after.outbox[|db.outbox| + i] == Entry(saved[i].id, PayloadOf(saved[i])))
  {
    if saved == [] {
    } else {
      SaveAllOverwrites(db, saved[..|saved| - 1]);
    }
  }

  lemma {:induction false} SaveAllConcat(db: Db, first: Versions, second: Versions)
    requires Known(db.versions, first) && Known(db.versions, second) && SaveAll(db, first).Success?
    ensures Known(db.versions, first + second)
    ensures SaveAll(db, first + second) == SaveAll(SaveAll(db, first).value, second)
  {
    if second == [] {
      assert first + second == first;
    } else {
      var n := |second| - 1;
      SaveAllConcat(db, first, second[..n]);
      assert (first + second)[..|first + second| - 1] == first + second[..n];
    }
  }

  /** Saving only what changed leaves the same rows and chunks as saving every version of the timeline. */
  lemma SavingTheChangedIsEnough(db: Db, stored: Versions, candidates: Versions)
    requires IdsArePositions(db.versions) && OneCurrent(db.versions) && Mirrored(db) && LastEntriesAreRows(db)
    requires forall v :: v in stored ==> v.id < |db.versions| && db.versions[v.id] == v
    requires Known(db.versions, candidates) && DistinctIds(candidates)
    requires SaveAll(db, Changed(stored, candidates, None)).Success?
    requires SaveAll(db, Changed([], candidates, None)).Success?
    ensures var few, all := SaveAll(db, Changed(stored, candidates, None)).value,
              SaveAll(db, Changed([], candidates, None)).value;
            few.versions == all.versions && few.chunks == all.chunks
  {
    var changed, every := Changed(stored, candidates, None), Changed([], candidates, None);
    SaveAllOverwrites(db, changed);
    SaveAllOverwrites(db, every);
    SaveAllKeepsProjections(db, changed);
    SaveAllKeepsProjections(db, every);
    SameRows(db.versions, stored, candidates);
    SameChunks(SaveAll(db, changed).value, SaveAll(db, every).value, db);
  }

  lemma OneWithId(versions: Versions, a: Version, b: Version)
    requires DistinctIds(versions) && a in versions && b in versions && a.id == b.id
    ensures a == b
  {
  }

  lemma SameRows(versions: Versions, stored: Versions, candidates: Versions)
    requires forall v :: v in stored ==> v.id < |versions| && versions[v.id] == v
    requires Known(versions, candidates) && DistinctIds(candidates)
    ensures Overwritten(versions, Changed(stored, candidates, None))
              == Overwritten(versions, Changed([], candidates, None))
  {
    var changed, every := Changed(stored, candidates, None), Changed([], candidates, None);
    forall i | 0 <= i < |versions| ensures Overwritten(versions, changed)[i] == Overwritten(versions, every)[i] {
      SameRow(versions, stored, candidates, i);
    }
  }

  lemma SameRow(versions: Versions, stored: Versions, candidates: Versions, i: nat)
    requires forall v :: v in stored ==> v.id < |versions| && versions[v.id] == v
    requires Known(versions, candidates) && DistinctIds(candidates) && i < |versions|
    ensures Overwritten(versions, Changed(stored, candidates, None))[i]
            == Overwritten(versions, Changed([], candidates, None))[i]
  {
    var changed, every := Changed(stored, candidates, None), Changed([], candidates, None);
    OverwrittenAt(versions, changed, i);
    OverwrittenAt(versions, every, i);
    var few, all := Overwritten(versions, changed)[i], Overwritten(versions, every)[i];
    if v :| v in candidates && v.id == i {
      assert v in every;
      OneWithId(candidates, v, all);
      if few in candidates && few.id == i {
        OneWithId(candidates, v, few);
      }
    }
  }

  lemma SameChunks(few: Db, all: Db, db: Db)
    requires few.versions == all.versions && |few.versions| == |db.versions| && Mirrored(few) && Mirrored(all)
    requires few.chunks.Keys == all.chunks.Keys == db.chunks.Keys
    requires forall k :: k in db.chunks ==>
               few.chunks[k].version == all.chunks[k].version == db.chunks[k].version < |db.versions|
    ensures few.chunks == all.chunks
  {
  }
}
