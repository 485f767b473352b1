/** What every upload and every review keeps, and why none of their writes is ever refused by the unique index. */
module ActInvariants {
  import opened Outcomes
  import opened Timeline
  import opened ActStore
  import opened ActCommands

  // ---------- Saves that the unique index accepts ----------

  /** No act gets a current version that it did not have. */
  predicate NoPromotion(versions: Versions, v: Version)
    requires v.id < |versions|
  {
    v.current && v.act.Some? ==> versions[v.id].current && versions[v.id].act == v.act
  }

  lemma {:induction false} DemotionsSucceed(db: Db, saved: Versions)
    requires IdsArePositions(db.versions) && OneCurrent(db.versions) && Known(db.versions, saved)
    requires forall v :: v in saved ==> NoPromotion(db.versions, v)
    ensures SaveAll(db, saved).Success?
    ensures forall i :: 0 <= i < |db.versions| ==>
              NoPromotion(db.versions, SaveAll(db, saved).value.versions[i].(id := i))
  {
    if saved == [] {
    } else {
      var n := |saved| - 1;
      DemotionsSucceed(db, saved[..n]);
      var earlier, v := SaveAll(db, saved[..n]).value, saved[n];
      assert NoPromotion(db.versions, v);
      assert forall i :: 0 <= i < |db.versions| ==> NoPromotion(db.versions, earlier.versions[i].(id := i));
    }
  }

  /** Saving one version again and again is accepted when no other version of its act is current. */
  lemma {:induction false} OnePromotionSucceeds(db: Db, saved: Versions, v: Version)
    requires v.id < |db.versions| && forall k :: 0 <= k < |saved| ==> saved[k] == v
    requires !Taken(db.versions, v)
    ensures SaveAll(db, saved).Success?
  {
    if saved == [] {
    } else {
      OnePromotionSucceeds(db, saved[..|saved| - 1], v);
      SaveAllOverwrites(db, saved[..|saved| - 1]);
      var after := SaveAll(db, saved[..|saved| - 1]).value.versions;
      forall i | 0 <= i < |after| && i != v.id ensures after[i] == db.versions[i] {
        OverwrittenAt(db.versions, saved[..|saved| - 1], i);
      }
    }
  }

  predicate AtMostOneCurrent(versions: Versions) {
    forall v, w | v in versions && w in versions :: v.current && w.current ==> v == w
  }

  predicate Covers(versions: Versions, act: nat, candidates: Versions) {
    forall i :: 0 <= i < |versions| && versions[i].act == Some(act) ==> Holds(candidates, i)
  }

  predicate Stored(versions: Versions, stored: Versions, candidates: Versions) {
    forall v :: v in stored && v in candidates ==> v.id < |versions| && versions[v.id] == v
  }

  /** A whole timeline with at most one current version is saved, demotions first, without a conflict. */
  lemma TimelineSavesSucceed(db: Db, act: nat, stored: Versions, candidates: Versions, edited: Option<nat>)
    requires IdsArePositions(db.versions) && OneCurrent(db.versions) && Known(db.versions, candidates)
    requires forall v :: v in candidates ==> v.act == Some(act)
    requires Covers(db.versions, act, candidates) && Stored(db.versions, stored, candidates)
    requires AtMostOneCurrent(candidates)
    ensures SaveAll(db, Changed(stored, candidates, edited)).Success?
  {
    var differing := Differing(stored, candidates, edited);
    var demoted, promoted := ByFlag(differing, false), ByFlag(differing, true);
    DemotionsSucceed(db, demoted);
    if promoted != [] {
      var v := promoted[0];
      NobodyElseIsCurrent(db, act, stored, candidates, edited, v);
      OnePromotionSucceeds(SaveAll(db, demoted).value, promoted, v);
    }
    SaveAllConcat(db, demoted, promoted);
  }

  lemma NobodyElseIsCurrent(db: Db, act: nat, stored: Versions, candidates: Versions, edited: Option<nat>, v: Version)
    requires IdsArePositions(db.versions) && Known(db.versions, candidates)
    requires forall w :: w in candidates ==> w.act == Some(act)
    requires Covers(db.versions, act, candidates) && Stored(db.versions, stored, candidates)
    requires AtMostOneCurrent(candidates) && v in candidates && v.current
    requires SaveAll(db, ByFlag(Differing(stored, candidates, edited), false)).Success?
    ensures !Taken(SaveAll(db, ByFlag(Differing(stored, candidates, edited), false)).value.versions, v)
  {
    var demoted := ByFlag(Differing(stored, candidates, edited), false);
    SaveAllOverwrites(db, demoted);
    var after := SaveAll(db, demoted).value.versions;
    forall i | 0 <= i < |after| && i != v.id && after[i].act == Some(act) ensures !after[i].current {
      OverwrittenAt(db.versions, demoted, i);
      if after[i] !in demoted {
        var w :| w in candidates && w.id == i;
        assert !w.current;
        assert w in stored;
      }
    }
  }

  // ---------- Closing and demoting before a new version ----------

  lemma BoundarySucceeds(db: Db, previous: Versions, starts: Option<Date>, today: Date)
    requires IdsArePositions(db.versions) && OneCurrent(db.versions)
    requires forall v :: v in previous ==> v.id < |db.versions| && db.versions[v.id] == v
    ensures Known(db.versions, BoundaryChanges(previous, starts, today))
    ensures SaveAll(db, BoundaryChanges(previous, starts, today)).Success?
  {
    var changes := BoundaryChanges(previous, starts, today);
    forall v | v in changes ensures v.id < |db.versions| && NoPromotion(db.versions, v) {
      var k := BoundaryComesFrom(previous, starts, today, v);
      assert previous[k] in previous;
    }
    DemotionsSucceed(db, changes);
  }

  /** When the new version is current, no other version of the act is any more. */
  lemma BoundaryFreesTheSlot(db: Db, act: nat, previous: Versions, starts: Option<Date>, today: Date, i: nat)
    requires IdsArePositions(db.versions) && OneCurrent(db.versions)
    requires forall v :: v in previous ==> v.id < |db.versions| && db.versions[v.id] == v
    requires IsLatest(previous, starts, today) && i < |db.versions|
    requires db.versions[i].act == Some(act) ==> db.versions[i] in previous
    requires Known(db.versions, BoundaryChanges(previous, starts, today))
    ensures var row := Overwritten(db.versions, BoundaryChanges(previous, starts, today))[i];
            row.act == Some(act) ==> !row.current
  {
    var changes := BoundaryChanges(previous, starts, today);
    OverwrittenAt(db.versions, changes, i);
    var row := Overwritten(db.versions, changes)[i];
    if row in changes {
      var k := BoundaryComesFrom(previous, starts, today, row);
      assert previous[k] in previous;
    } else if row.act == Some(act) {
      var k :| 0 <= k < |previous| && previous[k] == db.versions[i];
      var bound := WithBoundary(previous, starts, today)[k];
      var m := BoundaryComesFrom(previous, starts, today, bound);
      assert bound.id == i;
      assert bound in previous;
    }
  }

  // ---------- The invariant ----------

  ghost predicate References(db: Db) {
    forall i :: 0 <= i < |db.versions| ==>
      db.versions[i].document in db.documents && (db.versions[i].act.Some? ==> db.versions[i].act.value < |db.acts|)
  }

  /** Each document has at most one version. */
  ghost predicate OnePerDocument(versions: Versions) {
    forall i, j :: 0 <= i < j < |versions| ==> versions[i].document != versions[j].document
  }

  /** All versions of one act have documents of the same visibility scope. */
  ghost predicate ScopesAgree(db: Db)
    requires References(db)
  {
    forall i, j | 0 <= i < |db.versions| && 0 <= j < |db.versions| ::
      db.versions[i].act.Some? && db.versions[i].act == db.versions[j].act ==>
        SameScope(db.documents[db.versions[i].document], db.documents[db.versions[j].document])
  }

  ghost predicate Consistent(db: Db) {
    && IdsArePositions(db.versions) && OneCurrent(db.versions) && Mirrored(db) && LastEntriesAreRows(db)
    && References(db) && OnePerDocument(db.versions) && ScopesAgree(db)
  }

  // ---------- Upload ----------

  lemma InsertKeepsOneCurrent(versions: Versions, v: Version)
    requires IdsArePositions(versions) && OneCurrent(versions) && v.id == |versions| && !Taken(versions, v)
    ensures IdsArePositions(versions + [v]) && OneCurrent(versions + [v])
  {
  }

  lemma InsertKeepsScopes(db: Db, v: Version)
    requires References(db) && ScopesAgree(db) && OnePerDocument(db.versions)
    requires !HasVersion(db.versions, v.document) && v.document in db.documents
    requires v.act.Some? ==> v.act.value < |db.acts|
    requires forall i :: 0 <= i < |db.versions| && v.act.Some? && db.versions[i].act == v.act ==>
               SameScope(db.documents[v.document], db.documents[db.versions[i].document])
    ensures var after := db.(versions := db.versions + [v]);
            References(after) && ScopesAgree(after) && OnePerDocument(after.versions)
  {
  }

  lemma InsertKeepsConsistency(db: Db, v: Version)
    requires Consistent(db) && v.id == |db.versions| && InsertVersion(db, v).Success?
    requires !HasVersion(db.versions, v.document)
    requires v.act.Some? ==> v.act.value < |db.acts|
    requires forall i :: 0 <= i < |db.versions| && v.act.Some? && db.versions[i].act == v.act ==>
               SameScope(db.documents[v.document], db.documents[db.versions[i].document])
    ensures Consistent(InsertVersion(db, v).value)
  {
    InsertKeepsOneCurrent(db.versions, v);
    InsertKeepsScopes(db, v);
  }

  // ---------- Saves ----------

  /** The saves keep each version's document, and its act unless it is the moved one, which goes to `target`. */
  predicate Fits(versions: Versions, saved: Versions, moved: nat, target: Option<nat>) {
    forall v :: v in saved ==>
      && v.id < |versions| && v.document == versions[v.id].document
      && (v.act == versions[v.id].act || (v.id == moved && v.act == target))
  }

  lemma FittingRow(versions: Versions, saved: Versions, moved: nat, target: Option<nat>, i: nat)
    requires Fits(versions, saved, moved, target) && i < |versions|
    ensures var row := Overwritten(versions, saved)[i];
            row.document == versions[i].document && (row.act == versions[i].act || (i == moved && row.act == target))
  {
    OverwrittenAt(versions, saved, i);
  }

  /** The moved version's document may join those of its new act. */
  ghost predicate MayJoin(db: Db, moved: nat, target: Option<nat>)
    requires References(db)
  {
    moved < |db.versions| && target.Some? ==>
      && target.value < |db.acts|
      && forall i :: 0 <= i < |db.versions| && i != moved && db.versions[i].act == target ==>
           SameScope(db.documents[db.versions[moved].document], db.documents[db.versions[i].document])
  }

  lemma FittingScopes(db: Db, versions: Versions, moved: nat, target: Option<nat>)
    requires References(db) && ScopesAgree(db) && OnePerDocument(db.versions) && MayJoin(db, moved, target)
    requires |versions| == |db.versions|
    requires forall i :: 0 <= i < |versions| ==>
               && versions[i].document == db.versions[i].document
               && (versions[i].act == db.versions[i].act || (i == moved && versions[i].act == target))
    ensures var after := db.(versions := versions);
            References(after) && ScopesAgree(after) && OnePerDocument(versions)
  {
  }

  lemma SavesKeepConsistency(db: Db, saved: Versions, moved: nat, target: Option<nat>)
    requires Consistent(db) && Fits(db.versions, saved, moved, target) && MayJoin(db, moved, target)
    requires SaveAll(db, saved).Success?
    ensures Consistent(SaveAll(db, saved).value)
  {
    SaveAllKeepsProjections(db, saved);
    SaveAllOverwrites(db, saved);
    var after := SaveAll(db, saved).value;
    forall i | 0 <= i < |db.versions|
      ensures after.versions[i].document == db.versions[i].document
      ensures after.versions[i].act == db.versions[i].act || (i == moved && after.versions[i].act == target)
    {
      FittingRow(db.versions, saved, moved, target, i);
    }
    FittingScopes(db, after.versions, moved, target);
  }

  // ---------- Upload ----------

  lemma BoundaryFits(versions: Versions, previous: Versions, starts: Option<Date>, today: Date, moved: nat,
                     target: Option<nat>)
    requires forall v :: v in previous ==> v.id < |versions| && versions[v.id] == v
    ensures Fits(versions, BoundaryChanges(previous, starts, today), moved, target)
  {
    forall v | v in BoundaryChanges(previous, starts, today)
      ensures v.id < |versions| && v.document == versions[v.id].document && v.act == versions[v.id].act
    {
      var k := BoundaryComesFrom(previous, starts, today, v);
      assert previous[k] in previous;
    }
  }

  lemma NewVersionIsFree(db: Db, act: nat, previous: Versions, r: Request, today: Date)
    requires IdsArePositions(db.versions) && OneCurrent(db.versions) && previous == ListByAct(db.versions, act)
    requires Known(db.versions, BoundaryChanges(previous, r.starts, today))
    ensures !Taken(Overwritten(db.versions, BoundaryChanges(previous, r.starts, today)),
                   NewVersion(|db.versions|, Some(act), previous, r, today))
  {
    ListMembers(db.versions, act);
    if IsLatest(previous, r.starts, today) {
      forall i | 0 <= i < |db.versions|
        ensures var row := Overwritten(db.versions, BoundaryChanges(previous, r.starts, today))[i];
                row.act == Some(act) ==> !row.current
      {
        BoundaryFreesTheSlot(db, act, previous, r.starts, today, i);
      }
    }
  }

  lemma LinkKeepsConsistency(db: Db, act: nat, r: Request, today: Date)
    requires Consistent(db) && act < |db.acts| && !HasVersion(db.versions, r.document)
    ensures LinkUpload(db, act, r, today).Success? <==> r.document in db.documents
    ensures LinkUpload(db, act, r, today).Success? ==> Consistent(LinkUpload(db, act, r, today).value)
    ensures LinkUpload(db, act, r, today).Failure? ==> LinkUpload(db, act, r, today).error == UnknownDocument
  {
    ListMembers(db.versions, act);
    var previous := ListByAct(db.versions, act);
    if previous != [] && !SharesScope(db.documents, r.document, previous) {
      if r.document in db.documents {
        InsertKeepsConsistency(db, NewVersion(|db.versions|, None, [], r, today));
      }
    } else {
      var changes := BoundaryChanges(previous, r.starts, today);
      BoundarySucceeds(db, previous, r.starts, today);
      BoundaryFits(db.versions, previous, r.starts, today, |db.versions|, None);
      SaveAllOverwrites(db, changes);
      SavesKeepConsistency(db, changes, |db.versions|, None);
      NewVersionIsFree(db, act, previous, r, today);
      if r.document in db.documents {
        LinkedInsert(db, act, changes, NewVersion(|db.versions|, Some(act), previous, r, today));
      }
    }
  }

  lemma LinkedInsert(db: Db, act: nat, changes: Versions, v: Version)
    requires Consistent(db) && act < |db.acts| && !HasVersion(db.versions, v.document) && v.document in db.documents
    requires ListByAct(db.versions, act) == [] || SharesScope(db.documents, v.document, ListByAct(db.versions, act))
    requires Fits(db.versions, changes, |db.versions|, None) && SaveAll(db, changes).Success?
    requires Consistent(SaveAll(db, changes).value) && v.id == |db.versions| && v.act == Some(act)
    requires InsertVersion(SaveAll(db, changes).value, v).Success?
    ensures Consistent(InsertVersion(SaveAll(db, changes).value, v).value)
  {
    ListMembers(db.versions, act);
    SaveAllOverwrites(db, changes);
    var after := SaveAll(db, changes).value;
    forall i | 0 <= i < |after.versions|
      ensures after.versions[i].document == db.versions[i].document && after.versions[i].act == db.versions[i].act
    {
      FittingRow(db.versions, changes, |db.versions|, None, i);
    }
    forall i | 0 <= i < |after.versions| && after.versions[i].act == v.act
      ensures SameScope(after.documents[v.document], after.documents[after.versions[i].document])
    {
      assert db.versions[i] in ListByAct(db.versions, act);
    }
    InsertKeepsConsistency(after, v);
  }

  lemma NewActKeepsConsistency(db: Db, acts: seq<Act>)
    requires Consistent(db) && |acts| >= |db.acts|
    ensures Consistent(db.(acts := acts))
  {
  }

  /**
   An upload is refused only for a missing document or a clash of act identities, never by the index on current
   versions, and it keeps the store consistent.
   */
  lemma UploadKeepsConsistency(db: Db, r: Request, dateOf: DateReader, today: Date)
    requires Consistent(db)
    ensures match Upload(db, r, dateOf, today)
            case Success(after) => Consistent(after) && HasVersion(after.versions, r.document)
            case Failure(error) => error == UnknownDocument || error == ActConflict
  {
    if !HasVersion(db.versions, r.document) {
      if r.number.None? || r.number.value == "" {
        if r.document in db.documents {
          InsertKeepsConsistency(db, NewVersion(|db.versions|, None, [], r, today));
        }
      } else {
        var scope := if r.document in db.documents then DocumentScopeKey(db.documents[r.document])
                     else ScopeKey(InternalPublic, None);
        var found := FindOrCreate(db.acts, r, r.number.value, scope, dateOf);
        if found.Success? {
          NewActKeepsConsistency(db, found.value.0);
          LinkKeepsConsistency(db.(acts := found.value.0), found.value.1, r, today);
        }
      }
      if Upload(db, r, dateOf, today).Success? {
        UploadLeavesAVersion(db, r, dateOf, today);
      }
    }
  }

  lemma UploadLeavesAVersion(db: Db, r: Request, dateOf: DateReader, today: Date)
    requires IdsArePositions(db.versions) && !HasVersion(db.versions, r.document)
               && Upload(db, r, dateOf, today).Success?
    ensures var after := Upload(db, r, dateOf, today).value.versions;
            |after| == |db.versions| + 1 && after[|db.versions|].document == r.document
  {
  }

  // ---------- Rebuilt timelines as saves ----------

  lemma RebuiltHolds(versions: Versions, ends: Ends, today: Date, v: Version)
    requires Covered(versions, ends) && Rebuild(versions, ends, today).Some? && v in versions
    ensures Holds(Rebuild(versions, ends, today).value, v.id)
  {
    SortedMembers(versions);
    var ordered, result := Sorted(versions), Rebuild(versions, ends, today).value;
    var i :| 0 <= i < |ordered| && ordered[i] == v;
    RebuiltAt(versions, ends, today, i);
    assert result[i] in result;
  }

  predicate OneCurrentPosition(versions: Versions) {
    forall i, j | 0 <= i < |versions| && 0 <= j < |versions| :: versions[i].current && versions[j].current ==> i == j
  }

  lemma RebuiltOneCurrent(versions: Versions, ends: Ends, today: Date)
    requires Covered(versions, ends) && Rebuild(versions, ends, today).Some?
    ensures OneCurrentPosition(Rebuild(versions, ends, today).value)
  {
    RebuiltCurrent(versions, ends, today);
  }

  // ---------- Review in place ----------

  lemma CorrectedHolds(timeline: Versions, edited: Version, endGiven: bool, today: Date, v: Version)
    requires Holds(timeline, edited.id) && Correct(timeline, edited, endGiven, today).Some? && v in timeline
    ensures Holds(Correct(timeline, edited, endGiven, today).value, v.id)
    ensures OneCurrentPosition(Correct(timeline, edited, endGiven, today).value)
  {
    var explicit := ExplicitEnds(timeline);
    var ends := if endGiven then explicit[edited.id := edited.ends] else explicit;
    var replaced := Replaced(timeline, edited);
    var k :| 0 <= k < |timeline| && timeline[k] == v;
    assert replaced[k] in replaced && replaced[k].id == v.id;
    RebuiltHolds(replaced, ends, today, replaced[k]);
    RebuiltOneCurrent(replaced, ends, today);
  }

  /** `corrected` has one row for each version of the act, and at most one of them is current. */
  predicate IsTimelineOf(versions: Versions, act: nat, corrected: Versions) {
    && (forall w :: w in corrected ==>
          w.id < |versions| && w.document == versions[w.id].document && w.act == Some(act) == versions[w.id].act)
    && Covers(versions, act, corrected) && OneCurrentPosition(corrected)
  }

  lemma CorrectedIsTimeline(versions: Versions, act: nat, edited: Version, endGiven: bool, today: Date)
    requires IdsArePositions(versions) && edited.id < |versions| && Holds(ListByAct(versions, act), edited.id)
    requires edited.act == versions[edited.id].act == Some(act) && edited.document == versions[edited.id].document
    requires Correct(ListByAct(versions, act), edited, endGiven, today).Some?
    ensures IsTimelineOf(versions, act, Correct(ListByAct(versions, act), edited, endGiven, today).value)
  {
    var timeline := ListByAct(versions, act);
    var corrected := Correct(timeline, edited, endGiven, today).value;
    ListMembers(versions, act);
    forall w | w in corrected
      ensures w.id < |versions| && w.document == versions[w.id].document && w.act == Some(act) == versions[w.id].act
    {
      var v := CorrectedMember(timeline, edited, endGiven, today, w);
    }
    forall i | 0 <= i < |versions| && versions[i].act == Some(act) ensures Holds(corrected, i) {
      CorrectedHolds(timeline, edited, endGiven, today, versions[i]);
    }
    CorrectedHolds(timeline, edited, endGiven, today, versions[edited.id]);
  }

  lemma StampingKeepsTimeline(versions: Versions, act: nat, corrected: Versions, id: nat, o: Options)
    requires IsTimelineOf(versions, act, corrected)
    ensures IsTimelineOf(versions, act, StampedIn(corrected, id, o)) && AtMostOneCurrent(StampedIn(corrected, id, o))
  {
    var stamped := StampedIn(corrected, id, o);
    forall k | 0 <= k < |stamped|
      ensures var w := stamped[k];
              w.id < |versions| && w.document == versions[w.id].document && w.act == Some(act) == versions[w.id].act
    {
      assert corrected[k] in corrected;
    }
    forall i | 0 <= i < |versions| && versions[i].act == Some(act) ensures Holds(stamped, i) {
      StampedHolds(corrected, id, o, i);
    }
    StampingKeepsFlags(corrected, id, o);
  }

  lemma StampedHolds(versions: Versions, id: nat, o: Options, i: nat)
    requires Holds(versions, i)
    ensures Holds(StampedIn(versions, id, o), i)
  {
    var k :| 0 <= k < |versions| && versions[k].id == i;
    assert StampedIn(versions, id, o)[k] in StampedIn(versions, id, o);
  }

  lemma StampingKeepsFlags(versions: Versions, id: nat, o: Options)
    requires OneCurrentPosition(versions)
    ensures OneCurrentPosition(StampedIn(versions, id, o)) && AtMostOneCurrent(StampedIn(versions, id, o))
  {
    var stamped := StampedIn(versions, id, o);
    assert forall k :: 0 <= k < |stamped| ==> stamped[k].current == versions[k].current;
  }

  lemma InPlaceSucceeds(db: Db, id: nat, o: Options, today: Date)
    requires Consistent(db) && id < |db.versions|
    requires Edited(db.versions[id], o).act == db.versions[id].act && PlanReview(db, id, o, today).Success?
    ensures var saves := PlanReview(db, id, o, today).value;
            Fits(db.versions, saves, id, db.versions[id].act) && SaveAll(db, saves).Success?
  {
    var v := db.versions[id];
    var edited := Edited(v, o);
    if edited.act.Some? && DatesGiven(o) {
      var timeline := ListByAct(db.versions, v.act.value);
      ListMembers(db.versions, v.act.value);
      CorrectedIsTimeline(db.versions, v.act.value, edited, EndGiven(o), today);
      var corrected := Correct(timeline, edited, EndGiven(o), today).value;
      StampingKeepsTimeline(db.versions, v.act.value, corrected, id, o);
      var stamped := StampedIn(corrected, id, o);
      TimelineSavesSucceed(db, v.act.value, timeline, stamped, Some(id));
    } else {
      DemotionsSucceed(db, [Stamped(edited, o)]);
    }
  }

  // ---------- Review that moves the version ----------

  lemma RemovedIsTimeline(versions: Versions, act: nat, id: nat, today: Date)
    requires IdsArePositions(versions) && Removed(ListByAct(versions, act), id, today).Some?
    ensures var remaining := Removed(ListByAct(versions, act), id, today).value;
            && OneCurrentPosition(remaining)
            && (forall w :: w in remaining ==>
                  w.id < |versions| && w.id != id && w.document == versions[w.id].document
                  && w.act == Some(act) == versions[w.id].act)
            && (forall i :: 0 <= i < |versions| && i != id && versions[i].act == Some(act) ==> Holds(remaining, i))
  {
    var timeline := ListByAct(versions, act);
    var others, ends := Without(timeline, id), ExplicitEnds(timeline);
    var remaining := Removed(timeline, id, today).value;
    ListMembers(versions, act);
    forall w | w in remaining
      ensures w.id < |versions| && w.id != id && w.document == versions[w.id].document
              && w.act == Some(act) == versions[w.id].act
    {
      var v := RebuiltMember(others, ends, today, w);
    }
    forall i | 0 <= i < |versions| && i != id && versions[i].act == Some(act) ensures Holds(remaining, i) {
      RebuiltHolds(others, ends, today, versions[i]);
    }
    RebuiltOneCurrent(others, ends, today);
  }

  /** The saves in the new act leave room for the moved version, and touch no row of another act. */
  lemma RelinkingSucceeds(db: Db, moved: Version, o: Options, today: Date)
    requires Consistent(db) && moved.id < |db.versions| && moved.document == db.versions[moved.id].document
    requires moved.act != db.versions[moved.id].act
    requires Relink(db, moved, today).Success?
    ensures var relinking := Relink(db, moved, today).value;
            var linked := Stamped(relinking.linked, o);
            && linked.id == moved.id && linked.act == moved.act && linked.document == moved.document
            && Known(db.versions, relinking.others)
            && (forall v :: v in relinking.others ==>
                  v.id != moved.id && v.document == db.versions[v.id].document
                  && v.act.Some? && v.act == moved.act == db.versions[v.id].act)
            && SaveAll(db, relinking.others).Success?
            && !Taken(SaveAll(db, relinking.others).value.versions, linked)
            && MayJoin(db, moved.id, moved.act)
  {
    if moved.act.Some? {
      var act := moved.act.value;
      var previous, changes := Without(ListByAct(db.versions, act), moved.id), Relink(db, moved, today).value.others;
      ListMembers(db.versions, act);
      BoundarySucceeds(db, previous, moved.starts, today);
      SaveAllOverwrites(db, changes);
      forall v | v in changes
        ensures v.id != moved.id && v.document == db.versions[v.id].document
                  && v.act == moved.act == db.versions[v.id].act
      {
        var k := BoundaryComesFrom(previous, moved.starts, today, v);
        assert previous[k] in previous;
      }
      RelinkedSlotIsFree(db, act, previous, moved, today);
    }
  }

  lemma RelinkedSlotIsFree(db: Db, act: nat, previous: Versions, moved: Version, today: Date)
    requires IdsArePositions(db.versions) && OneCurrent(db.versions)
    requires previous == Without(ListByAct(db.versions, act), moved.id)
    requires Known(db.versions, BoundaryChanges(previous, moved.starts, today))
    ensures var after := Overwritten(db.versions, BoundaryChanges(previous, moved.starts, today));
            IsLatest(previous, moved.starts, today) ==>
              forall i :: 0 <= i < |after| && i != moved.id && after[i].act == Some(act) ==> !after[i].current
  {
    ListMembers(db.versions, act);
    if IsLatest(previous, moved.starts, today) {
      var after := Overwritten(db.versions, BoundaryChanges(previous, moved.starts, today));
      forall i | 0 <= i < |after| && i != moved.id && after[i].act == Some(act) ensures !after[i].current {
        BoundaryFreesTheSlot(db, act, previous, moved.starts, today, i);
      }
    }
  }

  lemma RemainingSucceeds(before: Db, db: Db, act: nat, id: nat, today: Date, target: Option<nat>)
    requires IdsArePositions(before.versions) && IdsArePositions(db.versions) && OneCurrent(db.versions)
    requires Removed(ListByAct(before.versions, act), id, today).Some? && target != Some(act)
    requires |db.versions| == |before.versions| && id < |db.versions| && db.versions[id].act != Some(act)
    requires forall i :: 0 <= i < |db.versions| && i != id ==>
               if before.versions[i].act == Some(act) then db.versions[i] == before.versions[i]
               else db.versions[i].act != Some(act)
    ensures var saves := Changed(ListByAct(before.versions, act),
              Removed(ListByAct(before.versions, act), id, today).value, None);
            Known(db.versions, saves) && SaveAll(db, saves).Success?
  {
    var timeline := ListByAct(before.versions, act);
    var remaining := Removed(timeline, id, today).value;
    ListMembers(before.versions, act);
    RemovedIsTimeline(before.versions, act, id, today);
    assert forall i :: 0 <= i < |db.versions| && db.versions[i].act == Some(act) ==>
             i != id && before.versions[i].act == Some(act);
    assert AtMostOneCurrent(remaining);
    TimelineSavesSucceed(db, act, timeline, remaining, None);
  }

  /** The rows before the old act's remaining versions are saved. */
  lemma BetweenTheActs(db: Db, others: Versions, linked: Version, left: Option<nat>)
    requires Consistent(db) && linked.id < |db.versions| && linked.document == db.versions[linked.id].document
    requires linked.act != left && left == db.versions[linked.id].act && MayJoin(db, linked.id, linked.act)
    requires Known(db.versions, others) && SaveAll(db, others).Success?
    requires forall v :: v in others ==>
               v.id != linked.id && v.document == db.versions[v.id].document
               && v.act.Some? && v.act == linked.act == db.versions[v.id].act
    requires !Taken(SaveAll(db, others).value.versions, linked)
    ensures Known(db.versions, others + [linked]) && SaveAll(db, others + [linked]).Success?
    ensures Consistent(SaveAll(db, others + [linked]).value)
    ensures var after := SaveAll(db, others + [linked]).value.versions;
            && after[linked.id].act == linked.act
            && (left.Some? ==> forall i :: 0 <= i < |after| && i != linked.id ==>
                  if db.versions[i].act == left then after[i] == db.versions[i] else after[i].act != left)
  {
    var saved := others + [linked];
    SaveAllConcat(db, others, [linked]);
    SaveAllOverwrites(db, saved);
    SavesKeepConsistency(db, saved, linked.id, linked.act);
    var after := SaveAll(db, saved).value.versions;
    assert linked in saved;
    forall i | 0 <= i < |after|
      ensures if i == linked.id then after[i].act == linked.act
              else after[i] == db.versions[i] || (after[i].act == linked.act == db.versions[i].act)
    {
      OverwrittenAt(db.versions, saved, i);
    }
  }

  /** What RelinkingSucceeds says of the saves in the new act. */
  ghost predicate Joins(db: Db, others: Versions, linked: Version)
    requires Consistent(db)
  {
    && linked.id < |db.versions| && linked.document == db.versions[linked.id].document
    && linked.act != db.versions[linked.id].act && MayJoin(db, linked.id, linked.act)
    && Known(db.versions, others) && SaveAll(db, others).Success?
    && (forall v :: v in others ==>
          v.id != linked.id && v.document == db.versions[v.id].document
          && v.act.Some? && v.act == linked.act == db.versions[v.id].act)
    && !Taken(SaveAll(db, others).value.versions, linked)
  }

  /** The old act's remaining versions are saved last. */
  lemma LeavingSucceeds(db: Db, others: Versions, linked: Version, act: nat, today: Date)
    requires Consistent(db) && Joins(db, others, linked) && db.versions[linked.id].act == Some(act)
    requires Removed(ListByAct(db.versions, act), linked.id, today).Some?
    ensures var timeline := ListByAct(db.versions, act);
            var rest := Changed(timeline, Removed(timeline, linked.id, today).value, None);
            && Fits(db.versions, rest, linked.id, linked.act) && Known(db.versions, others + [linked] + rest)
            && SaveAll(db, others + [linked] + rest).Success?
  {
    var timeline := ListByAct(db.versions, act);
    BetweenTheActs(db, others, linked, Some(act));
    RemovedIsTimeline(db.versions, act, linked.id, today);
    RemainingSucceeds(db, SaveAll(db, others + [linked]).value, act, linked.id, today, linked.act);
    SaveAllConcat(db, others + [linked], Changed(timeline, Removed(timeline, linked.id, today).value, None));
  }

  lemma JoiningFits(db: Db, others: Versions, linked: Version, rest: Versions)
    requires Consistent(db) && Joins(db, others, linked) && Fits(db.versions, rest, linked.id, linked.act)
    ensures Fits(db.versions, others + [linked] + rest, linked.id, linked.act)
  {
  }

  lemma MoveSucceeds(db: Db, id: nat, o: Options, today: Date)
    requires Consistent(db) && id < |db.versions|
    requires Edited(db.versions[id], o).act != db.versions[id].act && PlanReview(db, id, o, today).Success?
    ensures var saves := PlanReview(db, id, o, today).value;
            && MayJoin(db, id, Edited(db.versions[id], o).act)
            && Fits(db.versions, saves, id, Edited(db.versions[id], o).act) && SaveAll(db, saves).Success?
  {
    var v := db.versions[id];
    var timeline, edited := TimelineOf(db.versions, v), Edited(v, o);
    var moved := if v.act.Some? && !EndGiven(o) then edited.(ends := ExplicitEnds(timeline)[v.id]) else edited;
    RelinkingSucceeds(db, moved, o, today);
    var relinking := Relink(db, moved, today).value;
    var others, linked := relinking.others, Stamped(relinking.linked, o);
    if v.act.Some? {
      LeavingSucceeds(db, others, linked, v.act.value, today);
      JoiningFits(db, others, linked, Changed(timeline, Removed(timeline, id, today).value, None));
    } else {
      BetweenTheActs(db, others, linked, None);
      JoiningFits(db, others, linked, []);
      assert Changed(timeline, [], None) == [];
      assert others + [linked] + [] == others + [linked];
    }
  }

  /**
   A review fails only for reasons it checks itself, never by the index on current versions, and keeps the store
   consistent.
   */
  lemma ReviewKeepsConsistency(db: Db, id: nat, o: Options, today: Date)
    requires Consistent(db)
    ensures match Review(db, id, o, today)
            case Success(after) => Consistent(after) && PlanReview(db, id, o, today).Success?
            case Failure(error) =>
              PlanReview(db, id, o, today) == Failure(error) && error != UniqueViolation
  {
    var plan := PlanReview(db, id, o, today);
    if plan.Success? {
      if Edited(db.versions[id], o).act == db.versions[id].act {
        InPlaceSucceeds(db, id, o, today);
      } else {
        MoveSucceeds(db, id, o, today);
      }
      SavesKeepConsistency(db, plan.value, id, Edited(db.versions[id], o).act);
    }
  }
}
