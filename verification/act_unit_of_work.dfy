/** The unit of work that uploads and reviews write through, statement by statement. */
module ActUnitOfWork {
  import opened Outcomes
  import opened Timeline
  import opened ActStore
  import opened ActCommands
  import opened ActInvariants

  class UnitOfWork {
    var acts: seq<Act>
    var versions: Versions
    var chunks: map<nat, Chunk>
    var outbox: seq<Entry>
    const documents: map<nat, Document>

    ghost function State(): Db
      reads this
    {
      Db(acts, versions, documents, chunks, outbox)
    }

    constructor (db: Db)
      ensures State() == db
    {
      acts, versions, chunks, outbox := db.acts, db.versions, db.chunks, db.outbox;
      documents := db.documents;
    }

    /** Both chunk updates of a save are UPDATE statements over the version's chunks. */
    method SetCurrent(id: nat, current: bool)
      modifies this`chunks
      ensures chunks == map k | k in old(chunks) ::
                if old(chunks)[k].version == id
                    then old(chunks)[k].(period := old(chunks)[k].period.(current := current))
                else old(chunks)[k]
    {
      chunks := map k | k in chunks ::
        if chunks[k].version == id then chunks[k].(period := chunks[k].period.(current := current)) else chunks[k];
    }

    method UpdateTemporal(id: nat, starts: Option<Date>, ends: Option<Date>)
      modifies this`chunks
      ensures chunks == map k | k in old(chunks) ::
                if old(chunks)[k].version == id then
                  old(chunks)[k].(period := old(chunks)[k].period.(starts := starts, ends := ends))
                else old(chunks)[k]
    {
      chunks := map k | k in chunks ::
        if chunks[k].version == id then chunks[k].(period := chunks[k].period.(starts := starts, ends := ends))
        else chunks[k];
    }

    method Save(v: Version) returns (saved: bool)
      requires v.id < |versions|
      modifies this`versions, this`chunks, this`outbox
      ensures saved == SaveVersion(old(State()), v).Success?
      ensures State() == if saved then SaveVersion(old(State()), v).value else old(State())
    {
      if Taken(versions, v) {
        return false;
      }
      versions := versions[v.id := v];
      SetCurrent(v.id, v.current);
      UpdateTemporal(v.id, v.starts, v.ends);
      assert chunks == Projected(old(chunks), v);
      outbox := outbox + [Entry(v.id, PayloadOf(v))];
      saved := true;
    }

    /** save_changes: stops at the first refused write. */
    method SaveChanges(stored: Versions, candidates: Versions, edited: Option<nat>) returns (saved: bool)
      requires Known(versions, Changed(stored, candidates, edited))
      modifies this`versions, this`chunks, this`outbox
      ensures saved == SaveAll(old(State()), Changed(stored, candidates, edited)).Success?
      ensures saved ==> State() == SaveAll(old(State()), Changed(stored, candidates, edited)).value
    {
      var changed := Changed(stored, candidates, edited);
      ghost var start := State();
      for i := 0 to |changed|
        invariant acts == start.acts && |versions| == |start.versions|
        invariant Known(start.versions, changed[..i]) && SaveAll(start, changed[..i]) == Success(State())
      {
        assert changed[..i + 1][..i] == changed[..i];
        var accepted := Save(changed[i]);
        if !accepted {
          RefusedSave(start, changed, i + 1);
          return false;
        }
      }
      assert changed[..|changed|] == changed;
      saved := true;
    }

    method Insert(v: Version) returns (result: Result<nat, CommandError>)
      modifies this`versions
      ensures result.Success? == InsertVersion(old(State()), v).Success?
      ensures match result
              case Success(id) => id == |old(versions)| && State() == InsertVersion(old(State()), v).value
              case Failure(error) => InsertVersion(old(State()), v) == Failure(error) && State() == old(State())
    {
      if v.document !in documents {
        return Failure(UnknownDocument);
      }
      if Taken(versions, v) {
        return Failure(UniqueViolation);
      }
      versions := versions + [v];
      result := Success(|versions| - 1);
    }

    method FindOrCreateAct(r: Request, number: string, scope: ScopeKey, dateOf: DateReader)
      returns (result: Result<nat, CommandError>)
      modifies this`acts
      ensures match FindOrCreate(old(acts), r, number, scope, dateOf)
              case Success((after, act)) => result == Success(act) && acts == after
              case Failure(error) => result == Failure(error) && acts == old(acts)
    {
      var signed := SigningDate(r, dateOf);
      var existing := FindAct(acts, r.kind, number, signed, scope);
      if existing.None? && signed.Some? {
        var legacy := FindAct(acts, r.kind, number, None, scope);
        if legacy.Some? && dateOf(acts[legacy.value].title) == signed {
          acts := acts[legacy.value := acts[legacy.value].(date := signed)];
          existing := legacy;
        }
      }
      if existing.Some? {
        return Success(existing.value);
      }
      var created := Act(r.kind, number, signed, scope, TitleOf(r.kind, number, r.signing));
      if exists i :: 0 <= i < |acts| && SameIdentity(acts[i], created) {
        return Failure(ActConflict);
      }
      acts := acts + [created];
      result := Success(|acts| - 1);
    }

    /** handle_versioned_upload up to its commit; a refused upload is rolled back. */
    method CreateVersion(r: Request, dateOf: DateReader, today: Date) returns (result: Result<nat, CommandError>)
      requires Consistent(State())
      modifies this
      ensures Consistent(State())
      ensures match Upload(old(State()), r, dateOf, today)
              case Success(after) =>
                result.Success? && State() == after
                && result.value < |versions| && versions[result.value].document == r.document
              case Failure(error) => result == Failure(error) && State() == old(State())
    {
      ghost var start := State();
      UploadKeepsConsistency(start, r, dateOf, today);
      var kept, i := acts, 0;
      while i < |versions|
        invariant i <= |versions| && forall j :: 0 <= j < i ==> versions[j].document != r.document
      {
        if versions[i].document == r.document {
          return Success(i);
        }
        i := i + 1;
      }
      if r.number.None? || r.number.value == "" {
        result := Insert(NewVersion(|versions|, None, [], r, today));
        return;
      }
      var scope := if r.document in documents then DocumentScopeKey(documents[r.document])
                   else ScopeKey(InternalPublic, None);
      var act := FindOrCreateAct(r, r.number.value, scope, dateOf);
      if act.Failure? {
        return Failure(act.error);
      }
      NewActKeepsConsistency(start, acts);
      LinkKeepsConsistency(State(), act.value, r, today);
      var linked := LinkVersion(act.value, r, today);
      if linked.Failure? {
        acts := kept;
      }
      result := linked;
    }

    method LinkVersion(act: nat, r: Request, today: Date) returns (result: Result<nat, CommandError>)
      requires Consistent(State()) && act < |acts| && !HasVersion(versions, r.document)
      modifies this`versions, this`chunks, this`outbox
      ensures match LinkUpload(old(State()), act, r, today)
              case Success(after) =>
                result.Success? && State() == after
                && result.value < |versions| && versions[result.value].document == r.document
              case Failure(error) => result == Failure(error) && State() == old(State())
    {
      ghost var start := State();
      LinkKeepsConsistency(start, act, r, today);
      ListMembers(versions, act);
      var previous := ListByAct(versions, act);
      if previous != [] && !SharesScope(documents, r.document, previous) {
        result := Insert(NewVersion(|versions|, None, [], r, today));
        return;
      }
      var version := NewVersion(|versions|, Some(act), previous, r, today);
      var keptVersions, keptChunks, keptOutbox := versions, chunks, outbox;
      BoundarySucceeds(start, previous, r.starts, today);
      var bounded := InsertBoundary(previous, r.starts, today);
      var saved := SaveChanges(previous, bounded, None);
      result := Insert(version);
      if result.Failure? {
        versions, chunks, outbox := keptVersions, keptChunks, keptOutbox;
      }
    }

    /** update_version up to its commit: None is success, any error rolls the transaction back. */
    method UpdateVersion(id: nat, o: Options, today: Date) returns (failure: Option<CommandError>)
      requires Consistent(State())
      modifies this`versions, this`chunks, this`outbox
      ensures Consistent(State())
      ensures match Review(old(State()), id, o, today)
              case Success(after) => failure == None && State() == after
              case Failure(error) => failure == Some(error) && State() == old(State())
    {
      ReviewKeepsConsistency(State(), id, o, today);
      if id >= |versions| {
        return Some(NotFound);
      }
      var version := versions[id];
      var edited := version;
      if o.startsGiven || o.starts.Some? {
        edited := edited.(starts := o.starts);
      }
      if EndGiven(o) {
        edited := edited.(ends := o.ends);
      }
      if o.actGiven || o.act.Some? {
        edited := edited.(act := o.act);
      }
      if edited.act == version.act {
        failure := UpdateInPlace(edited, o, today);
      } else {
        failure := MoveVersion(edited, o, today);
      }
    }

    method UpdateInPlace(edited: Version, o: Options, today: Date) returns (failure: Option<CommandError>)
      requires Consistent(State()) && edited.id < |versions| && edited == Edited(versions[edited.id], o)
      requires edited.act == versions[edited.id].act
      modifies this`versions, this`chunks, this`outbox
      ensures match Review(old(State()), edited.id, o, today)
              case Success(after) => failure == None && State() == after
              case Failure(error) => failure == Some(error) && State() == old(State())
    {
      ghost var plan := PlanReview(State(), edited.id, o, today);
      if plan.Success? {
        PlanIsKnown(State(), edited.id, o, today);
        InPlaceSucceeds(State(), edited.id, o, today);
      }
      var timeline := TimelineOf(versions, versions[edited.id]);
      var corrected := [edited];
      if edited.act.Some? && DatesGiven(o) {
        var rebuilt := CorrectTimeline(timeline, edited, EndGiven(o), today);
        if rebuilt.None? {
          return Some(InvalidDates);
        }
        corrected := rebuilt.value;
      }
      if !AllAccepted(corrected, edited.id, o.ends) {
        return Some(InvalidDates);
      }
      var stamped := StampedIn(corrected, edited.id, o);
      OnlyEdited(timeline, edited, o);
      var saved := SaveChanges(timeline, stamped, Some(edited.id));
      failure := None;
    }

    /** relink_version: saves the new act's versions and returns the linked one. */
    method RelinkVersion(moved: Version, o: Options, today: Date) returns (result: Result<Version, CommandError>)
      requires Consistent(State()) && moved.id < |versions| && moved.document == versions[moved.id].document
      requires moved.act != versions[moved.id].act
      modifies this`versions, this`chunks, this`outbox
      ensures match Relink(old(State()), moved, today)
              case Success(relinking) =>
                && result == Success(relinking.linked) && Known(old(versions), relinking.others)
                && SaveAll(old(State()), relinking.others) == Success(State())
              case Failure(error) => result == Failure(error) && State() == old(State())
    {
      if Relink(State(), moved, today).Success? {
        RelinkingSucceeds(State(), moved, o, today);
      }
      if moved.act.None? {
        var alone := CorrectTimeline([moved], moved, false, today);
        if alone.None? {
          return Failure(InvalidDates);
        }
        return Success(moved.(current := AnyCurrent(alone.value)));
      }
      if moved.act.value >= |acts| {
        return Failure(NotFound);
      }
      var previous := Without(ListByAct(versions, moved.act.value), moved.id);
      if previous != [] && !SharesScope(documents, moved.document, previous) {
        return Failure(ScopeMismatch);
      }
      var bounded := InsertBoundary(previous, moved.starts, today);
      var saved := SaveChanges(previous, bounded, None);
      var linked := moved.(current := IsLatest(previous, moved.starts, today));
      if linked.ends.None? {
        linked := linked.(ends := SuccessorDate(previous, moved.starts));
      }
      result := Success(linked);
    }

    method MoveVersion(edited: Version, o: Options, today: Date) returns (failure: Option<CommandError>)
      requires Consistent(State()) && edited.id < |versions| && edited == Edited(versions[edited.id], o)
      requires edited.act != versions[edited.id].act
      modifies this`versions, this`chunks, this`outbox
      ensures match Review(old(State()), edited.id, o, today)
              case Success(after) => failure == None && State() == after
              case Failure(error) => failure == Some(error) && State() == old(State())
    {
      ghost var start := State();
      var keptVersions, keptChunks, keptOutbox := versions, chunks, outbox;
      var version := versions[edited.id];
      var timeline := TimelineOf(versions, version);
      var remaining := Some([]);
      var moved := edited;
      if version.act.Some? {
        remaining := RemoveFromTimeline(timeline, version.id, today);
        if remaining.None? {
          return Some(InvalidDates);
        }
        if !EndGiven(o) {
          moved := moved.(ends := ExplicitEnds(timeline)[version.id]);
        }
      }
      var relinked := RelinkVersion(moved, o, today);
      if relinked.Failure? {
        return Some(relinked.error);
      }
      if !DatesAccepted(relinked.value, o.ends) {
        versions, chunks, outbox := keptVersions, keptChunks, keptOutbox;
        return Some(InvalidDates);
      }
      var linked := Stamped(relinked.value, o);
      MovedSaves(start, edited, moved, o, today);
      SaveMoved(timeline, linked, if version.act.Some? then remaining.value else []);
      failure := None;
    }

    /** The moved row first, which frees the old act's current slot; then what remains there. */
    method SaveMoved(timeline: Versions, linked: Version, remaining: Versions)
      requires linked.id < |versions| && SaveAll(State(), [linked]).Success?
      requires Known(versions, Changed(timeline, remaining, None))
      requires SaveAll(SaveAll(State(), [linked]).value, Changed(timeline, remaining, None)).Success?
      modifies this`versions, this`chunks, this`outbox
      ensures Success(State()) == SaveAll(SaveAll(old(State()), [linked]).value, Changed(timeline, remaining, None))
    {
      SingleChange(timeline, linked);
      var moved := SaveChanges(timeline, [linked], Some(linked.id));
      var saved := SaveChanges(timeline, remaining, None);
    }
  }

  /** What MoveSucceeds builds up, save by save. */
  lemma MovedSaves(db: Db, edited: Version, moved: Version, o: Options, today: Date)
    requires Consistent(db) && edited.id < |db.versions| && edited == Edited(db.versions[edited.id], o)
    requires edited.act != db.versions[edited.id].act
    requires moved == if db.versions[edited.id].act.Some? && !EndGiven(o)
                      then edited.(ends := ExplicitEnds(TimelineOf(db.versions, db.versions[edited.id]))[edited.id])
                      else edited
    requires Relink(db, moved, today).Success? && PlanReview(db, edited.id, o, today).Success?
    ensures var version, relinking := db.versions[edited.id], Relink(db, moved, today).value;
            var linked := Stamped(relinking.linked, o);
            && linked.id == edited.id && Known(db.versions, relinking.others)
            && SaveAll(db, relinking.others).Success?
            && SaveAll(SaveAll(db, relinking.others).value, [linked]).Success?
            && (version.act.Some? ==> Removed(TimelineOf(db.versions, version), version.id, today).Some?)
            && var between := SaveAll(SaveAll(db, relinking.others).value, [linked]).value;
               var remaining := if version.act.Some?
                   then Removed(TimelineOf(db.versions, version), version.id, today).value else [];
               var last := Changed(TimelineOf(db.versions, version), remaining, None);
               Known(db.versions, last) && SaveAll(between, last).Success?
               && Review(db, edited.id, o, today) == SaveAll(between, last)
  {
    var version, timeline := db.versions[edited.id], TimelineOf(db.versions, db.versions[edited.id]);
    RelinkingSucceeds(db, moved, o, today);
    var relinking := Relink(db, moved, today).value;
    var others, linked := relinking.others, Stamped(relinking.linked, o);
    BetweenTheActs(db, others, linked, version.act);
    SaveAllConcat(db, others, [linked]);
    PlanIsKnown(db, edited.id, o, today);
    if version.act.Some? {
      var act := version.act.value;
      RemovedIsTimeline(db.versions, act, edited.id, today);
      RemainingSucceeds(db, SaveAll(db, others + [linked]).value, act, edited.id, today, linked.act);
      SaveAllConcat(db, others + [linked], Changed(timeline, Removed(timeline, edited.id, today).value, None));
    } else {
      assert Changed(timeline, [], None) == [];
      assert others + [linked] + [] == others + [linked];
    }
  }

  lemma SingleChange(stored: Versions, v: Version)
    ensures Changed(stored, [v], Some(v.id)) == [v]
  {
    assert [v][..0] == [];
    assert Differing(stored, [v], Some(v.id)) == [v];
    assert ByFlag([v], v.current) == [v] && ByFlag([v], !v.current) == [];
  }

  lemma OnlyEdited(stored: Versions, edited: Version, o: Options)
    ensures StampedIn([edited], edited.id, o) == [Stamped(edited, o)]
    ensures Changed(stored, [Stamped(edited, o)], Some(edited.id)) == [Stamped(edited, o)]
    ensures forall end :: AllAccepted([edited], edited.id, end) == DatesAccepted(edited, end)
  {
    SingleChange(stored, Stamped(edited, o));
    assert edited in [edited];
  }

  method CorrectTimeline(timeline: Versions, edited: Version, endGiven: bool, today: Date)
    returns (result: Option<Versions>)
    requires Holds(timeline, edited.id)
    ensures result == Correct(timeline, edited, endGiven, today)
  {
    if endGiven && !DatesAccepted(edited, edited.ends) {
      return None;
    }
    var ends := ExplicitEnds(timeline);
    if endGiven {
      ends := ends[edited.id := edited.ends];
    }
    var replaced := timeline;
    for i := 0 to |timeline|
      invariant |replaced| == |timeline|
      invariant forall j :: 0 <= j < |timeline| ==>
                  replaced[j] == if j < i && timeline[j].id == edited.id then edited else timeline[j]
    {
      if timeline[i].id == edited.id {
        replaced := replaced[i := edited];
      }
    }
    assert replaced == Replaced(timeline, edited);
    result := RebuildTimeline(replaced, ends, today);
  }

  method RemoveFromTimeline(timeline: Versions, id: nat, today: Date) returns (result: Option<Versions>)
    ensures result == Removed(timeline, id, today)
  {
    result := RebuildTimeline(Without(timeline, id), ExplicitEnds(timeline), today);
  }

  lemma {:induction false} RefusedSave(db: Db, saved: Versions, k: nat)
    requires Known(db.versions, saved) && k <= |saved|
    requires Known(db.versions, saved[..k]) && SaveAll(db, saved[..k]).Failure?
    ensures SaveAll(db, saved).Failure?
  {
    if k < |saved| {
      var front := saved[..|saved| - 1];
      assert front[..k] == saved[..k];
      RefusedSave(db, front, k);
    } else {
      assert saved[..k] == saved;
    }
  }
}
