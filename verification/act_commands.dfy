/** ActVersionCommands: uploading a version and reviewing one, as functions from one committed state to the next. */
module ActCommands {
  import opened Outcomes
  import opened Timeline
  import opened ActStore

  // ---------- The act of an upload ----------

  /**
   What an upload knows: the profile's key, the extracted act number, the text of the first signing-date reference,
   the effective date and how far it is trusted.
   */
  datatype Request = Request(
    document: nat, kind: string, number: Option<string>, signing: Option<string>,
    starts: Option<Date>, source: DateSource, confidence: Option<real>)

  /** parse_date_guess, which is not modelled. */
  type DateReader = string -> Option<Date>

  function SigningDate(r: Request, dateOf: DateReader): Option<Date> {
    if r.signing.Some? then dateOf(r.signing.value) else None
  }

  function TitleOf(kind: string, number: string, signing: Option<string>): string {
    kind + " \U{2116}" + number + if signing.Some? then " \U{043E}\U{0442} " + signing.value else ""
  }

  predicate IsAct(act: Act, kind: string, number: string, date: Option<Date>, scope: ScopeKey) {
    act.kind == kind && act.number == number && act.date == date && act.scope == scope
  }

  function FindAct(acts: seq<Act>, kind: string, number: string, date: Option<Date>, scope: ScopeKey): (k: Option<nat>)
    ensures k.Some? ==> k.value < |acts| && IsAct(acts[k.value], kind, number, date, scope)
    ensures k.None? ==> forall i :: 0 <= i < |acts| ==> !IsAct(acts[i], kind, number, date, scope)
  {
    if acts == [] then None
    else if IsAct(acts[|acts| - 1], kind, number, date, scope) then Some(|acts| - 1)
    else FindAct(acts[..|acts| - 1], kind, number, date, scope)
  }

  /** The unique index on an act's identity, where a missing date counts as the first day. */
  predicate SameIdentity(a: Act, b: Act) {
    && a.kind == b.kind && a.number == b.number && a.scope == b.scope
    && (if a.date.Some? then a.date.value else FIRST_DAY) == (if b.date.Some? then b.date.value else FIRST_DAY)
  }

  /** find_or_create_act_in_uow: the acts afterwards, and which one it is. */
  function FindOrCreate(acts: seq<Act>, r: Request, number: string, scope: ScopeKey, dateOf: DateReader)
    : (result: Result<(seq<Act>, nat), CommandError>)
    ensures result.Success? ==> result.value.1 < |result.value.0| && |result.value.0| >= |acts|
  {
    var signed := SigningDate(r, dateOf);
    match FindAct(acts, r.kind, number, signed, scope)
    case Some(k) => Success((acts, k))
    case None =>
      var legacy := if signed.Some? then FindAct(acts, r.kind, number, None, scope) else None;
      if legacy.Some? && dateOf(acts[legacy.value].title) == signed then
        Success((acts[legacy.value := acts[legacy.value].(date := signed)], legacy.value))
      else
        var created := Act(r.kind, number, signed, scope, TitleOf(r.kind, number, r.signing));
        if exists i :: 0 <= i < |acts| && SameIdentity(acts[i], created) then Failure(ActConflict)
        else Success((acts + [created], |acts|))
  }

  // ---------- Upload ----------

  predicate HasVersion(versions: Versions, document: nat) {
    exists i :: 0 <= i < |versions| && versions[i].document == document
  }

  predicate SharesScope(documents: map<nat, Document>, document: nat, versions: Versions) {
    document in documents && forall v :: v in versions ==>
      v.document in documents && SameScope(documents[document], documents[v.document])
  }

  function InsertVersion(db: Db, v: Version): Result<Db, CommandError> {
    if v.document !in db.documents then Failure(UnknownDocument)
    else if Taken(db.versions, v) then Failure(UniqueViolation)
    else Success(db.(versions := db.versions + [v]))
  }

  function NewVersion(id: nat, act: Option<nat>, previous: Versions, r: Request, today: Date): Version {
    Version(id, act, r.document, r.starts, SuccessorDate(previous, r.starts), IsLatest(previous, r.starts, today),
            r.source, r.confidence, None, None)
  }

  /** The versions of an act that an upload or a relinked version closes or demotes. */
  function BoundaryChanges(previous: Versions, starts: Option<Date>, today: Date): Versions {
    Changed(previous, WithBoundary(previous, starts, today), None)
  }

  lemma BoundaryIsKnown(versions: Versions, previous: Versions, starts: Option<Date>, today: Date)
    requires forall v :: v in previous ==> v.id < |versions|
    ensures Known(versions, BoundaryChanges(previous, starts, today))
  {
    forall v | v in BoundaryChanges(previous, starts, today) ensures v.id < |versions| {
      var k := BoundaryComesFrom(previous, starts, today, v);
    }
  }

  lemma BoundaryComesFrom(previous: Versions, starts: Option<Date>, today: Date, v: Version) returns (k: nat)
    requires v in WithBoundary(previous, starts, today)
    ensures k < |previous| && v == WithBoundary(previous, starts, today)[k] && SameEdition(v, previous[k])
    ensures |WithBoundary(previous, starts, today)| == |previous|
    ensures v.current ==> previous[k].current && !(starts.Some? && IsLatest(previous, starts, today))
  {
    k :| 0 <= k < |WithBoundary(previous, starts, today)| && WithBoundary(previous, starts, today)[k] == v;
  }

  /** create_version_in_uow once the act is known. */
  function LinkUpload(db: Db, act: nat, r: Request, today: Date): Result<Db, CommandError>
    requires IdsArePositions(db.versions)
  {
    ListMembers(db.versions, act);
    var previous := ListByAct(db.versions, act);
    BoundaryIsKnown(db.versions, previous, r.starts, today);
    if previous != [] && !SharesScope(db.documents, r.document, previous)
    then InsertVersion(db, NewVersion(|db.versions|, None, [], r, today))
    else
      match SaveAll(db, BoundaryChanges(previous, r.starts, today))
      case Failure(error) => Failure(error)
      case Success(saved) => InsertVersion(saved, NewVersion(|db.versions|, Some(act), previous, r, today))
  }

  function Upload(db: Db, r: Request, dateOf: DateReader, today: Date): Result<Db, CommandError>
    requires IdsArePositions(db.versions)
  {
    if HasVersion(db.versions, r.document) then Success(db)
    else if r.number.None? || r.number.value == "" then InsertVersion(db, NewVersion(|db.versions|, None, [], r, today))
    else
      var scope := if r.document in db.documents then DocumentScopeKey(db.documents[r.document])
                   else ScopeKey(InternalPublic, None);
      match FindOrCreate(db.acts, r, r.number.value, scope, dateOf)
      case Failure(error) => Failure(error)
      case Success((acts, act)) => LinkUpload(db.(acts := acts), act, r, today)
  }

  // ---------- Review ----------

  datatype Options = Options(
    starts: Option<Date>, startsGiven: bool, ends: Option<Date>, endsGiven: bool,
    act: Option<nat>, actGiven: bool, verifier: Option<nat>, at: nat)

  predicate EndGiven(o: Options) {
    o.endsGiven || o.ends.Some?
  }

  predicate DatesGiven(o: Options) {
    o.startsGiven || o.starts.Some? || EndGiven(o)
  }

  function Edited(v: Version, o: Options): Version {
    v.(starts := if o.startsGiven || o.starts.Some? then o.starts else v.starts,
       ends := if EndGiven(o) then o.ends else v.ends,
       act := if o.actGiven || o.act.Some? then o.act else v.act)
  }

  function Stamped(v: Version, o: Options): Version {
    v.(source := Manual, verifiedBy := o.verifier, verifiedAt := Some(o.at))
  }

  /** validate_dates. */
  predicate DatesAccepted(v: Version, explicitEnd: Option<Date>) {
    ExplicitEndValid(v, explicitEnd) && DatesValid(v)
  }

  function Replaced(versions: Versions, edited: Version): (result: Versions)
    ensures |result| == |versions|
    ensures forall i :: 0 <= i < |versions| ==> result[i] == if versions[i].id == edited.id then edited else versions[i]
  {
    if versions == [] then []
    else
      var last := versions[|versions| - 1];
      Replaced(versions[..|versions| - 1], edited) + [if last.id == edited.id then edited else last]
  }

  function Without(versions: Versions, id: nat): (result: Versions)
    ensures forall v :: v in result <==> v in versions && v.id != id
  {
    if versions == [] then []
    else
      var last, earlier := versions[|versions| - 1], Without(versions[..|versions| - 1], id);
      assert versions == versions[..|versions| - 1] + [last];
      if last.id == id then earlier else earlier + [last]
  }

  predicate Holds(versions: Versions, id: nat) {
    exists v :: v in versions && v.id == id
  }

  /** ActVersionTimeline.correct. */
  function Correct(timeline: Versions, edited: Version, endGiven: bool, today: Date): Option<Versions>
    requires Holds(timeline, edited.id)
  {
    if endGiven && !DatesAccepted(edited, edited.ends) then None
    else
      var explicit := ExplicitEnds(timeline);
      var ends := if endGiven then explicit[edited.id := edited.ends] else explicit;
      Rebuild(Replaced(timeline, edited), ends, today)
  }

  /** ActVersionTimeline.remove. */
  function Removed(timeline: Versions, id: nat, today: Date): Option<Versions> {
    Rebuild(Without(timeline, id), ExplicitEnds(timeline), today)
  }

  function StampedIn(versions: Versions, id: nat, o: Options): (result: Versions)
    ensures |result| == |versions|
    ensures forall i :: 0 <= i < |versions| ==>
              result[i] == if versions[i].id == id then Stamped(versions[i], o) else versions[i]
  {
    if versions == [] then []
    else
      var last := versions[|versions| - 1];
      StampedIn(versions[..|versions| - 1], id, o) + [if last.id == id then Stamped(last, o) else last]
  }

  predicate AllAccepted(versions: Versions, id: nat, explicitEnd: Option<Date>) {
    forall v :: v in versions && v.id == id ==> DatesAccepted(v, explicitEnd)
  }

  datatype Relinking = Relinking(others: Versions, linked: Version)

  /** relink_version. */
  function Relink(db: Db, moved: Version, today: Date): Result<Relinking, CommandError> {
    match moved.act
    case None =>
      (match Correct([moved], moved, false, today)
       case None => Failure(InvalidDates)
       case Some(alone) => Success(Relinking([], moved.(current := AnyCurrent(alone)))))
    case Some(act) =>
      if act >= |db.acts| then Failure(NotFound)
      else
        var previous := Without(ListByAct(db.versions, act), moved.id);
        if previous != [] && !SharesScope(db.documents, moved.document, previous) then Failure(ScopeMismatch)
        else
          Success(Relinking(
            BoundaryChanges(previous, moved.starts, today),
            moved.(current := IsLatest(previous, moved.starts, today),
                   ends := if moved.ends.None? then SuccessorDate(previous, moved.starts) else moved.ends)))
  }

  /** The saves of a review that leaves the version in its act, or without one. */
  function PlanInPlace(timeline: Versions, edited: Version, o: Options, today: Date): Result<Versions, CommandError>
    requires edited.act.Some? ==> Holds(timeline, edited.id)
  {
    if edited.act.Some? && DatesGiven(o) then
      match Correct(timeline, edited, EndGiven(o), today)
      case None => Failure(InvalidDates)
      case Some(corrected) =>
        if !AllAccepted(corrected, edited.id, o.ends) then Failure(InvalidDates)
        else Success(Changed(timeline, StampedIn(corrected, edited.id, o), Some(edited.id)))
    else if !DatesAccepted(edited, o.ends) then Failure(InvalidDates)
    else Success([Stamped(edited, o)])
  }

  /** The saves of a review that moves the version: the new act's, the version's own, then the old act's. */
  function PlanMove(db: Db, timeline: Versions, v: Version, edited: Version, o: Options, today: Date)
    : Result<Versions, CommandError>
    requires v.act.Some? ==> v in timeline
  {
    var remaining := if v.act.Some? then Removed(timeline, v.id, today) else Some([]);
    if remaining.None? then Failure(InvalidDates)
    else
      var moved := if v.act.Some? && !EndGiven(o) then edited.(ends := ExplicitEnds(timeline)[v.id]) else edited;
      match Relink(db, moved, today)
      case Failure(error) => Failure(error)
      case Success(relinking) =>
        if !DatesAccepted(relinking.linked, o.ends) then Failure(InvalidDates)
        else Success(relinking.others + [Stamped(relinking.linked, o)] + Changed(timeline, remaining.value, None))
  }

  function TimelineOf(versions: Versions, v: Version): (timeline: Versions)
    requires IdsArePositions(versions) && v in versions
    ensures v.act.Some? ==> v in timeline
  {
    if v.act.None? then []
    else
      ListMembers(versions, v.act.value);
      ListByAct(versions, v.act.value)
  }

  function PlanReview(db: Db, id: nat, o: Options, today: Date): Result<Versions, CommandError>
    requires IdsArePositions(db.versions)
  {
    if id >= |db.versions| then Failure(NotFound)
    else
      var v := db.versions[id];
      var timeline := TimelineOf(db.versions, v);
      var edited := Edited(v, o);
      if v.act == edited.act then PlanInPlace(timeline, edited, o, today)
      else PlanMove(db, timeline, v, edited, o, today)
  }

  lemma RebuiltMember(versions: Versions, ends: Ends, today: Date, w: Version) returns (v: Version)
    requires Covered(versions, ends) && Rebuild(versions, ends, today).Some?
    requires w in Rebuild(versions, ends, today).value
    ensures v in versions && SameEdition(w, v)
  {
    SortedMembers(versions);
    var result := Rebuild(versions, ends, today).value;
    var i :| 0 <= i < |result| && result[i] == w;
    RebuiltAt(versions, ends, today, i);
    v := Sorted(versions)[i];
  }

  /** A corrected timeline is the old one, edition by edition, with other dates and flags. */
  lemma CorrectedMember(timeline: Versions, edited: Version, endGiven: bool, today: Date,
                        w: Version) returns (v: Version)
    requires Holds(timeline, edited.id) && Correct(timeline, edited, endGiven, today).Some?
    requires w in Correct(timeline, edited, endGiven, today).value
    ensures v in timeline && v.id == w.id
    ensures SameEdition(w, if v.id == edited.id then edited else v)
  {
    var explicit := ExplicitEnds(timeline);
    var ends := if endGiven then explicit[edited.id := edited.ends] else explicit;
    var replaced := Replaced(timeline, edited);
    var u := RebuiltMember(replaced, ends, today, w);
    var k :| 0 <= k < |replaced| && replaced[k] == u;
    v := timeline[k];
  }

  lemma InPlaceIsKnown(versions: Versions, timeline: Versions, edited: Version, o: Options, today: Date)
    requires forall v :: v in timeline ==> v.id < |versions|
    requires edited.id < |versions| && (edited.act.Some? ==> Holds(timeline, edited.id))
    requires PlanInPlace(timeline, edited, o, today).Success?
    ensures Known(versions, PlanInPlace(timeline, edited, o, today).value)
  {
    forall v | v in PlanInPlace(timeline, edited, o, today).value ensures v.id < |versions| {
      if edited.act.Some? && DatesGiven(o) {
        var corrected := Correct(timeline, edited, EndGiven(o), today).value;
        var stamped := StampedIn(corrected, edited.id, o);
        var k :| 0 <= k < |stamped| && stamped[k] == v;
        var _ := CorrectedMember(timeline, edited, EndGiven(o), today, corrected[k]);
      }
    }
  }

  lemma RemainingIsKnown(versions: Versions, timeline: Versions, id: nat, today: Date)
    requires forall w :: w in timeline ==> w.id < |versions|
    requires Removed(timeline, id, today).Some?
    ensures Known(versions, Changed(timeline, Removed(timeline, id, today).value, None))
  {
    forall w | w in Changed(timeline, Removed(timeline, id, today).value, None) ensures w.id < |versions| {
      var u := RebuiltMember(Without(timeline, id), ExplicitEnds(timeline), today, w);
    }
  }

  lemma RelinkingIsKnown(db: Db, moved: Version, today: Date)
    requires IdsArePositions(db.versions) && Relink(db, moved, today).Success?
    ensures Known(db.versions, Relink(db, moved, today).value.others)
    ensures Relink(db, moved, today).value.linked.id == moved.id
  {
    if moved.act.Some? {
      ListMembers(db.versions, moved.act.value);
      BoundaryIsKnown(db.versions, Without(ListByAct(db.versions, moved.act.value), moved.id), moved.starts, today);
    }
  }

  lemma MoveIsKnown(db: Db, timeline: Versions, v: Version, edited: Version, o: Options, today: Date)
    requires IdsArePositions(db.versions) && v.id < |db.versions| && edited.id == v.id
    requires forall w :: w in timeline ==> w.id < |db.versions|
    requires v.act.Some? ==> v in timeline
    requires PlanMove(db, timeline, v, edited, o, today).Success?
    ensures Known(db.versions, PlanMove(db, timeline, v, edited, o, today).value)
  {
    var moved := if v.act.Some? && !EndGiven(o) then edited.(ends := ExplicitEnds(timeline)[v.id]) else edited;
    RelinkingIsKnown(db, moved, today);
    if v.act.Some? {
      RemainingIsKnown(db.versions, timeline, v.id, today);
    }
  }

  lemma PlanIsKnown(db: Db, id: nat, o: Options, today: Date)
    requires IdsArePositions(db.versions) && PlanReview(db, id, o, today).Success?
    ensures Known(db.versions, PlanReview(db, id, o, today).value)
  {
    var v := db.versions[id];
    var timeline, edited := TimelineOf(db.versions, v), Edited(v, o);
    if v.act.Some? {
      ListMembers(db.versions, v.act.value);
    }
    if v.act == edited.act {
      InPlaceIsKnown(db.versions, timeline, edited, o, today);
    } else {
      MoveIsKnown(db, timeline, v, edited, o, today);
    }
  }

  /** update_version: every refusal leaves the store as it was. */
  function Review(db: Db, id: nat, o: Options, today: Date): Result<Db, CommandError>
    requires IdsArePositions(db.versions)
  {
    match PlanReview(db, id, o, today)
    case Failure(error) => Failure(error)
    case Success(saves) =>
      PlanIsKnown(db, id, o, today);
      SaveAll(db, saves)
  }
}
