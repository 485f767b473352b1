/**
 ConfigService.update_parameter and the seeding steps as one protocol: updaters prepare outside the configuration
 lock, recheck the version of what they validated inside it, and write.  A provider configuration is present.
 */
module ConfigUpdates {
  import opened Outcomes
  import opened ConfigParameters

  /** What a version covers: the type and value of the active rows that deployment does not manage. */
  type Snapshot = map<ParameterId, (ValueType, string)>

  /**
   The declarations, and the checks that are not modelled: preparing the clients for a candidate configuration,
   and ConfigParameter.validate for a row's and for a declaration's limits.
   */
  datatype Context = Context(
    definitions: map<ParameterId, ValueType>,
    dynamicFields: set<string>,
    managed: set<string>,
    metadata: set<string>,
    defaults: Defaults,
    domainDefaults: Defaults,
    digest: Snapshot -> string,
    accepts: Rows -> bool,
    valid: (ParameterId, Row, string) -> bool)

  /** Versions are compared as digests, taken to differ when the snapshots do; declarations do not overlap. */
  ghost predicate ProperContext(c: Context) {
    && (forall a, b :: c.digest(a) == c.digest(b) ==> a == b)
    && (forall id :: id in c.definitions && id.1.None? ==> id.0 !in DomainKeys(c.defaults))
  }

  const CORPUS_KEYS: set<string> := {"qdrant_url", "collection_name"}

  predicate IsActive(c: Context, id: ParameterId) {
    id in c.definitions && id.0 !in c.managed
  }

  function SnapshotOf(c: Context, rows: Rows): Snapshot {
    map id | id in rows && IsActive(c, id) :: (rows[id].kind, rows[id].value)
  }

  function Version(c: Context, rows: Rows): string {
    c.digest(SnapshotOf(c, rows))
  }

  datatype UpdateError = NotAllowed | NotFound | Rejected | Conflict

  /** validate_update_key. */
  predicate KeyAllowed(c: Context, id: ParameterId) {
    id.0 !in CORPUS_KEYS && id.0 !in c.managed + c.metadata && (id.1.None? ==> id.0 in c.dynamicFields)
  }

  function ActiveRows(c: Context, rows: Rows): Rows {
    map id | id in rows && id in c.definitions :: rows[id]
  }

  /** The configuration a provider validates: the active rows with the raw value in place. */
  function Candidate(c: Context, rows: Rows, id: ParameterId, raw: string): Rows
    requires id in rows
  {
    ActiveRows(c, rows)[id := rows[id].(value := raw)]
  }

  /** validate_update_key and prepare_update: the version that was validated. */
  function Prepare(c: Context, rows: Rows, id: ParameterId, raw: string): Result<string, UpdateError> {
    if !KeyAllowed(c, id) then Failure(NotAllowed)
    else if id !in rows then Failure(NotFound)
    else if id !in c.definitions || !c.accepts(Candidate(c, rows, id, raw)) then Failure(Rejected)
    else Success(Version(c, rows))
  }

  datatype Change = Change(id: ParameterId, previous: string, next: string)

  /** The transaction of update_parameter, under the lock. */
  function Commit(c: Context, rows: Rows, id: ParameterId, raw: string, version: string): Result<(Rows, Change),
                  UpdateError> {
    if Version(c, rows) != version then Failure(Conflict)
    else if id !in rows then Failure(NotFound)
    else
      var normalized := Normalize(rows[id].kind, raw);
      if !c.valid(id, rows[id], normalized) then Failure(Rejected)
      else Success((rows[id := rows[id].(value := normalized)], Change(id, rows[id].value, normalized)))
  }

  // ---------- Any number of updaters ----------

  datatype Preparation = Preparation(id: ParameterId, raw: string, version: string, rows: Rows)

  /** `born` remembers the value each row was first given. */
  datatype System = System(
    rows: Rows, preparations: map<nat, Preparation>, changes: seq<Change>, born: map<ParameterId, string>)

  datatype Event =
    | Begin(updater: nat, id: ParameterId, raw: string)
    | Finish(updater: nat)
    | Abandon(updater: nat)
    | SeedDefaults
    | SeedDomainDefaults

  function Values(rows: Rows): map<ParameterId, string> {
    map id | id in rows :: rows[id].value
  }

  function Start(rows: Rows): System {
    System(rows, map[], [], Values(rows))
  }

  function WithRows(s: System, rows: Rows): System {
    s.(rows := rows, born := s.born + map id | id in rows && id !in s.rows :: rows[id].value)
  }

  function Next(c: Context, s: System, event: Event): System {
    match event
    case Begin(u, id, raw) =>
      (match Prepare(c, s.rows, id, raw)
       case Failure(_) => s
       case Success(version) => s.(preparations := s.preparations[u := Preparation(id, raw, version, s.rows)]))
    case Finish(u) =>
      if u !in s.preparations then s
      else
        var p := s.preparations[u];
        (match Commit(c, s.rows, p.id, p.raw, p.version)
         case Failure(_) => s.(preparations := s.preparations - {u})
         case Success((rows, change)) =>
           s.(rows := rows, preparations := s.preparations - {u}, changes := s.changes + [change]))
    case Abandon(u) => s.(preparations := s.preparations - {u})
    case SeedDefaults => WithRows(s, SeedGlobals(s.rows, c.defaults))
    case SeedDomainDefaults => WithRows(s, SeedDomains(s.rows, c.domainDefaults))
  }

  function Run(c: Context, s: System, events: seq<Event>): System {
    if events == [] then s else Next(c, Run(c, s, events[..|events| - 1]), events[|events| - 1])
  }

  // ---------- The invariant ----------

  /** The value of a row after the changes: the last one made to it, or the one it was born with. */
  function ValueAfter(changes: seq<Change>, id: ParameterId, born: string): string {
    if changes == [] then born
    else if changes[|changes| - 1].id == id then changes[|changes| - 1].next
    else ValueAfter(changes[..|changes| - 1], id, born)
  }

  ghost predicate Prepared(c: Context, p: Preparation) {
    && p.version == Version(c, p.rows) && p.id in p.rows && IsActive(c, p.id)
    && c.accepts(Candidate(c, p.rows, p.id, p.raw))
  }

  ghost predicate RowsFollowChanges(c: Context, s: System) {
    forall id :: id in s.rows && IsActive(c, id) ==>
      id in s.born && s.rows[id].value == ValueAfter(s.changes, id, s.born[id])
  }

  ghost predicate ChangesStay(c: Context, s: System) {
    forall k :: 0 <= k < |s.changes| ==>
        IsActive(c, s.changes[k].id) && s.changes[k].id in s.rows && s.changes[k].id in s.born
  }

  /** Each change starts from what the one before it, to the same row, left. */
  ghost predicate Chained(s: System)
    requires forall k :: 0 <= k < |s.changes| ==> s.changes[k].id in s.born
  {
    forall k :: 0 <= k < |s.changes| ==>
      s.changes[k].previous == ValueAfter(s.changes[..k], s.changes[k].id, s.born[s.changes[k].id])
  }

  ghost predicate Sound(c: Context, s: System) {
    && (forall u :: u in s.preparations ==> Prepared(c, s.preparations[u]))
    && RowsFollowChanges(c, s) && ChangesStay(c, s) && Chained(s)
  }

  lemma StartIsSound(c: Context, rows: Rows)
    ensures Sound(c, Start(rows))
  {
  }

  lemma SeedingIsSound(c: Context, s: System, rows: Rows)
    requires Sound(c, s)
    requires forall id :: id in s.rows && IsActive(c, id) ==> id in rows && rows[id].value == s.rows[id].value
    ensures Sound(c, WithRows(s, rows))
  {
    var after := WithRows(s, rows);
    forall id | id in rows && IsActive(c, id)
      ensures id in after.born && rows[id].value == ValueAfter(after.changes, id, after.born[id])
    {
      if id !in s.rows {
        Untouched(c, s, id, after.born[id], |s.changes|);
      }
    }
  }

  lemma {:induction false} Untouched(c: Context, s: System, id: ParameterId, born: string, n: nat)
    requires ChangesStay(c, s) && id !in s.rows && n <= |s.changes|
    ensures ValueAfter(s.changes[..n], id, born) == born
    ensures n == |s.changes| ==> ValueAfter(s.changes, id, born) == born
  {
    if n == 0 {
    } else {
      Untouched(c, s, id, born, n - 1);
      assert s.changes[..n][..n - 1] == s.changes[..n - 1];
      assert s.changes[n - 1].id in s.rows;
    }
    assert s.changes[..|s.changes|] == s.changes;
  }

  lemma CommitIsSound(c: Context, s: System, u: nat)
    requires Sound(c, s) && u in s.preparations
    ensures Sound(c, Next(c, s, Finish(u)))
  {
    var p := s.preparations[u];
    var outcome := Commit(c, s.rows, p.id, p.raw, p.version);
    if outcome.Success? {
      var after, change := Next(c, s, Finish(u)), outcome.value.1;
      assert after.changes[..|s.changes|] == s.changes;
      assert Prepared(c, p);
      forall k | 0 <= k < |after.changes|
        ensures after.changes[k].previous
                  == ValueAfter(after.changes[..k], after.changes[k].id, after.born[after.changes[k].id])
      {
        if k < |s.changes| {
          assert after.changes[..k] == s.changes[..k];
        }
      }
    }
  }

  lemma NextIsSound(c: Context, s: System, event: Event)
    requires ProperContext(c) && Sound(c, s)
    ensures Sound(c, Next(c, s, event))
  {
    match event {
      case Begin(_, _, _) =>
      case Finish(u) =>
        if u in s.preparations {
          CommitIsSound(c, s, u);
        }
      case Abandon(_) =>
      case SeedDefaults =>
        forall id | id in s.rows && IsActive(c, id)
          ensures id in SeedGlobals(s.rows, c.defaults) && SeedGlobals(s.rows, c.defaults)[id].value == s.rows[id].value
        {
          SeedingKeepsValues(s.rows, c.defaults, id);
        }
        SeedingIsSound(c, s, SeedGlobals(s.rows, c.defaults));
      case SeedDomainDefaults =>
        forall id | id in s.rows && IsActive(c, id)
          ensures id in SeedDomains(s.rows, c.domainDefaults)
                    && SeedDomains(s.rows, c.domainDefaults)[id].value == s.rows[id].value
        {
          SeedingKeepsValues(s.rows, c.domainDefaults, id);
        }
        SeedingIsSound(c, s, SeedDomains(s.rows, c.domainDefaults));
    }
  }

  lemma {:induction false} RunIsSound(c: Context, rows: Rows, events: seq<Event>)
    requires ProperContext(c)
    ensures Sound(c, Run(c, Start(rows), events))
  {
    if events == [] {
      StartIsSound(c, rows);
    } else {
      RunIsSound(c, rows, events[..|events| - 1]);
      NextIsSound(c, Run(c, Start(rows), events[..|events| - 1]), events[|events| - 1]);
    }
  }

  // ---------- What the protocol guarantees ----------

  lemma CommitEffect(c: Context, s: System, u: nat)
    requires ProperContext(c) && Sound(c, s) && u in s.preparations
    requires |Next(c, s, Finish(u)).changes| > |s.changes|
    ensures var p, after := s.preparations[u], Next(c, s, Finish(u));
            var change, before, now := after.changes[|s.changes|], SnapshotOf(c, s.rows), SnapshotOf(c, after.rows);
            && Prepared(c, p) && before == SnapshotOf(c, p.rows) && Version(c, s.rows) == p.version
            && change.id == p.id && p.id in before && before[p.id] == (p.rows[p.id].kind, change.previous)
            && change.next == Normalize(p.rows[p.id].kind, p.raw)
            && now == before[p.id := (p.rows[p.id].kind, change.next)]
  {
    var p := s.preparations[u];
    assert Prepared(c, p);
    assert SnapshotOf(c, s.rows) == SnapshotOf(c, p.rows);
    assert p.id in SnapshotOf(c, p.rows);
    assert (p.rows[p.id].kind, p.rows[p.id].value) == (s.rows[p.id].kind, s.rows[p.id].value);
  }

  /**
   However the other updaters and the seeding steps interleave: a committed update leaves exactly the snapshot that
   its updater validated, with the one value replaced.
   */
  lemma CommitsAreExact(c: Context, rows: Rows, events: seq<Event>, u: nat)
    requires ProperContext(c)
    requires var s := Run(c, Start(rows), events);
             u in s.preparations && |Next(c, s, Finish(u)).changes| > |s.changes|
    ensures var s := Run(c, Start(rows), events);
            var p, after := s.preparations[u], Next(c, s, Finish(u));
            && p.id in p.rows && c.accepts(Candidate(c, p.rows, p.id, p.raw))
            && SnapshotOf(c, s.rows) == SnapshotOf(c, p.rows)
            && SnapshotOf(c, after.rows)
               == SnapshotOf(c, p.rows)[p.id := (p.rows[p.id].kind, Normalize(p.rows[p.id].kind, p.raw))]
  {
    RunIsSound(c, rows, events);
    CommitEffect(c, Run(c, Start(rows), events), u);
  }

  // ---------- What the application decodes ----------

  /** The application strips a stored string once more when it decodes it. */
  function Decoded(rows: Rows): Snapshot {
    map id | id in rows :: (rows[id].kind, Normalize(rows[id].kind, rows[id].value))
  }

  /** Validation looks at decoded values only, and no declared parameter is managed by deployment. */
  ghost predicate ValidatesDecoded(c: Context) {
    && (forall a, b :: Decoded(a) == Decoded(b) ==> c.accepts(a) == c.accepts(b))
    && (forall id :: id in c.definitions ==> id.0 !in c.managed)
  }

  lemma SameDecoded(c: Context, a: Rows, b: Rows)
    requires forall id :: id in c.definitions ==> id.0 !in c.managed
    requires SnapshotOf(c, a) == SnapshotOf(c, b)
    ensures Decoded(ActiveRows(c, a)) == Decoded(ActiveRows(c, b))
  {
    forall id ensures id in a && id in c.definitions <==> id in b && id in c.definitions {
      assert id in SnapshotOf(c, a) <==> id in SnapshotOf(c, b);
    }
    forall id | id in a && id in c.definitions ensures a[id].kind == b[id].kind && a[id].value == b[id].value {
      assert SnapshotOf(c, a)[id] == SnapshotOf(c, b)[id];
    }
  }

  predicate ReadsBack(kind: ValueType, raw: string) {
    kind == Str ==> !ExposesEnd(Unquoted(raw))
  }

  lemma DecodedCandidate(c: Context, rows: Rows, id: ParameterId, raw: string)
    requires id in rows && id in c.definitions
    ensures var kind := rows[id].kind;
            Decoded(Candidate(c, rows, id, Normalize(kind, raw))) == Decoded(Candidate(c, rows, id, raw))
            <==> ReadsBack(kind, raw)
  {
    var kind := rows[id].kind;
    var validated, stored := Decoded(Candidate(c, rows, id, raw)),
        Decoded(Candidate(c, rows, id, Normalize(kind, raw)));
    NormalizedTwice(raw);
    assert validated == Decoded(ActiveRows(c, rows))[id := (kind, Normalize(kind, raw))];
    assert stored == Decoded(ActiveRows(c, rows))[id := (kind, Normalize(kind, Normalize(kind, raw)))];
    assert stored == validated <==> stored[id] == validated[id];
  }

  lemma CommittedRows(c: Context, rows: Rows, id: ParameterId, raw: string, version: string)
    requires Commit(c, rows, id, raw, version).Success? && id in c.definitions
    ensures ActiveRows(c, Commit(c, rows, id, raw, version).value.0)
            == Candidate(c, rows, id, Normalize(rows[id].kind, raw))
  {
  }

  /**
   The configuration that is decoded after a commit is the one the provider validated if and only if the value reads
   back as it was normalised; then the provider accepts what was committed.
   */
  lemma ValidatedIsCommitted(c: Context, rows: Rows, events: seq<Event>, u: nat)
    requires ProperContext(c) && ValidatesDecoded(c)
    requires var s := Run(c, Start(rows), events);
             u in s.preparations && |Next(c, s, Finish(u)).changes| > |s.changes|
    ensures var s := Run(c, Start(rows), events);
            var p, after := s.preparations[u], Next(c, s, Finish(u));
            && p.id in p.rows
            && (Decoded(ActiveRows(c, after.rows)) == Decoded(Candidate(c, p.rows, p.id, p.raw))
                <==> ReadsBack(p.rows[p.id].kind, p.raw))
            && (ReadsBack(p.rows[p.id].kind, p.raw) ==> c.accepts(ActiveRows(c, after.rows)))
  {
    RunIsSound(c, rows, events);
    CommitsAreExact(c, rows, events, u);
    var s := Run(c, Start(rows), events);
    var p, after := s.preparations[u], Next(c, s, Finish(u));
    assert Prepared(c, p);
    CommittedRows(c, s.rows, p.id, p.raw, p.version);
    SameAfterReplacing(c, s.rows, p.rows, p.id, p.raw);
    DecodedCandidate(c, p.rows, p.id, p.raw);
  }

  lemma SameAfterReplacing(c: Context, now: Rows, before: Rows, id: ParameterId, raw: string)
    requires ValidatesDecoded(c) && SnapshotOf(c, now) == SnapshotOf(c, before)
    requires id in now && id in before && id in c.definitions
    ensures now[id].kind == before[id].kind
    ensures var once := Normalize(before[id].kind, raw);
            Decoded(Candidate(c, now, id, once)) == Decoded(Candidate(c, before, id, once))
  {
    var once := Normalize(before[id].kind, raw);
    SameDecoded(c, now, before);
    assert id in SnapshotOf(c, now) && SnapshotOf(c, now)[id] == SnapshotOf(c, before)[id];
    assert Decoded(Candidate(c, now, id, once))
           == Decoded(ActiveRows(c, now))[id := (now[id].kind, Normalize(now[id].kind, once))];
    assert Decoded(Candidate(c, before, id, once))
           == Decoded(ActiveRows(c, before))[id := (before[id].kind, Normalize(before[id].kind, once))];
  }

  /** No committed update is lost: an updater that commits had seen, in what it validated, every change made before. */
  lemma CommittersSawEveryChange(c: Context, rows: Rows, events: seq<Event>, u: nat, k: nat)
    requires ProperContext(c)
    requires var s := Run(c, Start(rows), events);
             u in s.preparations && |Next(c, s, Finish(u)).changes| > |s.changes| && k < |s.changes|
    ensures var s := Run(c, Start(rows), events);
            var p, id := s.preparations[u], s.changes[k].id;
            id in p.rows && id in s.born && p.rows[id].value == ValueAfter(s.changes, id, s.born[id])
  {
    RunIsSound(c, rows, events);
    CommitsAreExact(c, rows, events, u);
    var s := Run(c, Start(rows), events);
    var id := s.changes[k].id;
    assert id in SnapshotOf(c, s.rows);
    assert SnapshotOf(c, s.preparations[u].rows)[id] == SnapshotOf(c, s.rows)[id];
  }

  /** Replaying the changes gives the rows, and each change's old value is what its predecessor left. */
  lemma ChangesReplay(c: Context, rows: Rows, events: seq<Event>, id: ParameterId, k: nat)
    requires ProperContext(c)
    ensures var s := Run(c, Start(rows), events);
            && (id in s.rows && IsActive(c, id) ==>
                  id in s.born && s.rows[id].value == ValueAfter(s.changes, id, s.born[id]))
            && (k < |s.changes| ==>
                  var change := s.changes[k];
                  change.id in s.rows && change.id in s.born
                  && change.previous == ValueAfter(s.changes[..k], change.id, s.born[change.id]))
  {
    RunIsSound(c, rows, events);
  }

  /** Of the updaters that validated one version, only those can still commit that change nothing. */
  lemma OneOfManyWins(c: Context, s: System, first: nat, second: nat)
    requires ProperContext(c) && Sound(c, s) && first != second
    requires first in s.preparations && second in s.preparations
    requires s.preparations[first].version == s.preparations[second].version
    requires |Next(c, s, Finish(first)).changes| > |s.changes|
    ensures var after := Next(c, s, Finish(first));
            var change, p := after.changes[|s.changes|], s.preparations[second];
            Commit(c, after.rows, p.id, p.raw, p.version) == Failure(Conflict) <==> change.previous != change.next
  {
    CommitEffect(c, s, first);
    var after := Next(c, s, Finish(first));
    var change, before, now := after.changes[|s.changes|], SnapshotOf(c, s.rows), SnapshotOf(c, after.rows);
    assert now == before <==> now[change.id] == before[change.id];
  }

  // ---------- The update itself ----------

  class ConfigStore {
    var rows: Rows
    var changes: seq<Change>

    constructor (rows: Rows)
      ensures this.rows == rows && changes == []
    {
      this.rows, changes := rows, [];
    }

    /** update_parameter after its preparation: everything between taking and releasing the lock. */
    method WriteUnderLock(c: Context, id: ParameterId, raw: string, version: string) returns (result: Result<string,
                          UpdateError>)
      modifies this
      ensures match Commit(c, old(rows), id, raw, version)
              case Success((after, change)) => result == Success(change.next) && rows == after
                  && changes == old(changes) + [change]
              case Failure(error) => result == Failure(error) && rows == old(rows) && changes == old(changes)
    {
      if Version(c, rows) != version {
        return Failure(Conflict);
      }
      if id !in rows {
        return Failure(NotFound);
      }
      var parameter := rows[id];
      var normalized := Normalize(parameter.kind, raw);
      if !c.valid(id, parameter, normalized) {
        return Failure(Rejected);
      }
      var previous := parameter.value;
      parameter := parameter.(value := normalized);
      rows := rows[id := parameter];
      changes := changes + [Change(id, previous, parameter.value)];
      result := Success(normalized);
    }

    method SeedConfigDefaults(c: Context)
      modifies this`rows
      ensures rows == SeedGlobals(old(rows), c.defaults)
    {
      rows := ConfigParameters.SeedConfigDefaults(rows, c.defaults);
    }
  }
}
