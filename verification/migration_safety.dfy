/** Crash safety, convergence and preservation of settings for migrate_env_configuration. */
module MigrationSafety {
  import opened Outcomes
  import opened EnvFile
  import opened PoolMigration
  import opened ConfigMigration

  // ---------- What the rewritten files read as ----------

  lemma {:induction false} MovedValues(updates: Updates, env: File)
    requires CanWrite(updates, Some(env))
    ensures forall name :: name in UpdateValues(updates, Some(env)) ==>
              name in LastValues(env) && UpdateValues(updates, Some(env))[name] == LastValues(env)[name]
  {
    if updates == [] {
    } else {
      MovedValues(updates[..|updates| - 1], env);
    }
  }

  /** The secrets that have a value in the env file. */
  function Moved(c: Catalog, env: Values): Values {
    map name | name in env && name in c.secrets && env[name].Some? :: env[name]
  }

  lemma MovesReadAsMoved(c: Catalog, env: File)
    requires OneSpelling(env)
    ensures CanWrite(Moves(c, env), Some(env))
    ensures Keys(Moves(c, env)) == Moved(c, LastValues(env)).Keys
    ensures UpdateValues(Moves(c, env), Some(env)) == Moved(c, LastValues(env))
  {
    MovesCanBeWritten(c, env);
    MovedValues(Moves(c, env), env);
    UpdatedKeys(Moves(c, env), Some(env));
    forall name ensures name in Keys(Moves(c, env)) <==> name in Moved(c, LastValues(env)) {
      MovesAreSecrets(c, env, name);
    }
  }

  /** The secrets file gains exactly the moved bindings, with the values they have in the env file. */
  lemma NewSecretsRead(c: Catalog, secrets: File, env: File)
    requires OneSpelling(secrets) && OneSpelling(env)
    ensures var result := TargetSecrets(c, secrets, env);
            OneSpelling(result) && ReadValues(result) == ReadValues(secrets) + Moved(c, ReadValues(env))
  {
    var moves := Moves(c, env);
    MovesReadAsMoved(c, env);
    MovesAreProper(c, env);
    RewrittenValues(secrets, {}, moves, Some(env));
    RewrittenHasOneSpelling(secrets, {}, moves, Some(env));
    ReadingTakesTheLastBinding(env);
    ReadingTakesTheLastBinding(secrets);
    ReadingTakesTheLastBinding(Rewritten(secrets, {}, moves, Some(env)));
    assert LastValues(secrets) - {} == LastValues(secrets);
  }

  function ComposeValues(updates: Updates): Values {
    if updates == [] then map[] else map[COMPOSE_PROFILES := Some("tei")]
  }

  lemma ComposeIsProper(name: string)
    requires name == COMPOSE_PROFILES
    ensures Upper(name) == name
  {
    UpperOfCapitals(name);
  }

  lemma {:induction false} UpperOfCapitals(s: string)
    requires forall i :: 0 <= i < |s| ==> s[i] < 'a'
    ensures Upper(s) == s
  {
    if s == [] {
    } else {
      UpperOfCapitals(s[1..]);
    }
  }

  lemma ComposeRead(c: Catalog, effective: Values)
    ensures ProperUpdates(ComposeUpdates(c, effective))
    ensures UpdateValues(ComposeUpdates(c, effective), None) == ComposeValues(ComposeUpdates(c, effective))
  {
    var updates := ComposeUpdates(c, effective);
    if updates != [] {
      var name := updates[0].0;
      ComposeIsProper(name);
      OneUpdate(updates[0]);
    }
  }

  lemma OneUpdate(update: (string, string))
    ensures UpdateValues([update], None) == map[update.0 := Some(update.1)]
  {
    assert [update][..0] == [];
  }

  /** The env file loses the removed names and may gain COMPOSE_PROFILES. */
  lemma NewEnvReads(c: Catalog, env: File, removed: set<string>, effective: Values)
    requires OneSpelling(env)
    ensures var updates := ComposeUpdates(c, effective);
            var result := Rewritten(env, removed, updates, None);
            && OneSpelling(result)
            && ReadValues(result) == ReadValues(env) - removed + ComposeValues(updates)
  {
    var updates := ComposeUpdates(c, effective);
    var result := Rewritten(env, removed, updates, None);
    ComposeRead(c, effective);
    RewrittenValues(env, removed, updates, None);
    RewrittenHasOneSpelling(env, removed, updates, None);
    ReadingTakesTheLastBinding(env);
    ReadingTakesTheLastBinding(result);
  }

  // ---------- What is read after n durable steps ----------

  function Stopped(c: Catalog, w: World, os: map<string, string>, trim: bool, n: nat): World
    requires Ready(w)
  {
    After(w, Target(c, w, os, trim), n)
  }

  function SecretsAfter(c: Catalog, env: Values, secrets: Values, n: nat): Values {
    if n >= 2 then secrets + Moved(c, env) else secrets
  }

  function EnvAfter(c: Catalog, env: Values, trim: bool, composed: Values, n: nat): Values {
    if n >= 3 then env - (Moved(c, env).Keys + if trim then Trimmable(c) else {}) + composed else env
  }

  lemma SecretsFileAfter(c: Catalog, w: World, os: map<string, string>, trim: bool, n: nat)
    requires Ready(w)
    ensures var now := Stopped(c, w, os, trim, n);
            && OneSpelling(now.secrets)
            && ReadValues(now.secrets) == SecretsAfter(c, ReadValues(w.env), ReadValues(w.secrets), n)
  {
    NewSecretsRead(c, w.secrets, w.env);
  }

  lemma RemovedNames(c: Catalog, env: File, trim: bool)
    requires OneSpelling(env)
    ensures Removed(c, Moves(c, env), trim) == Moved(c, ReadValues(env)).Keys + if trim then Trimmable(c) else {}
  {
    MovesReadAsMoved(c, env);
    ReadingTakesTheLastBinding(env);
  }

  lemma TargetEnvReads(c: Catalog, env: File, effective: Values, trim: bool)
    requires OneSpelling(env)
    ensures var result := TargetEnv(c, env, effective, trim);
            && OneSpelling(result)
            && ReadValues(result)
               == EnvAfter(c, ReadValues(env), trim, ComposeValues(ComposeUpdates(c, effective)), 3)
  {
    RemovedNames(c, env, trim);
    NewEnvReads(c, env, Removed(c, Moves(c, env), trim), effective);
  }

  lemma EnvFileAfter(c: Catalog, w: World, os: map<string, string>, trim: bool, n: nat)
    requires Ready(w)
    ensures var now := Stopped(c, w, os, trim, n);
            && OneSpelling(now.env)
            && ReadValues(now.env)
               == EnvAfter(c, ReadValues(w.env), trim, ComposeValues(ComposeUpdates(c, Effective(w, os))), n)
  {
    TargetEnvReads(c, w.env, Effective(w, os), trim);
  }

  lemma SecretSurvives(c: Catalog, env: Values, secrets: Values, os: map<string, string>, trim: bool,
                       composed: Values, n: nat, name: string)
    requires name in c.secrets && SecretAgrees(env, secrets, os, name)
    requires name !in Trimmable(c) && name !in composed
    ensures var secrets', env' := SecretsAfter(c, env, secrets, n), EnvAfter(c, env, trim, composed, n);
            && SecretAgrees(env', secrets', os, name)
            && (name in Merged(env', secrets', os) <==> name in Merged(env, secrets, os))
            && (name in Merged(env, secrets, os) ==> Merged(env', secrets', os)[name] == Merged(env, secrets, os)[name])
  {
  }

  lemma OthersSurvive(c: Catalog, env: Values, secrets: Values, os: map<string, string>, trim: bool,
                      composed: Values, n: nat, name: string)
    requires name !in c.secrets && name !in composed
    ensures var before := Merged(env, secrets, os);
            var now := Merged(EnvAfter(c, env, trim, composed, n), SecretsAfter(c, env, secrets, n), os);
            && (name in now ==> name in before && now[name] == before[name])
            && (name in before && name !in now ==>
                  n >= 3 && trim && name in Trimmable(c) && name in env && name !in secrets && name !in os)
  {
  }

  lemma SecretsAreNotTrimmed(c: Catalog, name: string)
    requires ProperNames(c) && name in c.secrets
    ensures name !in Trimmable(c) && name != COMPOSE_PROFILES
  {
  }

  /** At every crash point each secret is readable with its old value, and its sources still agree. */
  lemma SecretsStayReadable(c: Catalog, w: World, os: map<string, string>, trim: bool, n: nat, name: string)
    requires ProperNames(c) && Ready(w) && SecretsAgree(c, w, os) && name in c.secrets
    ensures var now := Stopped(c, w, os, trim, n);
            && SecretAgrees(ReadValues(now.env), ReadValues(now.secrets), os, name)
            && (name in Effective(now, os) <==> name in Effective(w, os))
            && (name in Effective(w, os) ==> Effective(now, os)[name] == Effective(w, os)[name])
  {
    SecretsAreNotTrimmed(c, name);
    EnvFileAfter(c, w, os, trim, n);
    SecretsFileAfter(c, w, os, trim, n);
    SecretSurvives(c, ReadValues(w.env), ReadValues(w.secrets), os, trim,
                   ComposeValues(ComposeUpdates(c, Effective(w, os))), n, name);
  }

  lemma OtherNamesAfter(c: Catalog, w: World, os: map<string, string>, trim: bool, n: nat, name: string)
    requires Ready(w) && name !in c.secrets && name != COMPOSE_PROFILES
    ensures var before, now := Effective(w, os), Effective(Stopped(c, w, os, trim, n), os);
            && (name in now ==> name in before && now[name] == before[name])
            && (name in before && name !in now ==>
                  n >= 3 && trim && name in Trimmable(c) && name !in ReadValues(w.secrets) && name !in os)
  {
    EnvFileAfter(c, w, os, trim, n);
    SecretsFileAfter(c, w, os, trim, n);
    OthersSurvive(c, ReadValues(w.env), ReadValues(w.secrets), os, trim,
                  ComposeValues(ComposeUpdates(c, Effective(w, os))), n, name);
  }

  /** Every name keeps its effective value, unless the env file was its only source and it was trimmed from it. */
  lemma EffectiveAfter(c: Catalog, w: World, os: map<string, string>, trim: bool, n: nat, name: string)
    requires ProperNames(c) && Ready(w) && SecretsAgree(c, w, os) && name != COMPOSE_PROFILES
    ensures var before, now := Effective(w, os), Effective(Stopped(c, w, os, trim, n), os);
            && (name in now ==> name in before && now[name] == before[name])
            && (name in before && name !in now ==>
                  n >= 3 && trim && name in Trimmable(c) && name !in ReadValues(w.secrets) && name !in os)
  {
    if name in c.secrets {
      SecretsStayReadable(c, w, os, trim, n, name);
    } else {
      OtherNamesAfter(c, w, os, trim, n, name);
    }
  }

  lemma MovingChangesNothing(c: Catalog, env: Values, secrets: Values, os: map<string, string>)
    requires forall name :: name in c.secrets ==> SecretAgrees(env, secrets, os, name)
    ensures Merged(env, secrets + Moved(c, env), os) == Merged(env, secrets, os)
  {
    var before, now := Merged(env, secrets, os), Merged(env, secrets + Moved(c, env), os);
    forall name | name in now && name !in os ensures name in before && now[name] == before[name] {
      assert name in Moved(c, env) ==> SecretAgrees(env, secrets, os, name);
    }
  }

  /** Up to the replacement of the env file every effective value is what it was. */
  lemma EffectiveUntilTheEnvFile(c: Catalog, w: World, os: map<string, string>, trim: bool, n: nat)
    requires Ready(w) && SecretsAgree(c, w, os) && n <= 2
    ensures Effective(Stopped(c, w, os, trim, n), os) == Effective(w, os)
  {
    SecretsFileAfter(c, w, os, trim, n);
    MovingChangesNothing(c, ReadValues(w.env), ReadValues(w.secrets), os);
  }

  // ---------- Rows ----------

  /** A declared setting's value when it has no row: what the environment gives it, or its default. */
  function Configured(c: Catalog, effective: Values, name: string): Option<string> {
    if IsPoolName(name) && AnyPoolName(effective) then
      match PoolRows(c.codec, effective)
      case Some(rows) => Some(rows[name])
      case None => None
    else if Given(effective, name).None? then Some(c.defaultOf(name))
    else if name in c.dynamic then c.codec.encode(name, Given(effective, name).value)
    else Given(effective, name)
  }

  /** The row, else the environment, else the default. */
  function Resolved(c: Catalog, w: World, os: map<string, string>, id: RowId): Option<string> {
    if id in w.rows then Some(w.rows[id]) else Configured(c, Effective(w, os), id.0)
  }

  predicate BecomesRow(c: Catalog, effective: Values, name: string) {
    name in c.dynamic && if IsPoolName(name) then AnyPoolName(effective) else Given(effective, name).Some?
  }

  lemma PoolCandidate(c: Catalog, effective: Values, name: string)
    requires ProperPools(c) && Candidates(c, effective).Some? && IsPoolName(name)
    ensures var candidates := Candidates(c, effective).value;
            && (name in candidates <==> BecomesRow(c, effective, name))
            && (name in candidates ==> Some(candidates[name]) == Configured(c, effective, name))
  {
    assert name in c.dynamic;
  }

  lemma OtherCandidate(c: Catalog, effective: Values, name: string)
    requires Candidates(c, effective).Some? && !IsPoolName(name)
    ensures var candidates := Candidates(c, effective).value;
            && (name in candidates <==> BecomesRow(c, effective, name))
            && (name in candidates ==> Some(candidates[name]) == Configured(c, effective, name))
  {
    var pool := PoolRows(c.codec, effective).value;
    assert name !in pool;
    if BecomesRow(c, effective, name) {
      assert IsCandidate(c, effective, name);
    }
  }

  /** Which names become rows, and with what value. */
  lemma CandidateOf(c: Catalog, effective: Values, name: string)
    requires ProperPools(c) && Candidates(c, effective).Some?
    ensures var candidates := Candidates(c, effective).value;
            && (name in candidates <==> BecomesRow(c, effective, name))
            && (name in candidates ==> Some(candidates[name]) == Configured(c, effective, name))
  {
    if IsPoolName(name) {
      PoolCandidate(c, effective, name);
    } else {
      OtherCandidate(c, effective, name);
    }
  }

  lemma RowsMerged(c: Catalog, rows: Rows, candidates: map<string, string>, id: RowId)
    requires id.0 in STORAGE ==> id.0 !in candidates
    ensures var target := rows + Additions(c, candidates, rows) - StorageRows(rows);
            && (id.0 in STORAGE ==> id !in target)
            && (id.0 !in STORAGE && id in rows ==> id in target && target[id] == rows[id])
            && (id.0 !in STORAGE && id !in rows ==> (id in target <==> id.0 in candidates && id == Id(c, id.0)))
            && (id.0 !in STORAGE && id !in rows && id in target ==> target[id] == candidates[id.0])
  {
  }

  /** The rows after the commit: all others as they were, no storage row, and one row for each missing candidate. */
  lemma RowsCommitted(c: Catalog, rows: Rows, effective: Values, id: RowId)
    requires ProperPools(c) && ProperNames(c) && Candidates(c, effective).Some?
    ensures var target := TargetRows(c, rows, effective);
            && (id.0 in STORAGE ==> id !in target)
            && (id.0 !in STORAGE && id in rows ==> id in target && target[id] == rows[id])
            && (id.0 !in STORAGE && id !in rows ==>
                  (id in target <==> BecomesRow(c, effective, id.0) && id == Id(c, id.0)))
            && (id.0 !in STORAGE && id !in rows && id in target ==>
                  Some(target[id]) == Configured(c, effective, id.0))
  {
    CandidateOf(c, effective, id.0);
    StorageIsNoCandidate(c, effective, id.0);
    RowsMerged(c, rows, Candidates(c, effective).value, id);
  }

  lemma StorageIsNoCandidate(c: Catalog, effective: Values, name: string)
    requires ProperNames(c)
    ensures name in STORAGE ==> !BecomesRow(c, effective, name)
  {
  }

  // ---------- Settings keep their values ----------

  lemma PoolNamesAfter(c: Catalog, w: World, os: map<string, string>, trim: bool, n: nat)
    requires ProperCatalog(c) && Ready(w) && SecretsAgree(c, w, os)
    ensures AnyPoolName(Effective(Stopped(c, w, os, trim, n), os)) ==> AnyPoolName(Effective(w, os))
  {
    forall name | IsPoolName(name) || name in LEGACY_NAMES
      ensures name in Effective(Stopped(c, w, os, trim, n), os) ==> name in Effective(w, os)
    {
      PoolNamesAreTrimmable(c, name);
      EffectiveAfter(c, w, os, trim, n, name);
    }
  }

  lemma PoolNamesAreTrimmable(c: Catalog, name: string)
    requires ProperPools(c) && ProperNames(c) && (IsPoolName(name) || name in LEGACY_NAMES)
    ensures name in Trimmable(c) && name != COMPOSE_PROFILES
  {
  }

  predicate IsSetting(name: string) {
    name != COMPOSE_PROFILES && name !in LEGACY_NAMES && name !in OBSOLETE
  }

  lemma PoolConfiguredAfter(c: Catalog, before: Values, now: Values, name: string)
    requires IsPoolName(name) && !AnyPoolName(before) && !AnyPoolName(now)
    ensures Configured(c, now, name) == Configured(c, before, name)
  {
  }

  lemma OtherConfiguredAfter(c: Catalog, before: Values, now: Values, name: string)
    requires !IsPoolName(name) && !BecomesRow(c, before, name)
    requires name in now ==> name in before && now[name] == before[name]
    requires name in before && name !in now ==> name in c.dynamic
    ensures Configured(c, now, name) == Configured(c, before, name)
  {
  }

  /** A setting that did not become a row is configured by the environment as before. */
  lemma ConfiguredAfter(c: Catalog, w: World, os: map<string, string>, trim: bool, n: nat, name: string)
    requires ProperCatalog(c) && Ready(w) && SecretsAgree(c, w, os)
    requires IsSetting(name) && !BecomesRow(c, Effective(w, os), name)
    ensures Configured(c, Effective(Stopped(c, w, os, trim, n), os), name) == Configured(c, Effective(w, os), name)
  {
    var before, now := Effective(w, os), Effective(Stopped(c, w, os, trim, n), os);
    if IsPoolName(name) {
      assert name in c.dynamic;
      PoolNamesAfter(c, w, os, trim, n);
      PoolConfiguredAfter(c, before, now, name);
    } else {
      EffectiveAfter(c, w, os, trim, n, name);
      OtherConfiguredAfter(c, before, now, name);
    }
  }

  lemma StorageStaysConfigured(c: Catalog, w: World, os: map<string, string>, trim: bool, n: nat, id: RowId)
    requires ProperCatalog(c) && Ready(w) && Problem(c, w, os) == None
    requires id in w.rows && id.0 in STORAGE
    ensures Configured(c, Effective(Stopped(c, w, os, trim, n), os), id.0) == Some(w.rows[id])
  {
    StorageIsNoCandidate(c, Effective(w, os), id.0);
    StorageIsStatic(c, id.0);
    EffectiveAfter(c, w, os, trim, n, id.0);
  }

  lemma StorageIsStatic(c: Catalog, name: string)
    requires ProperPools(c) && ProperNames(c) && name in STORAGE
    ensures name !in Trimmable(c) && name != COMPOSE_PROFILES && !IsPoolName(name)
  {
  }

  /** Whatever the crash point, every setting resolves to the value it had before the migration. */
  lemma SettingsStayResolved(c: Catalog, w: World, os: map<string, string>, trim: bool, n: nat, id: RowId)
    requires ProperCatalog(c) && Ready(w) && Problem(c, w, os) == None
    requires IsSetting(id.0) && (id.0 in c.dynamic ==> id == Id(c, id.0))
    ensures Resolved(c, Stopped(c, w, os, trim, n), os, id) == Resolved(c, w, os, id)
  {
    if n == 0 {
      EffectiveUntilTheEnvFile(c, w, os, trim, 0);
    } else {
      RowsCommitted(c, w.rows, Effective(w, os), id);
      if id in w.rows && id.0 in STORAGE {
        StorageStaysConfigured(c, w, os, trim, n, id);
      } else if id !in w.rows && !BecomesRow(c, Effective(w, os), id.0) {
        ConfiguredAfter(c, w, os, trim, n, id.0);
      } else {
        StorageIsNoCandidate(c, Effective(w, os), id.0);
      }
    }
  }

  /** No row of another setting is changed, removed or added without a value from the environment. */
  lemma OtherRowsAreUntouched(c: Catalog, w: World, os: map<string, string>, trim: bool, n: nat, id: RowId)
    requires ProperCatalog(c) && Ready(w) && Problem(c, w, os) == None
    ensures var rows := Stopped(c, w, os, trim, n).rows;
            && (id in w.rows && id.0 !in STORAGE ==> id in rows && rows[id] == w.rows[id])
            && (id in rows && id !in w.rows ==> BecomesRow(c, Effective(w, os), id.0) && id == Id(c, id.0))
  {
    RowsCommitted(c, w.rows, Effective(w, os), id);
  }

  lemma WhyRemoved(c: Catalog, w: World, os: map<string, string>, trim: bool, n: nat, name: string)
    requires Ready(w) && name in ReadValues(w.env) && name !in ReadValues(Stopped(c, w, os, trim, n).env)
    ensures n >= 3 && name in Effective(w, os)
    ensures var secrets := ReadValues(Stopped(c, w, os, trim, n).secrets);
            || (name in c.secrets && name in secrets && secrets[name] == ReadValues(w.env)[name])
            || name in Trimmable(c)
  {
    EnvFileAfter(c, w, os, trim, n);
    SecretsFileAfter(c, w, os, trim, n);
  }

  lemma LegacyNamesAreKept(c: Catalog, w: World, os: map<string, string>, trim: bool, n: nat, name: string)
    requires ProperCatalog(c) && Ready(w) && Problem(c, w, os) == None && n >= 1
    requires name in LEGACY_NAMES && name in Effective(w, os)
    ensures forall pool :: IsPoolName(pool) ==> Id(c, pool) in Stopped(c, w, os, trim, n).rows
  {
    assert AnyPoolName(Effective(w, os));
    forall pool | IsPoolName(pool) ensures Id(c, pool) in Stopped(c, w, os, trim, n).rows {
      BecomingRowsAreThere(c, w, os, trim, n, pool);
    }
  }

  /** Whatever the env file lost is in the secrets file or in the database, unless it is an obsolete name. */
  lemma RemovedNamesAreKept(c: Catalog, w: World, os: map<string, string>, trim: bool, n: nat, name: string)
    requires ProperCatalog(c) && Ready(w) && Problem(c, w, os) == None
    requires name in ReadValues(w.env) && name !in ReadValues(Stopped(c, w, os, trim, n).env)
    ensures var now := Stopped(c, w, os, trim, n);
            || (name in c.secrets && name in ReadValues(now.secrets)
                && ReadValues(now.secrets)[name] == ReadValues(w.env)[name])
            || (name in LEGACY_NAMES && forall pool :: IsPoolName(pool) ==> Id(c, pool) in now.rows)
            || (name in c.dynamic && (Given(Effective(w, os), name).Some? ==> Id(c, name) in now.rows))
            || name in OBSOLETE
  {
    WhyRemoved(c, w, os, trim, n, name);
    if name in LEGACY_NAMES {
      LegacyNamesAreKept(c, w, os, trim, n, name);
    } else if name in c.dynamic && Given(Effective(w, os), name).Some? {
      BecomingRowsAreThere(c, w, os, trim, n, name);
    }
  }

  lemma BecomingRowsAreThere(c: Catalog, w: World, os: map<string, string>, trim: bool, n: nat, name: string)
    requires ProperCatalog(c) && Ready(w) && Problem(c, w, os) == None && n >= 1
    requires name in c.dynamic
    requires if IsPoolName(name) then AnyPoolName(Effective(w, os)) || name in Effective(w, os)
             else Given(Effective(w, os), name).Some?
    ensures Id(c, name) in Stopped(c, w, os, trim, n).rows
  {
    StorageIsNoCandidate(c, Effective(w, os), name);
    RowsCommitted(c, w.rows, Effective(w, os), Id(c, name));
  }

  // ---------- Running it again ----------

  lemma StorageAgreesAfter(c: Catalog, rows: Rows, effective: Values, now: Values)
    requires ProperPools(c) && ProperNames(c) && Candidates(c, effective).Some?
    ensures StorageAgrees(c, TargetRows(c, rows, effective), now)
  {
    forall id | id in TargetRows(c, rows, effective) ensures id.0 !in STORAGE {
      RowsCommitted(c, rows, effective, id);
    }
  }

  predicate SameOrTrimmed(before: Values, now: Values, name: string) {
    name in now ==> name in before && now[name] == before[name]
  }

  lemma ProviderAfter(c: Catalog, rows: Rows, before: Values, now: Values, name: string, standard: string)
    requires ProperPools(c) && ProperNames(c) && ProperProvider(c, name, standard) && Candidates(c, before).Some?
    requires SameOrTrimmed(before, now, name)
    ensures var provider := Provider(c, TargetRows(c, rows, before), now, name);
            provider == Provider(c, rows, before, name) || provider == Some(standard)
  {
    RowsCommitted(c, rows, before, Id(c, name));
    StorageIsNoCandidate(c, before, name);
    DynamicIsNotStorage(c, name);
  }

  lemma DynamicIsNotStorage(c: Catalog, name: string)
    requires ProperNames(c) && name in c.dynamic
    ensures name !in STORAGE && name != COMPOSE_PROFILES
  {
  }

  lemma CredentialsAfter(c: Catalog, rows: Rows, before: Values, now: Values)
    requires ProperPools(c) && ProperNames(c) && ProperProviders(c) && Candidates(c, before).Some?
    requires SameOrTrimmed(before, now, ML_PROVIDER) && SameOrTrimmed(before, now, LLM_PROVIDER)
    requires forall name :: name in c.secrets ==> Given(now, name) == Given(before, name)
    requires CredentialsPresent(c, rows, before)
    ensures CredentialsPresent(c, TargetRows(c, rows, before), now)
  {
    ProviderAfter(c, rows, before, now, ML_PROVIDER, "tei");
    ProviderAfter(c, rows, before, now, LLM_PROVIDER, "ollama");
  }

  lemma RowsAreSettled(c: Catalog, rows: Rows, before: Values, now: Values)
    requires ProperPools(c) && ProperNames(c) && Candidates(c, before).Some? && Candidates(c, now).Some?
    requires forall name :: BecomesRow(c, now, name) ==> BecomesRow(c, before, name)
    ensures var target := TargetRows(c, rows, before); TargetRows(c, target, now) == target
  {
    var target := TargetRows(c, rows, before);
    forall id ensures (id in TargetRows(c, target, now) <==> id in target)
                      && (id in target ==> TargetRows(c, target, now)[id] == target[id])
    {
      RowsCommitted(c, rows, before, id);
      RowsCommitted(c, target, now, id);
    }
  }

  lemma SecretsAreSettled(c: Catalog, secrets: File, env: File)
    requires OneSpelling(env)
    ensures TargetSecrets(c, TargetSecrets(c, secrets, env), env) == TargetSecrets(c, secrets, env)
  {
    MovesCanBeWritten(c, env);
    MovesAreProper(c, env);
    RewritingIsIdempotent(secrets, {}, Moves(c, env), Some(env));
  }

  lemma SecretsAgreeAfter(c: Catalog, w: World, os: map<string, string>, trim: bool, n: nat)
    requires ProperNames(c) && Ready(w) && SecretsAgree(c, w, os)
    ensures SecretsAgree(c, Stopped(c, w, os, trim, n), os)
    ensures forall name :: name in c.secrets ==>
              Given(Effective(Stopped(c, w, os, trim, n), os), name) == Given(Effective(w, os), name)
  {
    forall name | name in c.secrets
      ensures var now := Stopped(c, w, os, trim, n);
              && SecretAgrees(ReadValues(now.env), ReadValues(now.secrets), os, name)
              && Given(Effective(now, os), name) == Given(Effective(w, os), name)
    {
      SecretsStayReadable(c, w, os, trim, n, name);
    }
  }

  lemma ProvidersAfter(c: Catalog, w: World, os: map<string, string>, trim: bool, n: nat)
    requires ProperNames(c) && ProperProviders(c) && Ready(w) && SecretsAgree(c, w, os)
    ensures var before, now := Effective(w, os), Effective(Stopped(c, w, os, trim, n), os);
            SameOrTrimmed(before, now, ML_PROVIDER) && SameOrTrimmed(before, now, LLM_PROVIDER)
  {
    DynamicIsNotStorage(c, ML_PROVIDER);
    DynamicIsNotStorage(c, LLM_PROVIDER);
    EffectiveAfter(c, w, os, trim, n, ML_PROVIDER);
    EffectiveAfter(c, w, os, trim, n, LLM_PROVIDER);
  }

  lemma ChecksPassAfter(c: Catalog, w: World, os: map<string, string>, trim: bool, n: nat)
    requires ProperCatalog(c) && Ready(w) && Problem(c, w, os) == None && n >= 1
    ensures var now := Stopped(c, w, os, trim, n);
            StorageAgrees(c, now.rows, Effective(now, os)) && CredentialsPresent(c, now.rows, Effective(now, os))
  {
    var before, now := Effective(w, os), Effective(Stopped(c, w, os, trim, n), os);
    SecretsAgreeAfter(c, w, os, trim, n);
    ProvidersAfter(c, w, os, trim, n);
    StorageAgreesAfter(c, w.rows, before, now);
    CredentialsAfter(c, w.rows, before, now);
  }

  lemma NoProblemAfter(c: Catalog, w: World, os: map<string, string>, trim: bool, n: nat)
    requires ProperCatalog(c) && Ready(w) && Problem(c, w, os) == None && n >= 1
    requires Candidates(c, Effective(Stopped(c, w, os, trim, n), os)).Some?
    ensures Problem(c, Stopped(c, w, os, trim, n), os) == None
  {
    SecretsAgreeAfter(c, w, os, trim, n);
    ChecksPassAfter(c, w, os, trim, n);
  }

  lemma RerunAimsTheSame(c: Catalog, w: World, os: map<string, string>, trim: bool, n: nat)
    requires ProperCatalog(c) && Ready(w) && Problem(c, w, os) == None && 1 <= n <= 2
    ensures Effective(Stopped(c, w, os, trim, n), os) == Effective(w, os)
    ensures Ready(Stopped(c, w, os, trim, n))
    ensures Target(c, Stopped(c, w, os, trim, n), os, trim) == Target(c, w, os, trim)
  {
    EffectiveUntilTheEnvFile(c, w, os, trim, n);
    SecretsFileAfter(c, w, os, trim, n);
    RowsAreSettled(c, w.rows, Effective(w, os), Effective(w, os));
    SecretsAreSettled(c, w.secrets, w.env);
  }

  /** A rerun started before the env file was replaced ends exactly where an uninterrupted run would have ended. */
  lemma RerunEndsTheSame(c: Catalog, w: World, os: map<string, string>, trim: bool, n: nat)
    requires ProperCatalog(c) && Ready(w) && Problem(c, w, os) == None && n <= 2
    ensures Ready(Stopped(c, w, os, trim, n))
    ensures PlanOf(c, Stopped(c, w, os, trim, n), os, trim) == PlanOf(c, w, os, trim) == Success(Target(c, w, os, trim))
  {
    if n == 0 {
      assert Stopped(c, w, os, trim, n) == w;
    } else {
      RerunAimsTheSame(c, w, os, trim, n);
      NoProblemAfter(c, w, os, trim, n);
    }
  }

  // ---------- A second run after a finished one ----------

  lemma FinishedFiles(c: Catalog, w: World, os: map<string, string>, trim: bool)
    requires Ready(w)
    ensures Stopped(c, w, os, trim, 3) == Target(c, w, os, trim) && Ready(Target(c, w, os, trim))
    ensures ReadValues(Target(c, w, os, trim).env)
            == EnvAfter(c, ReadValues(w.env), trim, ComposeValues(ComposeUpdates(c, Effective(w, os))), 3)
    ensures ReadValues(Target(c, w, os, trim).secrets) == SecretsAfter(c, ReadValues(w.env), ReadValues(w.secrets), 3)
  {
    EnvFileAfter(c, w, os, trim, 3);
    SecretsFileAfter(c, w, os, trim, 3);
  }

  lemma FinishedNames(c: Catalog, env: Values, trim: bool, composed: Values)
    requires ProperNames(c) && composed.Keys <= {COMPOSE_PROFILES}
    ensures var result := EnvAfter(c, env, trim, composed, 3);
            && Moved(c, result) == map[]
            && (trim ==> result.Keys !! Trimmable(c))
  {
    var result := EnvAfter(c, env, trim, composed, 3);
    forall name | name in result ensures name !in Moved(c, env) || name == COMPOSE_PROFILES {
    }
  }

  lemma NothingLeftToMove(c: Catalog, env: File)
    requires OneSpelling(env)
    requires Moved(c, ReadValues(env)) == map[]
    ensures Moves(c, env) == []
  {
    ReadingTakesTheLastBinding(env);
    MovesReadAsMoved(c, env);
    NoKeys(Moves(c, env));
  }

  lemma NoKeys(updates: Updates)
    ensures Keys(updates) == {} <==> updates == []
  {
    if updates != [] {
      assert updates[0].0 in Keys(updates);
    }
  }

  lemma FinishedIsClean(c: Catalog, w: World, os: map<string, string>, trim: bool)
    requires ProperNames(c) && Ready(w)
    ensures Ready(Target(c, w, os, trim))
    ensures var env := Target(c, w, os, trim).env;
            Moves(c, env) == [] && (trim ==> ReadValues(env).Keys !! Trimmable(c))
  {
    var env := Target(c, w, os, trim).env;
    FinishedFiles(c, w, os, trim);
    FinishedNames(c, ReadValues(w.env), trim, ComposeValues(ComposeUpdates(c, Effective(w, os))));
    NothingLeftToMove(c, env);
  }

  lemma SecretsFileIsFinal(c: Catalog, secrets: File, env: File)
    requires OneSpelling(env) && Moves(c, env) == []
    ensures TargetSecrets(c, secrets, env) == secrets
  {
    NoKeys(Moves(c, env));
    NothingDropped(secrets, {} + Keys(Moves(c, env)));
  }

  /** A cleaned env file is rewritten exactly when COMPOSE_PROFILES has to be added. */
  lemma EnvFileIsFinal(c: Catalog, env: File, effective: Values, trim: bool)
    requires OneSpelling(env) && Moves(c, env) == [] && (trim ==> ReadValues(env).Keys !! Trimmable(c))
    requires COMPOSE_PROFILES in ReadValues(env) ==> COMPOSE_PROFILES in effective
    ensures TargetEnv(c, env, effective, trim) == env <==> ComposeUpdates(c, effective) == []
  {
    ReadingTakesTheLastBinding(env);
    var updates, removed := ComposeUpdates(c, effective), Removed(c, Moves(c, env), trim);
    NoKeys(Moves(c, env));
    assert removed == if trim then Trimmable(c) else {};
    NothingDropped(env, removed + Keys(updates));
    RewrittenKeepsTheRest(env, removed, updates, None);
  }

  predicate ProfileIsSettled(c: Catalog, w: World, os: map<string, string>, trim: bool) {
    || COMPOSE_PROFILES in Effective(w, os)
    || EnvProvider(c, Effective(w, os)) == Some("tei")
    || !trim || ML_PROVIDER in ReadValues(w.secrets) || ML_PROVIDER in os
  }

  lemma ComposeInFinished(c: Catalog, w: World, os: map<string, string>, trim: bool)
    requires ProperNames(c) && Ready(w)
    ensures COMPOSE_PROFILES in Effective(Target(c, w, os, trim), os)
            <==> COMPOSE_PROFILES in Effective(w, os) || EnvProvider(c, Effective(w, os)) == Some("tei")
  {
    FinishedFiles(c, w, os, trim);
  }

  lemma TrimmedOrNot(c: Catalog, env: Values, secrets: Values, os: map<string, string>, trim: bool, composed: Values,
                     name: string)
    requires name in Trimmable(c) && name !in c.secrets && name !in composed
    ensures var now := Merged(EnvAfter(c, env, trim, composed, 3), SecretsAfter(c, env, secrets, 3), os);
            var before := Merged(env, secrets, os);
            if !trim || name in secrets || name in os
            then (name in now <==> name in before) && (name in now ==> now[name] == before[name])
            else name !in now
  {
  }

  lemma ProviderInFinished(c: Catalog, w: World, os: map<string, string>, trim: bool)
    requires ProperProviders(c) && ProperNames(c) && Ready(w)
    ensures EnvProvider(c, Effective(Target(c, w, os, trim), os))
            == if !trim || ML_PROVIDER in ReadValues(w.secrets) || ML_PROVIDER in os
                then EnvProvider(c, Effective(w, os))
               else Some("tei")
  {
    FinishedFiles(c, w, os, trim);
    DynamicIsNotStorage(c, ML_PROVIDER);
    TrimmedOrNot(c, ReadValues(w.env), ReadValues(w.secrets), os, trim,
                 ComposeValues(ComposeUpdates(c, Effective(w, os))), ML_PROVIDER);
  }

  lemma ComposeAfterFinish(c: Catalog, w: World, os: map<string, string>, trim: bool)
    requires ProperProviders(c) && ProperNames(c) && Ready(w)
    requires Ready(Target(c, w, os, trim))
    ensures ComposeUpdates(c, Effective(Target(c, w, os, trim), os)) == [] <==> ProfileIsSettled(c, w, os, trim)
  {
    ComposeInFinished(c, w, os, trim);
    ProviderInFinished(c, w, os, trim);
  }

  lemma CandidatesAfterFinish(c: Catalog, before: Values, now: Values)
    requires Candidates(c, before).Some?
    requires forall name :: name in c.dynamic ==> SameOrTrimmed(before, now, name)
    ensures Candidates(c, now).Some? <==> PoolRows(c.codec, now).Some?
  {
    forall name | name in c.dynamic && IsCandidate(c, now, name)
      ensures c.codec.encode(name, Given(now, name).value).Some?
    {
      assert SameOrTrimmed(before, now, name) && IsCandidate(c, before, name);
    }
  }

  lemma DynamicNamesAfterFinish(c: Catalog, w: World, os: map<string, string>, trim: bool)
    requires ProperNames(c) && Ready(w) && SecretsAgree(c, w, os)
    ensures forall name :: name in c.dynamic ==>
              SameOrTrimmed(Effective(w, os), Effective(Target(c, w, os, trim), os), name)
  {
    FinishedFiles(c, w, os, trim);
    forall name | name in c.dynamic
      ensures SameOrTrimmed(Effective(w, os), Effective(Target(c, w, os, trim), os), name)
    {
      DynamicIsNotStorage(c, name);
      EffectiveAfter(c, w, os, trim, 3, name);
    }
  }

  lemma RowsAreFinal(c: Catalog, w: World, os: map<string, string>, trim: bool)
    requires ProperCatalog(c) && Ready(w) && SecretsAgree(c, w, os)
    requires Candidates(c, Effective(w, os)).Some? && Candidates(c, Effective(Target(c, w, os, trim), os)).Some?
    ensures var target := Target(c, w, os, trim); TargetRows(c, target.rows, Effective(target, os)) == target.rows
  {
    FinishedFiles(c, w, os, trim);
    DynamicNamesAfterFinish(c, w, os, trim);
    PoolNamesAfter(c, w, os, trim, 3);
    var before, now := Effective(w, os), Effective(Target(c, w, os, trim), os);
    forall name | BecomesRow(c, now, name) ensures BecomesRow(c, before, name) {
      assert SameOrTrimmed(before, now, name);
    }
    RowsAreSettled(c, w.rows, before, now);
  }

  /** The sources that trimming leaves: the secrets file and the process environment. */
  function Left(w: World, os: map<string, string>): Values {
    Merged(map[], ReadValues(w.secrets), os)
  }

  /** What is left of the sources after a finished run, as far as pool names go. */
  function LeftAfter(w: World, os: map<string, string>, trim: bool): Values {
    if trim then Left(w, os) else Effective(w, os)
  }

  lemma PoolNameInFinished(c: Catalog, w: World, os: map<string, string>, trim: bool, name: string)
    requires ProperCatalog(c) && Ready(w) && (IsPoolName(name) || name in LEGACY_NAMES)
    ensures SameValue(LeftAfter(w, os, trim), Effective(Target(c, w, os, trim), os), name)
  {
    FinishedFiles(c, w, os, trim);
    PoolNamesAreTrimmable(c, name);
    LeftInSources(w, os, name);
    TrimmedOrNot(c, ReadValues(w.env), ReadValues(w.secrets), os, trim,
                 ComposeValues(ComposeUpdates(c, Effective(w, os))), name);
  }

  /** The pool names that a finished run still sees. */
  lemma PoolNamesInFinished(c: Catalog, w: World, os: map<string, string>, trim: bool)
    requires ProperCatalog(c) && Ready(w)
    ensures SamePoolNames(LeftAfter(w, os, trim), Effective(Target(c, w, os, trim), os))
  {
    forall name | IsPoolName(name) || name in LEGACY_NAMES
      ensures SameValue(LeftAfter(w, os, trim), Effective(Target(c, w, os, trim), os), name)
    {
      PoolNameInFinished(c, w, os, trim, name);
    }
  }

  lemma LeftInSources(w: World, os: map<string, string>, name: string)
    ensures name in Left(w, os) <==> name in ReadValues(w.secrets) || name in os
    ensures name in Left(w, os) ==> name in Effective(w, os) && Left(w, os)[name] == Effective(w, os)[name]
  {
  }

  lemma CandidatesArePools(c: Catalog, effective: Values)
    requires Candidates(c, effective).Some?
    ensures PoolRows(c.codec, effective).Some?
  {
  }

  /**
   Running a finished migration again is refused if and only if it was trimmed and the pool names left in the secrets
   file and in the process environment do not derive without those of the env file.
   */
  lemma SecondRunIsAccepted(c: Catalog, w: World, os: map<string, string>, trim: bool)
    requires ProperCatalog(c) && Ready(w) && Problem(c, w, os) == None
    ensures Ready(Target(c, w, os, trim))
    ensures Problem(c, Target(c, w, os, trim), os)
            == if trim && PoolRows(c.codec, Left(w, os)).None? then Some(InvalidValue) else None
  {
    var target := Target(c, w, os, trim);
    var now := Effective(target, os);
    FinishedFiles(c, w, os, trim);
    SecretsAgreeAfter(c, w, os, trim, 3);
    DynamicNamesAfterFinish(c, w, os, trim);
    CandidatesAfterFinish(c, Effective(w, os), now);
    CandidatesArePools(c, Effective(w, os));
    PoolNamesInFinished(c, w, os, trim);
    SamePoolRows(c, LeftAfter(w, os, trim), now);
    if Candidates(c, now).Some? {
      NoProblemAfter(c, w, os, trim, 3);
    }
  }

  /**
   An accepted second run leaves rows and secrets as they are, and the env file too except when the provider was
   given there alone, was not tei, and no COMPOSE_PROFILES was set: then the default provider is assumed.
   */
  lemma SecondRun(c: Catalog, w: World, os: map<string, string>, trim: bool)
    requires ProperCatalog(c) && Ready(w) && Problem(c, w, os) == None
    ensures Ready(Target(c, w, os, trim))
    ensures var target := Target(c, w, os, trim);
            Problem(c, target, os) == None ==>
              var again := Target(c, target, os, trim);
              && again.rows == target.rows && again.secrets == target.secrets
              && (again.env == target.env <==> ProfileIsSettled(c, w, os, trim))
  {
    var target := Target(c, w, os, trim);
    FinishedIsClean(c, w, os, trim);
    if Problem(c, target, os) == None {
      RowsAreFinal(c, w, os, trim);
      SecretsFileIsFinal(c, target.secrets, target.env);
      EnvFileIsFinal(c, target.env, Effective(target, os), trim);
      ComposeAfterFinish(c, w, os, trim);
    }
  }

  /** Without trimming, a second run changes nothing. */
  lemma SecondUntrimmedRun(c: Catalog, w: World, os: map<string, string>)
    requires ProperCatalog(c) && Ready(w) && Problem(c, w, os) == None
    ensures Ready(Target(c, w, os, false))
    ensures PlanOf(c, Target(c, w, os, false), os, false) == Success(Target(c, w, os, false))
  {
    SecondRunIsAccepted(c, w, os, false);
    SecondRun(c, w, os, false);
  }

  predicate SameValue(before: Values, now: Values, name: string) {
    (name in now <==> name in before) && (name in now ==> now[name] == before[name])
  }

  ghost predicate SamePoolNames(before: Values, now: Values) {
    forall name :: IsPoolName(name) || name in LEGACY_NAMES ==> SameValue(before, now, name)
  }

  lemma SameAnyPoolName(before: Values, now: Values)
    requires SamePoolNames(before, now)
    ensures AnyPoolName(now) <==> AnyPoolName(before)
  {
    assert forall name :: IsPoolName(name) || name in LEGACY_NAMES ==> SameValue(before, now, name);
    assert SameValue(before, now, EMBEDDING_CONNECTIONS) && SameValue(before, now, EMBEDDING_KEEPALIVE);
    assert SameValue(before, now, RERANK_CONNECTIONS) && SameValue(before, now, RERANK_KEEPALIVE);
    assert SameValue(before, now, LEGACY_CONNECTIONS) && SameValue(before, now, LEGACY_KEEPALIVE);
  }

  lemma SameLegacyLimits(c: Catalog, before: Values, now: Values)
    requires SamePoolNames(before, now)
    ensures LegacyLimits(c.codec, now) == LegacyLimits(c.codec, before)
  {
    assert SameValue(before, now, LEGACY_CONNECTIONS) && SameValue(before, now, LEGACY_KEEPALIVE);
  }

  lemma SamePoolRow(c: Catalog, before: Values, now: Values, limits: Limits, name: string)
    requires SamePoolNames(before, now) && IsPoolName(name)
    ensures PoolRow(c.codec, now, limits, name) == PoolRow(c.codec, before, limits, name)
  {
    assert SameValue(before, now, name) && SameValue(before, now, Source(name));
  }

  lemma SamePoolRows(c: Catalog, before: Values, now: Values)
    requires SamePoolNames(before, now)
    ensures PoolRows(c.codec, now) == PoolRows(c.codec, before)
  {
    SameAnyPoolName(before, now);
    SameLegacyLimits(c, before, now);
    var limits := LegacyLimits(c.codec, before);
    if limits.Some? {
      SamePoolRow(c, before, now, limits.value, EMBEDDING_CONNECTIONS);
      SamePoolRow(c, before, now, limits.value, RERANK_CONNECTIONS);
      SamePoolRow(c, before, now, limits.value, EMBEDDING_KEEPALIVE);
      SamePoolRow(c, before, now, limits.value, RERANK_KEEPALIVE);
    }
  }
}
