/**
 migrate_env_configuration: rows are committed, then the secrets file is replaced, then the env file.

 `PlanOf` is what an uninterrupted run aims at; `After` is what a run that stops after n of its three durable
 steps leaves behind.  Names are written in upper case everywhere, as in the files; the database's lower-case
 keys correspond to them one to one.
 */
module ConfigMigration {
  import opened Outcomes
  import opened EnvFile
  import opened PoolMigration

  /** A parameter row is identified by its key and, when it belongs to one domain, that domain. */
  type RowId = (string, Option<string>)

  type Rows = map<RowId, string>

  datatype World = World(rows: Rows, secrets: File, env: File)

  datatype MigrationError = SecretConflict | InvalidValue | StorageMismatch | MissingCredential

  const COMPOSE_PROFILES := "COMPOSE_PROFILES"
  const ML_PROVIDER := "ML_PROVIDER"
  const LLM_PROVIDER := "LLM_PROVIDER"
  const DEEPINFRA_API_KEY := "DEEPINFRA_API_KEY"
  const OPENROUTER_API_KEY := "OPENROUTER_API_KEY"
  const STORAGE: set<string> := {"S3_ENDPOINT", "S3_BUCKET", "S3_REGION", "S3_ACCESS_KEY", "S3_SECRET_KEY"}
  const OBSOLETE: set<string> := {"EMBED_MODEL", "RERANK_MODEL", "RERANK_DEVICE"}
  const REQUIRED: set<string> := {"DB_PASSWORD", "REDIS_PASSWORD", "JWT_SECRET_KEY", "S3_ACCESS_KEY", "S3_SECRET_KEY"}

  /** The declared settings: which names are dynamic, which are secret, where a row belongs, what a default is. */
  datatype Catalog = Catalog(
    dynamic: set<string>,
    secrets: set<string>,
    domainOf: string -> Option<string>,
    defaultOf: string -> string,
    codec: Codec)

  /** Facts of the declarations in setting_keys.py, dynamic_params.py and config.py that the results use. */
  ghost predicate ProperCatalog(c: Catalog) {
    ProperCodec(c.codec) && ProperPools(c) && ProperNames(c) && ProperProviders(c)
  }

  ghost predicate ProperPools(c: Catalog) {
    forall name :: IsPoolName(name) ==> name in c.dynamic && c.domainOf(name) == None
  }

  ghost predicate ProperNames(c: Catalog) {
    && c.secrets !! Trimmable(c) && STORAGE !! Trimmable(c)
    && COMPOSE_PROFILES !in Trimmable(c) && COMPOSE_PROFILES !in c.secrets && COMPOSE_PROFILES !in STORAGE
    && REQUIRED <= c.secrets && DEEPINFRA_API_KEY in c.secrets && OPENROUTER_API_KEY in c.secrets
  }

  ghost predicate ProperProviders(c: Catalog) {
    ProperProvider(c, ML_PROVIDER, "tei") && ProperProvider(c, LLM_PROVIDER, "ollama")
  }

  ghost predicate ProperProvider(c: Catalog, name: string, standard: string) {
    && name in c.dynamic && !IsPoolName(name) && c.domainOf(name) == None && c.defaultOf(name) == standard
    && forall raw :: c.codec.encode(name, raw).Some? ==> c.codec.encode(name, raw) == Some(raw)
  }

  function Trimmable(c: Catalog): set<string> {
    c.dynamic + LEGACY_NAMES + OBSOLETE
  }

  function Id(c: Catalog, name: string): RowId {
    (name, c.domainOf(name))
  }

  /** Later sources win: env file, secrets file, process environment. */
  function Merged(env: Values, secrets: Values, os: map<string, string>): Values {
    env + secrets + map name | name in os :: Some(os[name])
  }

  function Effective(w: World, os: map<string, string>): Values {
    Merged(ReadValues(w.env), ReadValues(w.secrets), os)
  }

  // ---------- Secrets ----------

  predicate HasInterpolation(value: string) {
    exists i :: 0 <= i < |value| - 1 && value[i] == '$' && value[i + 1] == '{'
  }

  function FirstSource(env: Values, secrets: Values, os: map<string, string>, name: string): Option<string>
    requires name in env || name in secrets || name in os
  {
    if name in env then env[name] else if name in secrets then secrets[name] else Some(os[name])
  }

  /** Whatever sources a secret has, they all give the same value, which is present and not interpolated. */
  predicate SecretAgrees(env: Values, secrets: Values, os: map<string, string>, name: string) {
    name in env || name in secrets || name in os ==>
      var first := FirstSource(env, secrets, os, name);
      && first.Some? && !HasInterpolation(first.value)
      && (name in secrets ==> secrets[name] == first)
      && (name in os ==> Some(os[name]) == first)
  }

  predicate SecretsAgree(c: Catalog, w: World, os: map<string, string>) {
    forall name :: name in c.secrets ==> SecretAgrees(ReadValues(w.env), ReadValues(w.secrets), os, name)
  }

  function MovesOf(c: Catalog, order: seq<string>, values: Values): Updates {
    if order == [] then []
    else
      var earlier, name := MovesOf(c, order[..|order| - 1], values), Upper(order[|order| - 1]);
      if name in c.secrets && Given(values, name).Some? then earlier + [(name, Given(values, name).value)] else earlier
  }

  /** The secrets to move out of the env file, in the order of its dictionary. */
  function Moves(c: Catalog, env: File): Updates {
    MovesOf(c, Spellings(env), ReadValues(env))
  }

  // ---------- Rows ----------

  predicate IsCandidate(c: Catalog, effective: Values, name: string) {
    name in c.dynamic && !IsPoolName(name) && Given(effective, name).Some?
  }

  function Candidates(c: Catalog, effective: Values): Option<map<string, string>> {
    if exists name :: name in c.dynamic && IsCandidate(c, effective, name)
                      && c.codec.encode(name, Given(effective, name).value).None? then None
    else
      match PoolRows(c.codec, effective)
      case None => None
      case Some(pool) =>
        Some((map name | name in c.dynamic && IsCandidate(c, effective, name) ::
                c.codec.encode(name, Given(effective, name).value).value) + pool)
  }

  function Additions(c: Catalog, candidates: map<string, string>, rows: Rows): Rows {
    map name | name in candidates && Id(c, name) !in rows :: Id(c, name) := candidates[name]
  }

  function StorageRows(rows: Rows): set<RowId> {
    set id | id in rows && id.0 in STORAGE
  }

  predicate StorageAgrees(c: Catalog, rows: Rows, effective: Values) {
    forall id :: id in rows && id.0 in STORAGE ==>
      Some(rows[id]) == if id.0 in effective then effective[id.0] else Some(c.defaultOf(id.0))
  }

  /** The provider the application will use: the global row, else the environment, else the default. */
  function Provider(c: Catalog, rows: Rows, effective: Values, name: string): Option<string> {
    if (name, None) in rows then Some(rows[(name, None)])
    else if name in effective then effective[name]
    else Some(c.defaultOf(name))
  }

  predicate HasCredential(effective: Values, name: string) {
    Given(effective, name).Some? && Given(effective, name).value != "" && Given(effective, name).value != "minioadmin"
  }

  predicate CredentialsPresent(c: Catalog, rows: Rows, effective: Values) {
    && (forall name :: name in REQUIRED ==> HasCredential(effective, name))
    && (Provider(c, rows, effective, ML_PROVIDER) == Some("deepinfra") ==> HasCredential(effective, DEEPINFRA_API_KEY))
    && (Provider(c, rows, effective, LLM_PROVIDER) == Some("openrouter") ==>
        HasCredential(effective, OPENROUTER_API_KEY))
  }

  function EnvProvider(c: Catalog, effective: Values): Option<string> {
    if ML_PROVIDER in effective then effective[ML_PROVIDER] else Some(c.defaultOf(ML_PROVIDER))
  }

  function ComposeUpdates(c: Catalog, effective: Values): Updates {
    if COMPOSE_PROFILES !in effective && EnvProvider(c, effective) == Some("tei") then [(COMPOSE_PROFILES, "tei")]
    else []
  }

  function Removed(c: Catalog, moves: Updates, trim: bool): set<string> {
    Keys(moves) + if trim then Trimmable(c) else {}
  }

  predicate Ready(w: World) {
    OneSpelling(w.env) && OneSpelling(w.secrets)
  }

  predicate IsMove(c: Catalog, values: Values, update: (string, string)) {
    update.0 in c.secrets && Given(values, update.0) == Some(update.1)
  }

  lemma {:induction false} MoveComesFromOrder(c: Catalog, order: seq<string>, values: Values, i: nat)
    returns (k: nat)
    requires i < |MovesOf(c, order, values)|
    ensures IsMove(c, values, MovesOf(c, order, values)[i])
    ensures k < |order| && Upper(order[k]) == MovesOf(c, order, values)[i].0
  {
    var earlier := MovesOf(c, order[..|order| - 1], values);
    if i < |earlier| {
      k := MoveComesFromOrder(c, order[..|order| - 1], values, i);
    } else {
      k := |order| - 1;
    }
  }

  predicate DistinctNames(order: seq<string>) {
    forall i, j :: 0 <= i < j < |order| ==> Upper(order[i]) != Upper(order[j])
  }

  lemma {:induction false} MovesAreDistinct(c: Catalog, order: seq<string>, values: Values)
    requires DistinctNames(order)
    ensures ProperUpdates(MovesOf(c, order, values))
  {
    if order == [] {
    } else {
      var n := |order| - 1;
      var front, name := order[..n], Upper(order[n]);
      var earlier, moves := MovesOf(c, front, values), MovesOf(c, order, values);
      MovesAreDistinct(c, front, values);
      UpperIsIdempotent(order[n]);
      forall i | 0 <= i < |earlier| ensures earlier[i].0 != name {
        var k := MoveComesFromOrder(c, front, values, i);
        assert order[k] == front[k];
      }
    }
  }

  lemma {:induction false} MovesAreComplete(c: Catalog, order: seq<string>, values: Values, s: string)
    requires s in order && Upper(s) in c.secrets && Given(values, Upper(s)).Some?
    ensures Upper(s) in Keys(MovesOf(c, order, values))
  {
    var front, last := order[..|order| - 1], order[|order| - 1];
    assert order == front + [last];
    var earlier, name := MovesOf(c, front, values), Upper(last);
    if s in front {
      MovesAreComplete(c, front, values, s);
    }
    if name in c.secrets && Given(values, name).Some? {
      KeysAppend(earlier, (name, Given(values, name).value));
    }
  }

  lemma SpellingsAreDistinctNames(env: File)
    requires OneSpelling(env)
    ensures DistinctNames(Spellings(env))
  {
    var order := Spellings(env);
    forall i, j | 0 <= i < j < |order| ensures Upper(order[i]) != Upper(order[j]) {
      SpelledValue(env, order[i]);
      SpelledValue(env, order[j]);
    }
  }

  lemma MovesAreProper(c: Catalog, env: File)
    requires OneSpelling(env)
    ensures ProperUpdates(Moves(c, env))
  {
    SpellingsAreDistinctNames(env);
    MovesAreDistinct(c, Spellings(env), ReadValues(env));
  }

  /** The moves are exactly the secret names with a value in the env file. */
  lemma MovesAreSecrets(c: Catalog, env: File, name: string)
    requires OneSpelling(env)
    ensures name in Keys(Moves(c, env)) <==> name in c.secrets && Given(LastValues(env), name).Some?
  {
    ReadingTakesTheLastBinding(env);
    var order, values := Spellings(env), LastValues(env);
    if name in Keys(Moves(c, env)) {
      var i :| 0 <= i < |Moves(c, env)| && Moves(c, env)[i].0 == name;
      var _ := MoveComesFromOrder(c, order, values, i);
    }
    if name in c.secrets && Given(values, name).Some? {
      LastIsSpelled(env, name);
      MovesAreComplete(c, order, values, LastBinding(env, name).key.value);
    }
  }

  lemma MovesCanBeWritten(c: Catalog, env: File)
    requires OneSpelling(env)
    ensures CanWrite(Moves(c, env), Some(env))
  {
    forall i | 0 <= i < |Moves(c, env)| ensures Moves(c, env)[i].0 in LastValues(env) {
      assert Moves(c, env)[i].0 in Keys(Moves(c, env));
      MovesAreSecrets(c, env, Moves(c, env)[i].0);
    }
  }

  // ---------- The plan ----------

  function Problem(c: Catalog, w: World, os: map<string, string>): Option<MigrationError> {
    var effective := Effective(w, os);
    if !SecretsAgree(c, w, os) then Some(SecretConflict)
    else if Candidates(c, effective).None? then Some(InvalidValue)
    else if !StorageAgrees(c, w.rows, effective) then Some(StorageMismatch)
    else if !CredentialsPresent(c, w.rows, effective) then Some(MissingCredential)
    else None
  }

  function TargetRows(c: Catalog, rows: Rows, effective: Values): Rows {
    match Candidates(c, effective)
    case None => rows
    case Some(candidates) => rows + Additions(c, candidates, rows) - StorageRows(rows)
  }

  function TargetSecrets(c: Catalog, secrets: File, env: File): File
    requires OneSpelling(env)
  {
    MovesCanBeWritten(c, env);
    Rewritten(secrets, {}, Moves(c, env), Some(env))
  }

  function TargetEnv(c: Catalog, env: File, effective: Values, trim: bool): File {
    Rewritten(env, Removed(c, Moves(c, env), trim), ComposeUpdates(c, effective), None)
  }

  function Target(c: Catalog, w: World, os: map<string, string>, trim: bool): World
    requires Ready(w)
  {
    var effective := Effective(w, os);
    World(TargetRows(c, w.rows, effective), TargetSecrets(c, w.secrets, w.env), TargetEnv(c, w.env, effective, trim))
  }

  function PlanOf(c: Catalog, w: World, os: map<string, string>, trim: bool): Result<World, MigrationError>
    requires Ready(w)
  {
    match Problem(c, w, os)
    case Some(error) => Failure(error)
    case None => Success(Target(c, w, os, trim))
  }

  /** What is on disk and in the database after the first n of the three durable steps. */
  function After(w: World, target: World, n: nat): World {
    World(if n >= 1 then target.rows else w.rows,
          if n >= 2 then target.secrets else w.secrets,
          if n >= 3 then target.env else w.env)
  }
}
