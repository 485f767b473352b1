/** legacy_pool_limits and pool_parameters: the HTTP pool settings derived from two legacy names. */
module PoolMigration {
  import opened Outcomes

  type Values = map<string, Option<string>>

  const EMBEDDING_CONNECTIONS := "EMBEDDING_HTTP_MAX_CONNECTIONS"
  const RERANK_CONNECTIONS := "RERANK_HTTP_MAX_CONNECTIONS"
  const EMBEDDING_KEEPALIVE := "EMBEDDING_HTTP_MAX_KEEPALIVE_CONNECTIONS"
  const RERANK_KEEPALIVE := "RERANK_HTTP_MAX_KEEPALIVE_CONNECTIONS"
  const LEGACY_CONNECTIONS := "HTTP_POOL_MAX_CONNECTIONS"
  const LEGACY_KEEPALIVE := "HTTP_POOL_MAX_KEEPALIVE"

  const POOL_NAMES: seq<string> := [EMBEDDING_CONNECTIONS, RERANK_CONNECTIONS, EMBEDDING_KEEPALIVE, RERANK_KEEPALIVE]
  const LEGACY_NAMES: set<string> := {LEGACY_CONNECTIONS, LEGACY_KEEPALIVE}

  predicate IsPoolName(name: string) {
    || name == EMBEDDING_CONNECTIONS || name == RERANK_CONNECTIONS
    || name == EMBEDDING_KEEPALIVE || name == RERANK_KEEPALIVE
  }

  function PoolKeys(): set<string> {
    {EMBEDDING_CONNECTIONS, RERANK_CONNECTIONS, EMBEDDING_KEEPALIVE, RERANK_KEEPALIVE}
  }

  predicate IsConnections(name: string) {
    name == EMBEDDING_CONNECTIONS || name == RERANK_CONNECTIONS
  }

  /**
   The text functions the migration relies on: migration_parameter's encoding of a raw value (None when it is
   rejected), int() and str().
   */
  datatype Codec = Codec(
    encode: (string, string) -> Option<string>,
    readInt: string -> Option<int>,
    showInt: int -> string)

  /** What is assumed of them: printing is readable, and a pool entry is an integer within its declared minimum. */
  ghost predicate ProperCodec(c: Codec) {
    && (forall n: int :: c.readInt(c.showInt(n)) == Some(n))
    && (forall name, n: int :: IsPoolName(name) && n >= Minimum(name) ==>
          c.encode(name, c.showInt(n)) == Some(c.showInt(n)))
    && (forall name, raw :: IsPoolName(name) && c.encode(name, raw).Some? ==>
          var n := c.readInt(c.encode(name, raw).value); n.Some? && n.value >= Minimum(name))
  }

  /** The declared minimum of a pool parameter. */
  function Minimum(name: string): int {
    if IsConnections(name) then 1 else 0
  }

  function Given(values: Values, name: string): Option<string> {
    if name in values then values[name] else None
  }

  function Source(name: string): string {
    if IsConnections(name) then LEGACY_CONNECTIONS else LEGACY_KEEPALIVE
  }

  function Divisor(name: string): int {
    if name == RERANK_CONNECTIONS || name == RERANK_KEEPALIVE then 2 else 1
  }

  datatype Limits = Limits(connections: int, keepalive: int)

  /** A missing name takes its legacy default; a name without a value is an error, as is one that is not a number. */
  function LegacyLimit(c: Codec, values: Values, source: string): Option<int> {
    if source !in values then c.readInt(c.showInt(if source == LEGACY_CONNECTIONS then 40 else 20))
    else if values[source].None? then None
    else c.readInt(values[source].value)
  }

  function LegacyLimits(c: Codec, values: Values): Option<Limits> {
    var connections, keepalive := LegacyLimit(c, values, LEGACY_CONNECTIONS), LegacyLimit(c, values, LEGACY_KEEPALIVE);
    if connections.None? || keepalive.None? then None
    else if connections.value < 2 || keepalive.value < 0 || keepalive.value > connections.value then None
    else Some(Limits(connections.value, keepalive.value))
  }

  function Derived(limits: Limits, name: string): int {
    (if IsConnections(name) then limits.connections else limits.keepalive) / Divisor(name)
  }

  /** One row: the explicit value, or the derived one; the two may not disagree when both were given. */
  function PoolRow(c: Codec, values: Values, limits: Limits, name: string): Option<string> {
    var explicit := Given(values, name);
    var encoded := c.encode(name, if explicit.Some? then explicit.value else c.showInt(Derived(limits, name)));
    if encoded.None? then None
    else if explicit.Some? && Source(name) in values && c.readInt(encoded.value) != Some(Derived(limits, name))
        then None
    else encoded
  }

  predicate Fits(c: Codec, connections: string, keepalive: string) {
    match (c.readInt(connections), c.readInt(keepalive))
    case (Some(most), Some(idle)) => 0 < most && 0 <= idle <= most
    case (_, _) => false
  }

  predicate AnyPoolName(values: Values) {
    || EMBEDDING_CONNECTIONS in values || RERANK_CONNECTIONS in values
    || EMBEDDING_KEEPALIVE in values || RERANK_KEEPALIVE in values
    || LEGACY_CONNECTIONS in values || LEGACY_KEEPALIVE in values
  }

  /**
   None is the error outcome; no rows at all when no pool name was given.  Settings.check_http_pools accepts the
   rows.
   */
  function PoolRows(c: Codec, values: Values): (rows: Option<map<string, string>>)
    ensures rows.Some? && !AnyPoolName(values) ==> rows.value == map[]
    ensures rows.Some? && AnyPoolName(values) ==>
              && rows.value.Keys == PoolKeys()
              && Fits(c, rows.value[EMBEDDING_CONNECTIONS], rows.value[EMBEDDING_KEEPALIVE])
              && Fits(c, rows.value[RERANK_CONNECTIONS], rows.value[RERANK_KEEPALIVE])
  {
    if !AnyPoolName(values) then Some(map[])
    else
      match LegacyLimits(c, values)
      case None => None
      case Some(limits) =>
        match (PoolRow(c, values, limits, EMBEDDING_CONNECTIONS), PoolRow(c, values, limits, RERANK_CONNECTIONS),
               PoolRow(c, values, limits, EMBEDDING_KEEPALIVE), PoolRow(c, values, limits, RERANK_KEEPALIVE))
        case (Some(a), Some(b), Some(d), Some(e)) =>
          if Fits(c, a, d) && Fits(c, b, e)
          then Some(map[EMBEDDING_CONNECTIONS := a, RERANK_CONNECTIONS := b, EMBEDDING_KEEPALIVE := d,
              RERANK_KEEPALIVE := e])
          else None
        case (_, _, _, _) => None
  }

  /** The rows of the first `n` names, when none of them is rejected. */
  function FirstRows(c: Codec, values: Values, limits: Limits, n: nat): Option<map<string, string>>
    requires n <= 4
  {
    if n == 0 then Some(map[])
    else
      match (FirstRows(c, values, limits, n - 1), PoolRow(c, values, limits, POOL_NAMES[n - 1]))
      case (Some(rows), Some(row)) => Some(rows[POOL_NAMES[n - 1] := row])
      case (_, _) => None
  }

  lemma FourRows(c: Codec, values: Values, limits: Limits)
    ensures FirstRows(c, values, limits, 4)
            == match (PoolRow(c, values, limits, EMBEDDING_CONNECTIONS), PoolRow(c, values, limits, RERANK_CONNECTIONS),
                      PoolRow(c, values, limits, EMBEDDING_KEEPALIVE), PoolRow(c, values, limits, RERANK_KEEPALIVE))
               case (Some(a), Some(b), Some(d), Some(e)) =>
                 Some(map[EMBEDDING_CONNECTIONS := a, RERANK_CONNECTIONS := b, EMBEDDING_KEEPALIVE := d,
                     RERANK_KEEPALIVE := e])
               case (_, _, _, _) => None
  {
    assert FirstRows(c, values, limits, 0) == Some(map[]);
    var one, two := FirstRows(c, values, limits, 1), FirstRows(c, values, limits, 2);
    var three := FirstRows(c, values, limits, 3);
    assert FirstRows(c, values, limits, 4).Some? ==> three.Some? && two.Some? && one.Some?;
  }

  method FillRows(c: Codec, values: Values, limits: Limits) returns (result: Option<map<string, string>>)
    ensures result == FirstRows(c, values, limits, 4)
  {
    var rows: map<string, string> := map[];
    for k := 0 to 4
      invariant FirstRows(c, values, limits, k) == Some(rows)
    {
      var row := PoolRow(c, values, limits, POOL_NAMES[k]);
      if row.None? {
        RejectedRow(c, values, limits, k + 1, 4);
        return None;
      }
      rows := rows[POOL_NAMES[k] := row.value];
    }
    result := Some(rows);
  }

  predicate RowsFit(c: Codec, rows: map<string, string>)
    requires rows.Keys == PoolKeys()
  {
    && Fits(c, rows[EMBEDDING_CONNECTIONS], rows[EMBEDDING_KEEPALIVE])
    && Fits(c, rows[RERANK_CONNECTIONS], rows[RERANK_KEEPALIVE])
  }

  lemma RowsOfFour(c: Codec, values: Values, limits: Limits)
    requires AnyPoolName(values) && LegacyLimits(c, values) == Some(limits)
    ensures match FirstRows(c, values, limits, 4)
            case None => PoolRows(c, values) == None
            case Some(rows) =>
              && rows.Keys == PoolKeys()
              && PoolRows(c, values) == if RowsFit(c, rows) then Some(rows) else None
  {
    FourRows(c, values, limits);
  }

  /** pool_parameters, whose loop fills a dictionary in the order of POOL_KEYS. */
  method PoolParameters(c: Codec, values: Values) returns (result: Option<map<string, string>>)
    requires ProperCodec(c)
    ensures result == PoolRows(c, values)
  {
    if !AnyPoolName(values) {
      return Some(map[]);
    }
    var limits := LegacyLimits(c, values);
    if limits.None? {
      return None;
    }
    var filled := FillRows(c, values, limits.value);
    RowsOfFour(c, values, limits.value);
    if filled.Some? && RowsFit(c, filled.value) {
      return filled;
    }
    result := None;
  }

  lemma {:induction false} RejectedRow(c: Codec, values: Values, limits: Limits, k: nat, n: nat)
    requires k <= n <= 4 && FirstRows(c, values, limits, k).None?
    ensures FirstRows(c, values, limits, n).None?
  {
    if k < n {
      RejectedRow(c, values, limits, k, n - 1);
    }
  }

  predicate OnlyLegacyNames(values: Values) {
    && AnyPoolName(values)
    && EMBEDDING_CONNECTIONS !in values && RERANK_CONNECTIONS !in values
    && EMBEDDING_KEEPALIVE !in values && RERANK_KEEPALIVE !in values
  }

  /**
   With only legacy names given, the derivation fails exactly when the legacy limits themselves are invalid:
   halving both numbers can neither leave a row below its minimum nor trip the final check.
   */
  lemma HalvingNeverFails(c: Codec, values: Values)
    requires ProperCodec(c) && OnlyLegacyNames(values)
    ensures PoolRows(c, values).Some? <==> LegacyLimits(c, values).Some?
    ensures LegacyLimits(c, values).Some? ==>
              var limits := LegacyLimits(c, values).value;
              PoolRows(c, values).value == map[
                EMBEDDING_CONNECTIONS := c.showInt(limits.connections),
                RERANK_CONNECTIONS := c.showInt(limits.connections / 2),
                EMBEDDING_KEEPALIVE := c.showInt(limits.keepalive),
                RERANK_KEEPALIVE := c.showInt(limits.keepalive / 2)]
  {
    if LegacyLimits(c, values).Some? {
      var limits := LegacyLimits(c, values).value;
      DerivedRow(c, values, limits, EMBEDDING_CONNECTIONS);
      DerivedRow(c, values, limits, RERANK_CONNECTIONS);
      DerivedRow(c, values, limits, EMBEDDING_KEEPALIVE);
      DerivedRow(c, values, limits, RERANK_KEEPALIVE);
      HalvedLimitsFit(c, limits);
    }
  }

  lemma HalvedLimitsFit(c: Codec, limits: Limits)
    requires ProperCodec(c) && 2 <= limits.connections && 0 <= limits.keepalive <= limits.connections
    ensures Fits(c, c.showInt(limits.connections), c.showInt(limits.keepalive))
    ensures Fits(c, c.showInt(limits.connections / 2), c.showInt(limits.keepalive / 2))
  {
    assert c.readInt(c.showInt(limits.connections)) == Some(limits.connections);
    assert c.readInt(c.showInt(limits.keepalive)) == Some(limits.keepalive);
    assert c.readInt(c.showInt(limits.connections / 2)) == Some(limits.connections / 2);
    assert c.readInt(c.showInt(limits.keepalive / 2)) == Some(limits.keepalive / 2);
  }

  lemma DerivedRow(c: Codec, values: Values, limits: Limits, name: string)
    requires ProperCodec(c) && OnlyLegacyNames(values) && LegacyLimits(c, values) == Some(limits) && IsPoolName(name)
    ensures PoolRow(c, values, limits, name) == Some(c.showInt(Derived(limits, name)))
    ensures c.readInt(c.showInt(Derived(limits, name))) == Some(Derived(limits, name))
  {
    assert Derived(limits, name) >= Minimum(name);
  }
}
