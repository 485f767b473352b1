/** Concrete migrations: a second run that changes the env file again, and one that is refused. */
module MigrationExamples {
  import opened Characters
  import opened Outcomes
  import opened EnvFile
  import opened PoolMigration
  import opened ConfigMigration
  import opened MigrationSafety

  // ---------- Credentials from the process environment, the rest from the env file ----------

  predicate CredentialsGiven(c: Catalog, os: map<string, string>) {
    os.Keys <= c.secrets + Trimmable(c) && forall name :: name in c.secrets ==> name in os && os[name] == "x"
  }

  /** No rows, no secrets file, and an env file of settings that trimming removes. */
  predicate FirstMigration(c: Catalog, w: World, os: map<string, string>) {
    && Ready(w) && w.rows == map[] && ReadValues(w.secrets) == map[]
    && ReadValues(w.env).Keys <= Trimmable(c) && CredentialsGiven(c, os)
  }

  lemma SecretsComeFromTheProcess(c: Catalog, w: World, os: map<string, string>, name: string)
    requires ProperNames(c) && FirstMigration(c, w, os) && name in c.secrets
    ensures SecretAgrees(ReadValues(w.env), ReadValues(w.secrets), os, name)
    ensures HasCredential(Effective(w, os), name)
  {
    assert name !in Trimmable(c);
    assert !HasInterpolation("x");
  }

  lemma FirstMigrationIsAccepted(c: Catalog, w: World, os: map<string, string>)
    requires ProperCatalog(c) && FirstMigration(c, w, os) && Candidates(c, Effective(w, os)).Some?
    ensures Problem(c, w, os) == None
  {
    forall name | name in c.secrets
      ensures SecretAgrees(ReadValues(w.env), ReadValues(w.secrets), os, name) && HasCredential(Effective(w, os), name)
    {
      SecretsComeFromTheProcess(c, w, os, name);
    }
  }

  // ---------- A provider that is forgotten ----------

  lemma NoPoolNames(c: Catalog, effective: Values)
    requires ProperPools(c) && !IsPoolName(ML_PROVIDER)
    requires forall name :: name in Trimmable(c) && name in effective ==> name == ML_PROVIDER
    ensures !AnyPoolName(effective)
  {
    forall name | IsPoolName(name) || name in LEGACY_NAMES ensures name !in effective {
      assert name in Trimmable(c);
    }
  }

  predicate ProviderInEnvFile(c: Catalog, w: World, os: map<string, string>, provider: string) {
    && FirstMigration(c, w, os) && os.Keys == c.secrets
    && ReadValues(w.env) == map[ML_PROVIDER := Some(provider)]
  }

  lemma OnlyTheProvider(c: Catalog, w: World, os: map<string, string>, provider: string, name: string)
    requires ProperNames(c) && ProviderInEnvFile(c, w, os, provider) && name in Trimmable(c)
    ensures name in Effective(w, os) ==> name == ML_PROVIDER && Effective(w, os)[name] == Some(provider)
    ensures name !in Left(w, os)
  {
    assert name !in c.secrets;
  }

  lemma ProviderCandidates(c: Catalog, w: World, os: map<string, string>, provider: string)
    requires ProperCatalog(c) && ProviderInEnvFile(c, w, os, provider)
    requires c.codec.encode(ML_PROVIDER, provider).Some?
    ensures Candidates(c, Effective(w, os)).Some?
    ensures PoolRows(c.codec, Left(w, os)) == Some(map[])
  {
    var effective := Effective(w, os);
    forall name | name in Trimmable(c)
      ensures name in effective ==> name == ML_PROVIDER && effective[name] == Some(provider)
      ensures name !in Left(w, os)
    {
      OnlyTheProvider(c, w, os, provider, name);
    }
    NoPoolNames(c, effective);
    NoPoolNames(c, Left(w, os));
    OneCandidate(c, effective, provider);
  }

  lemma OneCandidate(c: Catalog, effective: Values, provider: string)
    requires !AnyPoolName(effective) && c.codec.encode(ML_PROVIDER, provider).Some?
    requires forall name :: name in Trimmable(c) && name in effective ==>
               name == ML_PROVIDER && effective[name] == Some(provider)
    ensures Candidates(c, effective).Some?
  {
    forall name | name in c.dynamic && IsCandidate(c, effective, name)
      ensures c.codec.encode(name, Given(effective, name).value).Some?
    {
      assert name in Trimmable(c);
    }
  }

  lemma ProviderIsUnsettled(c: Catalog, w: World, os: map<string, string>, provider: string)
    requires ProperCatalog(c) && ProviderInEnvFile(c, w, os, provider) && provider != "tei"
    ensures !ProfileIsSettled(c, w, os, true)
  {
    DynamicIsNotStorage(c, ML_PROVIDER);
    assert ML_PROVIDER in Trimmable(c);
  }

  /**
   An env file holding nothing but a provider other than tei, every credential coming from the process environment:
   a trimmed run is accepted, so is a second one, and that one changes the env file again.
   */
  lemma TrimmedProviderIsForgotten(c: Catalog, w: World, os: map<string, string>, provider: string)
    requires ProperCatalog(c) && ProviderInEnvFile(c, w, os, provider)
    requires provider != "tei" && c.codec.encode(ML_PROVIDER, provider).Some?
    ensures Problem(c, w, os) == None
    ensures Ready(Target(c, w, os, true)) && Problem(c, Target(c, w, os, true), os) == None
    ensures var once := Target(c, w, os, true); Target(c, once, os, true).env != once.env
  {
    ProviderCandidates(c, w, os, provider);
    FirstMigrationIsAccepted(c, w, os);
    SecondRunIsAccepted(c, w, os, true);
    SecondRun(c, w, os, true);
    ProviderIsUnsettled(c, w, os, provider);
  }

  // ---------- A pool setting that no longer derives ----------

  /** The two legacy limits come from two sources, of which trimming removes one. */
  predicate LimitsInTwoPlaces(c: Catalog, w: World, os: map<string, string>) {
    && c.dynamic !! LEGACY_NAMES && FirstMigration(c, w, os) && os.Keys == c.secrets + {LEGACY_KEEPALIVE}
    && os[LEGACY_KEEPALIVE] == c.codec.showInt(50)
    && ReadValues(w.env) == map[LEGACY_CONNECTIONS := Some(c.codec.showInt(100))]
  }

  lemma LimitsDerive(c: Catalog, w: World, os: map<string, string>)
    requires ProperCatalog(c) && LimitsInTwoPlaces(c, w, os)
    ensures PoolRows(c.codec, Effective(w, os)).Some?
  {
    var effective := Effective(w, os);
    forall name | IsPoolName(name) ensures name !in effective {
      assert name in Trimmable(c);
    }
    assert LEGACY_CONNECTIONS in Trimmable(c) && LEGACY_CONNECTIONS !in os;
    assert effective[LEGACY_CONNECTIONS] == Some(c.codec.showInt(100));
    assert effective[LEGACY_KEEPALIVE] == Some(c.codec.showInt(50));
    HalvingNeverFails(c.codec, effective);
  }

  /** The default is 40 connections. */
  lemma KeepaliveAlone(codec: Codec, values: Values)
    requires ProperCodec(codec) && LEGACY_CONNECTIONS !in values
    requires Given(values, LEGACY_KEEPALIVE) == Some(codec.showInt(50))
    ensures PoolRows(codec, values).None?
  {
    assert codec.readInt(codec.showInt(40)) == Some(40) && codec.readInt(codec.showInt(50)) == Some(50);
    assert LegacyLimit(codec, values, LEGACY_CONNECTIONS) == Some(40);
    assert LegacyLimits(codec, values).None?;
  }

  lemma LimitsLeftDoNotDerive(c: Catalog, w: World, os: map<string, string>)
    requires ProperCatalog(c) && LimitsInTwoPlaces(c, w, os)
    ensures PoolRows(c.codec, Left(w, os)).None?
  {
    var left := Left(w, os);
    assert LEGACY_CONNECTIONS in Trimmable(c);
    assert LEGACY_CONNECTIONS !in left && Given(left, LEGACY_KEEPALIVE) == Some(c.codec.showInt(50));
    KeepaliveAlone(c.codec, left);
  }

  /**
   HTTP_POOL_MAX_KEEPALIVE=50 in the process environment and HTTP_POOL_MAX_CONNECTIONS=100 in the env file: the run
   is accepted and trims the latter, and a second run takes the default of 40 connections and is refused.
   */
  lemma TrimmedLimitIsRefused(c: Catalog, w: World, os: map<string, string>)
    requires ProperCatalog(c) && LimitsInTwoPlaces(c, w, os)
    ensures Problem(c, w, os) == None
    ensures Ready(Target(c, w, os, true)) && Problem(c, Target(c, w, os, true), os) == Some(InvalidValue)
  {
    var effective := Effective(w, os);
    forall name | name in c.dynamic ensures !IsCandidate(c, effective, name) {
      assert name in Trimmable(c);
      assert name !in c.secrets && name !in LEGACY_NAMES;
    }
    LimitsDerive(c, w, os);
    FirstMigrationIsAccepted(c, w, os);
    SecondRunIsAccepted(c, w, os, true);
    LimitsLeftDoNotDerive(c, w, os);
  }

  // ---------- Numbers as text ----------

  function DigitOf(c: char): Option<nat> {
    if '0' <= c <= '9' then Some((c - '0') as nat) else None
  }

  function ReadNat(s: string): Option<nat> {
    if s == [] then None
    else
      match DigitOf(s[|s| - 1])
      case None => None
      case Some(digit) =>
        if |s| == 1 then Some(digit)
        else
          match ReadNat(s[..|s| - 1])
          case None => None
          case Some(front) => Some(front * 10 + digit)
  }

  function ReadInt(s: string): Option<int> {
    if s != [] && s[0] == '-' then
      match ReadNat(s[1..])
      case None => None
      case Some(n) => Some(-(n as int))
    else
      match ReadNat(s)
      case None => None
      case Some(n) => Some(n)
  }

  function ShowInt(n: int): string {
    if n < 0 then "-" + Digits(-n) else Digits(n)
  }

  lemma DigitAt(d: nat)
    requires d < 10
    ensures DigitOf("0123456789"[d]) == Some(d)
  {
    if d < 5 {
      assert d == 0 || d == 1 || d == 2 || d == 3 || d == 4;
    } else {
      assert d == 5 || d == 6 || d == 7 || d == 8 || d == 9;
    }
  }

  lemma {:induction false} DigitsReadBack(n: nat)
    ensures ReadNat(Digits(n)) == Some(n) && Digits(n) != [] && DigitOf(Digits(n)[0]).Some?
  {
    DigitAt(n % 10);
    if n < 10 {
    } else {
      DigitsReadBack(n / 10);
      assert Digits(n)[..|Digits(n)| - 1] == Digits(n / 10);
    }
  }

  lemma PlainReads(s: string)
    requires ReadNat(s).Some? && s != [] && DigitOf(s[0]).Some?
    ensures ReadInt(s) == Some(ReadNat(s).value as int)
  {
  }

  lemma SignedReads(s: string)
    requires ReadNat(s).Some?
    ensures ReadInt("-" + s) == Some(-(ReadNat(s).value as int))
  {
    assert ("-" + s)[1..] == s;
  }

  lemma ShownReadsBack(n: int)
    ensures ReadInt(ShowInt(n)) == Some(n)
  {
    DigitsReadBack(if n < 0 then -n else n);
    if n < 0 {
      SignedReads(Digits(-n));
    } else {
      PlainReads(Digits(n));
    }
  }

  /** Pool settings are decimal numbers within their minimum, everything else is text. */
  function Encode(name: string, raw: string): Option<string> {
    if !IsPoolName(name) then Some(raw)
    else
      match ReadInt(raw)
      case None => None
      case Some(n) => if n >= Minimum(name) then Some(ShowInt(n)) else None
  }

  const DECIMAL := Codec((name: string, raw: string) => Encode(name, raw), ReadInt, ShowInt)

  lemma DecimalIsProper()
    ensures ProperCodec(DECIMAL)
  {
    forall n: int ensures DECIMAL.readInt(DECIMAL.showInt(n)) == Some(n) {
      ShownReadsBack(n);
    }
    forall name, raw | IsPoolName(name) && DECIMAL.encode(name, raw).Some?
      ensures var n := DECIMAL.readInt(DECIMAL.encode(name, raw).value); n.Some? && n.value >= Minimum(name)
    {
      ShownReadsBack(ReadInt(raw).value);
    }
  }

  // ---------- A catalog and its files ----------

  const SECRETS: set<string> := REQUIRED + {DEEPINFRA_API_KEY, OPENROUTER_API_KEY}

  const DYNAMIC: set<string> := PoolKeys() + {ML_PROVIDER, LLM_PROVIDER}

  const SETTINGS := Catalog(DYNAMIC, SECRETS, (name: string) => None,
    (name: string) => if name == ML_PROVIDER then "tei" else if name == LLM_PROVIDER then "ollama" else "", DECIMAL)

  /** Names that trimming removes are long, or start with one of four letters. */
  predicate LooksTrimmable(name: string) {
    |name| > 18 || (0 < |name| < 14 && (name[0] == 'E' || name[0] == 'L' || name[0] == 'M' || name[0] == 'R'))
  }

  lemma TrimmableLookLikeIt(name: string)
    requires name in Trimmable(SETTINGS)
    ensures LooksTrimmable(name)
  {
  }

  lemma OthersDoNot(name: string)
    requires name in SECRETS || name in STORAGE || name == COMPOSE_PROFILES
    ensures !LooksTrimmable(name)
    ensures name == COMPOSE_PROFILES <==> |name| == 16
  {
  }

  lemma CredentialsAreSecrets(c: Catalog)
    requires c.secrets == SECRETS
    ensures REQUIRED <= c.secrets && DEEPINFRA_API_KEY in c.secrets && OPENROUTER_API_KEY in c.secrets
  {
  }

  lemma ComposeIsNoSecret()
    ensures COMPOSE_PROFILES !in SECRETS && COMPOSE_PROFILES !in STORAGE
  {
    assert |COMPOSE_PROFILES| == 16;
    forall name | name in SECRETS || name in STORAGE ensures |name| != 16 {
    }
  }

  lemma NamesAreProper(c: Catalog)
    requires c.dynamic == DYNAMIC && c.secrets == SECRETS
    ensures ProperNames(c)
  {
    assert Trimmable(c) == Trimmable(SETTINGS);
    forall name | name in Trimmable(c) ensures name !in SECRETS && name !in STORAGE && name != COMPOSE_PROFILES {
      TrimmableLookLikeIt(name);
      if name in SECRETS || name in STORAGE || name == COMPOSE_PROFILES {
        OthersDoNot(name);
      }
    }
    CredentialsAreSecrets(c);
    ComposeIsNoSecret();
  }

  lemma DynamicIsNotLegacy()
    ensures DYNAMIC !! LEGACY_NAMES
  {
    forall name | name in DYNAMIC ensures |name| != 25 && |name| != 23 {
    }
    assert |LEGACY_CONNECTIONS| == 25 && |LEGACY_KEEPALIVE| == 23;
  }

  lemma ProvidersAreNoPools()
    ensures !IsPoolName(ML_PROVIDER) && !IsPoolName(LLM_PROVIDER) && ML_PROVIDER != LLM_PROVIDER
  {
    assert |ML_PROVIDER| == 11 && |LLM_PROVIDER| == 12;
  }

  lemma SettingsAreProper()
    ensures ProperCatalog(SETTINGS) && SETTINGS.dynamic !! LEGACY_NAMES
  {
    DecimalIsProper();
    NamesAreProper(SETTINGS);
    DynamicIsNotLegacy();
    ProvidersAreNoPools();
  }

  // ---------- The two migrations ----------

  const CREDENTIALS: map<string, string> := map name | name in SECRETS :: "x"

  lemma OneBinding(b: Binding)
    requires b.key.Some? && Upper(b.key.value) == b.key.value
    ensures OneSpelling([b]) && ReadValues([b]) == map[b.key.value := b.value]
  {
    assert [b][..0] == [];
    assert LastValues([b]) == map[b.key.value := b.value];
    ReadingTakesTheLastBinding([b]);
  }

  lemma CapitalsStay(name: string)
    requires name == ML_PROVIDER || name == LEGACY_CONNECTIONS
    ensures Upper(name) == name
  {
    UpperOfCapitals(name);
  }

  lemma NothingIsRead()
    ensures OneSpelling([]) && ReadValues([]) == map[]
  {
  }

  const PROVIDER_LINE := Binding(Some(ML_PROVIDER), Some("deepinfra"), "ML_PROVIDER=deepinfra\n")

  function LimitLine(limit: string): Binding {
    Binding(Some(LEGACY_CONNECTIONS), Some(limit), "HTTP_POOL_MAX_CONNECTIONS=" + limit + "\n")
  }

  /** One line in the env file, nothing in the secrets file, no rows. */
  predicate OneLine(w: World, b: Binding) {
    w == World(map[], [], [b])
  }

  lemma OneLineIsFirst(c: Catalog, w: World, b: Binding, os: map<string, string>)
    requires OneLine(w, b) && b.key.Some? && Upper(b.key.value) == b.key.value && b.key.value in Trimmable(c)
    requires CredentialsGiven(c, os)
    ensures FirstMigration(c, w, os) && ReadValues(w.env) == map[b.key.value := b.value]
  {
    OneBinding(b);
    NothingIsRead();
  }

  lemma WithOneMore(c: Catalog, credentials: map<string, string>, name: string, value: string)
    requires ProperNames(c) && name in Trimmable(c)
    requires credentials.Keys == c.secrets && forall s :: s in credentials ==> credentials[s] == "x"
    ensures CredentialsGiven(c, credentials)
    ensures var os := credentials[name := value];
            CredentialsGiven(c, os) && os.Keys == c.secrets + {name} && os[name] == value
  {
    assert name !in c.secrets;
  }

  lemma SettingsNames()
    ensures CREDENTIALS.Keys == SETTINGS.secrets && forall s :: s in CREDENTIALS ==> CREDENTIALS[s] == "x"
    ensures ML_PROVIDER in SETTINGS.dynamic && LEGACY_CONNECTIONS in LEGACY_NAMES && LEGACY_KEEPALIVE in LEGACY_NAMES
    ensures forall n: int :: SETTINGS.codec.showInt(n) == ShowInt(n)
    ensures SETTINGS.codec.encode(ML_PROVIDER, "deepinfra") == Some("deepinfra")
  {
    ProvidersAreNoPools();
  }

  lemma DeepinfraIsNotTei()
    ensures "deepinfra" != "tei"
  {
    assert |"deepinfra"| == 9 && |"tei"| == 3;
  }

  lemma ProviderLineSetup(c: Catalog, w: World, os: map<string, string>)
    requires ProperNames(c) && ML_PROVIDER in c.dynamic && OneLine(w, PROVIDER_LINE)
    requires os.Keys == c.secrets && forall s :: s in os ==> os[s] == "x"
    ensures ProviderInEnvFile(c, w, os, "deepinfra")
  {
    WithOneMore(c, os, ML_PROVIDER, "");
    CapitalsStay(ML_PROVIDER);
    OneLineIsFirst(c, w, PROVIDER_LINE, os);
  }

  lemma LimitLineIsFirst(c: Catalog, w: World, limit: string, os: map<string, string>)
    requires OneLine(w, LimitLine(limit)) && CredentialsGiven(c, os)
    ensures FirstMigration(c, w, os)
    ensures ReadValues(w.env) == map[LEGACY_CONNECTIONS := Some(limit)]
  {
    CapitalsStay(LEGACY_CONNECTIONS);
    OneLineIsFirst(c, w, LimitLine(limit), os);
  }

  lemma LimitLineSetup(c: Catalog, w: World, os: map<string, string>, connections: string)
    requires c.dynamic !! LEGACY_NAMES && OneLine(w, LimitLine(connections)) && CredentialsGiven(c, os)
    requires os.Keys == c.secrets + {LEGACY_KEEPALIVE}
    requires c.codec.showInt(100) == connections && c.codec.showInt(50) == os[LEGACY_KEEPALIVE]
    ensures LimitsInTwoPlaces(c, w, os)
  {
    LimitLineIsFirst(c, w, connections, os);
  }

  /** ML_PROVIDER=deepinfra alone in the env file: the second trimmed run changes it again. */
  lemma DeepinfraIsForgotten(w: World)
    requires OneLine(w, PROVIDER_LINE)
    ensures ProperCatalog(SETTINGS) && Ready(w) && Problem(SETTINGS, w, CREDENTIALS) == None
    ensures var once := Target(SETTINGS, w, CREDENTIALS, true);
            && Ready(once) && Problem(SETTINGS, once, CREDENTIALS) == None
            && Target(SETTINGS, once, CREDENTIALS, true).env != once.env
  {
    SettingsAreProper();
    SettingsNames();
    DeepinfraIsNotTei();
    ProviderLineSetup(SETTINGS, w, CREDENTIALS);
    TrimmedProviderIsForgotten(SETTINGS, w, CREDENTIALS, "deepinfra");
  }

  /** HTTP_POOL_MAX_CONNECTIONS=100 in the env file, HTTP_POOL_MAX_KEEPALIVE=50 in the process environment. */
  lemma HundredConnectionsAreForgotten(w: World, os: map<string, string>)
    requires OneLine(w, LimitLine(ShowInt(100))) && os == CREDENTIALS[LEGACY_KEEPALIVE := ShowInt(50)]
    ensures ProperCatalog(SETTINGS) && Ready(w) && Problem(SETTINGS, w, os) == None
    ensures var once := Target(SETTINGS, w, os, true);
            Ready(once) && Problem(SETTINGS, once, os) == Some(InvalidValue)
  {
    SettingsAreProper();
    SettingsNames();
    WithOneMore(SETTINGS, CREDENTIALS, LEGACY_KEEPALIVE, ShowInt(50));
    LimitLineSetup(SETTINGS, w, os, ShowInt(100));
    TrimmedLimitIsRefused(SETTINGS, w, os);
  }
}
