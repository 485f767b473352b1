/** Configuration rows, their normalisation, and the seeding of missing ones under the configuration lock. */
module ConfigParameters {
  import opened Characters
  import opened Outcomes

  datatype ValueType = Bool | Int | Float | Str | List

  /** A parameter belongs to all domains or to one. */
  type ParameterId = (string, Option<string>)

  datatype Limits = Limits(minimum: Option<real>, maximum: Option<real>, allowed: Option<seq<string>>)

  datatype Row = Row(kind: ValueType, value: string, category: string, limits: Limits)

  type Rows = map<ParameterId, Row>

  // ---------- Normalising a value ----------

  datatype Stripped = Blanks | DoubleQuotes | SingleQuotes

  predicate Strips(what: Stripped, c: char) {
    match what
    case Blanks => IsSpace(c)
    case DoubleQuotes => c == '\"'
    case SingleQuotes => c == '\''
  }

  function StripLeft(s: string, what: Stripped): (r: string)
    ensures r == [] || !Strips(what, r[0])
    ensures r != [] ==> s != [] && r[|r| - 1] == s[|s| - 1]
  {
    if s != [] && Strips(what, s[0]) then StripLeft(s[1..], what) else s
  }

  function StripRight(s: string, what: Stripped): (r: string)
    ensures r == [] || !Strips(what, r[|r| - 1])
    ensures r != [] ==> s != [] && r[0] == s[0]
  {
    if s != [] && Strips(what, s[|s| - 1]) then StripRight(s[..|s| - 1], what) else s
  }

  function Strip(s: string, what: Stripped): string {
    StripRight(StripLeft(s, what), what)
  }

  predicate CleanEnds(s: string, what: Stripped) {
    s == [] || (!Strips(what, s[0]) && !Strips(what, s[|s| - 1]))
  }

  lemma StripCleans(s: string, what: Stripped)
    ensures CleanEnds(Strip(s, what), what)
    ensures CleanEnds(s, what) ==> Strip(s, what) == s
  {
  }

  /** What is left of a raw value before single quotes are stripped. */
  function Unquoted(raw: string): string {
    Strip(Strip(raw, Blanks), DoubleQuotes)
  }

  /** ConfigParameter.normalize. */
  function Normalize(kind: ValueType, raw: string): string {
    if kind == Str then Strip(Unquoted(raw), SingleQuotes) else raw
  }

  // ---------- What normalising a normalised value does ----------

  /** The first and the last character that stripping leaves. */
  predicate Spans(s: string, what: Stripped, first: nat, last: nat) {
    && first <= last < |s| && !Strips(what, s[first]) && !Strips(what, s[last])
    && (forall i :: 0 <= i < first ==> Strips(what, s[i])) && (forall i :: last < i < |s| ==> Strips(what, s[i]))
  }

  lemma {:induction false} StripLeftTo(s: string, what: Stripped, first: nat)
    requires first <= |s| && forall i :: 0 <= i < first ==> Strips(what, s[i])
    requires first < |s| ==> !Strips(what, s[first])
    ensures StripLeft(s, what) == s[first..]
  {
    if first == 0 {
    } else {
      StripLeftTo(s[1..], what, first - 1);
    }
  }

  lemma {:induction false} StripRightTo(s: string, what: Stripped, last: nat)
    requires last < |s| && !Strips(what, s[last]) && forall i :: last < i < |s| ==> Strips(what, s[i])
    ensures StripRight(s, what) == s[..last + 1]
  {
    if last == |s| - 1 {
    } else {
      StripRightTo(s[..|s| - 1], what, last);
      assert s[..|s| - 1][..last + 1] == s[..last + 1];
    }
  }

  lemma StripTo(s: string, what: Stripped, first: nat, last: nat)
    requires Spans(s, what, first, last)
    ensures Strip(s, what) == s[first..last + 1]
  {
    StripLeftTo(s, what, first);
    StripRightTo(s[first..], what, last - first);
  }

  lemma {:induction false} FirstLeft(s: string, what: Stripped) returns (first: nat)
    requires exists i :: 0 <= i < |s| && !Strips(what, s[i])
    ensures first < |s| && !Strips(what, s[first]) && forall i :: 0 <= i < first ==> Strips(what, s[i])
    decreases |s|
  {
    if Strips(what, s[0]) {
      var k :| 0 <= k < |s| && !Strips(what, s[k]);
      assert s[1..][k - 1] == s[k];
      first := FirstLeft(s[1..], what);
      first := first + 1;
    } else {
      first := 0;
    }
  }

  lemma {:induction false} LastLeft(s: string, what: Stripped) returns (last: nat)
    requires exists i :: 0 <= i < |s| && !Strips(what, s[i])
    ensures last < |s| && !Strips(what, s[last]) && forall i :: last < i < |s| ==> Strips(what, s[i])
    decreases |s|
  {
    var n := |s| - 1;
    if Strips(what, s[n]) {
      var k :| 0 <= k < |s| && !Strips(what, s[k]);
      assert s[..n][k] == s[k];
      last := LastLeft(s[..n], what);
    } else {
      last := n;
    }
  }

  predicate OnlySingleQuotes(s: string) {
    forall i :: 0 <= i < |s| ==> Strips(SingleQuotes, s[i])
  }

  /** Only single quotes stand between an end of the text and a blank or a double quote. */
  predicate ExposesEnd(inner: string) {
    exists i :: 0 <= i < |inner| && (Strips(Blanks, inner[i]) || Strips(DoubleQuotes, inner[i]))
                && (OnlySingleQuotes(inner[..i]) || OnlySingleQuotes(inner[i + 1..]))
  }

  lemma ExposedAtSpan(inner: string, first: nat, last: nat)
    requires Spans(inner, SingleQuotes, first, last)
    ensures ExposesEnd(inner) <==>
              exists i :: (i == first || i == last) && (Strips(Blanks, inner[i]) || Strips(DoubleQuotes, inner[i]))
  {
    assert OnlySingleQuotes(inner[..first]);
    assert OnlySingleQuotes(inner[last + 1..]);
    forall i | 0 <= i < |inner| && !Strips(SingleQuotes, inner[i])
      ensures OnlySingleQuotes(inner[..i]) ==> i == first
      ensures OnlySingleQuotes(inner[i + 1..]) ==> i == last
    {
      if first < i {
        assert inner[..i][first] == inner[first];
      }
      if i < last {
        assert inner[i + 1..][last - i - 1] == inner[last];
      }
    }
  }

  lemma ExposedWhenStripped(inner: string)
    ensures ExposesEnd(inner) <==>
              !(CleanEnds(Strip(inner, SingleQuotes), Blanks) && CleanEnds(Strip(inner, SingleQuotes), DoubleQuotes))
  {
    if OnlySingleQuotes(inner) {
      StripLeftTo(inner, SingleQuotes, |inner|);
    } else {
      var first := FirstLeft(inner, SingleQuotes);
      var last := LastLeft(inner, SingleQuotes);
      StripTo(inner, SingleQuotes, first, last);
      ExposedAtSpan(inner, first, last);
    }
  }

  lemma NormalizedWhenClean(raw: string)
    ensures var once := Normalize(Str, raw);
            Normalize(Str, once) == once <==> CleanEnds(once, Blanks) && CleanEnds(once, DoubleQuotes)
  {
    var once := Normalize(Str, raw);
    StripCleans(Unquoted(raw), SingleQuotes);
    StripCleans(once, Blanks);
    StripCleans(Strip(once, Blanks), DoubleQuotes);
    StripCleans(once, DoubleQuotes);
    StripCleans(once, SingleQuotes);
    StripShortens(once, Blanks);
    StripShortens(Strip(once, Blanks), DoubleQuotes);
    StripShortens(Unquoted(once), SingleQuotes);
  }

  /**
   A normalised value is read back unchanged if and only if, in the value without its outer blanks and then its
   outer double quotes, no end is a blank or a double quote behind single quotes only.
   */
  lemma NormalizedTwice(raw: string)
    ensures Normalize(Str, Normalize(Str, raw)) == Normalize(Str, raw) <==> !ExposesEnd(Unquoted(raw))
  {
    NormalizedWhenClean(raw);
    ExposedWhenStripped(Unquoted(raw));
  }

  lemma {:induction false} StripLeftShortens(s: string, what: Stripped)
    ensures |StripLeft(s, what)| <= |s| && (|StripLeft(s, what)| == |s| ==> StripLeft(s, what) == s)
  {
    if s == [] {
    } else if Strips(what, s[0]) {
      StripLeftShortens(s[1..], what);
    }
  }

  lemma {:induction false} StripRightShortens(s: string, what: Stripped)
    ensures |StripRight(s, what)| <= |s| && (|StripRight(s, what)| == |s| ==> StripRight(s, what) == s)
  {
    if s == [] {
    } else if Strips(what, s[|s| - 1]) {
      StripRightShortens(s[..|s| - 1], what);
    }
  }

  lemma StripShortens(s: string, what: Stripped)
    ensures |Strip(s, what)| <= |s| && (|Strip(s, what)| == |s| ==> Strip(s, what) == s)
    ensures |Strip(s, what)| == |s| ==> CleanEnds(s, what)
  {
    StripLeftShortens(s, what);
    StripRightShortens(StripLeft(s, what), what);
    StripCleans(s, what);
  }

  /** Quotes around blanks: the value validated and stored is not the value read back. */
  lemma NormalizingIsNotIdempotent()
    ensures Normalize(Str, "' x '") == " x " && Normalize(Str, " x ") == "x"
  {
    assert Strip("' x '", Blanks) == "' x '" && Strip("' x '", DoubleQuotes) == "' x '";
    assert StripLeft("' x '", SingleQuotes) == " x '" by { assert "' x '"[1..] == " x '"; }
    assert StripRight(" x '", SingleQuotes) == " x " by { assert " x '"[..3] == " x "; }
    assert StripLeft(" x ", Blanks) == "x " by { assert " x "[1..] == "x "; }
    assert StripRight("x ", Blanks) == "x" by { assert "x "[..1] == "x"; }
  }

  // ---------- Seeding ----------

  datatype Default = Default(id: ParameterId, row: Row)

  type Defaults = seq<Default>

  function DomainKeys(defaults: Defaults): (keys: set<string>)
    ensures forall key :: key in keys <==> exists d :: d in defaults && d.id.0 == key && d.id.1.Some?
  {
    set d | d in defaults && d.id.1.Some? :: d.id.0
  }

  /** Rows without a domain whose key is declared per domain. */
  function Misplaced(rows: Rows, defaults: Defaults): set<ParameterId> {
    set id | id in rows && id.1.None? && id.0 in DomainKeys(defaults)
  }

  function Upsert(rows: Rows, d: Default): Rows {
    rows[d.id := if d.id in rows then rows[d.id].(value := d.row.value) else d.row]
  }

  /** One declaration: a row missing at the start is inserted; a present one may get the declared category. */
  function FillOne(rows: Rows, existing: Rows, d: Default, recategorize: bool): Rows {
    if d.id !in existing then Upsert(rows, d)
    else if recategorize && existing[d.id].category != d.row.category && d.id in rows
    then rows[d.id := rows[d.id].(category := d.row.category)]
    else rows
  }

  function Filled(rows: Rows, existing: Rows, defaults: Defaults, recategorize: bool): Rows {
    if defaults == [] then rows
    else FillOne(Filled(rows, existing, defaults[..|defaults| - 1], recategorize), existing, defaults[|defaults| - 1],
        recategorize)
  }

  /** seed_config_defaults. */
  function SeedGlobals(rows: Rows, defaults: Defaults): Rows {
    Filled(rows - Misplaced(rows, defaults), rows, defaults, true)
  }

  /** seed_domain_config_defaults, over the profiles' defaults in order. */
  function SeedDomains(rows: Rows, defaults: Defaults): Rows {
    Filled(rows, rows, defaults, false)
  }

  lemma {:induction false} FilledAt(rows: Rows, existing: Rows, defaults: Defaults, recategorize: bool, id: ParameterId)
    ensures var result := Filled(rows, existing, defaults, recategorize);
            if id in existing then
              (id in result <==> id in rows)
              && (id in rows ==> result[id].kind == rows[id].kind && result[id].value == rows[id].value
                                 && result[id].limits == rows[id].limits)
            else if exists d :: d in defaults && d.id == id then id in result
            else (id in result <==> id in rows) && (id in rows ==> result[id] == rows[id])
  {
    if defaults == [] {
    } else {
      FilledAt(rows, existing, defaults[..|defaults| - 1], recategorize, id);
      assert defaults == defaults[..|defaults| - 1] + [defaults[|defaults| - 1]];
    }
  }

  /** Seeding keeps the value of every row that is not misplaced, and only adds declared ones. */
  lemma SeedingKeepsValues(rows: Rows, defaults: Defaults, id: ParameterId)
    ensures var result := SeedGlobals(rows, defaults);
            && (id in rows ==> (id in result <==> id !in Misplaced(rows, defaults)))
            && (id in rows && id in result ==> result[id].kind == rows[id].kind && result[id].value == rows[id].value)
            && (id !in rows ==> (id in result <==> exists d :: d in defaults && d.id == id))
    ensures var result := SeedDomains(rows, defaults);
            && (id in rows ==> id in result && result[id] == rows[id])
            && (id !in rows ==> (id in result <==> exists d :: d in defaults && d.id == id))
  {
    FilledAt(rows - Misplaced(rows, defaults), rows, defaults, true, id);
    FilledAt(rows, rows, defaults, false, id);
    DomainRowsUnchanged(rows, defaults, id);
  }

  lemma {:induction false} DomainRowsUnchanged(rows: Rows, defaults: Defaults, id: ParameterId)
    ensures id in rows ==> id in SeedDomains(rows, defaults) && SeedDomains(rows, defaults)[id] == rows[id]
  {
    UnchangedWithin(rows, rows, defaults, id);
  }

  lemma {:induction false} UnchangedWithin(rows: Rows, existing: Rows, defaults: Defaults, id: ParameterId)
    ensures id in rows && id in existing ==>
              id in Filled(rows, existing, defaults, false) && Filled(rows, existing, defaults, false)[id] == rows[id]
  {
    if defaults == [] {
    } else {
      UnchangedWithin(rows, existing, defaults[..|defaults| - 1], id);
    }
  }

  lemma {:induction false} FilledConcat(rows: Rows, existing: Rows, first: Defaults, second: Defaults,
                                        recategorize: bool)
    ensures Filled(rows, existing, first + second, recategorize)
            == Filled(Filled(rows, existing, first, recategorize), existing, second, recategorize)
  {
    if second == [] {
      assert first + second == first;
    } else {
      FilledConcat(rows, existing, first, second[..|second| - 1], recategorize);
      assert (first + second)[..|first + second| - 1] == first + second[..|second| - 1];
    }
  }

  // ---------- The seeding loops ----------

  method SeedConfigDefaults(rows: Rows, defaults: Defaults) returns (result: Rows)
    ensures result == SeedGlobals(rows, defaults)
  {
    result := rows;
    var domainKeys, todo := DomainKeys(defaults), rows.Keys;
    while todo != {}
      invariant todo <= rows.Keys && result.Keys <= rows.Keys
      invariant forall id :: id in rows ==> (id in result <==> id in todo || id !in Misplaced(rows, defaults))
      invariant forall id :: id in result ==> result[id] == rows[id]
    {
      var id :| id in todo;
      if id.1.None? && id.0 in domainKeys {
        result := result - {id};
      }
      todo := todo - {id};
    }
    assert result == rows - Misplaced(rows, defaults);
    ghost var kept := result;
    for i := 0 to |defaults|
      invariant result == Filled(kept, rows, defaults[..i], true)
    {
      assert defaults[..i + 1][..i] == defaults[..i];
      var d := defaults[i];
      if d.id !in rows {
        result := Upsert(result, d);
      } else if rows[d.id].category != d.row.category && d.id in result {
        result := result[d.id := result[d.id].(category := d.row.category)];
      }
    }
    assert defaults[..|defaults|] == defaults;
  }

  /** A profile's defaults are filed under its own domain. */
  datatype Profile = Profile(key: string, defaults: seq<(string, Row)>)

  function ProfileDefaults(p: Profile): (defaults: Defaults)
    ensures |defaults| == |p.defaults|
    ensures forall i :: 0 <= i < |defaults| ==>
              defaults[i] == Default((p.defaults[i].0, Some(p.key)), p.defaults[i].1.(category := "domain:" + p.key))
    decreases |p.defaults|
  {
    if p.defaults == [] then []
    else
      var last := p.defaults[|p.defaults| - 1];
      ProfileDefaults(p.(defaults := p.defaults[..|p.defaults| - 1]))
      + [Default((last.0, Some(p.key)), last.1.(category := "domain:" + p.key))]
  }

  function AllDefaults(profiles: seq<Profile>): Defaults {
    if profiles == [] then [] else AllDefaults(profiles[..|profiles| - 1]) + ProfileDefaults(profiles[|profiles| - 1])
  }

  method SeedDomainConfigDefaults(rows: Rows, profiles: seq<Profile>) returns (result: Rows)
    ensures result == SeedDomains(rows, AllDefaults(profiles))
  {
    result := rows;
    for i := 0 to |profiles|
      invariant result == Filled(rows, rows, AllDefaults(profiles[..i]), false)
    {
      assert profiles[..i + 1][..i] == profiles[..i];
      ghost var before := result;
      ghost var own := ProfileDefaults(profiles[i]);
      for j := 0 to |profiles[i].defaults|
        invariant result == Filled(before, rows, own[..j], false)
      {
        assert own[..j + 1][..j] == own[..j];
        var (key, row) := profiles[i].defaults[j];
        var id := (key, Some(profiles[i].key));
        if id !in rows {
          result := Upsert(result, Default(id, row.(category := "domain:" + profiles[i].key)));
        }
      }
      assert own[..|own|] == own;
      FilledConcat(rows, rows, AllDefaults(profiles[..i]), own, false);
    }
    assert profiles[..|profiles|] == profiles;
  }
}
