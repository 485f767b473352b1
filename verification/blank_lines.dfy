/** BlankLinesTransformer of server/tools/blank_lines.py: blank lines around chosen compound statements. */
module BlankLines {
  import opened Outcomes

  /** A line above a statement: empty, or holding a comment. */
  datatype Line = Line(indent: bool, comment: Option<string>)

  const BLANK := Line(false, None)

  datatype Kind = If | For | While | Try | TryStar | With | Match | Function | Class

  /**
   A statement with the lines above it.  `suites` are the bodies that belong to a compound statement, those of its
   elif, else, except, finally and case parts among them.
   */
  datatype Statement =
    | Simple(leading: seq<Line>, code: string, docstring: bool)
    | Compound(kind: Kind, leading: seq<Line>, code: string, suites: seq<Suite>)

  datatype Suite = Inline(code: string) | Block(body: seq<Statement>)

  type Targets = set<Kind>

  predicate IsTarget(targets: Targets, s: Statement) {
    s.Compound? && s.kind in targets
  }

  predicate IsDocstring(s: Statement) {
    s.Simple? && s.docstring
  }

  predicate StartsBlank(s: Statement) {
    s.leading != [] && s.leading[0].comment.None?
  }

  function AddBlankLineBefore(s: Statement): Statement {
    if StartsBlank(s) then s else s.(leading := [BLANK] + s.leading)
  }

  /** A gap goes before and after a target, but not between a docstring and what follows it. */
  predicate NeedsGap(targets: Targets, body: seq<Statement>, i: nat)
    requires i < |body|
  {
    i > 0 && (IsTarget(targets, body[i - 1]) || IsTarget(targets, body[i])) && !(i == 1 && IsDocstring(body[0]))
  }

  function Spaced(targets: Targets, body: seq<Statement>, i: nat): Statement
    requires i < |body|
  {
    if NeedsGap(targets, body, i) then AddBlankLineBefore(body[i]) else body[i]
  }

  function SpacedUpTo(targets: Targets, body: seq<Statement>, n: nat): (fixed: seq<Statement>)
    requires n <= |body|
    ensures |fixed| == n && forall i :: 0 <= i < n ==> fixed[i] == Spaced(targets, body, i)
  {
    if n == 0 then [] else SpacedUpTo(targets, body, n - 1) + [Spaced(targets, body, n - 1)]
  }

  method FixBody(targets: Targets, body: seq<Statement>) returns (fixed: seq<Statement>)
    ensures fixed == SpacedUpTo(targets, body, |body|)
  {
    fixed := [];
    for index := 0 to |body|
      invariant fixed == SpacedUpTo(targets, body, index)
    {
      var statement := body[index];
      var needsGap := index > 0 && (IsTarget(targets, body[index - 1]) || IsTarget(targets, statement));
      if index == 1 && IsDocstring(body[0]) {
        needsGap := false;
      }
      fixed := fixed + [if needsGap then AddBlankLineBefore(statement) else statement];
    }
  }

  // ---------- The tree, inner blocks first ----------

  function Fixed(targets: Targets, body: seq<Statement>): (fixed: seq<Statement>)
    ensures |fixed| == |body|
    decreases body, 1
  {
    SpacedUpTo(targets, InnerFixed(targets, body), |body|)
  }

  function InnerFixed(targets: Targets, body: seq<Statement>): (fixed: seq<Statement>)
    ensures |fixed| == |body|
    ensures forall i :: 0 <= i < |body| ==> fixed[i] == Inner(targets, body[i])
    decreases body, 0
  {
    if body == [] then [] else InnerFixed(targets, body[..|body| - 1]) + [Inner(targets, body[|body| - 1])]
  }

  function Inner(targets: Targets, s: Statement): (r: Statement)
    ensures r.leading == s.leading && SameHead(r, s)
    decreases s
  {
    if s.Simple? then s else s.(suites := SuitesFixed(targets, s.suites))
  }

  function SuitesFixed(targets: Targets, suites: seq<Suite>): (fixed: seq<Suite>)
    ensures |fixed| == |suites|
    ensures forall i :: 0 <= i < |suites| ==> fixed[i] == SuiteFixed(targets, suites[i])
    decreases suites
  {
    if suites == [] then []
    else SuitesFixed(targets, suites[..|suites| - 1]) + [SuiteFixed(targets, suites[|suites| - 1])]
  }

  function SuiteFixed(targets: Targets, suite: Suite): Suite
    decreases suite
  {
    if suite.Inline? then suite else Block(Fixed(targets, suite.body))
  }

  /** Alike in what decides about gaps. */
  predicate SameHead(a: Statement, b: Statement) {
    if a.Simple? then b.Simple? && a.docstring == b.docstring else b.Compound? && a.kind == b.kind
  }

  method FixBlock(targets: Targets, body: seq<Statement>) returns (fixed: seq<Statement>)
    ensures fixed == Fixed(targets, body)
    decreases body
  {
    var inner: seq<Statement> := [];
    for i := 0 to |body|
      invariant inner == InnerFixed(targets, body[..i])
    {
      assert body[..i + 1][..i] == body[..i];
      var statement := body[i];
      if statement.Compound? {
        var suites := FixSuites(targets, statement.suites);
        statement := statement.(suites := suites);
      }
      inner := inner + [statement];
    }
    assert body[..|body|] == body;
    fixed := FixBody(targets, inner);
  }

  method FixSuites(targets: Targets, suites: seq<Suite>) returns (fixed: seq<Suite>)
    ensures fixed == SuitesFixed(targets, suites)
    decreases suites
  {
    fixed := [];
    for i := 0 to |suites|
      invariant fixed == SuitesFixed(targets, suites[..i])
    {
      assert suites[..i + 1][..i] == suites[..i];
      var suite := suites[i];
      if suite.Block? {
        var body := FixBlock(targets, suite.body);
        suite := Block(body);
      }
      fixed := fixed + [suite];
    }
    assert suites[..|suites|] == suites;
  }

  // ---------- Every required gap is filled ----------

  predicate GapsFilled(targets: Targets, body: seq<Statement>)
    decreases body, 1
  {
    && (forall i :: 0 <= i < |body| && NeedsGap(targets, body, i) ==> StartsBlank(body[i]))
    && InnerGapsFilled(targets, body)
  }

  predicate InnerGapsFilled(targets: Targets, body: seq<Statement>)
    decreases body, 0
  {
    body == []
    || (InnerGapsFilled(targets, body[..|body| - 1])
        && var last := body[|body| - 1];
           last.Compound? ==> SuiteGapsFilled(targets, last.suites))
  }

  predicate SuiteGapsFilled(targets: Targets, suites: seq<Suite>)
    decreases suites
  {
    suites == []
    || (SuiteGapsFilled(targets, suites[..|suites| - 1])
        && var last := suites[|suites| - 1];
           last.Block? ==> GapsFilled(targets, last.body))
  }

  lemma SpacingKeepsHeads(targets: Targets, body: seq<Statement>, i: nat)
    requires i < |body|
    ensures SameHead(Spaced(targets, body, i), body[i])
    ensures Spaced(targets, body, i).Compound? ==> Spaced(targets, body, i).suites == body[i].suites
  {
  }

  lemma GapsDependOnHeads(targets: Targets, a: seq<Statement>, b: seq<Statement>, i: nat)
    requires |a| == |b| && i < |a| && forall k :: 0 <= k < |a| ==> SameHead(a[k], b[k])
    ensures NeedsGap(targets, a, i) == NeedsGap(targets, b, i)
  {
  }

  lemma {:induction false} InnerGapsStay(targets: Targets, a: seq<Statement>, b: seq<Statement>)
    requires |a| == |b| && InnerGapsFilled(targets, a)
    requires forall k :: 0 <= k < |a| ==> SameHead(a[k], b[k]) && (a[k].Compound? ==> a[k].suites == b[k].suites)
    ensures InnerGapsFilled(targets, b)
    decreases |a|
  {
    if a == [] {
    } else {
      InnerGapsStay(targets, a[..|a| - 1], b[..|b| - 1]);
    }
  }

  /** After the codemod every gap that is required, in any block, is there. */
  lemma {:induction false} FixingFillsGaps(targets: Targets, body: seq<Statement>)
    ensures GapsFilled(targets, Fixed(targets, body))
    decreases body, 1
  {
    var inner, fixed := InnerFixed(targets, body), Fixed(targets, body);
    forall k | 0 <= k < |body|
      ensures SameHead(fixed[k], inner[k]) && (inner[k].Compound? ==> inner[k].suites == fixed[k].suites)
    {
      SpacingKeepsHeads(targets, inner, k);
    }
    forall i | 0 <= i < |body| && NeedsGap(targets, fixed, i) ensures StartsBlank(fixed[i]) {
      GapsDependOnHeads(targets, fixed, inner, i);
    }
    FixingFillsInnerGaps(targets, body);
    InnerGapsStay(targets, inner, fixed);
  }

  lemma {:induction false} FixingFillsInnerGaps(targets: Targets, body: seq<Statement>)
    ensures InnerGapsFilled(targets, InnerFixed(targets, body))
    decreases body, 0
  {
    if body == [] {
    } else {
      FixingFillsInnerGaps(targets, body[..|body| - 1]);
      var last := body[|body| - 1];
      assert InnerFixed(targets, body)[..|body| - 1] == InnerFixed(targets, body[..|body| - 1]);
      if last.Compound? {
        FixingFillsSuiteGaps(targets, last.suites);
      }
    }
  }

  lemma {:induction false} FixingFillsSuiteGaps(targets: Targets, suites: seq<Suite>)
    ensures SuiteGapsFilled(targets, SuitesFixed(targets, suites))
    decreases suites
  {
    if suites == [] {
    } else {
      FixingFillsSuiteGaps(targets, suites[..|suites| - 1]);
      var last := suites[|suites| - 1];
      assert SuitesFixed(targets, suites)[..|suites| - 1] == SuitesFixed(targets, suites[..|suites| - 1]);
      if last.Block? {
        FixingFillsGaps(targets, last.body);
      }
    }
  }

  // ---------- Only blank lines are inserted ----------

  /** The same statement, possibly with a blank line more above it, and the same inside its blocks. */
  predicate Grown(before: Statement, after: Statement)
    decreases before
  {
    && (after.leading == before.leading || after.leading == [BLANK] + before.leading)
    && match before
       case Simple(_, code, docstring) => after.Simple? && after.code == code && after.docstring == docstring
       case Compound(kind, _, code, suites) =>
         after.Compound? && after.kind == kind && after.code == code && GrownSuites(suites, after.suites)
  }

  predicate GrownAll(before: seq<Statement>, after: seq<Statement>)
    decreases before
  {
    |before| == |after|
    && (before == [] || (GrownAll(before[..|before| - 1], after[..|after| - 1])
                         && Grown(before[|before| - 1], after[|after| - 1])))
  }

  predicate GrownSuites(before: seq<Suite>, after: seq<Suite>)
    decreases before
  {
    |before| == |after|
    && (before == [] || (GrownSuites(before[..|before| - 1], after[..|after| - 1])
                         && GrownSuite(before[|before| - 1], after[|after| - 1])))
  }

  predicate GrownSuite(before: Suite, after: Suite)
    decreases before
  {
    match before
    case Inline(_) => after == before
    case Block(body) => after.Block? && GrownAll(body, after.body)
  }

  lemma {:induction false} GrowEach(before: seq<Statement>, after: seq<Statement>)
    requires |before| == |after| && forall i :: 0 <= i < |before| ==> Grown(before[i], after[i])
    ensures GrownAll(before, after)
    decreases |before|
  {
    if before == [] {
    } else {
      GrowEach(before[..|before| - 1], after[..|after| - 1]);
    }
  }

  /** The codemod changes a tree of any depth in no other way than by blank lines above statements. */
  lemma {:induction false} FixingOnlyInserts(targets: Targets, body: seq<Statement>)
    ensures GrownAll(body, Fixed(targets, body))
    decreases body
  {
    var inner := InnerFixed(targets, body);
    forall i | 0 <= i < |body| ensures Grown(body[i], Fixed(targets, body)[i]) {
      if body[i].Compound? {
        SuitesOnlyGrow(targets, body[i].suites);
      }
      assert Fixed(targets, body)[i] == Spaced(targets, inner, i);
    }
    GrowEach(body, Fixed(targets, body));
  }

  lemma {:induction false} SuitesOnlyGrow(targets: Targets, suites: seq<Suite>)
    ensures GrownSuites(suites, SuitesFixed(targets, suites))
    decreases suites
  {
    if suites == [] {
    } else {
      SuitesOnlyGrow(targets, suites[..|suites| - 1]);
      assert SuitesFixed(targets, suites)[..|suites| - 1] == SuitesFixed(targets, suites[..|suites| - 1]);
      if suites[|suites| - 1].Block? {
        FixingOnlyInserts(targets, suites[|suites| - 1].body);
      }
    }
  }

  // ---------- One target set after another ----------

  lemma GapsUnite(a: Targets, b: Targets, body: seq<Statement>, i: nat)
    requires i < |body|
    ensures NeedsGap(a + b, body, i) == (NeedsGap(a, body, i) || NeedsGap(b, body, i))
  {
  }

  lemma SpacedAgain(a: Targets, b: Targets, body: seq<Statement>, once: seq<Statement>, i: nat)
    requires |once| == |body| && i < |body| && once[i] == Spaced(a, body, i)
    requires NeedsGap(b, once, i) == NeedsGap(b, body, i)
    ensures Spaced(b, once, i) == Spaced(a + b, body, i)
  {
    GapsUnite(a, b, body, i);
  }

  lemma SpacedTwice(a: Targets, b: Targets, body: seq<Statement>)
    ensures SpacedUpTo(b, SpacedUpTo(a, body, |body|), |body|) == SpacedUpTo(a + b, body, |body|)
  {
    var once := SpacedUpTo(a, body, |body|);
    forall k | 0 <= k < |body| ensures SameHead(once[k], body[k]) {
      SpacingKeepsHeads(a, body, k);
    }
    forall i | 0 <= i < |body| ensures Spaced(b, once, i) == Spaced(a + b, body, i) {
      GapsDependOnHeads(b, once, body, i);
      SpacedAgain(a, b, body, once, i);
    }
  }

  lemma {:induction false} InnerOfSpaced(a: Targets, b: Targets, body: seq<Statement>)
    ensures InnerFixed(b, SpacedUpTo(a, body, |body|)) == SpacedUpTo(a, InnerFixed(b, body), |body|)
  {
    var once, inner := SpacedUpTo(a, body, |body|), InnerFixed(b, body);
    forall i | 0 <= i < |body| ensures Inner(b, once[i]) == Spaced(a, inner, i) {
      GapsDependOnHeads(a, body, inner, i);
    }
  }

  /** Running the codemod for two target sets in turn is running it once for both. */
  lemma {:induction false} FixingInTurn(a: Targets, b: Targets, body: seq<Statement>)
    ensures Fixed(b, Fixed(a, body)) == Fixed(a + b, body)
    decreases body, 1
  {
    var inner := InnerFixed(a, body);
    InnerOfSpaced(a, b, inner);
    InnerInTurn(a, b, body);
    SpacedTwice(a, b, InnerFixed(a + b, body));
  }

  lemma {:induction false} InnerInTurn(a: Targets, b: Targets, body: seq<Statement>)
    ensures InnerFixed(b, InnerFixed(a, body)) == InnerFixed(a + b, body)
    decreases body, 0
  {
    forall i | 0 <= i < |body| ensures Inner(b, Inner(a, body[i])) == Inner(a + b, body[i]) {
      if body[i].Compound? {
        SuitesInTurn(a, b, body[i].suites);
      }
    }
  }

  lemma {:induction false} SuitesInTurn(a: Targets, b: Targets, suites: seq<Suite>)
    ensures SuitesFixed(b, SuitesFixed(a, suites)) == SuitesFixed(a + b, suites)
    decreases suites
  {
    forall i | 0 <= i < |suites| ensures SuiteFixed(b, SuiteFixed(a, suites[i])) == SuiteFixed(a + b, suites[i]) {
      if suites[i].Block? {
        FixingInTurn(a, b, suites[i].body);
      }
    }
  }

  /** The order of two target sets does not matter. */
  lemma EitherOrder(a: Targets, b: Targets, body: seq<Statement>)
    ensures Fixed(a, Fixed(b, body)) == Fixed(b, Fixed(a, body))
  {
    FixingInTurn(a, b, body);
    FixingInTurn(b, a, body);
    assert a + b == b + a;
  }

  /** Fixing a fixed tree changes nothing. */
  lemma FixingIsIdempotent(targets: Targets, body: seq<Statement>)
    ensures Fixed(targets, Fixed(targets, body)) == Fixed(targets, body)
  {
    FixingInTurn(targets, targets, body);
    assert targets + targets == targets;
  }
}
