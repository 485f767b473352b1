/** Packing context blocks into a prompt: the greedy packer and the loop that trims the tail and packs again. */
module ContextPacking {
  import opened Outcomes
  import opened ContextRendering

  // ---------- Reconstructing the candidates ----------

  function KeysOf(items: seq<Item>): set<string> {
    set item | item in items :: item.key
  }

  /** The first item of each key. */
  function Deduplicated(items: seq<Item>): (kept: seq<Item>)
    ensures forall item :: item in kept ==> item in items
    ensures forall item :: item in items ==> item.key in KeysOf(kept)
  {
    if items == [] then []
    else
      var last, earlier := items[|items| - 1], Deduplicated(items[..|items| - 1]);
      assert items == items[..|items| - 1] + [last];
      if last.key in KeysOf(earlier) then earlier else earlier + [last]
  }

  method ReconstructCandidates(saved: seq<Item>) returns (candidates: seq<Item>)
    ensures candidates == Deduplicated(saved)
  {
    var seen: set<string> := {};
    candidates := [];
    for i := 0 to |saved|
      invariant candidates == Deduplicated(saved[..i]) && seen == KeysOf(candidates)
    {
      assert saved[..i + 1][..i] == saved[..i];
      var item := saved[i];
      if item.key !in seen {
        seen := seen + {item.key};
        candidates := candidates + [item];
      }
    }
    assert saved[..|saved|] == saved;
  }

  /** No key is left twice, and what is kept for a key is its first occurrence, in the old order. */
  lemma {:induction false} FirstOccurrencesAreKept(items: seq<Item>, i: nat, j: nat)
    requires i < j < |Deduplicated(items)|
    ensures Deduplicated(items)[i].key != Deduplicated(items)[j].key
  {
    var earlier := Deduplicated(items[..|items| - 1]);
    if j < |earlier| {
      FirstOccurrencesAreKept(items[..|items| - 1], i, j);
    } else {
      assert earlier[i] in earlier;
    }
  }

  function FirstPosition(items: seq<Item>, key: string): (i: nat)
    requires key in KeysOf(items)
    ensures i < |items| && items[i].key == key
  {
    var n := |items| - 1;
    if key in KeysOf(items[..n]) then FirstPosition(items[..n], key)
    else
      assert items == items[..n] + [items[n]];
      n
  }

  lemma {:induction false} KeptWhereFirstSeen(items: seq<Item>, k: nat)
    requires k < |Deduplicated(items)|
    ensures Deduplicated(items)[k] in items
    ensures items[FirstPosition(items, Deduplicated(items)[k].key)] == Deduplicated(items)[k]
  {
    var n := |items| - 1;
    var earlier := Deduplicated(items[..n]);
    if k < |earlier| {
      KeptWhereFirstSeen(items[..n], k);
    }
  }

  lemma {:induction false} KeptInOrder(items: seq<Item>, i: nat, j: nat)
    requires i < j < |Deduplicated(items)|
    ensures Deduplicated(items)[i] in items && Deduplicated(items)[j] in items
    ensures FirstPosition(items, Deduplicated(items)[i].key) < FirstPosition(items, Deduplicated(items)[j].key)
  {
    var n := |items| - 1;
    var earlier := Deduplicated(items[..n]);
    assert earlier[i] in items[..n];
    if j < |earlier| {
      KeptInOrder(items[..n], i, j);
    }
  }

  // ---------- Counting ----------

  /** A message template: fixed text and the places where the context goes. */
  datatype Piece = Fixed(text: string) | Slot

  type Prompt = seq<seq<Piece>>

  function Content(message: seq<Piece>, context: string): string {
    if message == [] then ""
    else Content(message[..|message| - 1], context)
         + match message[|message| - 1] case Fixed(text) => text case Slot => context
  }

  function Utf8Size(c: char): nat {
    if c < '\U{80}' then 1 else if c < '\U{800}' then 2 else if c < '\U{10000}' then 3 else 4
  }

  function Utf8Length(s: string): nat {
    if s == "" then 0 else Utf8Length(s[..|s| - 1]) + Utf8Size(s[|s| - 1])
  }

  /** estimate_text_tokens: a third of the UTF-8 length, rounded up. */
  function TextTokens(text: string): nat {
    (Utf8Length(text) + 2) / 3
  }

  /** estimate_message_tokens over the formatted messages. */
  function FullTokens(prompt: Prompt, context: string): nat {
    if prompt == [] then 3
    else FullTokens(prompt[..|prompt| - 1], context) + 12 + TextTokens(Content(prompt[|prompt| - 1], context))
  }

  lemma {:induction false} Utf8LengthConcat(a: string, b: string)
    ensures Utf8Length(a + b) == Utf8Length(a) + Utf8Length(b)
  {
    if b == "" {
      assert a + b == a;
    } else {
      Utf8LengthConcat(a, b[..|b| - 1]);
      assert (a + b)[..|a + b| - 1] == a + b[..|b| - 1];
    }
  }

  lemma {:induction false} ContentGrows(message: seq<Piece>, a: string, b: string)
    requires Utf8Length(a) <= Utf8Length(b)
    ensures Utf8Length(Content(message, a)) <= Utf8Length(Content(message, b))
  {
    if message == [] {
    } else {
      var front := message[..|message| - 1];
      ContentGrows(front, a, b);
      match message[|message| - 1] {
        case Fixed(text) =>
          Utf8LengthConcat(Content(front, a), text);
          Utf8LengthConcat(Content(front, b), text);
        case Slot =>
          Utf8LengthConcat(Content(front, a), a);
          Utf8LengthConcat(Content(front, b), b);
      }
    }
  }

  lemma {:induction false} FullTokensGrow(prompt: Prompt, a: string, b: string)
    requires Utf8Length(a) <= Utf8Length(b)
    ensures FullTokens(prompt, a) <= FullTokens(prompt, b)
  {
    if prompt == [] {
    } else {
      FullTokensGrow(prompt[..|prompt| - 1], a, b);
      ContentGrows(prompt[|prompt| - 1], a, b);
    }
  }

  datatype Counter = Characters | WholePrompt(prompt: Prompt)

  function Count(counter: Counter, context: string): nat {
    match counter case Characters => |context| case WholePrompt(prompt) => FullTokens(prompt, context)
  }

  /** Neither counter gets smaller when text is appended. */
  lemma CountGrows(counter: Counter, a: string, b: string)
    requires IsPrefix(a, b)
    ensures Count(counter, a) <= Count(counter, b)
  {
    assert b == a + b[|a|..];
    Utf8LengthConcat(a, b[|a|..]);
    match counter
    case Characters =>
    case WholePrompt(prompt) => FullTokensGrow(prompt, a, b);
  }

  // ---------- The renderer ----------

  /** A renderer's text for a list of blocks, and the list it hands back. */
  datatype Renderer = Renderer(context: seq<Item> -> string, order: seq<Item> -> seq<Item>)

  predicate IsOrdered(r: Renderer, items: seq<Item>) {
    r.order(items) == items
  }

  predicate Cuts(r: Renderer, items: seq<Item>, k: nat)
    requires k <= |items|
  {
    IsOrdered(r, items[..k]) && IsPrefix(r.context(items[..k]), r.context(items))
  }

  /**
   Handing back a list once more changes neither list nor text, and dropping blocks from the end of such a list
   cuts its text short.
   */
  ghost predicate ProperRenderer(r: Renderer) {
    && r.context([]) == "" && r.order([]) == []
    && (forall items :: IsOrdered(r, r.order(items)) && r.context(r.order(items)) == r.context(items))
    && (forall items, k: nat | k <= |items| :: IsOrdered(r, items) ==> Cuts(r, items, k))
  }

  /** render_selected_docs is such a renderer. */
  lemma SelectedDocsRendererIsProper()
    ensures ProperRenderer(Renderer(Context, Regrouped))
  {
    var r := Renderer(Context, Regrouped);
    assert Context([]) == "";
    forall items ensures IsOrdered(r, r.order(items)) && r.context(r.order(items)) == r.context(items) {
      ContextRegrouped(items);
    }
    forall items, k: nat | k <= |items| && IsOrdered(r, items) ensures Cuts(r, items, k) {
      ContextPrefix(items, k);
    }
  }

  // ---------- The greedy packer ----------

  function Chosen(r: Renderer, candidates: seq<Item>, budget: int, counter: Counter): seq<Item> {
    if candidates == [] then []
    else
      var chosen := Chosen(r, candidates[..|candidates| - 1], budget, counter);
      var next := chosen + [candidates[|candidates| - 1]];
      if Count(counter, r.context(next)) <= budget then next else chosen
  }

  function RejectedKeys(r: Renderer, candidates: seq<Item>, budget: int, counter: Counter): seq<string> {
    if candidates == [] then []
    else
      var last, rejected := candidates[|candidates| - 1],
          RejectedKeys(r, candidates[..|candidates| - 1], budget, counter);
      if Count(counter, r.context(Chosen(r, candidates[..|candidates| - 1], budget, counter) + [last])) <= budget
      then rejected else rejected + [last.key]
  }

  method SequentialPack(r: Renderer, candidates: seq<Item>, budget: int, counter: Counter)
    returns (context: string, selected: seq<Item>, rejected: seq<string>)
    ensures selected == r.order(Chosen(r, candidates, budget, counter))
    ensures context == r.context(Chosen(r, candidates, budget, counter))
    ensures rejected == RejectedKeys(r, candidates, budget, counter)
  {
    var chosen: seq<Item> := [];
    rejected := [];
    for i := 0 to |candidates|
      invariant chosen == Chosen(r, candidates[..i], budget, counter)
      invariant rejected == RejectedKeys(r, candidates[..i], budget, counter)
    {
      assert candidates[..i + 1][..i] == candidates[..i];
      var item := candidates[i];
      if Count(counter, r.context(chosen + [item])) <= budget {
        chosen := chosen + [item];
      } else {
        rejected := rejected + [item.key];
      }
    }
    assert candidates[..|candidates|] == candidates;
    context, selected := r.context(chosen), r.order(chosen);
  }

  lemma {:induction false} ChosenFits(r: Renderer, candidates: seq<Item>, budget: int, counter: Counter)
    requires ProperRenderer(r) && Count(counter, "") <= budget
    ensures Count(counter, r.context(Chosen(r, candidates, budget, counter))) <= budget
  {
    if candidates == [] {
    } else {
      ChosenFits(r, candidates[..|candidates| - 1], budget, counter);
    }
  }

  /** Packing a grouped list that fits as a whole takes all of it and rejects nothing. */
  lemma {:induction false} PackingTakesAll(r: Renderer, items: seq<Item>, budget: int, counter: Counter)
    requires ProperRenderer(r) && IsOrdered(r, items) && Count(counter, r.context(items)) <= budget
    ensures Chosen(r, items, budget, counter) == items && RejectedKeys(r, items, budget, counter) == []
  {
    if items == [] {
    } else {
      var n := |items| - 1;
      assert Cuts(r, items, n);
      CountGrows(counter, r.context(items[..n]), r.context(items));
      PackingTakesAll(r, items[..n], budget, counter);
      assert items[..n] + [items[n]] == items;
    }
  }

  // ---------- Trimming the tail ----------

  function LongestFit(r: Renderer, items: seq<Item>, prompt: Prompt, inputBudget: int): (k: nat)
    ensures k <= |items|
  {
    if items == [] || FullTokens(prompt, r.context(items)) <= inputBudget then |items|
    else LongestFit(r, items[..|items| - 1], prompt, inputBudget)
  }

  /** It is the longest prefix whose whole prompt fits: shorter ones fit too, longer ones do not. */
  lemma {:induction false} LongestFitIsLongest(r: Renderer, items: seq<Item>, prompt: Prompt, inputBudget: int, j: nat)
    requires ProperRenderer(r) && IsOrdered(r, items) && FullTokens(prompt, "") <= inputBudget && j <= |items|
    ensures FullTokens(prompt, r.context(items[..j])) <= inputBudget <==> j <= LongestFit(r, items, prompt, inputBudget)
  {
    if items == [] {
      assert items[..j] == [];
    } else if FullTokens(prompt, r.context(items)) <= inputBudget {
      assert Cuts(r, items, j);
      CountGrows(WholePrompt(prompt), r.context(items[..j]), r.context(items));
    } else if j < |items| {
      assert Cuts(r, items, |items| - 1);
      assert items[..|items| - 1][..j] == items[..j];
      LongestFitIsLongest(r, items[..|items| - 1], prompt, inputBudget, j);
    } else {
      assert items[..j] == items;
    }
  }

  datatype Iteration = Iteration(selected: seq<string>, rejected: seq<string>, tokens: nat, removed: Option<string>)

  function KeySequence(items: seq<Item>): seq<string> {
    if items == [] then [] else KeySequence(items[..|items| - 1]) + [items[|items| - 1].key]
  }

  /** The passes from a selection down to its first k blocks; only the first may have rejected anything. */
  function Passes(r: Renderer, items: seq<Item>, rejected: seq<string>, prompt: Prompt, k: nat): seq<Iteration>
    requires k <= |items|
  {
    var removed := if |items| == k then None else Some(items[|items| - 1].key);
    [Iteration(KeySequence(items), rejected, FullTokens(prompt, r.context(items)), removed)]
    + if |items| == k then [] else Passes(r, items[..|items| - 1], [], prompt, k)
  }

  datatype PackingError = BasePromptTooLong | NoBlockFits

  datatype Packing = Packing(context: string, selected: seq<Item>, trace: seq<Iteration>)

  const CHARS_PER_TOKEN := 4

  /** What one pass over `ordered` comes to. */
  ghost predicate Packs(r: Renderer, ordered: seq<Item>, budget: int, counter: Counter, selected: seq<Item>,
                        rejected: seq<string>) {
    && r.order(Chosen(r, ordered, budget, counter)) == selected
    && r.context(Chosen(r, ordered, budget, counter)) == r.context(selected)
    && RejectedKeys(r, ordered, budget, counter) == rejected
    && IsOrdered(r, selected) && Count(counter, r.context(selected)) <= budget
  }

  lemma FirstPack(r: Renderer, candidates: seq<Item>, budget: int, counter: Counter)
    requires ProperRenderer(r) && Count(counter, "") <= budget
    ensures Packs(r, candidates, budget, counter, r.order(Chosen(r, candidates, budget, counter)),
                  RejectedKeys(r, candidates, budget, counter))
  {
    ChosenFits(r, candidates, budget, counter);
  }

  /** Packing a selection again without its tail keeps all the rest of it. */
  lemma Repack(r: Renderer, selected: seq<Item>, budget: int, counter: Counter, m: nat)
    requires ProperRenderer(r) && IsOrdered(r, selected) && Count(counter, r.context(selected)) <= budget
               && m <= |selected|
    ensures Packs(r, selected[..m], budget, counter, selected[..m], [])
  {
    assert Cuts(r, selected, m);
    CountGrows(counter, r.context(selected[..m]), r.context(selected));
    PackingTakesAll(r, selected[..m], budget, counter);
  }

  /**
   legacy_selection after its ordering.  The loop ends with the longest prefix of the first greedy pack whose whole
   prompt fits; the error of no fitting block is never reached once the base prompt leaves room.
   */
  method TrimAndRepack(r: Renderer, candidates: seq<Item>, prompt: Prompt, inputBudget: int, unified: bool)
    returns (result: Result<Packing, PackingError>)
    requires ProperRenderer(r)
    ensures FullTokens(prompt, "") >= inputBudget <==> result == Failure(BasePromptTooLong)
    ensures FullTokens(prompt, "") < inputBudget ==> result.Success?
    ensures result.Success? ==>
              var counter := if unified then WholePrompt(prompt) else Characters;
              var budget := if unified then inputBudget else (inputBudget - FullTokens(prompt, "")) * CHARS_PER_TOKEN;
              var first := r.order(Chosen(r, candidates, budget, counter));
              var k := LongestFit(r, first, prompt, inputBudget);
              && result.value.selected == first[..k] && result.value.context == r.context(first[..k])
              && result.value.trace == Passes(r, first, RejectedKeys(r, candidates, budget, counter), prompt, k)
  {
    var contextBudget := inputBudget - FullTokens(prompt, "");
    if contextBudget <= 0 {
      return Failure(BasePromptTooLong);
    }
    var counter := if unified then WholePrompt(prompt) else Characters;
    var budget := if unified then inputBudget else contextBudget * CHARS_PER_TOKEN;
    FirstPack(r, candidates, budget, counter);
    var packing := TrimLoop(r, candidates, prompt, inputBudget, counter, budget,
                            r.order(Chosen(r, candidates, budget, counter)),
                                RejectedKeys(r, candidates, budget, counter));
    result := Success(packing);
  }

  /** The state of the loop before a pass: the selection it will come to, and the trace so far. */
  ghost predicate AtPass(r: Renderer, first: seq<Item>, rejections: seq<string>, prompt: Prompt, inputBudget: int,
                         selection: seq<Item>, turnedAway: seq<string>, trace: seq<Iteration>) {
    var k := LongestFit(r, first, prompt, inputBudget);
    && |selection| <= |first| && selection == first[..|selection|]
    && LongestFit(r, selection, prompt, inputBudget) == k
    && Passes(r, first, rejections, prompt, k) == trace + Passes(r, selection, turnedAway, prompt, k)
  }

  lemma LastPass(r: Renderer, first: seq<Item>, rejections: seq<string>, prompt: Prompt, inputBudget: int,
                 selection: seq<Item>, turnedAway: seq<string>, trace: seq<Iteration>)
    requires AtPass(r, first, rejections, prompt, inputBudget, selection, turnedAway, trace)
    requires FullTokens(prompt, r.context(selection)) <= inputBudget
    ensures var k := LongestFit(r, first, prompt, inputBudget);
            && selection == first[..k]
            && Passes(r, first, rejections, prompt, k)
               == trace + [Iteration(KeySequence(selection), turnedAway, FullTokens(prompt, r.context(selection)),
                   None)]
  {
  }

  lemma NextPass(r: Renderer, first: seq<Item>, rejections: seq<string>, prompt: Prompt, inputBudget: int,
                 selection: seq<Item>, turnedAway: seq<string>, trace: seq<Iteration>)
    requires AtPass(r, first, rejections, prompt, inputBudget, selection, turnedAway, trace)
    requires FullTokens(prompt, r.context(selection)) > inputBudget && selection != []
    ensures var m := |selection| - 1;
            AtPass(r, first, rejections, prompt, inputBudget, selection[..m], [],
                   trace + [Iteration(KeySequence(selection), turnedAway, FullTokens(prompt, r.context(selection)),
                                      Some(selection[m].key))])
  {
    var m, k := |selection| - 1, LongestFit(r, first, prompt, inputBudget);
    assert first[..|selection|][..m] == first[..m];
    assert LongestFit(r, selection[..m], prompt, inputBudget) == k;
    var pass := Iteration(KeySequence(selection), turnedAway, FullTokens(prompt, r.context(selection)),
        Some(selection[m].key));
    var rest := Passes(r, selection[..m], [], prompt, k);
    assert Passes(r, selection, turnedAway, prompt, k) == [pass] + rest;
    assert trace + ([pass] + rest) == trace + [pass] + rest;
  }

  method TrimLoop(r: Renderer, candidates: seq<Item>, prompt: Prompt, inputBudget: int, counter: Counter, budget: int,
                  ghost first: seq<Item>, ghost rejections: seq<string>)
    returns (packing: Packing)
    requires ProperRenderer(r) && FullTokens(prompt, "") < inputBudget
    requires Packs(r, candidates, budget, counter, first, rejections)
    ensures var k := LongestFit(r, first, prompt, inputBudget);
            && packing.selected == first[..k] && packing.context == r.context(first[..k])
            && packing.trace == Passes(r, first, rejections, prompt, k)
  {
    var ordered, trace := candidates, [];
    ghost var selection, turnedAway := first, rejections;
    while true
      invariant Packs(r, ordered, budget, counter, selection, turnedAway)
      invariant AtPass(r, first, rejections, prompt, inputBudget, selection, turnedAway, trace)
      decreases |selection|
    {
      var context, selected, rejected := SequentialPack(r, ordered, budget, counter);
      var tokens := FullTokens(prompt, context);
      if tokens <= inputBudget {
        LastPass(r, first, rejections, prompt, inputBudget, selection, turnedAway, trace);
        trace := trace + [Iteration(KeySequence(selected), rejected, tokens, None)];
        return Packing(context, selected, trace);
      }
      if selected == [] {
        assert false;
      }
      var m := |selected| - 1;
      NextPass(r, first, rejections, prompt, inputBudget, selection, turnedAway, trace);
      trace := trace + [Iteration(KeySequence(selected), rejected, tokens, Some(selected[m].key))];
      ordered := selected[..m];
      Repack(r, selected, budget, counter, m);
      selection, turnedAway := selected[..m], [];
    }
  }

  /** Packing with the counter that the final check uses never needs a second pass. */
  lemma UnifiedCounterNeedsOnePass(r: Renderer, candidates: seq<Item>, prompt: Prompt, inputBudget: int)
    requires ProperRenderer(r) && FullTokens(prompt, "") < inputBudget
    ensures var first := r.order(Chosen(r, candidates, inputBudget, WholePrompt(prompt)));
            LongestFit(r, first, prompt, inputBudget) == |first|
  {
    ChosenFits(r, candidates, inputBudget, WholePrompt(prompt));
  }

  // ---------- Order ----------

  function PlacedByScore(item: Item, sorted: seq<Item>): seq<Item> {
    if sorted == [] || sorted[0].score <= item.score then [item] + sorted
    else [sorted[0]] + PlacedByScore(item, sorted[1..])
  }

  /** Highest scores first; equal scores keep their order. */
  function ByScore(items: seq<Item>): seq<Item> {
    if items == [] then [] else PlacedByScore(items[0], ByScore(items[1..]))
  }

  lemma {:induction false} PlacedByScoreMembers(item: Item, sorted: seq<Item>)
    ensures multiset(PlacedByScore(item, sorted)) == multiset(sorted) + multiset{item}
  {
    if sorted != [] && sorted[0].score > item.score {
      PlacedByScoreMembers(item, sorted[1..]);
      assert sorted == [sorted[0]] + sorted[1..];
    }
  }

  predicate Descending(items: seq<Item>) {
    forall i, j :: 0 <= i < j < |items| ==> items[i].score >= items[j].score
  }

  lemma {:induction false} PlacedByScoreDescends(item: Item, sorted: seq<Item>)
    requires Descending(sorted)
    ensures Descending(PlacedByScore(item, sorted))
    ensures forall other :: other in PlacedByScore(item, sorted) ==> other == item || other in sorted
  {
    if sorted == [] {
    } else if sorted[0].score > item.score {
      var rest := PlacedByScore(item, sorted[1..]);
      PlacedByScoreDescends(item, sorted[1..]);
      forall i | 0 <= i < |rest| ensures rest[i].score <= sorted[0].score {
        assert rest[i] in rest;
      }
    }
  }

  /** The order of the relevance variants: a permutation of the candidates with scores going down. */
  lemma {:induction false} ByScoreSorts(items: seq<Item>)
    ensures multiset(ByScore(items)) == multiset(items) && Descending(ByScore(items))
  {
    if items == [] {
    } else {
      ByScoreSorts(items[1..]);
      PlacedByScoreMembers(items[0], ByScore(items[1..]));
      PlacedByScoreDescends(items[0], ByScore(items[1..]));
      assert items == [items[0]] + items[1..];
    }
  }

  // group_by_section: sections in the order of their best block, blocks by score inside.

  function OfSection(items: seq<Item>, section: string, keep: bool): (r: seq<Item>)
    ensures |r| <= |items|
    ensures items != [] && items[0].section == section && !keep ==> |r| < |items|
    ensures items != [] && items[0].section == section && keep ==> r != []
  {
    if items == [] then []
    else (if (items[0].section == section) == keep then [items[0]] else []) + OfSection(items[1..], section, keep)
  }

  function Sections(items: seq<Item>): (groups: seq<seq<Item>>)
    ensures forall i :: 0 <= i < |groups| ==> groups[i] != []
    decreases |items|
  {
    if items == [] then []
    else
      var section := items[0].section;
      ByScoreKeepsLength(OfSection(items, section, true));
      [ByScore(OfSection(items, section, true))] + Sections(OfSection(items, section, false))
  }

  lemma ByScoreKeepsLength(items: seq<Item>)
    ensures items != [] ==> ByScore(items) != []
  {
    if items != [] {
      PlacedByScoreMembers(items[0], ByScore(items[1..]));
      assert items[0] in multiset(ByScore(items));
    }
  }

  predicate NoneEmpty(groups: seq<seq<Item>>) {
    forall i :: 0 <= i < |groups| ==> groups[i] != []
  }

  function PlacedGroup(group: seq<Item>, sorted: seq<seq<Item>>): (r: seq<seq<Item>>)
    requires group != [] && NoneEmpty(sorted)
    ensures NoneEmpty(r)
  {
    if sorted == [] || sorted[0][0].score <= group[0].score then [group] + sorted
    else [sorted[0]] + PlacedGroup(group, sorted[1..])
  }

  function GroupsByScore(groups: seq<seq<Item>>): (r: seq<seq<Item>>)
    requires NoneEmpty(groups)
    ensures NoneEmpty(r)
  {
    if groups == [] then [] else PlacedGroup(groups[0], GroupsByScore(groups[1..]))
  }

  function Flattened(groups: seq<seq<Item>>): seq<Item> {
    if groups == [] then [] else groups[0] + Flattened(groups[1..])
  }

  function BySection(items: seq<Item>): seq<Item> {
    Flattened(GroupsByScore(Sections(items)))
  }

  /** The order in which legacy_selection offers the candidates to the packer. */
  function Ordered(candidates: seq<Item>, grouped: bool): seq<Item> {
    if grouped then Regrouped(BySection(candidates)) else ByScore(candidates)
  }

  lemma FrontOfParts(item: Item, first: seq<Item>, second: seq<Item>, all: seq<Item>)
    requires multiset(first) + multiset(second) == multiset(all)
    ensures multiset([item] + first) + multiset(second) == multiset([item] + all)
    ensures multiset(first) + multiset([item] + second) == multiset([item] + all)
  {
  }

  lemma {:induction false} SectionParts(items: seq<Item>, section: string)
    ensures multiset(OfSection(items, section, true)) + multiset(OfSection(items, section, false)) == multiset(items)
  {
    if items == [] {
    } else {
      var item, rest := items[0], items[1..];
      var inside, outside := OfSection(rest, section, true), OfSection(rest, section, false);
      SectionParts(rest, section);
      FrontOfParts(item, inside, outside, rest);
      assert items == [item] + rest;
      if item.section == section {
        assert OfSection(items, section, true) == [item] + inside && OfSection(items, section, false) == outside;
      } else {
        assert OfSection(items, section, true) == inside && OfSection(items, section, false) == [item] + outside;
      }
    }
  }

  lemma {:induction false} DocumentParts(items: seq<Item>, document: nat)
    ensures multiset(Of(items, document)) + multiset(NotOf(items, document)) == multiset(items)
  {
    if items == [] {
    } else {
      var item, rest := items[0], items[1..];
      DocumentParts(rest, document);
      FrontOfParts(item, Of(rest, document), NotOf(rest, document), rest);
      assert items == [item] + rest;
      if item.document == document {
        assert Of(items, document) == [item] + Of(rest, document) && NotOf(items, document) == NotOf(rest, document);
      } else {
        assert Of(items, document) == Of(rest, document) && NotOf(items, document) == [item] + NotOf(rest, document);
      }
    }
  }

  lemma {:induction false} RegroupedPermutes(items: seq<Item>)
    ensures multiset(Regrouped(items)) == multiset(items)
    decreases |items|
  {
    if items == [] {
    } else {
      DocumentParts(items, items[0].document);
      RegroupedPermutes(NotOf(items, items[0].document));
    }
  }

  lemma {:induction false} PlacedGroupPermutes(group: seq<Item>, sorted: seq<seq<Item>>)
    requires group != [] && NoneEmpty(sorted)
    ensures multiset(Flattened(PlacedGroup(group, sorted))) == multiset(group) + multiset(Flattened(sorted))
  {
    if sorted == [] || sorted[0][0].score <= group[0].score {
      assert ([group] + sorted)[1..] == sorted;
    } else {
      PlacedGroupPermutes(group, sorted[1..]);
      assert ([sorted[0]] + PlacedGroup(group, sorted[1..]))[1..] == PlacedGroup(group, sorted[1..]);
    }
  }

  lemma {:induction false} GroupsByScorePermute(groups: seq<seq<Item>>)
    requires NoneEmpty(groups)
    ensures multiset(Flattened(GroupsByScore(groups))) == multiset(Flattened(groups))
  {
    if groups == [] {
    } else {
      GroupsByScorePermute(groups[1..]);
      PlacedGroupPermutes(groups[0], GroupsByScore(groups[1..]));
    }
  }

  lemma {:induction false} SectionsPermute(items: seq<Item>)
    ensures multiset(Flattened(Sections(items))) == multiset(items)
    decreases |items|
  {
    if items == [] {
    } else {
      var section := items[0].section;
      SectionParts(items, section);
      ByScoreSorts(OfSection(items, section, true));
      SectionsPermute(OfSection(items, section, false));
      assert Sections(items)[1..] == Sections(OfSection(items, section, false));
    }
  }

  /** Both orders offer every candidate exactly as often as it was retrieved. */
  lemma OrderingPermutes(candidates: seq<Item>, grouped: bool)
    ensures multiset(Ordered(candidates, grouped)) == multiset(candidates)
  {
    if grouped {
      SectionsPermute(candidates);
      GroupsByScorePermute(Sections(candidates));
      RegroupedPermutes(BySection(candidates));
    } else {
      ByScoreSorts(candidates);
    }
  }

  /** The kept blocks are a prefix of the first pack that fits, and one block more would not. */
  ghost predicate IsLongestFit(r: Renderer, first: seq<Item>, selected: seq<Item>, prompt: Prompt, inputBudget: int) {
    && selected <= first && FullTokens(prompt, r.context(selected)) <= inputBudget
    && forall k :: |selected| < k <= |first| ==> FullTokens(prompt, r.context(first[..k])) > inputBudget
  }

  lemma LongestFitHolds(r: Renderer, first: seq<Item>, prompt: Prompt, inputBudget: int)
    requires ProperRenderer(r) && IsOrdered(r, first) && FullTokens(prompt, "") <= inputBudget
    ensures IsLongestFit(r, first, first[..LongestFit(r, first, prompt, inputBudget)], prompt, inputBudget)
  {
    LongestFitIsLongest(r, first, prompt, inputBudget, LongestFit(r, first, prompt, inputBudget));
    forall k | LongestFit(r, first, prompt, inputBudget) < k <= |first|
      ensures FullTokens(prompt, r.context(first[..k])) > inputBudget
    {
      LongestFitIsLongest(r, first, prompt, inputBudget, k);
    }
  }

  /** legacy_selection: None stands for a base prompt that leaves no room. */
  method LegacySelection(r: Renderer, candidates: seq<Item>, prompt: Prompt, inputBudget: int, grouped: bool,
                         unified: bool)
    returns (result: Option<Packing>)
    requires ProperRenderer(r)
    ensures result.None? <==> FullTokens(prompt, "") >= inputBudget
    ensures result.Some? ==>
              var counter := if unified then WholePrompt(prompt) else Characters;
              var budget := if unified then inputBudget else (inputBudget - FullTokens(prompt, "")) * CHARS_PER_TOKEN;
              var first := r.order(Chosen(r, Ordered(candidates, grouped), budget, counter));
              && IsLongestFit(r, first, result.value.selected, prompt, inputBudget)
              && result.value.context == r.context(result.value.selected)
              && |result.value.trace| == |first| - |result.value.selected| + 1
              && (unified ==> result.value.selected == first)
  {
    var packed := TrimAndRepack(r, Ordered(candidates, grouped), prompt, inputBudget, unified);
    if packed.Failure? {
      return None;
    }
    ghost var counter := if unified then WholePrompt(prompt) else Characters;
    ghost var budget := if unified then inputBudget else (inputBudget - FullTokens(prompt, "")) * CHARS_PER_TOKEN;
    ghost var first := r.order(Chosen(r, Ordered(candidates, grouped), budget, counter));
    LongestFitHolds(r, first, prompt, inputBudget);
    PassesLength(r, first, RejectedKeys(r, Ordered(candidates, grouped), budget, counter), prompt,
                 LongestFit(r, first, prompt, inputBudget));
    if unified {
      UnifiedCounterNeedsOnePass(r, Ordered(candidates, grouped), prompt, inputBudget);
    }
    result := Some(packed.value);
  }

  lemma {:induction false} PassesLength(r: Renderer, items: seq<Item>, rejected: seq<string>, prompt: Prompt, k: nat)
    requires k <= |items|
    ensures |Passes(r, items, rejected, prompt, k)| == |items| - k + 1
  {
    if k < |items| {
      PassesLength(r, items[..|items| - 1], [], prompt, k);
    }
  }
}
