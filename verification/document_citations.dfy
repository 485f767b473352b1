/**
 remarkDocumentCitations of client/src/shared/lib/document-citations.ts: `[n]` in text becomes a link to its
 source.
 */
module DocumentCitations {
  import opened Characters
  import opened Outcomes

  datatype Source = Source(citation: Option<int>, document: Option<real>, title: string)

  /** The sources of an answer, and JavaScript's Number on a string of digits. */
  datatype Context = Context(sources: seq<Source>, number: string -> int)

  datatype Kind = Code | InlineCode | Link | Image | LinkReference | Other(name: string)

  /** A Markdown node.  Text has no children; a node without a child list is one with no children. */
  datatype Node =
    | Text(value: string)
    | Element(kind: Kind, value: string, url: string, title: string, children: seq<Node>)

  const MAX_SAFE_INTEGER := 9007199254740991.0

  /** documentUrl: only positive safe integers have a page. */
  function DocumentUrl(source: Source): Option<string> {
    match source.document
    case None => None
    case Some(id) =>
      if 0.0 < id <= MAX_SAFE_INTEGER && id.Floor as real == id then Some("/documents/" + Digits(id.Floor)) else None
  }

  /** The map by citation number: of two sources with one number the later counts. */
  function ById(sources: seq<Source>, n: int): Option<Source> {
    if sources == [] then None
    else if sources[|sources| - 1].citation == Some(n) then Some(sources[|sources| - 1])
    else ById(sources[..|sources| - 1], n)
  }

  // ---------- Matches of /\[(\d+)\]/ ----------

  predicate IsDigit(c: char) {
    '0' <= c <= '9'
  }

  function DigitsEnd(s: string, i: nat): (end: nat)
    requires i <= |s|
    ensures i <= end <= |s| && forall k :: i <= k < end ==> IsDigit(s[k])
    ensures end < |s| ==> !IsDigit(s[end])
    decreases |s| - i
  {
    if i < |s| && IsDigit(s[i]) then DigitsEnd(s, i + 1) else i
  }

  /** Where a match starting at i ends. */
  function MatchAt(s: string, i: nat): (end: Option<nat>)
    requires i <= |s|
    ensures end.Some? ==> i + 2 < end.value <= |s| && s[i] == '[' && s[end.value - 1] == ']'
    ensures end.Some? ==> forall k :: i < k < end.value - 1 ==> IsDigit(s[k])
  {
    if i < |s| && s[i] == '[' then
      var close := DigitsEnd(s, i + 1);
      if close > i + 1 && close < |s| && s[close] == ']' then Some(close + 1) else None
    else None
  }

  datatype Target = Target(url: string, title: string)

  /** The link for a number, when it has a source with a page. */
  function Resolve(c: Context, digits: string): Option<Target> {
    match ById(c.sources, c.number(digits))
    case None => None
    case Some(source) =>
      match DocumentUrl(source)
      case None => None
      case Some(url) => Some(Target(url, source.title))
  }

  function LinkNode(target: Target, shown: string): Node {
    Element(Link, "", target.url, target.title, [Text(shown)])
  }

  /** The pieces of a text from `position`, matches being looked for from `i` on. */
  function Pieces(c: Context, s: string, position: nat, i: nat): seq<Node>
    requires position <= i <= |s|
    decreases |s| - i
  {
    if i == |s| then if position < |s| then [Text(s[position..])] else []
    else
      match MatchAt(s, i)
      case None => Pieces(c, s, position, i + 1)
      case Some(end) =>
        match Resolve(c, s[i + 1..end - 1])
        case None => Pieces(c, s, position, end)
        case Some(target) =>
          (if i > position then [Text(s[position..i])] else [])
          + [LinkNode(target, s[i..end])] + Pieces(c, s, end, end)
  }

  lemma Associate(a: seq<Node>, b: seq<Node>, c: seq<Node>, d: seq<Node>)
    ensures a + (b + c + d) == a + b + c + d
  {
  }

  method SplitText(c: Context, s: string) returns (result: seq<Node>)
    ensures result == Pieces(c, s, 0, 0)
  {
    result := [];
    var position, i := 0, 0;
    while i < |s|
      invariant 0 <= position <= i <= |s|
      invariant Pieces(c, s, 0, 0) == result + Pieces(c, s, position, i)
      decreases |s| - i
    {
      var found := MatchAt(s, i);
      if found.None? {
        i := i + 1;
      } else {
        var end := found.value;
        var target := Resolve(c, s[i + 1..end - 1]);
        if target.Some? {
          var before := if i > position then [Text(s[position..i])] else [];
          Associate(result, before, [LinkNode(target.value, s[i..end])], Pieces(c, s, end, end));
          result := result + before + [LinkNode(target.value, s[i..end])];
          position := end;
        }
        i := end;
      }
    }
    if position < |s| {
      result := result + [Text(s[position..])];
    }
  }

  // ---------- The tree ----------

  predicate Untouched(node: Node) {
    node.Text? || !node.kind.Other?
  }

  predicate IsRewritable(node: Node) {
    node.Text? && node.value != ""
  }

  function Visited(c: Context, node: Node): Node
    decreases node
  {
    if Untouched(node) then node else node.(children := VisitedAll(c, node.children))
  }

  function VisitedAll(c: Context, children: seq<Node>): seq<Node>
    decreases children
  {
    if children == [] then []
    else
      VisitedAll(c, children[..|children| - 1])
      + var last := children[|children| - 1];
        if IsRewritable(last) then Pieces(c, last.value, 0, 0) else [Visited(c, last)]
  }

  method Visit(c: Context, node: Node) returns (result: Node)
    ensures result == Visited(c, node)
    decreases node
  {
    if Untouched(node) {
      return node;
    }
    var children: seq<Node> := [];
    for k := 0 to |node.children|
      invariant children == VisitedAll(c, node.children[..k])
    {
      var child := node.children[k];
      assert node.children[..k + 1][..k] == node.children[..k];
      if IsRewritable(child) {
        var pieces := SplitText(c, child.value);
        children := children + pieces;
      } else {
        var visited := Visit(c, child);
        children := children + [visited];
      }
    }
    assert node.children[..|node.children|] == node.children;
    result := node.(children := children);
  }

  // ---------- The text stays ----------

  function TextOf(node: Node): string
    decreases node
  {
    if node.Text? then node.value else node.value + TextOfAll(node.children)
  }

  function TextOfAll(children: seq<Node>): string
    decreases children
  {
    if children == [] then "" else TextOfAll(children[..|children| - 1]) + TextOf(children[|children| - 1])
  }

  lemma {:induction false} TextOfConcat(a: seq<Node>, b: seq<Node>)
    ensures TextOfAll(a + b) == TextOfAll(a) + TextOfAll(b)
    decreases |b|
  {
    if b == [] {
      assert a + b == a;
    } else {
      var front, last := b[..|b| - 1], TextOf(b[|b| - 1]);
      TextOfConcat(a, front);
      assert (a + b)[..|a + b| - 1] == a + front;
      assert TextOfAll(a) + TextOfAll(front) + last == TextOfAll(a) + (TextOfAll(front) + last);
    }
  }

  lemma TextOfOne(node: Node)
    ensures TextOfAll([node]) == TextOf(node)
  {
    assert [node][..0] == [];
  }

  lemma TextOfLink(target: Target, shown: string)
    ensures TextOf(LinkNode(target, shown)) == shown
  {
    TextOfOne(Text(shown));
  }

  lemma {:induction false} PiecesKeepText(c: Context, s: string, position: nat, i: nat)
    requires position <= i <= |s|
    ensures TextOfAll(Pieces(c, s, position, i)) == s[position..]
    decreases |s| - i
  {
    if i == |s| {
      if position < |s| {
        TextOfOne(Text(s[position..]));
      }
    } else {
      var found := MatchAt(s, i);
      if found.None? {
        PiecesKeepText(c, s, position, i + 1);
      } else {
        var end := found.value;
        var target := Resolve(c, s[i + 1..end - 1]);
        if target.None? {
          PiecesKeepText(c, s, position, end);
        } else {
          PiecesKeepText(c, s, end, end);
          var before := if i > position then [Text(s[position..i])] else [];
          assert Pieces(c, s, position, i) == before + [LinkNode(target.value, s[i..end])] + Pieces(c, s, end, end);
          LinkKeepsText(c, s, position, i, end, target.value);
        }
      }
    }
  }

  lemma TextOfThree(before: seq<Node>, link: Node, rest: seq<Node>)
    ensures TextOfAll(before + [link] + rest) == TextOfAll(before) + TextOf(link) + TextOfAll(rest)
  {
    TextOfOne(link);
    TextOfConcat(before, [link]);
    TextOfConcat(before + [link], rest);
  }

  lemma LinkKeepsText(c: Context, s: string, position: nat, i: nat, end: nat, target: Target)
    requires position <= i <= end <= |s| && TextOfAll(Pieces(c, s, end, end)) == s[end..]
    ensures TextOfAll((if i > position then [Text(s[position..i])] else [])
                      + [LinkNode(target, s[i..end])] + Pieces(c, s, end, end)) == s[position..]
  {
    var before := if i > position then [Text(s[position..i])] else [];
    TextOfThree(before, LinkNode(target, s[i..end]), Pieces(c, s, end, end));
    TextOfLink(target, s[i..end]);
    if i > position {
      TextOfOne(Text(s[position..i]));
    }
    assert s[position..i] + s[i..end] + s[end..] == s[position..];
  }

  /** Rewriting citations keeps the text of the document. */
  lemma {:induction false} TextIsKept(c: Context, node: Node)
    ensures TextOf(Visited(c, node)) == TextOf(node)
    decreases node
  {
    if !Untouched(node) {
      TextsAreKept(c, node.children);
    }
  }

  lemma {:induction false} TextsAreKept(c: Context, children: seq<Node>)
    ensures TextOfAll(VisitedAll(c, children)) == TextOfAll(children)
    decreases children
  {
    if children == [] {
    } else {
      var front, last := children[..|children| - 1], children[|children| - 1];
      TextsAreKept(c, front);
      if IsRewritable(last) {
        PiecesKeepText(c, last.value, 0, 0);
        TextOfConcat(VisitedAll(c, front), Pieces(c, last.value, 0, 0));
        assert last.value[0..] == last.value;
      } else {
        TextIsKept(c, last);
        TextOfConcat(VisitedAll(c, front), [Visited(c, last)]);
        TextOfOne(Visited(c, last));
      }
    }
  }

  // ---------- What the pieces are ----------

  predicate AllDigits(s: string) {
    s != "" && forall k :: 0 <= k < |s| ==> IsDigit(s[k])
  }

  /** A link shows `[n]`, and n leads to a source with a page. */
  ghost predicate IsCitation(c: Context, node: Node) {
    exists digits :: AllDigits(digits) && Resolve(c, digits).Some?
                     && node == LinkNode(Resolve(c, digits).value, "[" + digits + "]")
  }

  /** Rewriting a text makes only non-empty texts and citations of known sources. */
  lemma {:induction false} PiecesAreTextsOrCitations(c: Context, s: string, position: nat, i: nat)
    requires position <= i <= |s|
    ensures forall node :: node in Pieces(c, s, position, i) ==> IsRewritable(node) || IsCitation(c, node)
    decreases |s| - i
  {
    if i < |s| {
      var found := MatchAt(s, i);
      if found.None? {
        PiecesAreTextsOrCitations(c, s, position, i + 1);
      } else {
        var end := found.value;
        var digits := s[i + 1..end - 1];
        if Resolve(c, digits).None? {
          PiecesAreTextsOrCitations(c, s, position, end);
        } else {
          PiecesAreTextsOrCitations(c, s, end, end);
          assert s[i..end] == "[" + digits + "]";
          assert AllDigits(digits);
          assert IsCitation(c, LinkNode(Resolve(c, digits).value, s[i..end]));
        }
      }
    }
  }

  // ---------- Nothing is left to rewrite ----------

  predicate Resolvable(c: Context, s: string, i: nat)
    requires i <= |s|
  {
    MatchAt(s, i).Some? && Resolve(c, s[i + 1..MatchAt(s, i).value - 1]).Some?
  }

  /** No `[n]` of this text leads to a source with a page. */
  predicate Settled(c: Context, s: string) {
    forall i :: 0 <= i < |s| ==> !Resolvable(c, s, i)
  }

  lemma {:induction false} DigitsEndInside(s: string, p: nat, q: nat, i: nat)
    requires p <= q <= |s| && i <= q - p
    ensures DigitsEnd(s[p..q], i) == if DigitsEnd(s, p + i) <= q then DigitsEnd(s, p + i) - p else q - p
    decreases q - p - i
  {
    if i < q - p && IsDigit(s[p + i]) {
      DigitsEndInside(s, p, q, i + 1);
    }
  }

  /** A match inside a part of the text is a match of the text. */
  lemma MatchInside(s: string, p: nat, q: nat, i: nat)
    requires p <= q <= |s| && i <= q - p
    ensures MatchAt(s[p..q], i).Some? ==> MatchAt(s, p + i) == Some(p + MatchAt(s[p..q], i).value)
  {
    if i < q - p && s[p + i] == '[' {
      DigitsEndInside(s, p, q, i + 1);
    }
  }

  lemma SliceOfSlice(s: string, p: nat, q: nat, a: nat, b: nat)
    requires p <= q <= |s| && a <= b <= q - p
    ensures s[p..q][a..b] == s[p + a..p + b]
  {
    var part, left, right := s[p..q], s[p..q][a..b], s[p + a..p + b];
    forall k | 0 <= k < |left| ensures left[k] == right[k] {
      assert left[k] == part[a + k] == s[p + a + k] == right[k];
    }
  }

  lemma SettledPart(c: Context, s: string, p: nat, q: nat)
    requires p <= q <= |s| && forall k :: p <= k < q ==> !Resolvable(c, s, k)
    ensures Settled(c, s[p..q])
  {
    forall i | 0 <= i < q - p ensures !Resolvable(c, s[p..q], i) {
      MatchInside(s, p, q, i);
      if MatchAt(s[p..q], i).Some? {
        var end := MatchAt(s[p..q], i).value;
        SliceOfSlice(s, p, q, i + 1, end - 1);
        assert !Resolvable(c, s, p + i);
      }
    }
  }

  /** No match starts inside another. */
  lemma NoneInside(c: Context, s: string, i: nat)
    requires i <= |s| && MatchAt(s, i).Some?
    ensures forall k :: i < k < MatchAt(s, i).value ==> !Resolvable(c, s, k)
  {
  }

  lemma {:induction false} PiecesAreSettled(c: Context, s: string, position: nat, i: nat)
    requires position <= i <= |s| && forall k :: position <= k < i ==> !Resolvable(c, s, k)
    ensures forall node :: node in Pieces(c, s, position, i) && node.Text? ==> Settled(c, node.value)
    decreases |s| - i
  {
    if i == |s| {
      SettledPart(c, s, position, |s|);
      assert s[position..|s|] == s[position..];
    } else {
      var found := MatchAt(s, i);
      if found.None? {
        PiecesAreSettled(c, s, position, i + 1);
      } else {
        var end := found.value;
        NoneInside(c, s, i);
        if Resolve(c, s[i + 1..end - 1]).None? {
          PiecesAreSettled(c, s, position, end);
        } else {
          PiecesAreSettled(c, s, end, end);
          SettledPart(c, s, position, i);
        }
      }
    }
  }

  lemma {:induction false} SettledIsOnePiece(c: Context, s: string, position: nat, i: nat)
    requires Settled(c, s) && position <= i <= |s|
    ensures Pieces(c, s, position, i) == if position < |s| then [Text(s[position..])] else []
    decreases |s| - i
  {
    if i < |s| {
      assert !Resolvable(c, s, i);
      SettledIsOnePiece(c, s, position, if MatchAt(s, i).None? then i + 1 else MatchAt(s, i).value);
    }
  }

  predicate Clean(c: Context, node: Node)
    decreases node
  {
    Untouched(node) || AllClean(c, node.children)
  }

  /** Every text that would be rewritten is settled. */
  predicate AllClean(c: Context, children: seq<Node>)
    decreases children
  {
    children == []
    || (AllClean(c, children[..|children| - 1])
        && var last := children[|children| - 1];
           if IsRewritable(last) then Settled(c, last.value) else Clean(c, last))
  }

  lemma {:induction false} CleanConcat(c: Context, a: seq<Node>, b: seq<Node>)
    requires AllClean(c, a) && AllClean(c, b)
    ensures AllClean(c, a + b)
    decreases |b|
  {
    if b == [] {
      assert a + b == a;
    } else {
      CleanConcat(c, a, b[..|b| - 1]);
      assert (a + b)[..|a + b| - 1] == a + b[..|b| - 1];
    }
  }

  lemma {:induction false} CleanPieces(c: Context, pieces: seq<Node>)
    requires forall node :: node in pieces ==> IsRewritable(node) || IsCitation(c, node)
    requires forall node :: node in pieces && node.Text? ==> Settled(c, node.value)
    ensures AllClean(c, pieces)
    decreases |pieces|
  {
    if pieces == [] {
    } else {
      assert pieces[|pieces| - 1] in pieces;
      CleanPieces(c, pieces[..|pieces| - 1]);
    }
  }

  /** After a rewrite no resolvable `[n]` is left in rewritable text, at any depth. */
  lemma {:induction false} VisitedIsClean(c: Context, node: Node)
    ensures Clean(c, Visited(c, node))
    decreases node
  {
    if !Untouched(node) {
      AllVisitedAreClean(c, node.children);
    }
  }

  lemma {:induction false} AllVisitedAreClean(c: Context, children: seq<Node>)
    ensures AllClean(c, VisitedAll(c, children))
    decreases children
  {
    if children == [] {
    } else {
      var front, last := children[..|children| - 1], children[|children| - 1];
      AllVisitedAreClean(c, front);
      if IsRewritable(last) {
        PiecesAreTextsOrCitations(c, last.value, 0, 0);
        PiecesAreSettled(c, last.value, 0, 0);
        CleanPieces(c, Pieces(c, last.value, 0, 0));
        CleanConcat(c, VisitedAll(c, front), Pieces(c, last.value, 0, 0));
      } else {
        VisitedIsClean(c, last);
        OneClean(c, Visited(c, last));
        CleanConcat(c, VisitedAll(c, front), [Visited(c, last)]);
      }
    }
  }

  lemma OneClean(c: Context, node: Node)
    requires !IsRewritable(node) && Clean(c, node)
    ensures AllClean(c, [node])
  {
    assert [node][..0] == [];
  }

  lemma {:induction false} CleanIsFixed(c: Context, node: Node)
    requires Clean(c, node)
    ensures Visited(c, node) == node
    decreases node
  {
    if !Untouched(node) {
      AllCleanAreFixed(c, node.children);
    }
  }

  lemma {:induction false} AllCleanAreFixed(c: Context, children: seq<Node>)
    requires AllClean(c, children)
    ensures VisitedAll(c, children) == children
    decreases children
  {
    if children == [] {
    } else {
      var front, last := children[..|children| - 1], children[|children| - 1];
      AllCleanAreFixed(c, front);
      if IsRewritable(last) {
        SettledIsOnePiece(c, last.value, 0, 0);
        assert last.value[0..] == last.value;
      } else {
        CleanIsFixed(c, last);
      }
    }
  }

  /** A second pass changes nothing. */
  lemma RewritingTwiceIsRewritingOnce(c: Context, node: Node)
    ensures Visited(c, Visited(c, node)) == Visited(c, node)
  {
    VisitedIsClean(c, node);
    CleanIsFixed(c, Visited(c, node));
  }

  /** A child that is not text keeps its place among its siblings, and stays as it is under code, links and images. */
  lemma {:induction false} OtherChildrenStay(c: Context, children: seq<Node>, k: nat)
    requires k < |children| && !IsRewritable(children[k])
    ensures var at := |VisitedAll(c, children[..k])|;
            && at < |VisitedAll(c, children)| && VisitedAll(c, children)[at] == Visited(c, children[k])
            && (Untouched(children[k]) ==> VisitedAll(c, children)[at] == children[k])
    decreases |children|
  {
    var n := |children| - 1;
    if k < n {
      OtherChildrenStay(c, children[..n], k);
      assert children[..n][..k] == children[..k];
    }
  }
}
