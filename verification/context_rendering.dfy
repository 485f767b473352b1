/**
 render_selected_docs: blocks regrouped by document, numbered by group, and what a shorter list of them renders
 to.
 */
module ContextRendering {
  import opened Characters

  /**
   A scored chunk.  `document` is its document_identity, `heading` its header without the citation number, `content`
   the text below it, `key` the hash that chunk_key computes.
   */
  datatype Item = Item(document: nat, section: string, heading: string, content: string, score: real, key: string)

  const SEPARATOR := "\n\n---\n\n"

  // ---------- Grouping ----------

  function Of(items: seq<Item>, document: nat): (r: seq<Item>)
    ensures |r| <= |items|
  {
    if items == [] then [] else (if items[0].document == document then [items[0]] else []) + Of(items[1..], document)
  }

  function NotOf(items: seq<Item>, document: nat): (r: seq<Item>)
    ensures |r| <= |items|
    ensures items != [] && items[0].document == document ==> |r| < |items|
  {
    if items == [] then [] else (if items[0].document != document then [items[0]] else []) + NotOf(items[1..], document)
  }

  /** group_by_document, flattened: documents in the order of their first block. */
  function Regrouped(items: seq<Item>): seq<Item>
    decreases |items|
  {
    if items == [] then []
    else Of(items, items[0].document) + Regrouped(NotOf(items, items[0].document))
  }

  function Block(item: Item, citation: nat, first: bool): string {
    (if first then "[" + Digits(citation) + "] " else "") + item.heading + "\n" + item.content
  }

  /** The blocks of one document; only the first shows its number. */
  function GroupBlocks(group: seq<Item>, citation: nat): (r: seq<string>)
    ensures |r| == |group|
  {
    if group == [] then []
    else GroupBlocks(group[..|group| - 1], citation) + [Block(group[|group| - 1], citation, |group| == 1)]
  }

  function Blocks(items: seq<Item>, citation: nat): seq<string>
    decreases |items|
  {
    if items == [] then []
    else
      GroupBlocks(Of(items, items[0].document), citation) + Blocks(NotOf(items, items[0].document), citation + 1)
  }

  function Joined(blocks: seq<string>): string {
    if blocks == [] then ""
    else if |blocks| == 1 then blocks[0]
    else Joined(blocks[..|blocks| - 1]) + SEPARATOR + blocks[|blocks| - 1]
  }

  /** The rendered context. */
  function Context(items: seq<Item>): string {
    Joined(Blocks(items, 1))
  }

  // ---------- Grouped lists ----------

  predicate Grouped(items: seq<Item>) {
    Regrouped(items) == items
  }

  lemma {:induction false} OfMembers(items: seq<Item>, document: nat)
    ensures forall item :: item in Of(items, document) <==> item in items && item.document == document
    ensures forall item :: item in NotOf(items, document) <==> item in items && item.document != document
  {
    if items == [] {
    } else {
      OfMembers(items[1..], document);
      assert items == [items[0]] + items[1..];
    }
  }

  lemma {:induction false} OfAll(items: seq<Item>, document: nat)
    requires forall item :: item in items ==> item.document == document
    ensures Of(items, document) == items && NotOf(items, document) == []
  {
    if items == [] {
    } else {
      OfAll(items[1..], document);
    }
  }

  lemma {:induction false} OfNone(items: seq<Item>, document: nat)
    requires forall item :: item in items ==> item.document != document
    ensures Of(items, document) == [] && NotOf(items, document) == items
  {
    if items == [] {
    } else {
      OfNone(items[1..], document);
    }
  }

  /** One document's items followed by others split back into the two. */
  lemma {:induction false} SplitGroup(group: seq<Item>, rest: seq<Item>, document: nat)
    requires forall item :: item in group ==> item.document == document
    requires forall item :: item in rest ==> item.document != document
    ensures Of(group + rest, document) == group && NotOf(group + rest, document) == rest
  {
    if group == [] {
      assert group + rest == rest;
      OfNone(rest, document);
    } else {
      assert group[0] in group;
      assert (group + rest)[1..] == group[1..] + rest;
      SplitGroup(group[1..], rest, document);
    }
  }

  lemma {:induction false} RegroupedMembers(items: seq<Item>)
    ensures forall item :: item in Regrouped(items) <==> item in items
    decreases |items|
  {
    if items == [] {
    } else {
      OfMembers(items, items[0].document);
      RegroupedMembers(NotOf(items, items[0].document));
    }
  }

  lemma {:induction false} OfStarts(items: seq<Item>)
    requires items != []
    ensures Of(items, items[0].document) != [] && Of(items, items[0].document)[0] == items[0]
  {
  }

  /** Regrouping twice is regrouping once, and renders the same blocks. */
  lemma {:induction false} RegroupedIsGrouped(items: seq<Item>, citation: nat)
    ensures Grouped(Regrouped(items))
    ensures Blocks(Regrouped(items), citation) == Blocks(items, citation)
    decreases |items|
  {
    if items == [] {
    } else {
      var document := items[0].document;
      var group, others := Of(items, document), NotOf(items, document);
      OfStarts(items);
      OfMembers(items, document);
      RegroupedMembers(others);
      RegroupedIsGrouped(others, citation + 1);
      SplitGroup(group, Regrouped(others), document);
      assert (group + Regrouped(others))[0].document == document;
    }
  }

  /** The first document of a grouped list comes first, and what follows is grouped. */
  lemma GroupedSplits(items: seq<Item>) returns (group: seq<Item>, rest: seq<Item>)
    requires Grouped(items) && items != []
    ensures items == group + rest && group != [] && Grouped(rest)
    ensures forall item :: item in group ==> item.document == items[0].document
    ensures forall item :: item in rest ==> item.document != items[0].document
  {
    var document := items[0].document;
    var others := NotOf(items, document);
    group, rest := Of(items, document), Regrouped(others);
    OfStarts(items);
    OfMembers(items, document);
    RegroupedMembers(others);
    SplitGroup(group, rest, document);
    assert others == rest;
  }

  lemma {:induction false} GroupBlocksPrefix(group: seq<Item>, citation: nat, k: nat)
    requires k <= |group|
    ensures GroupBlocks(group[..k], citation) == GroupBlocks(group, citation)[..k]
  {
    if k < |group| {
      GroupBlocksPrefix(group[..|group| - 1], citation, k);
      assert group[..|group| - 1][..k] == group[..k];
    } else {
      assert group[..k] == group;
    }
  }

  lemma OneGroup(group: seq<Item>, citation: nat)
    requires forall i :: 0 <= i < |group| ==> group[i].document == group[0].document
    ensures Grouped(group) && Blocks(group, citation) == GroupBlocks(group, citation)
  {
    if group != [] {
      OfAll(group, group[0].document);
    }
  }

  lemma TwoParts(group: seq<Item>, rest: seq<Item>, citation: nat)
    requires group != [] && forall item :: item in group ==> item.document == group[0].document
    requires forall item :: item in rest ==> item.document != group[0].document
    ensures Regrouped(group + rest) == group + Regrouped(rest)
    ensures Blocks(group + rest, citation) == GroupBlocks(group, citation) + Blocks(rest, citation + 1)
  {
    SplitGroup(group, rest, group[0].document);
    assert (group + rest)[0] == group[0];
  }

  lemma PrefixOfFirstGroup(group: seq<Item>, rest: seq<Item>, citation: nat, k: nat)
    requires group != [] && forall item :: item in group ==> item.document == group[0].document
    requires forall item :: item in rest ==> item.document != group[0].document
    requires k <= |group|
    ensures Grouped((group + rest)[..k])
    ensures Blocks((group + rest)[..k], citation) == GroupBlocks(group, citation)[..k]
  {
    assert (group + rest)[..k] == group[..k];
    assert forall i :: 0 <= i < k ==> group[..k][i] in group;
    OneGroup(group[..k], citation);
    GroupBlocksPrefix(group, citation, k);
  }

  lemma PrefixBeyondFirstGroup(group: seq<Item>, rest: seq<Item>, citation: nat, m: nat)
    requires group != [] && forall item :: item in group ==> item.document == group[0].document
    requires forall item :: item in rest ==> item.document != group[0].document
    requires m <= |rest| && Grouped(rest[..m])
    ensures Grouped((group + rest)[..|group| + m])
    ensures Blocks((group + rest)[..|group| + m], citation)
              == GroupBlocks(group, citation) + Blocks(rest[..m], citation + 1)
  {
    assert (group + rest)[..|group| + m] == group + rest[..m];
    TwoParts(group, rest[..m], citation);
  }

  predicate RendersPrefix(items: seq<Item>, citation: nat, k: nat)
    requires k <= |items|
  {
    && Grouped(items[..k]) && |Blocks(items, citation)| == |items|
    && Blocks(items[..k], citation) == Blocks(items, citation)[..k]
  }

  lemma TakeConcat<T>(a: seq<T>, b: seq<T>, k: nat)
    requires k <= |a| + |b|
    ensures (a + b)[..k] == if k <= |a| then a[..k] else a + b[..k - |a|]
  {
  }

  lemma StepWithin(group: seq<Item>, rest: seq<Item>, citation: nat, k: nat)
    requires group != [] && forall item :: item in group ==> item.document == group[0].document
    requires forall item :: item in rest ==> item.document != group[0].document
    requires k <= |group| && |Blocks(rest, citation + 1)| == |rest|
    ensures RendersPrefix(group + rest, citation, k)
  {
    TwoParts(group, rest, citation);
    TakeConcat(GroupBlocks(group, citation), Blocks(rest, citation + 1), k);
    PrefixOfFirstGroup(group, rest, citation, k);
  }

  lemma StepBeyond(group: seq<Item>, rest: seq<Item>, citation: nat, m: nat)
    requires group != [] && forall item :: item in group ==> item.document == group[0].document
    requires forall item :: item in rest ==> item.document != group[0].document
    requires m <= |rest| && RendersPrefix(rest, citation + 1, m)
    ensures RendersPrefix(group + rest, citation, |group| + m)
  {
    TwoParts(group, rest, citation);
    TakeConcat(GroupBlocks(group, citation), Blocks(rest, citation + 1), |group| + m);
    PrefixBeyondFirstGroup(group, rest, citation, m);
  }

  /** A prefix of a grouped list is grouped, and renders to a prefix of its blocks. */
  lemma {:induction false} GroupedPrefix(items: seq<Item>, citation: nat, k: nat)
    requires Grouped(items) && k <= |items|
    ensures RendersPrefix(items, citation, k)
    decreases |items|
  {
    if items == [] {
    } else {
      var group, rest := GroupedSplits(items);
      if k <= |group| {
        GroupedPrefix(rest, citation + 1, 0);
        StepWithin(group, rest, citation, k);
      } else {
        GroupedPrefix(rest, citation + 1, k - |group|);
        StepBeyond(group, rest, citation, k - |group|);
      }
    }
  }

  predicate IsPrefix(a: string, b: string) {
    a <= b
  }

  lemma {:induction false} JoinedPrefix(blocks: seq<string>, k: nat)
    requires k <= |blocks|
    ensures IsPrefix(Joined(blocks[..k]), Joined(blocks))
  {
    if k < |blocks| {
      JoinedPrefix(blocks[..|blocks| - 1], k);
      assert blocks[..|blocks| - 1][..k] == blocks[..k];
    } else {
      assert blocks[..k] == blocks;
    }
  }

  /**
   Dropping blocks from the end of a grouped list cuts the context's text short and changes nothing before the
   cut.
   */
  lemma ContextPrefix(items: seq<Item>, k: nat)
    requires Grouped(items) && k <= |items|
    ensures Grouped(items[..k]) && IsPrefix(Context(items[..k]), Context(items))
  {
    GroupedPrefix(items, 1, k);
    JoinedPrefix(Blocks(items, 1), k);
  }

  lemma ContextRegrouped(items: seq<Item>)
    ensures Grouped(Regrouped(items)) && Context(Regrouped(items)) == Context(items)
  {
    RegroupedIsGrouped(items, 1);
  }
}
