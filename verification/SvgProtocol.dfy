/** `clean_document` step by step: the stash and the totals change while the document is walked. */
module SvgProtocol {
  import opened Text
  import opened SvgTree
  import opened SvgBuild
  import opened SvgDocument

  class StashBox {
    var blocks: Stash

    constructor ()
      ensures blocks == map[]
    {
      blocks := map[];
    }

    /** `stash.pop(index, None)`. */
    method Pop(index: nat) returns (found: Option<Node>)
      modifies this
      ensures found == (if index in old(blocks) then old(blocks)[index] else None)
      ensures blocks == old(blocks) - {index}
    {
      found := if index in blocks then blocks[index] else None;
      blocks := blocks - {index};
    }
  }

  /** The blocks of one part of the document under their numbers. */
  function Numbered(blocks: seq<Option<Node>>, index: nat): Stash {
    if blocks == [] then map[] else Numbered(blocks[1..], index + 1)[index := blocks[0]]
  }

  lemma {:induction false} NumberedAt(blocks: seq<Option<Node>>, index: nat)
    ensures forall i: nat :: i in Numbered(blocks, index) <==> index <= i < index + |blocks|
    ensures forall i: nat :: i in Numbered(blocks, index) ==> Numbered(blocks, index)[i] == blocks[i - index]
  {
    if blocks != [] {
      NumberedAt(blocks[1..], index + 1);
    }
  }

  lemma NumberedMore(a: seq<Option<Node>>, b: seq<Option<Node>>, index: nat)
    ensures Numbered(a, index) + Numbered(b, index + |a|) == Numbered(a + b, index)
  {
    NumberedAt(a, index);
    NumberedAt(b, index + |a|);
    NumberedAt(a + b, index);
  }

  lemma DetachStep(p: Policy, dropped: set<string>, nodes: seq<Node>, k: nat, index: nat, totals: Totals)
    requires k < |nodes|
    ensures var (m, a, t) := DetachNode(p, dropped, nodes[k], index, totals);
            var (ms, b, u) := DetachChildren(p, dropped, nodes[k + 1..], index + |a|, t);
            DetachChildren(p, dropped, nodes[k..], index, totals) == ([m] + ms, a + b, u)
  {
    hide DetachNode;
    Rest(nodes, k);
  }

  /** `_detach_svgs` below one node. */
  method DetachTree(p: Policy, dropped: set<string>, n: Node, index: nat, totals: CallTotals, stash: StashBox)
    returns (m: Node, next: nat)
    modifies totals, stash
    ensures var (d, blocks, t) := DetachNode(p, dropped, n, index, Totals(old(totals.blocks), old(totals.size)));
            && m == d && next == index + |blocks|
            && Totals(totals.blocks, totals.size) == t
            && stash.blocks == old(stash.blocks) + Numbered(blocks, index)
    decreases n
  {
    hide Sanitize, DetachChildren, Numbered;
    if n.tag == Name("svg") {
      var r := SanitizeSvgElement(p, dropped, n, totals);
      stash.blocks := stash.blocks[index := r];
      assert stash.blocks == old(stash.blocks) + Numbered([r], index) by { NumberedOne(old(stash.blocks), r, index); }
      return Placeholder(index, n.tail), index + 1;
    }
    var children: seq<Node> := [];
    next := index;
    ghost var start := Totals(totals.blocks, totals.size);
    ghost var blocks: seq<Option<Node>> := [];
    assert n.children[0..] == n.children;
    assert Numbered([], index) == map[] by { NumberedNone(index); }
    for k := 0 to |n.children|
      invariant next == index + |blocks|
      invariant stash.blocks == old(stash.blocks) + Numbered(blocks, index)
      invariant var (ms, b, u) := DetachChildren(p, dropped, n.children, index, start);
                var (rest, more, v) :=
                  DetachChildren(p, dropped, n.children[k..], next, Totals(totals.blocks, totals.size));
                ms == children + rest && b == blocks + more && u == v
    {
      ghost var before := Totals(totals.blocks, totals.size);
      ghost var from := next;
      ghost var a := DetachNode(p, dropped, n.children[k], next, before).1;
      DetachStep(p, dropped, n.children, k, next, before);
      var child;
      child, next := DetachTree(p, dropped, n.children[k], next, totals, stash);
      NumberedMore(blocks, a, index);
      ghost var (rest, more, _) :=
        DetachChildren(p, dropped, n.children[k + 1..], next, Totals(totals.blocks, totals.size));
      Regroup(children, [child], rest);
      Regroup(blocks, a, more);
      MapPlus(old(stash.blocks), Numbered(blocks, index), Numbered(a, from));
      children := children + [child];
      blocks := blocks + a;
    }
    assert n.children[|n.children|..] == [];
    NoneLeft(p, dropped, next, Totals(totals.blocks, totals.size));
    Regroup(children, [], []);
    Regroup(blocks, [], []);
    m := n.(children := children);
  }

  lemma NoneLeft(p: Policy, dropped: set<string>, index: nat, totals: Totals)
    ensures DetachChildren(p, dropped, [], index, totals) == ([], [], totals)
  {
  }

  lemma NumberedNone(index: nat)
    ensures Numbered([], index) == map[]
  {
  }

  lemma NumberedOne(m: Stash, r: Option<Node>, index: nat)
    ensures m[index := r] == m + Numbered([r], index)
  {
    assert [r][1..] == [];
    NumberedAt([r], index);
  }

  lemma MapPlus(m: Stash, a: Stash, b: Stash)
    ensures m + a + b == m + (a + b)
  {
  }

  lemma SwapStep(nodes: seq<Node>, k: nat, stash: Stash, blocked: bool)
    requires k < |nodes|
    ensures var (kid, s) := SwapKid(nodes[k], stash, blocked);
            var (rest, t) := SwapKids(nodes[k + 1..], s, blocked);
            SwapKids(nodes[k..], stash, blocked) == ([kid] + rest, t)
  {
    hide SwapKid;
    Rest(nodes, k);
  }

  /** `_reattach_svgs` below one node, `blocked` when a blocked context is above it. */
  method ReattachTree(n: Node, stash: StashBox, blocked: bool) returns (m: Node)
    modifies stash
    ensures (m, stash.blocks) == SwapNode(n, old(stash.blocks), blocked)
    decreases n
  {
    hide SwapKids, IsBlocked, Settle;
    var inner := blocked || IsBlocked(n.tag);
    var kids: seq<Kid> := [];
    assert n.children[0..] == n.children;
    for k := 0 to |n.children|
      invariant var (all, s) := SwapKids(n.children, old(stash.blocks), inner);
                var (rest, t) := SwapKids(n.children[k..], stash.blocks, inner);
                all == kids + rest && s == t
    {
      var child := n.children[k];
      SwapStep(n.children, k, stash.blocks, inner);
      var kid;
      match child.tag {
        case Comment(Some(index)) =>
          var found := stash.Pop(index);
          kid := if found == None || inner then Goes(child.tail) else Stays(found.value.(tail := child.tail));
        case _ =>
          var swapped := ReattachTree(child, stash, inner);
          kid := Stays(swapped);
      }
      Regroup(kids, [kid], SwapKids(n.children[k + 1..], stash.blocks, inner).0);
      kids := kids + [kid];
    }
    assert n.children[|n.children|..] == [];
    NoKids(stash.blocks, inner);
    Regroup(kids, [], []);
    m := Settle(n, kids);
  }

  lemma NoKids(stash: Stash, blocked: bool)
    ensures SwapKids([], stash, blocked) == ([], stash)
  {
  }

  lemma NumberedAll(blocks: seq<Option<Node>>)
    ensures map[] + Numbered(blocks, 0) == StashFrom(blocks, 0)
  {
    NumberedAt(blocks, 0);
  }

  /** `clean_document`. */
  method CleanDocumentSteps(p: Policy, dropped: set<string>, cleaner: Node -> Node, doc: Node) returns (result: Node)
    ensures result == CleanDocument(p, dropped, cleaner, doc)
  {
    hide DetachNode, SwapNode, Sanitize, HasSvg, StashFrom, Numbered;
    if !HasSvg(doc) {
      return cleaner(doc);
    }
    var totals := new CallTotals();
    var stash := new StashBox();
    var detached;
    if doc.tag == Name("svg") {
      var block := SanitizeSvgElement(p, dropped, doc, totals);
      stash.blocks := stash.blocks[0 := block];
      NumberedOne(map[], block, 0);
      NumberedAll([block]);
      detached := Node(Name("div"), [], None, [Placeholder(0, None)], None);
    } else {
      var next;
      detached, next := DetachTree(p, dropped, doc, 0, totals, stash);
      NumberedAll(Detach(p, dropped, doc).1);
    }
    result := ReattachTree(cleaner(detached), stash, false);
  }
}
