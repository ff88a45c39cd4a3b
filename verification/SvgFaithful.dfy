/** Detaching and reattaching around a cleaner that changes nothing, and what never happens to the text around blocks.
    */
module SvgFaithful {
  import opened Text
  import opened SvgTree
  import opened SvgBuild
  import opened SvgIdempotence
  import opened SvgBlocks
  import opened SvgDocument

  // ---- What is expected of a document ----

  /** Each outermost block rebuilt in its place; or removed with its tail text kept, when it is rejected or a blocked
      context is above it. */
  function ExpectKid(p: Policy, dropped: set<string>, n: Node, totals: Totals, blocked: bool): (Kid, Totals)
    decreases n, 1
  {
    if n.tag == Name("svg") then
      var (r, t) := Sanitize(p, dropped, n, totals);
      (if r == None || blocked then Goes(n.tail) else Stays(r.value.(tail := n.tail)), t)
    else
      var (m, t) := ExpectNode(p, dropped, n, totals, blocked);
      (Stays(m), t)
  }

  function ExpectKids(p: Policy, dropped: set<string>, nodes: seq<Node>, totals: Totals, blocked: bool)
    : (seq<Kid>, Totals)
    decreases nodes, 2
  {
    if nodes == [] then ([], totals)
    else
      var (first, t) := ExpectKid(p, dropped, nodes[0], totals, blocked);
      var (rest, u) := ExpectKids(p, dropped, nodes[1..], t, blocked);
      ([first] + rest, u)
  }

  function ExpectNode(p: Policy, dropped: set<string>, n: Node, totals: Totals, blocked: bool): (Node, Totals)
    decreases n, 0
  {
    var (kids, t) := ExpectKids(p, dropped, n.children, totals, blocked || IsBlocked(n.tag));
    (Settle(n, kids), t)
  }

  function Expected(p: Policy, dropped: set<string>, doc: Node): Node {
    if doc.tag == Name("svg") then
      match Sanitize(p, dropped, doc, Totals(0, 0)).0
      case None => Node(Name("div"), [], None, [], None)
      case Some(block) => Node(Name("div"), [], None, [block], None)
    else ExpectNode(p, dropped, doc, Totals(0, 0), false).0
  }

  // ---- The protocol does what is expected ----

  lemma PopFirst(blocks: seq<Option<Node>>, index: nat)
    requires index < |blocks|
    ensures index in StashFrom(blocks, index) && StashFrom(blocks, index)[index] == blocks[index]
    ensures StashFrom(blocks, index) - {index} == StashFrom(blocks, index + 1)
  {
  }

  lemma SliceParts<T>(s: seq<T>, index: nat, a: seq<T>, b: seq<T>)
    requires index + |a| + |b| <= |s| && s[index..index + |a + b|] == a + b
    ensures s[index..index + |a|] == a && s[index + |a|..index + |a| + |b|] == b
  {
    assert (a + b)[..|a|] == a && (a + b)[|a|..] == b;
    assert s[index..index + |a|] == s[index..index + |a + b|][..|a|];
    assert s[index + |a|..index + |a| + |b|] == s[index..index + |a + b|][|a|..];
  }

  /** Swapping back the blocks that were detached from a node. */
  lemma {:induction false} DetachThenSwap(p: Policy, dropped: set<string>, n: Node, index: nat, totals: Totals,
                                          all: seq<Option<Node>>, blocked: bool)
    requires NoMarks(n)
    requires var blocks := DetachNode(p, dropped, n, index, totals).1;
             index + |blocks| <= |all| && all[index..index + |blocks|] == blocks
    ensures var (m, blocks, t) := DetachNode(p, dropped, n, index, totals);
            && SwapKid(m, StashFrom(all, index), blocked) ==
               (ExpectKid(p, dropped, n, totals, blocked).0, StashFrom(all, index + |blocks|))
            && ExpectKid(p, dropped, n, totals, blocked).1 == t
    decreases n, 1
  {
    hide Sanitize, NoMarksIn, StashFrom, SwapKids, DetachChildren, ExpectKids, IsBlocked, Settle;
    if n.tag == Name("svg") {
      PopFirst(all, index);
      assert all[index..index + 1][0] == all[index];
    } else {
      DetachThenSwapAll(p, dropped, n.children, index, totals, all, blocked || IsBlocked(n.tag));
      SettleChildren(n, DetachNode(p, dropped, n, index, totals).0.children,
                     ExpectKids(p, dropped, n.children, totals, blocked || IsBlocked(n.tag)).0);
    }
  }

  /** The children that a node had before are not looked at when it is settled. */
  lemma SettleChildren(n: Node, children: seq<Node>, kids: seq<Kid>)
    ensures Settle(n.(children := children), kids) == Settle(n, kids)
  {
  }

  lemma {:induction false} DetachThenSwapAll(p: Policy, dropped: set<string>, nodes: seq<Node>, index: nat,
                                             totals: Totals,
                                             all: seq<Option<Node>>, blocked: bool)
    requires NoMarksIn(nodes)
    requires var blocks := DetachChildren(p, dropped, nodes, index, totals).1;
             index + |blocks| <= |all| && all[index..index + |blocks|] == blocks
    ensures var (ms, blocks, t) := DetachChildren(p, dropped, nodes, index, totals);
            && SwapKids(ms, StashFrom(all, index), blocked) ==
               (ExpectKids(p, dropped, nodes, totals, blocked).0, StashFrom(all, index + |blocks|))
            && ExpectKids(p, dropped, nodes, totals, blocked).1 == t
    decreases nodes, 2
  {
    hide Sanitize, NoMarks, StashFrom, SwapKid, DetachNode, ExpectKid;
    if nodes != [] {
      var (first, a, t) := DetachNode(p, dropped, nodes[0], index, totals);
      var (rest, b, u) := DetachChildren(p, dropped, nodes[1..], index + |a|, t);
      SliceParts(all, index, a, b);
      DetachThenSwap(p, dropped, nodes[0], index, totals, all, blocked);
      DetachThenSwapAll(p, dropped, nodes[1..], index + |a|, t, all, blocked);
      assert ([first] + rest)[1..] == rest;
    }
  }

  lemma DivOpen()
    ensures !IsBlocked(Name("div"))
  {
    AllEach("div", IsLowerLetter);
    LowerLetters("div");
  }

  lemma SettleOne(n: Node, kid: Kid)
    ensures Settle(n, [kid]) ==
            match kid
            case Stays(node) => n.(children := [node])
            case Goes(tail) => n.(text := OrNone(OrEmpty(n.text) + OrEmpty(tail)), children := [])
  {
    assert [kid][1..] == [] && !AnyGone([]) && Nodes([]) == [];
    match kid
    case Stays(node) =>
      assert Nodes([kid]) == [node] + [];
    case Goes(tail) =>
      assert AnyGone([kid]) && Merge(OrEmpty(n.text) + OrEmpty(tail), []).1 == [];
      assert Merge(OrEmpty(n.text), [kid]) == Merge(OrEmpty(n.text) + OrEmpty(tail), []);
  }

  lemma SwapOne(n: Node, stash: Stash, blocked: bool)
    ensures SwapKids([n], stash, blocked) == ([SwapKid(n, stash, blocked).0], SwapKid(n, stash, blocked).1)
  {
    hide SwapKid;
    assert [n][1..] == [];
    var k := SwapKid(n, stash, blocked).0;
    assert SwapKids([], SwapKid(n, stash, blocked).1, blocked).0 == [];
    assert [k] + [] == [k];
  }

  /** A document that is one block. */
  lemma RootBlock(p: Policy, dropped: set<string>, doc: Node)
    requires doc.tag == Name("svg") && SoundPolicy(p) && KeepsNamespace(p, dropped)
    ensures var (d, blocks) := Detach(p, dropped, doc); Reattach(d, blocks) == Expected(p, dropped, doc)
  {
    hide Sanitize, SoundPolicy, KeepsNamespace, Clean, IsBlocked, Settle;
    var (d, blocks) := Detach(p, dropped, doc);
    var placeholder := Placeholder(0, None);
    PopFirst(blocks, 0);
    DivOpen();
    SwapOne(placeholder, StashFrom(blocks, 0), false);
    SettleOne(d, SwapKid(placeholder, StashFrom(blocks, 0), false).0);
    if blocks[0].Some? {
      SanitizedClean(p, dropped, doc, Totals(0, 0));
      assert blocks[0].value.(tail := None) == blocks[0].value;
    }
  }

  lemma {:induction false} NoSvgUnchanged(p: Policy, dropped: set<string>, n: Node, totals: Totals, blocked: bool)
    requires !HasSvg(n)
    ensures ExpectNode(p, dropped, n, totals, blocked) == (n, totals)
    decreases n, 0
  {
    hide IsBlocked, ExpectKids;
    NoSvgKids(p, dropped, n.children, totals, blocked || IsBlocked(n.tag));
  }

  lemma {:induction false} NoSvgKids(p: Policy, dropped: set<string>, nodes: seq<Node>, totals: Totals, blocked: bool)
    requires !AnySvg(nodes)
    ensures var (kids, t) := ExpectKids(p, dropped, nodes, totals, blocked);
            t == totals && !AnyGone(kids) && Nodes(kids) == nodes
    decreases nodes, 2
  {
    hide ExpectNode;
    if nodes != [] {
      NoSvgUnchanged(p, dropped, nodes[0], totals, blocked);
      NoSvgKids(p, dropped, nodes[1..], totals, blocked);
      var first := ExpectKid(p, dropped, nodes[0], totals, blocked).0;
      var rest := ExpectKids(p, dropped, nodes[1..], totals, blocked).0;
      assert ([first] + rest)[1..] == rest;
      assert nodes == [nodes[0]] + nodes[1..];
    }
  }

  /** Around a cleaner that changes nothing, a document without placeholders of its own becomes exactly what is
      expected. */
  lemma FaithfulToIdentity(p: Policy, dropped: set<string>, doc: Node)
    requires SoundPolicy(p) && KeepsNamespace(p, dropped) && NoMarks(doc)
    ensures CleanDocument(p, dropped, (n: Node) => n, doc) == Expected(p, dropped, doc)
  {
    hide Sanitize, SoundPolicy, KeepsNamespace, DetachNode, SwapNode, ExpectNode, NoMarks, StashFrom;
    if !HasSvg(doc) {
      NoSvgUnchanged(p, dropped, doc, Totals(0, 0), false);
    } else if doc.tag == Name("svg") {
      RootBlock(p, dropped, doc);
    } else {
      var (d, blocks) := Detach(p, dropped, doc);
      assert blocks[0..0 + |blocks|] == blocks;
      DetachThenSwap(p, dropped, doc, 0, Totals(0, 0), blocks, false);
      NotPlaceholder(p, dropped, doc);
      SwapKidNode(d, StashFrom(blocks, 0));
      ExpectKidNode(p, dropped, doc);
    }
  }

  lemma NotPlaceholder(p: Policy, dropped: set<string>, doc: Node)
    requires NoMarks(doc) && doc.tag != Name("svg")
    ensures var d := DetachNode(p, dropped, doc, 0, Totals(0, 0)).0; d.tag.Comment? ==> d.tag.mark == None
  {
  }

  lemma SwapKidNode(n: Node, stash: Stash)
    requires n.tag.Comment? ==> n.tag.mark == None
    ensures SwapKid(n, stash, false).0 == Stays(SwapNode(n, stash, false).0)
  {
    hide SwapNode;
  }

  lemma ExpectKidNode(p: Policy, dropped: set<string>, n: Node)
    requires n.tag != Name("svg")
    ensures ExpectKid(p, dropped, n, Totals(0, 0), false).0 == Stays(ExpectNode(p, dropped, n, Totals(0, 0), false).0)
  {
    hide ExpectNode;
  }

  // ---- The text around the blocks ----

  /** The text of a tree outside its blocks and comments. */
  function OuterText(n: Node): string
    decreases n, 0
  {
    if n.tag == Name("svg") || !n.tag.Name? then "" else OrEmpty(n.text) + OuterTexts(n.children)
  }

  function OuterTexts(nodes: seq<Node>): string
    decreases nodes, 1
  {
    if nodes == [] then "" else OuterText(nodes[0]) + OrEmpty(nodes[0].tail) + OuterTexts(nodes[1..])
  }

  function KidsText(kids: seq<Kid>): string {
    if kids == [] then ""
    else
      (match kids[0] case Stays(n) => OuterText(n) + OrEmpty(n.tail) case Goes(tail) => OrEmpty(tail))
      + KidsText(kids[1..])
  }

  lemma TailOutside(n: Node, tail: Option<string>)
    ensures OuterText(n.(tail := tail)) == OuterText(n)
  {
  }

  lemma {:induction false} MergeText(text: string, kids: seq<Kid>)
    ensures var (front, nodes) := Merge(text, kids); front + OuterTexts(nodes) == text + KidsText(kids)
    decreases |kids|
  {
    hide OuterText;
    if kids != [] {
      if kids[0].Goes? {
        MergeText(text + OrEmpty(kids[0].tail), kids[1..]);
        Regroup(text, OrEmpty(kids[0].tail), KidsText(kids[1..]));
      } else {
        var n := kids[0].node;
        MergeText(OrEmpty(n.tail), kids[1..]);
        var (tail, rest) := Merge(OrEmpty(n.tail), kids[1..]);
        var m := n.(tail := OrNone(tail));
        TailOutside(n, m.tail);
        assert ([m] + rest)[1..] == rest;
        Regroup(OuterText(n), tail, OuterTexts(rest));
        Regroup(OuterText(n), OrEmpty(n.tail), KidsText(kids[1..]));
      }
    }
  }

  lemma {:induction false} NodesText(kids: seq<Kid>)
    requires !AnyGone(kids)
    ensures OuterTexts(Nodes(kids)) == KidsText(kids)
  {
    if kids != [] {
      NodesText(kids[1..]);
      assert Nodes(kids)[1..] == Nodes(kids[1..]);
    }
  }

  lemma SettleText(n: Node, kids: seq<Kid>)
    ensures var m := Settle(n, kids);
            && m.tag == n.tag && m.tail == n.tail
            && OuterText(m) == (if n.tag == Name("svg") || !n.tag.Name? then "" else OrEmpty(n.text) + KidsText(kids))
  {
    hide KidsText, Merge, OuterTexts;
    if AnyGone(kids) {
      MergeText(OrEmpty(n.text), kids);
    } else {
      NodesText(kids);
    }
  }

  lemma {:induction false} SwapText(n: Node, stash: Stash, blocked: bool)
    requires PureStash(stash)
    ensures var m := SwapNode(n, stash, blocked).0; OuterText(m) == OuterText(n) && m.tag == n.tag && m.tail == n.tail
    decreases n, 0
  {
    hide IsBlocked, Settle, SwapKids, OuterTexts;
    SwapKidsText(n.children, stash, blocked || IsBlocked(n.tag));
    SettleText(n, SwapKids(n.children, stash, blocked || IsBlocked(n.tag)).0);
  }

  lemma {:induction false} SwapKidsText(nodes: seq<Node>, stash: Stash, blocked: bool)
    requires PureStash(stash)
    ensures KidsText(SwapKids(nodes, stash, blocked).0) == OuterTexts(nodes)
    decreases nodes, 2
  {
    hide SwapNode, NoMarks;
    if nodes != [] {
      var n := nodes[0];
      var (first, s) := SwapKid(n, stash, blocked);
      if !(n.tag.Comment? && n.tag.mark.Some?) {
        SwapText(n, stash, blocked);
        SwapNoMarks(n, stash, blocked);
      }
      SwapKidsText(nodes[1..], s, blocked);
      assert SwapKids(nodes, stash, blocked).0[1..] == SwapKids(nodes[1..], s, blocked).0;
    }
  }

  lemma {:induction false} DetachText(p: Policy, dropped: set<string>, n: Node, index: nat, totals: Totals)
    ensures var m := DetachNode(p, dropped, n, index, totals).0; OuterText(m) == OuterText(n) && m.tail == n.tail
    decreases n, 0
  {
    hide Sanitize, DetachChildren, OuterTexts;
    if n.tag != Name("svg") {
      DetachTexts(p, dropped, n.children, index, totals);
    }
  }

  lemma {:induction false} DetachTexts(p: Policy, dropped: set<string>, nodes: seq<Node>, index: nat, totals: Totals)
    ensures OuterTexts(DetachChildren(p, dropped, nodes, index, totals).0) == OuterTexts(nodes)
    decreases nodes, 1
  {
    hide DetachNode, OuterText;
    if nodes != [] {
      var (first, a, t) := DetachNode(p, dropped, nodes[0], index, totals);
      DetachText(p, dropped, nodes[0], index, totals);
      DetachTexts(p, dropped, nodes[1..], index + |a|, t);
      var rest := DetachChildren(p, dropped, nodes[1..], index + |a|, t).0;
      assert ([first] + rest)[1..] == rest;
    }
  }

  /** For any cleaner, all text outside the blocks is what the cleaner left; and what it was given is the text of the
      document outside its blocks. */
  lemma OuterTextKept(p: Policy, dropped: set<string>, doc: Node, cleaned: Node)
    requires SoundPolicy(p) && KeepsNamespace(p, dropped)
    ensures var (d, blocks) := Detach(p, dropped, doc);
            OuterText(d) == OuterText(doc) && OuterText(Reattach(cleaned, blocks)) == OuterText(cleaned)
  {
    hide Sanitize, SoundPolicy, KeepsNamespace, DetachNode, SwapNode, OuterText, PureStash, Clean;
    var blocks := Detach(p, dropped, doc).1;
    DetachClean(p, dropped, doc);
    CleanStash(p, dropped, blocks, 0);
    SwapText(cleaned, StashFrom(blocks, 0), false);
    if doc.tag == Name("svg") {
      RootText(doc);
    } else {
      DetachText(p, dropped, doc, 0, Totals(0, 0));
    }
  }

  lemma RootText(doc: Node)
    requires doc.tag == Name("svg")
    ensures OuterText(doc) == "" == OuterText(Node(Name("div"), [], None, [Placeholder(0, None)], None))
  {
    var h := Placeholder(0, None);
    assert [h][1..] == [];
    assert OuterTexts([h]) == "";
  }
}
