/** The protocol around a foreign cleaner: every outermost `svg` is taken out of the document, the rest is cleaned,
    and the blocks that survived are put back. */
module SvgDocument {
  import opened Text
  import opened SvgTree
  import opened SvgBuild
  import opened SvgIdempotence
  import opened SvgBlocks
  import SvgTails

  // ---- Detaching ----

  function Placeholder(index: nat, tail: Option<string>): Node {
    Node(Comment(Some(index)), [], None, [], tail)
  }

  /** `_detach_svgs` below the root: placeholders are numbered in document order from `index`, and the blocks are
      validated in the same order against the same totals. */
  function DetachNode(p: Policy, dropped: set<string>, n: Node, index: nat, totals: Totals)
    : (Node, seq<Option<Node>>, Totals)
    decreases n, 0
  {
    if n.tag == Name("svg") then
      var (r, t) := Sanitize(p, dropped, n, totals);
      (Placeholder(index, n.tail), [r], t)
    else
      var (children, blocks, t) := DetachChildren(p, dropped, n.children, index, totals);
      (n.(children := children), blocks, t)
  }

  function DetachChildren(p: Policy, dropped: set<string>, nodes: seq<Node>, index: nat, totals: Totals)
    : (seq<Node>, seq<Option<Node>>, Totals)
    decreases nodes, 1
  {
    if nodes == [] then ([], [], totals)
    else
      var (first, blocks, t) := DetachNode(p, dropped, nodes[0], index, totals);
      var (rest, more, u) := DetachChildren(p, dropped, nodes[1..], index + |blocks|, t);
      ([first] + rest, blocks + more, u)
  }

  /** `_detach_svgs`. A root that is itself a block becomes a plain `div` around the placeholder. */
  function Detach(p: Policy, dropped: set<string>, doc: Node): (Node, seq<Option<Node>>) {
    if doc.tag == Name("svg") then
      (Node(Name("div"), [], None, [Placeholder(0, None)], None), [Sanitize(p, dropped, doc, Totals(0, 0)).0])
    else
      var (n, blocks, _) := DetachNode(p, dropped, doc, 0, Totals(0, 0));
      (n, blocks)
  }

  // ---- Reattaching ----

  /** `_BLOCKED_CONTEXT`. */
  predicate IsBlockedName(s: string) {
    || s == "textarea" || s == "title" || s == "style" || s == "script" || s == "xmp" || s == "plaintext"
    || s == "noscript" || s == "noembed" || s == "noframes" || s == "iframe" || s == "template" || s == "select"
    || s == "option" || s == "math" || s == "svg" || s == "head" || s == "object" || s == "embed" || s == "applet"
    || s == "frameset" || s == "frame"
  }

  predicate IsBlocked(tag: Tag) { tag.Name? && IsBlockedName(Lower(tag.name)) }

  type Stash = map<nat, Option<Node>>

  /** The blocks from `index` on, under their numbers. */
  function StashFrom(blocks: seq<Option<Node>>, index: nat): Stash {
    map i: nat | index <= i < |blocks| :: blocks[i]
  }

  /** A child after the swap: what stands in its place, or that it goes and leaves its tail. */
  datatype Kid = Stays(node: Node) | Goes(tail: Option<string>)

  function SwapKid(n: Node, stash: Stash, blocked: bool): (Kid, Stash)
    decreases n, 1
  {
    match n.tag
    case Comment(Some(index)) =>
      var found := if index in stash then stash[index] else None;
      (if found == None || blocked then Goes(n.tail) else Stays(found.value.(tail := n.tail)), stash - {index})
    case _ =>
      var (m, s) := SwapNode(n, stash, blocked);
      (Stays(m), s)
  }

  function SwapKids(nodes: seq<Node>, stash: Stash, blocked: bool): (seq<Kid>, Stash)
    decreases nodes, 2
  {
    if nodes == [] then ([], stash)
    else
      var (first, s) := SwapKid(nodes[0], stash, blocked);
      var (rest, t) := SwapKids(nodes[1..], s, blocked);
      ([first] + rest, t)
  }

  /** The swap below one element, `blocked` when a blocked context is above it. */
  function SwapNode(n: Node, stash: Stash, blocked: bool): (Node, Stash)
    decreases n, 0
  {
    var (kids, s) := SwapKids(n.children, stash, blocked || IsBlocked(n.tag));
    (Settle(n, kids), s)
  }

  predicate AnyGone(kids: seq<Kid>) {
    kids != [] && (kids[0].Goes? || AnyGone(kids[1..]))
  }

  function Nodes(kids: seq<Kid>): seq<Node>
    requires !AnyGone(kids)
  {
    if kids == [] then [] else [kids[0].node] + Nodes(kids[1..])
  }

  /** `_remove_keeping_tails` on values: the text before the first child that stays, and the children that stay. */
  function Merge(text: string, kids: seq<Kid>): (string, seq<Node>)
    decreases |kids|
  {
    if kids == [] then (text, [])
    else if kids[0].Goes? then Merge(text + OrEmpty(kids[0].tail), kids[1..])
    else
      var (tail, rest) := Merge(OrEmpty(kids[0].node.tail), kids[1..]);
      (text, [kids[0].node.(tail := OrNone(tail))] + rest)
  }

  function Settle(n: Node, kids: seq<Kid>): Node {
    if AnyGone(kids) then
      var (text, children) := Merge(OrEmpty(n.text), kids);
      n.(text := OrNone(text), children := children)
    else n.(children := Nodes(kids))
  }

  /** `_reattach_svgs`. */
  function Reattach(doc: Node, blocks: seq<Option<Node>>): Node {
    SwapNode(doc, StashFrom(blocks, 0), false).0
  }

  predicate HasSvg(n: Node)
    decreases n, 0
  {
    n.tag == Name("svg") || AnySvg(n.children)
  }

  predicate AnySvg(nodes: seq<Node>)
    decreases nodes, 1
  {
    nodes != [] && (HasSvg(nodes[0]) || AnySvg(nodes[1..]))
  }

  /** `clean_document`. */
  function CleanDocument(p: Policy, dropped: set<string>, cleaner: Node -> Node, doc: Node): Node {
    if !HasSvg(doc) then cleaner(doc)
    else
      var (d, blocks) := Detach(p, dropped, doc);
      Reattach(cleaner(d), blocks)
  }

  // ---- `Merge` is the removal of `SvgTails` ----

  function KidTail(kid: Kid): Option<string> {
    match kid case Stays(node) => node.tail case Goes(tail) => tail
  }

  function KidSlots(kids: seq<Kid>, k: nat): seq<SvgTails.Slot<nat>> {
    if kids == [] then [] else [SvgTails.Slot(k, OrEmpty(KidTail(kids[0])))] + KidSlots(kids[1..], k + 1)
  }

  function NodeSlots(nodes: seq<Node>): seq<string> {
    if nodes == [] then [] else [OrEmpty(nodes[0].tail)] + NodeSlots(nodes[1..])
  }

  function Texts(slots: seq<SvgTails.Slot<nat>>): seq<string> {
    if slots == [] then [] else [slots[0].text] + Texts(slots[1..])
  }

  /** Removing the children marked as gone leaves the same texts as the removal on elements. */
  lemma {:induction false} MergeIsRemoveAll(holder: nat, text: string, kids: seq<Kid>, k: nat, gone: set<nat>)
    requires forall i :: 0 <= i < |kids| ==> (kids[i].Goes? <==> k + i in gone)
    ensures var (front, nodes) := Merge(text, kids);
            Texts(SvgTails.RemoveAll(SvgTails.Slot(holder, text), KidSlots(kids, k), gone))
            == [front] + NodeSlots(nodes)
    decreases |kids|
  {
    var first := SvgTails.Slot(holder, text);
    if kids == [] {
      assert [first][1..] == [];
    } else {
      assert kids[0].Goes? <==> k + 0 in gone;
      assert forall i :: 0 <= i < |kids[1..]| ==> kids[1..][i] == kids[i + 1];
      assert KidSlots(kids, k)[1..] == KidSlots(kids[1..], k + 1);
      if kids[0].Goes? {
        MergeIsRemoveAll(holder, text + OrEmpty(kids[0].tail), kids[1..], k + 1, gone);
      } else {
        MergeIsRemoveAll(k, OrEmpty(kids[0].node.tail), kids[1..], k + 1, gone);
        var (tail, rest) := Merge(OrEmpty(kids[0].node.tail), kids[1..]);
        var a := SvgTails.RemoveAll(KidSlots(kids, k)[0], KidSlots(kids, k)[1..], gone);
        assert ([first] + a)[1..] == a;
        var node := kids[0].node.(tail := OrNone(tail));
        assert ([node] + rest)[1..] == rest;
      }
    }
  }

  // ---- No placeholder remains ----

  predicate NoMarks(n: Node)
    decreases n, 0
  {
    (n.tag.Comment? ==> n.tag.mark == None) && NoMarksIn(n.children)
  }

  predicate NoMarksIn(nodes: seq<Node>)
    decreases nodes, 1
  {
    nodes != [] ==> NoMarks(nodes[0]) && NoMarksIn(nodes[1..])
  }

  predicate NoMarksLeft(kids: seq<Kid>) {
    kids != [] ==> (kids[0].Goes? || NoMarks(kids[0].node)) && NoMarksLeft(kids[1..])
  }

  ghost predicate PureStash(stash: Stash) {
    forall i :: i in stash && stash[i].Some? ==> NoMarks(stash[i].value) && stash[i].value.tag == Name("svg")
  }

  lemma {:induction false} MergeNoMarks(text: string, kids: seq<Kid>)
    requires NoMarksLeft(kids)
    ensures NoMarksIn(Merge(text, kids).1)
    decreases |kids|
  {
    if kids != [] {
      if kids[0].Goes? {
        MergeNoMarks(text + OrEmpty(kids[0].tail), kids[1..]);
      } else {
        MergeNoMarks(OrEmpty(kids[0].node.tail), kids[1..]);
        var (tail, rest) := Merge(OrEmpty(kids[0].node.tail), kids[1..]);
        var node := kids[0].node.(tail := OrNone(tail));
        assert ([node] + rest)[1..] == rest;
      }
    }
  }

  lemma {:induction false} NodesNoMarks(kids: seq<Kid>)
    requires NoMarksLeft(kids) && !AnyGone(kids)
    ensures NoMarksIn(Nodes(kids))
  {
    if kids != [] {
      NodesNoMarks(kids[1..]);
      assert Nodes(kids)[1..] == Nodes(kids[1..]);
    }
  }

  lemma {:induction false} SwapNoMarks(n: Node, stash: Stash, blocked: bool)
    requires PureStash(stash)
    ensures var (m, s) := SwapNode(n, stash, blocked); NoMarksIn(m.children) && m.tag == n.tag && PureStash(s)
    decreases n, 0
  {
    hide IsBlocked, NoMarksIn;
    SwapKidsNoMarks(n.children, stash, blocked || IsBlocked(n.tag));
    var kids := SwapKids(n.children, stash, blocked || IsBlocked(n.tag)).0;
    if AnyGone(kids) {
      MergeNoMarks(OrEmpty(n.text), kids);
    } else {
      NodesNoMarks(kids);
    }
  }

  lemma {:induction false} SwapKidsNoMarks(nodes: seq<Node>, stash: Stash, blocked: bool)
    requires PureStash(stash)
    ensures var (kids, s) := SwapKids(nodes, stash, blocked); NoMarksLeft(kids) && PureStash(s)
    decreases nodes, 2
  {
    hide SwapNode, IsBlocked;
    if nodes != [] {
      var n := nodes[0];
      var (first, s) := SwapKid(n, stash, blocked);
      if !(n.tag.Comment? && n.tag.mark.Some?) {
        SwapNoMarks(n, stash, blocked);
      }
      SwapKidsNoMarks(nodes[1..], s, blocked);
      var (kids, _) := SwapKids(nodes, stash, blocked);
      assert kids[1..] == SwapKids(nodes[1..], s, blocked).0;
    }
  }

  lemma {:induction false} CleanNoMarks(p: Policy, dropped: set<string>, n: Node, depth: nat)
    requires Clean(p, dropped, n, depth)
    ensures NoMarks(n)
    decreases n, 0
  {
    CleanNoMarksIn(p, dropped, n.children, depth + 1, n.tag.name in TEXT_ELEMENTS);
  }

  lemma {:induction false} CleanNoMarksIn(p: Policy, dropped: set<string>, nodes: seq<Node>, depth: nat, keeps: bool)
    requires ChildrenClean(p, dropped, nodes, depth, keeps)
    ensures NoMarksIn(nodes)
    decreases nodes, 1
  {
    if nodes != [] {
      CleanNoMarks(p, dropped, nodes[0], depth);
      CleanNoMarksIn(p, dropped, nodes[1..], depth, keeps);
    }
  }

  /** What `_detach_svgs` stashes. */
  ghost predicate CleanBlocks(p: Policy, dropped: set<string>, blocks: seq<Option<Node>>) {
    forall i :: 0 <= i < |blocks| && blocks[i].Some? ==>
      Clean(p, dropped, blocks[i].value, 1) && blocks[i].value.tag == Name("svg")
  }

  lemma {:induction false} DetachNodeClean(p: Policy, dropped: set<string>, n: Node, index: nat, totals: Totals)
    requires SoundPolicy(p) && KeepsNamespace(p, dropped)
    ensures CleanBlocks(p, dropped, DetachNode(p, dropped, n, index, totals).1)
    decreases n, 0
  {
    hide SoundPolicy, KeepsNamespace, Sanitize, Clean;
    if n.tag == Name("svg") {
      if Sanitize(p, dropped, n, totals).0.Some? {
        SanitizedClean(p, dropped, n, totals);
      }
    } else {
      DetachChildrenClean(p, dropped, n.children, index, totals);
    }
  }

  lemma {:induction false} DetachChildrenClean(p: Policy, dropped: set<string>, nodes: seq<Node>, index: nat,
                                               totals: Totals)
    requires SoundPolicy(p) && KeepsNamespace(p, dropped)
    ensures CleanBlocks(p, dropped, DetachChildren(p, dropped, nodes, index, totals).1)
    decreases nodes, 1
  {
    hide SoundPolicy, KeepsNamespace, Clean, DetachNode;
    if nodes != [] {
      var (first, blocks, t) := DetachNode(p, dropped, nodes[0], index, totals);
      DetachNodeClean(p, dropped, nodes[0], index, totals);
      DetachChildrenClean(p, dropped, nodes[1..], index + |blocks|, t);
    }
  }

  lemma DetachClean(p: Policy, dropped: set<string>, doc: Node)
    requires SoundPolicy(p) && KeepsNamespace(p, dropped)
    ensures CleanBlocks(p, dropped, Detach(p, dropped, doc).1)
  {
    hide SoundPolicy, KeepsNamespace, Clean, DetachNode, Sanitize;
    if doc.tag == Name("svg") {
      if Sanitize(p, dropped, doc, Totals(0, 0)).0.Some? {
        SanitizedClean(p, dropped, doc, Totals(0, 0));
      }
    } else {
      DetachNodeClean(p, dropped, doc, 0, Totals(0, 0));
    }
  }

  lemma CleanStash(p: Policy, dropped: set<string>, blocks: seq<Option<Node>>, index: nat)
    requires CleanBlocks(p, dropped, blocks)
    ensures PureStash(StashFrom(blocks, index))
  {
    hide Clean, NoMarks;
    forall i | i in StashFrom(blocks, index) && StashFrom(blocks, index)[i].Some?
      ensures NoMarks(StashFrom(blocks, index)[i].value) && StashFrom(blocks, index)[i].value.tag == Name("svg")
    {
      CleanNoMarks(p, dropped, blocks[i].value, 1);
    }
  }

  /** Whatever the cleaner makes of the document, no placeholder remains below its root. */
  lemma NoPlaceholderRemains(p: Policy, dropped: set<string>, doc: Node, cleaned: Node)
    requires SoundPolicy(p) && KeepsNamespace(p, dropped)
    ensures NoMarksIn(Reattach(cleaned, Detach(p, dropped, doc).1).children)
  {
    hide SoundPolicy, KeepsNamespace, Detach, SwapNode, NoMarks, NoMarksIn, PureStash;
    DetachClean(p, dropped, doc);
    CleanStash(p, dropped, Detach(p, dropped, doc).1, 0);
    SwapNoMarks(cleaned, StashFrom(Detach(p, dropped, doc).1, 0), false);
  }
}
