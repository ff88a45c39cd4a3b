/** Documents read from start to end: what the protocol around a cleaner and the pass over XML trees do to everything
    that is no block. */
module SvgStreams {
  import opened Text
  import opened SvgTree
  import opened SvgBuild
  import opened SvgIdempotence
  import opened SvgBlocks
  import opened SvgDocument
  import opened SvgReattach
  import opened SvgXml
  import opened SvgCaps

  /** What is met on the way through a document: every start and end of an element, and every character. */
  datatype Token = Open(tag: Tag, attrs: seq<(string, string)>) | Char(c: char) | Close

  function Chars(s: string): seq<Token> {
    if s == "" then [] else [Char(s[0])] + Chars(s[1..])
  }

  function TextStream(t: Option<string>): seq<Token> { Chars(OrEmpty(t)) }

  function Stream(n: Node): seq<Token>
    decreases n, 0
  {
    [Open(n.tag, n.attrs)] + (TextStream(n.text) + StreamIn(n.children)) + [Close]
  }

  function StreamIn(nodes: seq<Node>): seq<Token>
    decreases nodes, 1
  {
    if nodes == [] then [] else Stream(nodes[0]) + TextStream(nodes[0].tail) + StreamIn(nodes[1..])
  }

  lemma {:induction false} CharsConcat(a: string, b: string)
    ensures Chars(a + b) == Chars(a) + Chars(b)
  {
    if a == "" {
      assert a + b == b;
    } else {
      assert (a + b)[1..] == a[1..] + b;
      CharsConcat(a[1..], b);
    }
  }

  lemma {:induction false} StreamConcat(a: seq<Node>, b: seq<Node>)
    ensures StreamIn(a + b) == StreamIn(a) + StreamIn(b)
  {
    hide Stream, TextStream;
    if a == [] {
      assert a + b == b;
      Regroup(StreamIn(b), [], []);
    } else {
      assert (a + b)[1..] == a[1..] + b;
      StreamConcat(a[1..], b);
      Regroup(Stream(a[0]) + TextStream(a[0].tail), StreamIn(a[1..]), StreamIn(b));
    }
  }

  lemma StreamOne(n: Node)
    ensures StreamIn([n]) == Stream(n) + TextStream(n.tail)
  {
    hide Stream, TextStream;
    assert [n][1..] == [] && StreamIn([]) == [];
    Regroup(Stream(n) + TextStream(n.tail), [], []);
  }

  lemma TailOutside(n: Node, tail: Option<string>)
    ensures Stream(n.(tail := tail)) == Stream(n)
  {
  }

  lemma OrNoneStream(s: string)
    ensures TextStream(OrNone(s)) == Chars(s)
  {
  }

  // ---- Putting the blocks back ----

  /** The cleaned document with each placeholder, and only that, replaced by the block that is its turn, or by
      nothing. */
  function Swapped(n: Node, stash: Stash, blocked: bool): (seq<Token>, Stash)
    decreases n, 0
  {
    var (kids, s) := SwappedIn(n.children, stash, blocked || IsBlocked(n.tag));
    ([Open(n.tag, n.attrs)] + (TextStream(n.text) + kids) + [Close], s)
  }

  function SwappedIn(nodes: seq<Node>, stash: Stash, blocked: bool): (seq<Token>, Stash)
    decreases nodes, 1
  {
    if nodes == [] then ([], stash)
    else
      var n := nodes[0];
      var (first, s) :=
        if n.tag.Comment? && n.tag.mark.Some? then
          var i := n.tag.mark.value;
          (if !blocked && i in stash && stash[i].Some? then Stream(stash[i].value) else [], stash - {i})
        else Swapped(n, stash, blocked);
      var (rest, t) := SwappedIn(nodes[1..], s, blocked);
      (first + TextStream(n.tail) + rest, t)
  }

  /** A child after the swap, read with the text behind it. */
  function KidStream(kid: Kid): seq<Token> {
    match kid
    case Stays(n) => Stream(n) + TextStream(n.tail)
    case Goes(tail) => TextStream(tail)
  }

  function KidsStream(kids: seq<Kid>): seq<Token> {
    if kids == [] then [] else KidStream(kids[0]) + KidsStream(kids[1..])
  }

  lemma {:induction false} MergeStream(text: string, kids: seq<Kid>)
    ensures var (front, nodes) := Merge(text, kids); Chars(front) + StreamIn(nodes) == Chars(text) + KidsStream(kids)
    decreases |kids|
  {
    hide Stream, Chars;
    if kids == [] {
      assert StreamIn([]) == [];
    } else if kids[0].Goes? {
      MergeStream(text + OrEmpty(kids[0].tail), kids[1..]);
      CharsConcat(text, OrEmpty(kids[0].tail));
      Regroup(Chars(text), Chars(OrEmpty(kids[0].tail)), KidsStream(kids[1..]));
    } else {
      var n := kids[0].node;
      MergeStream(OrEmpty(n.tail), kids[1..]);
      var (tail, rest) := Merge(OrEmpty(n.tail), kids[1..]);
      var m := n.(tail := OrNone(tail));
      TailOutside(n, m.tail);
      OrNoneStream(tail);
      assert ([m] + rest)[1..] == rest;
      Regroup(Stream(n), Chars(tail), StreamIn(rest));
      Regroup(Stream(n), Chars(OrEmpty(n.tail)), KidsStream(kids[1..]));
    }
  }

  lemma {:induction false} NodesStream(kids: seq<Kid>)
    requires !AnyGone(kids)
    ensures StreamIn(Nodes(kids)) == KidsStream(kids)
  {
    hide Stream, TextStream;
    if kids != [] {
      NodesStream(kids[1..]);
      assert Nodes(kids)[1..] == Nodes(kids[1..]);
    }
  }

  lemma SettleStream(n: Node, kids: seq<Kid>)
    ensures Stream(Settle(n, kids)) == [Open(n.tag, n.attrs)] + (TextStream(n.text) + KidsStream(kids)) + [Close]
    ensures Settle(n, kids).tail == n.tail
  {
    hide KidsStream, Merge, Chars, StreamIn;
    if AnyGone(kids) {
      MergeStream(OrEmpty(n.text), kids);
      OrNoneStream(Merge(OrEmpty(n.text), kids).0);
    } else {
      NodesStream(kids);
    }
  }

  lemma {:induction false} SwapStream(n: Node, stash: Stash, blocked: bool)
    ensures var (m, s) := SwapNode(n, stash, blocked);
            (Stream(m), s) == Swapped(n, stash, blocked) && m.tail == n.tail
    decreases n, 0
  {
    hide IsBlocked, Settle, SwapKids, SwappedIn, Stream, KidsStream;
    SwapKidsStream(n.children, stash, blocked || IsBlocked(n.tag));
    SettleStream(n, SwapKids(n.children, stash, blocked || IsBlocked(n.tag)).0);
  }

  lemma {:induction false} SwapKidsStream(nodes: seq<Node>, stash: Stash, blocked: bool)
    ensures var (kids, s) := SwapKids(nodes, stash, blocked); (KidsStream(kids), s) == SwappedIn(nodes, stash, blocked)
    decreases nodes, 1
  {
    hide SwapNode, Swapped, Stream, TextStream, IsBlocked;
    if nodes != [] {
      var n := nodes[0];
      var (first, s) := SwapKid(n, stash, blocked);
      SwapKidsStream(nodes[1..], s, blocked);
      var kids := SwapKids(nodes, stash, blocked).0;
      assert kids[0] == first && kids[1..] == SwapKids(nodes[1..], s, blocked).0;
      if n.tag.Comment? && n.tag.mark.Some? {
        var i := n.tag.mark.value;
        Regroup(TextStream(n.tail), [], []);
        if first.Stays? {
          TailOutside(stash[i].value, n.tail);
        }
      } else {
        SwapStream(n, stash, blocked);
      }
    }
  }

  /** Read from start to end, the reattached document is the cleaned one with each placeholder replaced by the block
      whose turn it is, or by nothing: no element, attribute or character outside is touched. */
  lemma ReattachStream(cleaned: Node, blocks: seq<Option<Node>>)
    ensures Stream(Reattach(cleaned, blocks)) == Swapped(cleaned, StashFrom(blocks, 0), false).0
  {
    SwapStream(cleaned, StashFrom(blocks, 0), false);
  }

  // ---- Taking the blocks out ----

  /** The placeholders number the blocks from `index` on. */
  function Numbers(index: nat, count: nat): seq<Mark>
    decreases count
  {
    if count == 0 then [] else [Mark(index, false)] + Numbers(index + 1, count - 1)
  }

  lemma {:induction false} NumbersConcat(index: nat, a: nat, b: nat)
    ensures Numbers(index, a + b) == Numbers(index, a) + Numbers(index + a, b)
    decreases a
  {
    if a > 0 {
      NumbersConcat(index + 1, a - 1, b);
    }
  }

  function AllSome(nodes: seq<Node>): seq<Option<Node>> {
    if nodes == [] then [] else [Some(nodes[0])] + AllSome(nodes[1..])
  }

  lemma {:induction false} AllSomeConcat(a: seq<Node>, b: seq<Node>)
    ensures AllSome(a + b) == AllSome(a) + AllSome(b) && |AllSome(a)| == |a|
    decreases |a|
  {
    if a == [] {
      assert a + b == b;
    } else {
      assert (a + b)[1..] == a[1..] + b;
      AllSomeConcat(a[1..], b);
    }
  }

  /** The marks of a document as if nothing in it were blocked. */
  function Unblocked(marks: seq<Mark>): seq<Mark> {
    if marks == [] then [] else [Mark(marks[0].index, false)] + Unblocked(marks[1..])
  }

  lemma {:induction false} UnblockedConcat(a: seq<Mark>, b: seq<Mark>)
    ensures Unblocked(a + b) == Unblocked(a) + Unblocked(b) && |Unblocked(a)| == |a|
    decreases |a|
  {
    if a == [] {
      assert a + b == b;
    } else {
      assert (a + b)[1..] == a[1..] + b;
      UnblockedConcat(a[1..], b);
    }
  }

  /** Detaching, undone: putting the blocks themselves where the placeholders are gives the document back, and the
      placeholders are numbered in order. */
  lemma {:induction false} DetachKidRestores(p: Policy, dropped: set<string>, n: Node, index: nat, totals: Totals,
                                             blocked: bool)
    requires NoMarks(n)
    ensures var m := DetachNode(p, dropped, n, index, totals).0;
            var blocks := Outermost(n, IsBareSvg);
            && |DetachNode(p, dropped, n, index, totals).1| == |blocks|
            && Unblocked(MarksOf(m, blocked)) == Numbers(index, |blocks|) && m.tail == n.tail
            && |MarksOf(m, false)| == |blocks| == |AllSome(blocks)|
            && PutKid(m, AllSome(blocks)) == Stays(n)
    decreases n, 1
  {
    hide Sanitize, NoMarksIn, DetachChildren, IsBlocked, OutermostIn, MarksIn, PutIn, Numbers, Unblocked, AllSome,
      Settle;
    var m := DetachNode(p, dropped, n, index, totals).0;
    if n.tag == Name("svg") {
      BlockRestores(n, index, blocked);
    } else {
      DetachKidsRestore(p, dropped, n.children, index, totals, blocked || IsBlocked(n.tag));
      var blocks := OutermostIn(n.children, IsBareSvg);
      MarkCountOf(m, false, blocked);
      MarkCount(m.children, false, IsBlocked(n.tag));
      MarkCount(m.children, false, blocked || IsBlocked(n.tag));
      UnblockedConcat(MarksOf(m, blocked), []);
      AllSomeConcat(blocks, []);
      SettleWhole(m, n, PutIn(m.children, AllSome(blocks)));
    }
  }

  lemma BlockRestores(n: Node, index: nat, blocked: bool)
    requires n.tag == Name("svg")
    ensures var m := Placeholder(index, n.tail);
            && Unblocked(MarksOf(m, blocked)) == Numbers(index, 1) && |MarksOf(m, false)| == 1
            && AllSome([n]) == [Some(n)] && PutKid(m, [Some(n)]) == Stays(n)
  {
    var m := Placeholder(index, n.tail);
    assert [Mark(index, blocked)][1..] == [] && [n][1..] == [];
    assert MarksOf(m, blocked) == [Mark(index, blocked)] && Unblocked([]) == [];
    assert Numbers(index + 1, 0) == [];
    assert n.(tail := n.tail) == n;
  }

  lemma SettleWhole(m: Node, n: Node, kids: seq<Kid>)
    requires m == n.(children := m.children) && AllStay(kids, n.children)
    ensures Settle(m, kids) == n
  {
    StayNodes(kids, n.children);
  }

  /** All the children stay, and these they are. */
  predicate AllStay(kids: seq<Kid>, nodes: seq<Node>) {
    if nodes == [] then kids == []
    else kids != [] && kids[0] == Stays(nodes[0]) && AllStay(kids[1..], nodes[1..])
  }

  lemma {:induction false} StayNodes(kids: seq<Kid>, nodes: seq<Node>)
    requires AllStay(kids, nodes)
    ensures !AnyGone(kids) && Nodes(kids) == nodes
    decreases |nodes|
  {
    if nodes != [] {
      StayNodes(kids[1..], nodes[1..]);
      assert nodes == [nodes[0]] + nodes[1..];
    }
  }

  lemma {:induction false} DetachKidsRestore(p: Policy, dropped: set<string>, nodes: seq<Node>, index: nat,
                                             totals: Totals, blocked: bool)
    requires NoMarksIn(nodes)
    ensures var ms := DetachChildren(p, dropped, nodes, index, totals).0;
            var blocks := OutermostIn(nodes, IsBareSvg);
            && |DetachChildren(p, dropped, nodes, index, totals).1| == |blocks|
            && Unblocked(MarksIn(ms, blocked)) == Numbers(index, |blocks|)
            && |MarksIn(ms, false)| == |blocks| == |AllSome(blocks)|
            && AllStay(PutIn(ms, AllSome(blocks)), nodes)
    decreases nodes, 2
  {
    hide Sanitize, NoMarks, DetachNode, Outermost, MarksOf, PutKid, Numbers, Unblocked, AllSome;
    if nodes == [] {
      assert Unblocked([]) == [] && Numbers(index, 0) == [] && AllSome([]) == [] by { NothingDetached(index); }
    } else {
      hide MarksIn, PutIn, AllStay;
      var (first, a, t) := DetachNode(p, dropped, nodes[0], index, totals);
      var (rest, b, u) := DetachChildren(p, dropped, nodes[1..], index + |a|, t);
      var x, y := Outermost(nodes[0], IsBareSvg), OutermostIn(nodes[1..], IsBareSvg);
      assert DetachChildren(p, dropped, nodes, index, totals) == ([first] + rest, a + b, u);
      assert OutermostIn(nodes, IsBareSvg) == x + y;
      DetachKidRestores(p, dropped, nodes[0], index, totals, blocked);
      DetachKidsRestore(p, dropped, nodes[1..], index + |a|, t, blocked);
      hide DetachChildren, OutermostIn;
      MarksInFirst(first, rest, blocked);
      UnblockedConcat(MarksOf(first, blocked), MarksIn(rest, blocked));
      NumbersConcat(index, |x|, |y|);
      AllSomeConcat(x, y);
      PutInFirst(first, rest, AllSome(x), AllSome(y));
      StayFirst(PutIn([first] + rest, AllSome(x) + AllSome(y)), nodes);
    }
  }

  lemma StayFirst(kids: seq<Kid>, nodes: seq<Node>)
    requires nodes != [] && kids != [] && kids[0] == Stays(nodes[0]) && AllStay(kids[1..], nodes[1..])
    ensures AllStay(kids, nodes)
  {
  }

  lemma MarksInFirst(first: Node, rest: seq<Node>, blocked: bool)
    ensures MarksIn([first] + rest, blocked) == MarksOf(first, blocked) + MarksIn(rest, blocked)
  {
    assert ([first] + rest)[1..] == rest;
  }

  lemma PutInFirst(first: Node, rest: seq<Node>, c: seq<Option<Node>>, d: seq<Option<Node>>)
    requires |c| == |MarksOf(first, false)| && |d| == |MarksIn(rest, false)|
    ensures |MarksIn([first] + rest, false)| == |c + d|
    ensures PutIn([first] + rest, c + d) != [] && PutIn([first] + rest, c + d)[0] == PutKid(first, c)
    ensures PutIn([first] + rest, c + d)[1..] == PutIn(rest, d)
  {
    hide MarksOf, PutKid;
    assert ([first] + rest)[1..] == rest;
    assert (c + d)[..|c|] == c && (c + d)[|c|..] == d;
    var kids := PutIn([first] + rest, c + d);
    assert kids == [PutKid(first, c)] + PutIn(rest, d);
  }

  lemma NothingDetached(index: nat)
    ensures Unblocked([]) == [] && Numbers(index, 0) == [] && AllSome([]) == []
  {
  }

  /** Detaching takes exactly the outermost blocks out, and leaves everything else where it was. */
  lemma DetachRestores(p: Policy, dropped: set<string>, doc: Node)
    requires NoMarks(doc) && doc.tag != Name("svg")
    ensures var (d, blocks) := Detach(p, dropped, doc);
            var originals := Outermost(doc, IsBareSvg);
            && |blocks| == |originals| == |AllSome(originals)| == |MarksBelow(d, false)|
            && Unblocked(MarksBelow(d, false)) == Numbers(0, |originals|)
            && PutBelow(d, AllSome(originals)) == doc
  {
    hide DetachNode, PutBelow, MarksBelow, Outermost, NoMarks;
    DetachKidRestores(p, dropped, doc, 0, Totals(0, 0), false);
    var d := DetachNode(p, dropped, doc, 0, Totals(0, 0)).0;
    assert d.tag == doc.tag by { DetachTag(p, dropped, doc); }
    assert doc.tag.Comment? ==> doc.tag.mark == None by { RootMark(doc); }
  }

  lemma DetachTag(p: Policy, dropped: set<string>, doc: Node)
    requires doc.tag != Name("svg")
    ensures DetachNode(p, dropped, doc, 0, Totals(0, 0)).0.tag == doc.tag
  {
  }

  lemma RootMark(doc: Node)
    requires NoMarks(doc)
    ensures doc.tag.Comment? ==> doc.tag.mark == None
  {
  }

  // ---- Around any cleaner ----

  lemma {:induction false} NothingSwapped(n: Node, stash: Stash, blocked: bool)
    requires NoMarksIn(n.children)
    ensures SwapNode(n, stash, blocked) == (n, stash)
    decreases n, 0
  {
    hide IsBlocked, SwapKids, NoMarksIn;
    NoKidSwapped(n.children, stash, blocked || IsBlocked(n.tag));
    StayNodes(SwapKids(n.children, stash, blocked || IsBlocked(n.tag)).0, n.children);
  }

  lemma UnmarkedKid(n: Node, stash: Stash, blocked: bool)
    requires NoMarks(n) && SwapNode(n, stash, blocked) == (n, stash)
    ensures SwapKid(n, stash, blocked) == (Stays(n), stash)
  {
    hide SwapNode, NoMarksIn;
  }

  lemma {:induction false} NoKidSwapped(nodes: seq<Node>, stash: Stash, blocked: bool)
    requires NoMarksIn(nodes)
    ensures var (kids, s) := SwapKids(nodes, stash, blocked); s == stash && AllStay(kids, nodes)
    decreases nodes, 1
  {
    hide SwapNode;
    if nodes != [] {
      NothingSwapped(nodes[0], stash, blocked);
      assert SwapKid(nodes[0], stash, blocked) == (Stays(nodes[0]), stash) by { UnmarkedKid(nodes[0], stash, blocked); }
      NoKidSwapped(nodes[1..], stash, blocked);
      var rest := SwapKids(nodes[1..], stash, blocked).0;
      assert ([Stays(nodes[0])] + rest)[1..] == rest;
    }
  }

  /** Whatever the cleaner is: a document without blocks becomes what the cleaner makes of it. With blocks, the cleaner
      is given the document without them, its result is the result wherever it leaves no placeholder, and otherwise its
      result with each placeholder replaced by the block whose turn it is, or by nothing. */
  lemma CleanerDecides(p: Policy, dropped: set<string>, cleaner: Node -> Node, doc: Node)
    ensures var r := CleanDocument(p, dropped, cleaner, doc);
            && (!HasSvg(doc) ==> r == cleaner(doc))
            && (HasSvg(doc) ==>
                  var (d, blocks) := Detach(p, dropped, doc);
                  && (NoMarksIn(cleaner(d).children) ==> r == cleaner(d))
                  && Stream(r) == Swapped(cleaner(d), StashFrom(blocks, 0), false).0)
  {
    hide Detach, Stream, Swapped, SwapNode, NoMarksIn, HasSvg;
    if HasSvg(doc) {
      var (d, blocks) := Detach(p, dropped, doc);
      ReattachStream(cleaner(d), blocks);
      if NoMarksIn(cleaner(d).children) {
        NothingSwapped(cleaner(d), StashFrom(blocks, 0), false);
      }
    }
  }

  // ---- The pass over XML trees ----

  /** The tree with each outermost block, and only that, replaced by its rebuild, or by nothing. */
  function Rewritten(p: Policy, n: Node, totals: Totals): (seq<Token>, Totals)
    decreases n, 0
  {
    if IsSvgLike(n.tag) then
      var (r, t) := Sanitize(p, {}, n, totals);
      (if r.Some? then Stream(r.value) else [], t)
    else
      var (kids, t) := RewrittenIn(p, n.children, totals);
      ([Open(n.tag, n.attrs)] + (TextStream(n.text) + kids) + [Close], t)
  }

  function RewrittenIn(p: Policy, nodes: seq<Node>, totals: Totals): (seq<Token>, Totals)
    decreases nodes, 1
  {
    if nodes == [] then ([], totals)
    else
      var (first, t) := Rewritten(p, nodes[0], totals);
      var (rest, u) := RewrittenIn(p, nodes[1..], t);
      (first + TextStream(nodes[0].tail) + rest, u)
  }

  function PassStream(pass: Pass): seq<Token> { TextStream(pass.text) + StreamIn(pass.children) }

  lemma AppendStream(pass: Pass, n: Node)
    ensures TextStream(pass.text) + StreamIn(pass.children + [n]) == PassStream(pass) + (Stream(n) + TextStream(n.tail))
  {
    hide Stream, StreamIn, TextStream;
    StreamConcat(pass.children, [n]);
    StreamOne(n);
    Regroup(TextStream(pass.text), StreamIn(pass.children), StreamIn([n]));
  }

  lemma JoinedStream(a: Option<string>, b: Option<string>)
    requires b.Some?
    ensures TextStream(Some(OrEmpty(a) + b.value)) == TextStream(a) + TextStream(b)
  {
    CharsConcat(OrEmpty(a), b.value);
  }

  lemma DropTailStream(pass: Pass, tail: Option<string>)
    ensures PassStream(DropTail(pass, tail)) == PassStream(pass) + TextStream(tail)
  {
    hide Stream;
    if OrEmpty(tail) == "" {
      assert TextStream(tail) == [];
      Regroup(PassStream(pass), [], []);
    } else if pass.children == [] {
      JoinedStream(pass.text, tail);
      assert StreamIn([]) == [];
      Regroup(TextStream(pass.text), [], []);
      Regroup(TextStream(pass.text) + TextStream(tail), [], []);
    } else {
      hide TextStream, StreamIn;
      var k := |pass.children| - 1;
      var front, last := pass.children[..k], pass.children[k];
      var joined := last.(tail := Some(OrEmpty(last.tail) + tail.value));
      assert pass.children == front + [last];
      AppendStream(pass.(children := front), last);
      AppendStream(pass.(children := front), joined);
      TailOutside(last, joined.tail);
      JoinedStream(last.tail, tail);
      Regroup(Stream(last), TextStream(last.tail), TextStream(tail));
      Regroup(PassStream(pass.(children := front)), Stream(last) + TextStream(last.tail), TextStream(tail));
    }
  }

  lemma PassBlockStream(p: Policy, looksHostile: Node -> bool, n: Node, pass: Pass)
    requires IsSvgLike(n.tag)
    ensures var next := PassBlock(p, looksHostile, n, pass);
            var (more, t) := Rewritten(p, n, pass.totals);
            next.totals == t && PassStream(next) == PassStream(pass) + (more + TextStream(n.tail))
  {
    hide Sanitize, IsSvgLike, RejectedIsHostile, DropTail, Stream, StreamIn, TextStream;
    var r := Sanitize(p, {}, n, pass.totals).0;
    if r.Some? {
      AppendStream(pass, r.value.(tail := n.tail));
      TailOutside(r.value, n.tail);
    } else {
      DropTailStream(pass, n.tail);
      Regroup(TextStream(n.tail), [], []);
    }
  }

  lemma {:induction false} PassNodeStream(p: Policy, looksHostile: Node -> bool, n: Node, totals: Totals,
                                          hostile: bool)
    requires !IsSvgLike(n.tag)
    ensures var (m, t, _) := PassNode(p, looksHostile, n, totals, hostile);
            (Stream(m), t) == Rewritten(p, n, totals) && m.tail == n.tail
    decreases n, 0
  {
    hide IsSvgLike, PassNodes, RewrittenIn, Sanitize, StreamIn, TextStream;
    assert StreamIn([]) == [] by { NoStream(); }
    Regroup(TextStream(n.text), [], []);
    PassNodesStream(p, looksHostile, n.children, Pass(n.text, [], totals, hostile));
  }

  lemma NoStream()
    ensures StreamIn([]) == []
  {
  }

  lemma {:induction false} PassNodesStream(p: Policy, looksHostile: Node -> bool, nodes: seq<Node>, pass: Pass)
    ensures var next := PassNodes(p, looksHostile, nodes, pass);
            var (more, t) := RewrittenIn(p, nodes, pass.totals);
            next.totals == t && PassStream(next) == PassStream(pass) + more
    decreases nodes, 1
  {
    hide IsSvgLike, PassNode, PassBlock, Rewritten, Stream, TextStream, PassStream;
    if nodes == [] {
      Regroup(PassStream(pass), [], []);
    } else {
      var n := nodes[0];
      var (first, t) := Rewritten(p, n, pass.totals);
      var next: Pass;
      if IsSvgLike(n.tag) {
        next := PassBlock(p, looksHostile, n, pass);
        PassBlockStream(p, looksHostile, n, pass);
      } else {
        var (m, u, h) := PassNode(p, looksHostile, n, pass.totals, pass.hostile);
        next := Pass(pass.text, pass.children + [m], u, h);
        PassNodeStream(p, looksHostile, n, pass.totals, pass.hostile);
        AppendStream(pass, m);
        assert PassStream(next) == PassStream(pass) + (Stream(m) + TextStream(m.tail)) by { PassStreamIs(next); }
      }
      PassNodesStream(p, looksHostile, nodes[1..], next);
      Regroup(PassStream(pass), first + TextStream(n.tail), RewrittenIn(p, nodes[1..], t).0);
    }
  }

  lemma PassStreamIs(pass: Pass)
    ensures PassStream(pass) == TextStream(pass.text) + StreamIn(pass.children)
  {
  }

  /** Read from start to end, the result is the tree with each outermost block replaced by its rebuild, or by nothing:
      no element, attribute or character outside is touched. */
  lemma XmlStream(p: Policy, looksHostile: Node -> bool, root: Node)
    requires !IsSvgLike(root.tag)
    ensures SanitizeXml(p, looksHostile, root).Passed?
    ensures Stream(SanitizeXml(p, looksHostile, root).root) == Rewritten(p, root, Totals(0, 0)).0
  {
    hide PassNode, Rewritten, Stream, IsSvgLike;
    PassNodeStream(p, looksHostile, root, Totals(0, 0), false);
  }

  /** A tree without anything like an `svg` comes back as it is. */
  lemma {:induction false} NothingToPass(p: Policy, looksHostile: Node -> bool, n: Node, totals: Totals, hostile: bool)
    requires Outermost(n, IsSvgLike) == []
    ensures PassNode(p, looksHostile, n, totals, hostile) == (n, totals, hostile)
    decreases n, 0
  {
    hide IsSvgLike, PassNodes, OutermostIn;
    NothingToPassIn(p, looksHostile, n.children, Pass(n.text, [], totals, hostile));
    Regroup([], n.children, []);
    assert [] + n.children == n.children;
  }

  lemma {:induction false} NothingToPassIn(p: Policy, looksHostile: Node -> bool, nodes: seq<Node>, pass: Pass)
    requires OutermostIn(nodes, IsSvgLike) == []
    ensures PassNodes(p, looksHostile, nodes, pass) == pass.(children := pass.children + nodes)
    decreases nodes, 1
  {
    hide IsSvgLike, PassNode, PassBlock;
    if nodes == [] {
      assert pass.children + nodes == pass.children;
    } else {
      var n := nodes[0];
      assert Outermost(n, IsSvgLike) == [] && OutermostIn(nodes[1..], IsSvgLike) == [];
      assert !IsSvgLike(n.tag);
      NothingToPass(p, looksHostile, n, pass.totals, pass.hostile);
      NothingToPassIn(p, looksHostile, nodes[1..], pass.(children := pass.children + [n]));
      assert pass.children + [n] + nodes[1..] == pass.children + nodes;
    }
  }

  lemma XmlUnchanged(p: Policy, looksHostile: Node -> bool, root: Node)
    requires Outermost(root, IsSvgLike) == []
    ensures SanitizeXml(p, looksHostile, root) == Passed(root, false)
  {
    hide IsSvgLike, PassNode, Sanitize;
    assert !IsSvgLike(root.tag);
    NothingToPass(p, looksHostile, root, Totals(0, 0), false);
  }
}
