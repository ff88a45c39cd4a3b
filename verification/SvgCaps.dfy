/** The caps of a whole document, and what its blocks say about its author. */
module SvgCaps {
  import opened Text
  import opened SvgTree
  import opened SvgBuild
  import opened SvgIdempotence
  import opened SvgBlocks
  import opened SvgDocument
  import opened SvgXml

  // ---- The outermost blocks ----

  predicate IsBareSvg(tag: Tag) { tag == Name("svg") }

  /** The blocks below a node that lie in no other block, in document order. */
  function Outermost(n: Node, isBlock: Tag -> bool): seq<Node>
    decreases n, 0
  {
    if isBlock(n.tag) then [n] else OutermostIn(n.children, isBlock)
  }

  function OutermostIn(nodes: seq<Node>, isBlock: Tag -> bool): seq<Node>
    decreases nodes, 1
  {
    if nodes == [] then [] else Outermost(nodes[0], isBlock) + OutermostIn(nodes[1..], isBlock)
  }

  function TotalsAfter(p: Policy, dropped: set<string>, sources: seq<Node>, totals: Totals): Totals {
    if sources == [] then totals
    else TotalsAfter(p, dropped, sources[1..], Sanitize(p, dropped, sources[0], totals).1)
  }

  function BlocksOf(answers: seq<Answer>): seq<Option<Node>> {
    if answers == [] then [] else [answers[0].block] + BlocksOf(answers[1..])
  }

  lemma {:induction false} BlocksConcat(a: seq<Answer>, b: seq<Answer>)
    ensures BlocksOf(a + b) == BlocksOf(a) + BlocksOf(b)
  {
    if a == [] {
      assert a + b == b;
    } else {
      assert (a + b)[1..] == a[1..] + b;
      BlocksConcat(a[1..], b);
    }
  }

  lemma {:induction false} SanitizeConcat(p: Policy, dropped: set<string>, a: seq<Node>, b: seq<Node>, totals: Totals)
    ensures SanitizeAll(p, dropped, a + b, totals) ==
            SanitizeAll(p, dropped, a, totals) + SanitizeAll(p, dropped, b, TotalsAfter(p, dropped, a, totals))
    ensures TotalsAfter(p, dropped, a + b, totals) == TotalsAfter(p, dropped, b, TotalsAfter(p, dropped, a, totals))
    decreases |a|
  {
    hide Sanitize;
    if a == [] {
      assert a + b == b;
      Regroup(SanitizeAll(p, dropped, b, totals), [], []);
    } else {
      assert (a + b)[1..] == a[1..] + b && (a + b)[0] == a[0];
      var (r, t) := Sanitize(p, dropped, a[0], totals);
      SanitizeConcat(p, dropped, a[1..], b, t);
      Regroup([Answer(r, t.size - totals.size)], SanitizeAll(p, dropped, a[1..], t),
              SanitizeAll(p, dropped, b, TotalsAfter(p, dropped, a[1..], t)));
    }
  }

  lemma SanitizeOne(p: Policy, dropped: set<string>, n: Node, totals: Totals)
    ensures BlocksOf(SanitizeAll(p, dropped, [n], totals)) == [Sanitize(p, dropped, n, totals).0]
    ensures TotalsAfter(p, dropped, [n], totals) == Sanitize(p, dropped, n, totals).1
  {
    hide Sanitize;
    var (r, t) := Sanitize(p, dropped, n, totals);
    assert [n][1..] == [];
    assert SanitizeAll(p, dropped, [], t) == [];
    var a := Answer(r, t.size - totals.size);
    assert SanitizeAll(p, dropped, [n], totals) == [a] + [];
    assert ([a] + [])[1..] == [] && BlocksOf([]) == [];
  }

  // ---- HTML documents ----

  /** Detaching sanitizes exactly the outermost `svg` elements, in document order, against the same totals. */
  lemma {:induction false} DetachIsSanitizeAll(p: Policy, dropped: set<string>, n: Node, index: nat, totals: Totals)
    ensures var (_, blocks, t) := DetachNode(p, dropped, n, index, totals);
            && blocks == BlocksOf(SanitizeAll(p, dropped, Outermost(n, IsBareSvg), totals))
            && t == TotalsAfter(p, dropped, Outermost(n, IsBareSvg), totals)
    decreases n, 0
  {
    hide Sanitize, SanitizeAll, TotalsAfter, BlocksOf, DetachChildren, OutermostIn;
    if n.tag == Name("svg") {
      SanitizeOne(p, dropped, n, totals);
    } else {
      DetachAllIsSanitizeAll(p, dropped, n.children, index, totals);
    }
  }

  lemma {:induction false} DetachAllIsSanitizeAll(p: Policy, dropped: set<string>, nodes: seq<Node>, index: nat,
                                                  totals: Totals)
    ensures var (_, blocks, t) := DetachChildren(p, dropped, nodes, index, totals);
            && blocks == BlocksOf(SanitizeAll(p, dropped, OutermostIn(nodes, IsBareSvg), totals))
            && t == TotalsAfter(p, dropped, OutermostIn(nodes, IsBareSvg), totals)
    decreases nodes, 1
  {
    hide Sanitize, DetachNode, Outermost, SanitizeAll, TotalsAfter, BlocksOf;
    NothingToDo(p, dropped, totals);
    if nodes != [] {
      var (_, a, t) := DetachNode(p, dropped, nodes[0], index, totals);
      var first, rest := Outermost(nodes[0], IsBareSvg), OutermostIn(nodes[1..], IsBareSvg);
      DetachIsSanitizeAll(p, dropped, nodes[0], index, totals);
      DetachAllIsSanitizeAll(p, dropped, nodes[1..], index + |a|, t);
      SanitizeConcat(p, dropped, first, rest, totals);
      BlocksConcat(SanitizeAll(p, dropped, first, totals), SanitizeAll(p, dropped, rest, t));
    }
  }

  lemma NothingToDo(p: Policy, dropped: set<string>, totals: Totals)
    ensures BlocksOf(SanitizeAll(p, dropped, [], totals)) == [] && TotalsAfter(p, dropped, [], totals) == totals
  {
  }

  function Somes(blocks: seq<Option<Node>>): nat {
    if blocks == [] then 0 else (if blocks[0].Some? then 1 else 0) + Somes(blocks[1..])
  }

  function SomeBytes(blocks: seq<Option<Node>>): nat {
    if blocks == [] then 0 else (if blocks[0].Some? then Bytes(blocks[0].value) else 0) + SomeBytes(blocks[1..])
  }

  lemma {:induction false} SomesOf(answers: seq<Answer>)
    ensures Somes(BlocksOf(answers)) == Kept(answers) && SomeBytes(BlocksOf(answers)) == KeptBytes(answers)
  {
    hide Bytes;
    if answers != [] {
      SomesOf(answers[1..]);
      assert BlocksOf(answers)[1..] == BlocksOf(answers[1..]);
    }
  }

  /** A document stashes at most 1000 blocks, which hold at most 1 MiB besides their 31 bytes of namespace each; and
      those are answers to its outermost blocks. */
  lemma DocumentWithinCaps(p: Policy, dropped: set<string>, doc: Node)
    requires SoundPolicy(p) && KeepsNamespace(p, dropped)
    ensures var blocks := Detach(p, dropped, doc).1;
            && blocks == BlocksOf(SanitizeAll(p, dropped, Outermost(doc, IsBareSvg), Totals(0, 0)))
            && |blocks| == |Outermost(doc, IsBareSvg)|
            && Somes(blocks) <= MAX_TOTAL_SVG_BLOCKS
            && SomeBytes(blocks) <= MAX_TOTAL_SVG_BYTES + 31 * MAX_TOTAL_SVG_BLOCKS
  {
    hide Sanitize, SoundPolicy, KeepsNamespace, DetachNode, SanitizeAll, BlocksOf, Kept, KeptBytes, KeptCharge,
      OutermostIn;
    var sources := Outermost(doc, IsBareSvg);
    var answers := SanitizeAll(p, dropped, sources, Totals(0, 0));
    CallWithinCaps(p, dropped, sources);
    SanitizeAllWithin(p, dropped, sources, Totals(0, 0));
    SomesOf(answers);
    BlocksLength(answers);
    if doc.tag == Name("svg") {
      SanitizeOne(p, dropped, doc, Totals(0, 0));
    } else {
      DetachIsSanitizeAll(p, dropped, doc, 0, Totals(0, 0));
    }
  }

  lemma {:induction false} BlocksLength(answers: seq<Answer>)
    ensures |BlocksOf(answers)| == |answers|
  {
    if answers != [] {
      BlocksLength(answers[1..]);
    }
  }

  // ---- XML trees ----

  /** Whether some block counts against the author: it looks hostile, or it is rejected in a way that counts. */
  predicate AnyHostile(p: Policy, looksHostile: Node -> bool, sources: seq<Node>, totals: Totals) {
    sources != [] &&
    var (r, t) := Sanitize(p, {}, sources[0], totals);
    || looksHostile(sources[0])
    || (r == None && RejectedIsHostile(sources[0].tag, t.blocks))
    || AnyHostile(p, looksHostile, sources[1..], t)
  }

  lemma {:induction false} HostileConcat(p: Policy, looksHostile: Node -> bool, a: seq<Node>, b: seq<Node>,
                                         totals: Totals)
    ensures AnyHostile(p, looksHostile, a + b, totals) <==>
            AnyHostile(p, looksHostile, a, totals) || AnyHostile(p, looksHostile, b, TotalsAfter(p, {}, a, totals))
    decreases |a|
  {
    hide Sanitize, RejectedIsHostile;
    if a == [] {
      assert a + b == b;
    } else {
      assert (a + b)[1..] == a[1..] + b && (a + b)[0] == a[0];
      HostileConcat(p, looksHostile, a[1..], b, Sanitize(p, {}, a[0], totals).1);
    }
  }

  lemma HostileOne(p: Policy, looksHostile: Node -> bool, n: Node, pass: Pass)
    ensures var next := PassBlock(p, looksHostile, n, pass);
            && next.totals == TotalsAfter(p, {}, [n], pass.totals)
            && (next.hostile <==> pass.hostile || AnyHostile(p, looksHostile, [n], pass.totals))
  {
    hide Sanitize, RejectedIsHostile;
    assert [n][1..] == [];
    var t := Sanitize(p, {}, n, pass.totals).1;
    assert !AnyHostile(p, looksHostile, [], t) && TotalsAfter(p, {}, [], t) == t;
  }

  lemma {:induction false} PassNodeHostile(p: Policy, looksHostile: Node -> bool, n: Node, totals: Totals,
                                           hostile: bool)
    requires !IsSvgLike(n.tag)
    ensures var (_, t, h) := PassNode(p, looksHostile, n, totals, hostile);
            && t == TotalsAfter(p, {}, Outermost(n, IsSvgLike), totals)
            && (h <==> hostile || AnyHostile(p, looksHostile, Outermost(n, IsSvgLike), totals))
    decreases n, 0
  {
    hide Sanitize, IsSvgLike, PassNodes, AnyHostile, TotalsAfter, OutermostIn;
    PassNodesHostile(p, looksHostile, n.children, Pass(n.text, [], totals, hostile));
  }

  lemma {:induction false} PassNodesHostile(p: Policy, looksHostile: Node -> bool, nodes: seq<Node>, pass: Pass)
    ensures var next := PassNodes(p, looksHostile, nodes, pass);
            && next.totals == TotalsAfter(p, {}, OutermostIn(nodes, IsSvgLike), pass.totals)
            && (next.hostile <==> pass.hostile ||
                                  AnyHostile(p, looksHostile, OutermostIn(nodes, IsSvgLike), pass.totals))
    decreases nodes, 1
  {
    hide Sanitize, IsSvgLike, PassNode, PassBlock, RejectedIsHostile;
    if nodes != [] {
      var first, rest := Outermost(nodes[0], IsSvgLike), OutermostIn(nodes[1..], IsSvgLike);
      HostileConcat(p, looksHostile, first, rest, pass.totals);
      SanitizeConcat(p, {}, first, rest, pass.totals);
      if IsSvgLike(nodes[0].tag) {
        HostileOne(p, looksHostile, nodes[0], pass);
        PassNodesHostile(p, looksHostile, nodes[1..], PassBlock(p, looksHostile, nodes[0], pass));
      } else {
        var (m, t, h) := PassNode(p, looksHostile, nodes[0], pass.totals, pass.hostile);
        PassNodeHostile(p, looksHostile, nodes[0], pass.totals, pass.hostile);
        PassNodesHostile(p, looksHostile, nodes[1..], Pass(pass.text, pass.children + [m], t, h));
      }
    }
  }

  /** The pass reports hostility exactly if one of the outermost blocks counts against the author. */
  lemma HostileExactly(p: Policy, looksHostile: Node -> bool, root: Node)
    requires SanitizeXml(p, looksHostile, root).Passed?
    ensures SanitizeXml(p, looksHostile, root).hostile <==>
            AnyHostile(p, looksHostile, Outermost(root, IsSvgLike), Totals(0, 0))
  {
    hide Sanitize, IsSvgLike, PassNode, RejectedIsHostile, OutermostIn;
    if IsSvgLike(root.tag) {
      assert [root][1..] == [];
      assert !AnyHostile(p, looksHostile, [], Sanitize(p, {}, root, Totals(0, 0)).1);
    } else {
      PassNodeHostile(p, looksHostile, root, Totals(0, 0), false);
    }
  }

  /** The rebuilt blocks of one call, and nodes without their tails. */
  function Rebuilt(answers: seq<Answer>): seq<Node> {
    if answers == [] then []
    else (if answers[0].block.Some? then [answers[0].block.value] else []) + Rebuilt(answers[1..])
  }

  function Bare(nodes: seq<Node>): seq<Node> {
    if nodes == [] then [] else [nodes[0].(tail := None)] + Bare(nodes[1..])
  }

  function AllBytes(nodes: seq<Node>): nat {
    if nodes == [] then 0 else Bytes(nodes[0]) + AllBytes(nodes[1..])
  }

  lemma {:induction false} BareConcat(a: seq<Node>, b: seq<Node>)
    ensures Bare(a + b) == Bare(a) + Bare(b)
  {
    if a == [] {
      assert a + b == b;
    } else {
      assert (a + b)[1..] == a[1..] + b;
      BareConcat(a[1..], b);
    }
  }

  lemma RebuiltStep(a: Answer, rest: seq<Answer>)
    ensures Rebuilt([a] + rest) == (if a.block.Some? then [a.block.value] else []) + Rebuilt(rest)
  {
    assert ([a] + rest)[1..] == rest;
  }

  lemma {:induction false} RebuiltConcat(a: seq<Answer>, b: seq<Answer>)
    ensures Rebuilt(a + b) == Rebuilt(a) + Rebuilt(b)
  {
    NothingRebuilt();
    hide Rebuilt;
    if a == [] {
      assert a + b == b;
      Regroup(Rebuilt(b), [], []);
    } else {
      var first, rest := a[0], a[1..];
      RebuiltConcat(rest, b);
      assert a == [first] + rest;
      Regroup([first], rest, b);
      RebuiltStep(first, rest);
      RebuiltStep(first, rest + b);
      Regroup(if first.block.Some? then [first.block.value] else [], Rebuilt(rest), Rebuilt(b));
    }
  }

  /** The outermost blocks of a row of nodes, without their tails. */
  function BlocksIn(nodes: seq<Node>): seq<Node> { Bare(OutermostIn(nodes, IsSvgLike)) }

  lemma {:induction false} OutermostConcat(a: seq<Node>, b: seq<Node>)
    ensures OutermostIn(a + b, IsSvgLike) == OutermostIn(a, IsSvgLike) + OutermostIn(b, IsSvgLike)
  {
    hide Outermost, IsSvgLike;
    if a == [] {
      assert a + b == b;
    } else {
      assert (a + b)[1..] == a[1..] + b;
      OutermostConcat(a[1..], b);
      Regroup(Outermost(a[0], IsSvgLike), OutermostIn(a[1..], IsSvgLike), OutermostIn(b, IsSvgLike));
    }
  }

  lemma BlocksInConcat(a: seq<Node>, b: seq<Node>)
    ensures BlocksIn(a + b) == BlocksIn(a) + BlocksIn(b)
  {
    hide OutermostIn, Bare;
    OutermostConcat(a, b);
    BareConcat(OutermostIn(a, IsSvgLike), OutermostIn(b, IsSvgLike));
  }

  lemma BlocksInOne(n: Node)
    ensures BlocksIn([n]) == Bare(Outermost(n, IsSvgLike))
  {
    hide IsSvgLike, Bare, Outermost;
    assert [n][1..] == [] && OutermostIn([], IsSvgLike) == [];
    Regroup(Outermost(n, IsSvgLike), [], []);
  }

  lemma BareOne(n: Node)
    ensures Bare([n]) == [n.(tail := None)]
  {
    assert [n][1..] == [];
  }

  /** A tail is no part of a block. */
  lemma TailBlocks(n: Node, tail: Option<string>)
    ensures BlocksIn([n.(tail := tail)]) == BlocksIn([n])
  {
    hide IsSvgLike, OutermostIn, BlocksIn;
    var m := n.(tail := tail);
    BlocksInOne(n);
    BlocksInOne(m);
    if IsSvgLike(n.tag) {
      BareOne(n);
      BareOne(m);
    }
  }

  lemma DropTailBlocks(pass: Pass, tail: Option<string>)
    ensures BlocksIn(DropTail(pass, tail).children) == BlocksIn(pass.children)
  {
    hide BlocksIn;
    if OrEmpty(tail) != "" && pass.children != [] {
      var k := |pass.children| - 1;
      var front, last := pass.children[..k], pass.children[k];
      var joined := last.(tail := Some(OrEmpty(last.tail) + tail.value));
      assert pass.children == front + [last];
      BlocksInConcat(front, [last]);
      BlocksInConcat(front, [joined]);
      TailBlocks(last, joined.tail);
    }
  }

  lemma RebuiltOne(p: Policy, n: Node, totals: Totals)
    ensures var r := Sanitize(p, {}, n, totals).0;
            Rebuilt(SanitizeAll(p, {}, [n], totals)) == if r.Some? then [r.value] else []
  {
    hide Sanitize;
    var (r, t) := Sanitize(p, {}, n, totals);
    assert [n][1..] == [] && SanitizeAll(p, {}, [], t) == [];
    var a := Answer(r, t.size - totals.size);
    assert SanitizeAll(p, {}, [n], totals) == [a];
    assert [a][1..] == [] && Rebuilt([]) == [];
  }

  lemma PassBlockBlocks(p: Policy, looksHostile: Node -> bool, n: Node, pass: Pass)
    ensures BlocksIn(PassBlock(p, looksHostile, n, pass).children)
         == BlocksIn(pass.children) + Bare(Rebuilt(SanitizeAll(p, {}, [n], pass.totals)))
  {
    hide Sanitize, SanitizeAll, Rebuilt, BlocksIn, DropTail, RejectedIsHostile, IsSvgLike, OutermostIn, Bare;
    RebuiltOne(p, n, pass.totals);
    var r := Sanitize(p, {}, n, pass.totals).0;
    if r.Some? {
      var m := r.value.(tail := n.tail);
      RebuiltTag(p, n, pass.totals);
      PlainSvg();
      BlocksInConcat(pass.children, [m]);
      TailBlocks(r.value, n.tail);
      BlocksInOne(r.value);
    } else {
      DropTailBlocks(pass, n.tail);
      assert Bare([]) == [] by { NothingBare(); }
      Regroup(BlocksIn(pass.children), [], []);
    }
  }

  lemma NothingBare()
    ensures Bare([]) == [] && BlocksIn([]) == []
  {
  }

  /** Below a node that is no block, exactly the rebuilt blocks are left, in order. */
  lemma {:induction false} PassNodeBlocks(p: Policy, looksHostile: Node -> bool, n: Node, totals: Totals, hostile: bool)
    requires !IsSvgLike(n.tag)
    ensures Bare(Outermost(PassNode(p, looksHostile, n, totals, hostile).0, IsSvgLike))
         == Bare(Rebuilt(SanitizeAll(p, {}, Outermost(n, IsSvgLike), totals)))
    decreases n, 0
  {
    hide IsSvgLike, PassNodes, SanitizeAll, Rebuilt, Bare, OutermostIn;
    NothingBare();
    PassNodesBlocks(p, looksHostile, n.children, Pass(n.text, [], totals, hostile));
    Regroup([], Bare(Rebuilt(SanitizeAll(p, {}, OutermostIn(n.children, IsSvgLike), totals))), []);
  }

  lemma {:induction false} PassNodesBlocks(p: Policy, looksHostile: Node -> bool, nodes: seq<Node>, pass: Pass)
    ensures BlocksIn(PassNodes(p, looksHostile, nodes, pass).children)
         == BlocksIn(pass.children) + Bare(Rebuilt(SanitizeAll(p, {}, OutermostIn(nodes, IsSvgLike), pass.totals)))
    decreases nodes, 1
  {
    hide IsSvgLike, PassNode, PassBlock, Rebuilt, Bare, BlocksIn, TotalsAfter, AnyHostile, Sanitize;
    if nodes == [] {
      assert Bare(Rebuilt([])) == [] by { NothingRebuilt(); }
      Regroup(BlocksIn(pass.children), [], []);
    } else {
      var n := nodes[0];
      var first, rest := Outermost(n, IsSvgLike), OutermostIn(nodes[1..], IsSvgLike);
      hide SanitizeAll, Outermost;
      var next;
      if IsSvgLike(n.tag) {
        next := PassBlock(p, looksHostile, n, pass);
        assert first == [n] by { OutermostBlock(n); }
        PassBlockBlocks(p, looksHostile, n, pass);
        HostileOne(p, looksHostile, n, pass);
      } else {
        var (m, t, h) := PassNode(p, looksHostile, n, pass.totals, pass.hostile);
        next := Pass(pass.text, pass.children + [m], t, h);
        PassNodeBlocks(p, looksHostile, n, pass.totals, pass.hostile);
        PassNodeHostile(p, looksHostile, n, pass.totals, pass.hostile);
        BlocksInConcat(pass.children, [m]);
        BlocksInOne(m);
      }
      PassNodesBlocks(p, looksHostile, nodes[1..], next);
      RebuiltRest(p, first, rest, pass.totals);
      Regroup(BlocksIn(pass.children), Bare(Rebuilt(SanitizeAll(p, {}, first, pass.totals))),
              Bare(Rebuilt(SanitizeAll(p, {}, rest, next.totals))));
    }
  }

  lemma OutermostBlock(n: Node)
    requires IsSvgLike(n.tag)
    ensures Outermost(n, IsSvgLike) == [n]
  {
  }

  lemma NothingRebuilt()
    ensures Rebuilt([]) == [] && Bare(Rebuilt([])) == []
  {
  }

  lemma RebuiltRest(p: Policy, a: seq<Node>, b: seq<Node>, totals: Totals)
    ensures Bare(Rebuilt(SanitizeAll(p, {}, a + b, totals))) ==
            Bare(Rebuilt(SanitizeAll(p, {}, a, totals)))
            + Bare(Rebuilt(SanitizeAll(p, {}, b, TotalsAfter(p, {}, a, totals))))
  {
    hide SanitizeAll, TotalsAfter, Bare, Rebuilt;
    SanitizeConcat(p, {}, a, b, totals);
    var x, y := SanitizeAll(p, {}, a, totals), SanitizeAll(p, {}, b, TotalsAfter(p, {}, a, totals));
    RebuiltConcat(x, y);
    BareConcat(Rebuilt(x), Rebuilt(y));
  }

  lemma {:induction false} RebuiltSize(answers: seq<Answer>)
    ensures |Rebuilt(answers)| == Kept(answers) && AllBytes(Rebuilt(answers)) == KeptBytes(answers)
  {
    hide Bytes;
    if answers != [] {
      RebuiltSize(answers[1..]);
      if answers[0].block.Some? {
        assert Rebuilt(answers)[1..] == Rebuilt(answers[1..]);
      } else {
        assert [] + Rebuilt(answers[1..]) == Rebuilt(answers[1..]);
      }
    }
  }

  lemma {:induction false} BareSize(p: Policy, nodes: seq<Node>)
    ensures |Bare(nodes)| == |nodes| && AllBytes(Bare(nodes)) == AllBytes(nodes)
  {
    hide Bytes;
    if nodes != [] {
      BareSize(p, nodes[1..]);
      TailKeepsRest(p, {}, nodes[0], None, 1);
      assert Bare(nodes)[1..] == Bare(nodes[1..]);
    }
  }

  /** The outermost blocks of the result are exactly the rebuilds of the outermost blocks of the input that were kept,
      in order and up to the text behind them; so they are at most 1000, and hold at most 1 MiB besides their 31 bytes
      of namespace each. A root that is itself a block is left as it was when it is rejected, the one case in which
      the call returns. */
  lemma XmlWithinCaps(p: Policy, looksHostile: Node -> bool, root: Node)
    requires SoundPolicy(p) && KeepsNamespace(p, {})
    ensures !IsSvgLike(root.tag) ==> SanitizeXml(p, looksHostile, root).Passed?
    ensures SanitizeXml(p, looksHostile, root).Passed? ==>
              var blocks := Outermost(SanitizeXml(p, looksHostile, root).root, IsSvgLike);
              var answers := SanitizeAll(p, {}, Outermost(root, IsSvgLike), Totals(0, 0));
              if IsSvgLike(root.tag) then blocks == [root] && Rebuilt(answers) == []
              else
                && Bare(blocks) == Bare(Rebuilt(answers))
                && |blocks| <= MAX_TOTAL_SVG_BLOCKS
                && AllBytes(blocks) <= MAX_TOTAL_SVG_BYTES + 31 * MAX_TOTAL_SVG_BLOCKS
  {
    hide SoundPolicy, KeepsNamespace, IsSvgLike, PassNode, SanitizeAll, Rebuilt, Bare, Outermost, Sanitize,
      Kept, KeptBytes, KeptCharge, AllBytes, RejectedIsHostile;
    if IsSvgLike(root.tag) {
      OutermostBlock(root);
      RebuiltOne(p, root, Totals(0, 0));
    } else {
      var answers := SanitizeAll(p, {}, Outermost(root, IsSvgLike), Totals(0, 0));
      PassNodeBlocks(p, looksHostile, root, Totals(0, 0), false);
      CallWithinCaps(p, {}, Outermost(root, IsSvgLike));
      RebuiltSize(answers);
      BareSize(p, Rebuilt(answers));
      BareSize(p, Outermost(SanitizeXml(p, looksHostile, root).root, IsSvgLike));
    }
  }
}
