/** `sanitize_xml_svgs`: the blocks of an XML tree rebuilt or dropped one after the other. */
module SvgXml {
  import opened Text
  import opened SvgTree
  import opened SvgBuild
  import opened SvgIdempotence
  import opened SvgBlocks

  // ---- What counts as a block ----

  /** `s.rpartition(c)[2]`. */
  function AfterLast(s: string, c: char): string
    decreases |s|
  {
    var i := IndexOf(s, c);
    if i == |s| then s else AfterLast(s[i + 1..], c)
  }

  /** Any element whose local name is `svg`, in any namespace or with an undeclared prefix. */
  predicate IsSvgLike(tag: Tag) {
    tag.Name? && Lower(AfterLast(AfterLast(tag.name, '}'), ':')) == "svg"
  }

  // ---- The pass ----

  /** The part of the tree that has been passed below one parent, and what holds for the whole call. */
  datatype Pass = Pass(text: Option<string>, children: seq<Node>, totals: Totals, hostile: bool)

  /** `_drop_keeping_tail` of the node after the children that were passed. */
  function DropTail(pass: Pass, tail: Option<string>): Pass {
    if OrEmpty(tail) == "" then pass
    else if pass.children == [] then pass.(text := Some(OrEmpty(pass.text) + tail.value))
    else
      var k := |pass.children| - 1;
      var last := pass.children[k];
      pass.(children := pass.children[..k] + [last.(tail := Some(OrEmpty(last.tail) + tail.value))])
  }

  /** Whether a rejected block counts as an attempt of its author, `blocks` being the number seen so far. */
  predicate RejectedIsHostile(tag: Tag, blocks: nat) {
    || blocks > MAX_TOTAL_SVG_BLOCKS
    || SvgLocalName(tag) != Some("svg")
    || (tag.Name? && ':' in tag.name)
  }

  function PassBlock(p: Policy, looksHostile: Node -> bool, n: Node, pass: Pass): Pass {
    var (r, t) := Sanitize(p, {}, n, pass.totals);
    var hostile := pass.hostile || looksHostile(n);
    if r.Some? then Pass(pass.text, pass.children + [r.value.(tail := n.tail)], t, hostile)
    else DropTail(pass, n.tail).(totals := t, hostile := hostile || RejectedIsHostile(n.tag, t.blocks))
  }

  function PassNode(p: Policy, looksHostile: Node -> bool, n: Node, totals: Totals, hostile: bool): (Node, Totals, bool)
    decreases n, 0
  {
    var pass := PassNodes(p, looksHostile, n.children, Pass(n.text, [], totals, hostile));
    (n.(text := pass.text, children := pass.children), pass.totals, pass.hostile)
  }

  function PassNodes(p: Policy, looksHostile: Node -> bool, nodes: seq<Node>, pass: Pass): Pass
    decreases nodes, 1
  {
    if nodes == [] then pass
    else if IsSvgLike(nodes[0].tag) then
      PassNodes(p, looksHostile, nodes[1..], PassBlock(p, looksHostile, nodes[0], pass))
    else
      var (m, t, h) := PassNode(p, looksHostile, nodes[0], pass.totals, pass.hostile);
      PassNodes(p, looksHostile, nodes[1..], Pass(pass.text, pass.children + [m], t, h))
  }

  /** The tree and whether something hostile was found; a validated root has no parent to put its rebuild into. */
  datatype XmlResult = Passed(root: Node, hostile: bool) | NoParent

  /** `sanitize_xml_svgs` of a tree whose root has no parent. */
  function SanitizeXml(p: Policy, looksHostile: Node -> bool, root: Node): XmlResult {
    if IsSvgLike(root.tag) then
      var (r, t) := Sanitize(p, {}, root, Totals(0, 0));
      if r.Some? then NoParent else Passed(root, looksHostile(root) || RejectedIsHostile(root.tag, t.blocks))
    else
      var (m, _, h) := PassNode(p, looksHostile, root, Totals(0, 0), false);
      Passed(m, h)
  }

  // ---- Only rebuilt blocks remain ----

  /** Every outermost block is a clean `svg`. */
  predicate OnlyClean(p: Policy, n: Node)
    decreases n, 0
  {
    if IsSvgLike(n.tag) then n.tag == Name("svg") && Clean(p, {}, n, 1) else AllClean(p, n.children)
  }

  predicate AllClean(p: Policy, nodes: seq<Node>)
    decreases nodes, 1
  {
    nodes != [] ==> OnlyClean(p, nodes[0]) && AllClean(p, nodes[1..])
  }

  lemma {:induction false} AllCleanConcat(p: Policy, a: seq<Node>, b: seq<Node>)
    ensures AllClean(p, a + b) <==> AllClean(p, a) && AllClean(p, b)
  {
    hide OnlyClean;
    if a == [] {
      assert a + b == b;
    } else {
      assert (a + b)[1..] == a[1..] + b;
      AllCleanConcat(p, a[1..], b);
    }
  }

  lemma OneClean(p: Policy, n: Node)
    ensures AllClean(p, [n]) <==> OnlyClean(p, n)
  {
    assert [n][1..] == [];
  }

  lemma TailClean(p: Policy, n: Node, tail: Option<string>)
    requires OnlyClean(p, n)
    ensures OnlyClean(p, n.(tail := tail))
  {
    hide Lower, AfterLast;
    if IsSvgLike(n.tag) {
      TailKeepsRest(p, {}, n, tail, 1);
    }
  }

  lemma DropTailClean(p: Policy, pass: Pass, tail: Option<string>)
    requires AllClean(p, pass.children)
    ensures AllClean(p, DropTail(pass, tail).children)
  {
    hide OnlyClean, AllClean;
    if OrEmpty(tail) != "" && pass.children != [] {
      var k := |pass.children| - 1;
      var last := pass.children[k];
      var joined := last.(tail := Some(OrEmpty(last.tail) + tail.value));
      assert pass.children == pass.children[..k] + [last];
      AllCleanConcat(p, pass.children[..k], [last]);
      AllCleanConcat(p, pass.children[..k], [joined]);
      OneClean(p, last);
      OneClean(p, joined);
      TailClean(p, last, joined.tail);
    }
  }

  lemma PlainSvg()
    ensures IsSvgLike(Name("svg"))
  {
    AllEach("svg", IsLowerLetter);
    LowerLetters("svg");
    assert IndexOf("svg", '}') == 3 && IndexOf("svg", ':') == 3 by {
      IndexOfFirst("svg", '}', "");
      IndexOfFirst("svg", ':', "");
    }
  }

  lemma PassBlockClean(p: Policy, looksHostile: Node -> bool, n: Node, pass: Pass)
    requires SoundPolicy(p) && KeepsNamespace(p, {}) && AllClean(p, pass.children)
    ensures AllClean(p, PassBlock(p, looksHostile, n, pass).children)
  {
    hide SoundPolicy, KeepsNamespace, AllClean, Sanitize, Clean, IsSvgLike, RejectedIsHostile, DropTail;
    var (r, t) := Sanitize(p, {}, n, pass.totals);
    if r.Some? {
      SanitizedClean(p, {}, n, pass.totals);
      PlainSvg();
      var m := r.value.(tail := n.tail);
      TailClean(p, r.value, n.tail);
      OneClean(p, m);
      AllCleanConcat(p, pass.children, [m]);
    } else {
      DropTailClean(p, pass, n.tail);
    }
  }

  lemma {:induction false} PassNodeClean(p: Policy, looksHostile: Node -> bool, n: Node, totals: Totals, hostile: bool)
    requires SoundPolicy(p) && KeepsNamespace(p, {}) && !IsSvgLike(n.tag)
    ensures OnlyClean(p, PassNode(p, looksHostile, n, totals, hostile).0)
    decreases n, 0
  {
    hide SoundPolicy, KeepsNamespace, IsSvgLike, PassNodes, AllClean;
    NoneClean(p);
    PassNodesClean(p, looksHostile, n.children, Pass(n.text, [], totals, hostile));
  }

  lemma NoneClean(p: Policy)
    ensures AllClean(p, [])
  {
  }

  lemma {:induction false} PassNodesClean(p: Policy, looksHostile: Node -> bool, nodes: seq<Node>, pass: Pass)
    requires SoundPolicy(p) && KeepsNamespace(p, {}) && AllClean(p, pass.children)
    ensures AllClean(p, PassNodes(p, looksHostile, nodes, pass).children)
    decreases nodes, 1
  {
    hide SoundPolicy, KeepsNamespace, IsSvgLike, PassNode, PassBlock, AllClean, OnlyClean;
    if nodes != [] {
      if IsSvgLike(nodes[0].tag) {
        PassBlockClean(p, looksHostile, nodes[0], pass);
        PassNodesClean(p, looksHostile, nodes[1..], PassBlock(p, looksHostile, nodes[0], pass));
      } else {
        var (m, t, h) := PassNode(p, looksHostile, nodes[0], pass.totals, pass.hostile);
        PassNodeClean(p, looksHostile, nodes[0], pass.totals, pass.hostile);
        OneClean(p, m);
        AllCleanConcat(p, pass.children, [m]);
        PassNodesClean(p, looksHostile, nodes[1..], Pass(pass.text, pass.children + [m], t, h));
      }
    }
  }

  /** After the pass, whatever a browser would read as a drawing has been rebuilt, if the root itself is none. A root
      that is one has no parent: the call fails exactly if the root was validated, and else leaves it as it was. */
  lemma XmlOnlyClean(p: Policy, looksHostile: Node -> bool, root: Node)
    requires SoundPolicy(p) && KeepsNamespace(p, {})
    ensures var r := SanitizeXml(p, looksHostile, root);
            if IsSvgLike(root.tag) then
              && (r == NoParent <==> Sanitize(p, {}, root, Totals(0, 0)).0.Some?)
              && (r.Passed? ==> r.root == root)
            else r.Passed? && OnlyClean(p, r.root)
  {
    hide SoundPolicy, KeepsNamespace, IsSvgLike, PassNode, OnlyClean, Sanitize, RejectedIsHostile;
    if !IsSvgLike(root.tag) {
      PassNodeClean(p, looksHostile, root, Totals(0, 0), false);
    }
  }

  // ---- The text around the blocks ----

  function AroundBlocks(n: Node): string
    decreases n, 0
  {
    if IsSvgLike(n.tag) then "" else OrEmpty(n.text) + AllAround(n.children)
  }

  function AllAround(nodes: seq<Node>): string
    decreases nodes, 1
  {
    if nodes == [] then "" else AroundBlocks(nodes[0]) + OrEmpty(nodes[0].tail) + AllAround(nodes[1..])
  }

  lemma {:induction false} AroundConcat(a: seq<Node>, b: seq<Node>)
    ensures AllAround(a + b) == AllAround(a) + AllAround(b)
  {
    hide AroundBlocks;
    if a == [] {
      assert a + b == b;
    } else {
      assert (a + b)[1..] == a[1..] + b;
      AroundConcat(a[1..], b);
      Regroup(AroundBlocks(a[0]) + OrEmpty(a[0].tail), AllAround(a[1..]), AllAround(b));
    }
  }

  lemma AroundOne(n: Node)
    ensures AllAround([n]) == AroundBlocks(n) + OrEmpty(n.tail)
  {
    assert [n][1..] == [];
  }

  /** The text passed so far below one parent. */
  function PassText(pass: Pass): string { OrEmpty(pass.text) + AllAround(pass.children) }

  lemma AppendText(pass: Pass, n: Node)
    ensures OrEmpty(pass.text) + AllAround(pass.children + [n]) == PassText(pass) + (AroundBlocks(n) + OrEmpty(n.tail))
  {
    hide AroundBlocks, AllAround, OrEmpty;
    AroundConcat(pass.children, [n]);
    AroundOne(n);
    Regroup(OrEmpty(pass.text), AllAround(pass.children), AllAround([n]));
  }

  lemma DropTailText(pass: Pass, tail: Option<string>)
    ensures PassText(DropTail(pass, tail)) == PassText(pass) + OrEmpty(tail)
  {
    hide AroundBlocks, AllAround;
    if OrEmpty(tail) == "" {
      Regroup(PassText(pass), [], []);
    } else if pass.children == [] {
      assert AllAround([]) == "" by { NoneAround(); }
      Regroup(OrEmpty(pass.text), [], []);
      Regroup(OrEmpty(pass.text) + tail.value, [], []);
    } else {
      var k := |pass.children| - 1;
      var front, last := pass.children[..k], pass.children[k];
      var joined := last.(tail := Some(OrEmpty(last.tail) + tail.value));
      assert pass.children == front + [last];
      AppendText(pass.(children := front), last);
      AppendText(pass.(children := front), joined);
      assert AroundBlocks(joined) == AroundBlocks(last) by { AroundTail(last, joined.tail); }
      Regroup(AroundBlocks(last), OrEmpty(last.tail), tail.value);
      Regroup(PassText(pass.(children := front)), AroundBlocks(last) + OrEmpty(last.tail), tail.value);
    }
  }

  lemma AroundTail(n: Node, tail: Option<string>)
    ensures AroundBlocks(n.(tail := tail)) == AroundBlocks(n)
  {
  }

  lemma NoneAround()
    ensures AllAround([]) == ""
  {
  }

  lemma PassBlockText(p: Policy, looksHostile: Node -> bool, n: Node, pass: Pass)
    requires IsSvgLike(n.tag)
    ensures PassText(PassBlock(p, looksHostile, n, pass)) == PassText(pass) + OrEmpty(n.tail)
  {
    hide Sanitize, IsSvgLike, RejectedIsHostile, DropTail, AllAround;
    var r := Sanitize(p, {}, n, pass.totals).0;
    if r.Some? {
      var m := r.value.(tail := n.tail);
      RebuiltTag(p, n, pass.totals);
      PlainSvg();
      AppendText(pass, m);
      Regroup(OrEmpty(n.tail), [], []);
    } else {
      DropTailText(pass, n.tail);
    }
  }

  lemma RebuiltTag(p: Policy, n: Node, totals: Totals)
    requires Sanitize(p, {}, n, totals).0.Some?
    ensures Sanitize(p, {}, n, totals).0.value.tag == Name("svg")
  {
    hide SvgLocalName, Build, SetAttr;
    BuiltTag(p, {}, n, Fresh(Some(totals.size)));
  }

  lemma {:induction false} PassNodeText(p: Policy, looksHostile: Node -> bool, n: Node, totals: Totals, hostile: bool)
    requires !IsSvgLike(n.tag)
    ensures var m := PassNode(p, looksHostile, n, totals, hostile).0;
            m.tag == n.tag && m.tail == n.tail && AroundBlocks(m) == AroundBlocks(n)
    decreases n, 0
  {
    hide IsSvgLike, PassNodes, AllAround;
    NoneAround();
    Regroup(OrEmpty(n.text), [], []);
    PassNodesText(p, looksHostile, n.children, Pass(n.text, [], totals, hostile));
  }

  lemma {:induction false} PassNodesText(p: Policy, looksHostile: Node -> bool, nodes: seq<Node>, pass: Pass)
    ensures PassText(PassNodes(p, looksHostile, nodes, pass)) == PassText(pass) + AllAround(nodes)
    decreases nodes, 1
  {
    hide IsSvgLike, PassNode, PassBlock, AroundBlocks, PassText;
    if nodes == [] {
      Regroup(PassText(pass), [], []);
    } else {
      var n := nodes[0];
      Regroup(PassText(pass), AroundBlocks(n) + OrEmpty(n.tail), AllAround(nodes[1..]));
      if IsSvgLike(n.tag) {
        PassBlockText(p, looksHostile, n, pass);
        PassNodesText(p, looksHostile, nodes[1..], PassBlock(p, looksHostile, n, pass));
        assert AroundBlocks(n) == "" by { InBlock(n); }
        Regroup(OrEmpty(n.tail), [], []);
      } else {
        var (m, t, h) := PassNode(p, looksHostile, n, pass.totals, pass.hostile);
        PassNodeText(p, looksHostile, n, pass.totals, pass.hostile);
        AppendText(pass, m);
        var next := Pass(pass.text, pass.children + [m], t, h);
        assert PassText(next) == PassText(pass) + (AroundBlocks(n) + OrEmpty(n.tail)) by { PassTextOf(next); }
        PassNodesText(p, looksHostile, nodes[1..], next);
      }
    }
  }

  lemma PassTextOf(pass: Pass)
    ensures PassText(pass) == OrEmpty(pass.text) + AllAround(pass.children)
  {
  }

  lemma InBlock(n: Node)
    requires IsSvgLike(n.tag)
    ensures AroundBlocks(n) == ""
  {
  }

  /** The pass never changes the text around the blocks, dropped ones included. */
  lemma XmlTextKept(p: Policy, looksHostile: Node -> bool, root: Node)
    requires SanitizeXml(p, looksHostile, root).Passed?
    ensures AroundBlocks(SanitizeXml(p, looksHostile, root).root) == AroundBlocks(root)
  {
    hide IsSvgLike, PassNode, AroundBlocks, Sanitize;
    if !IsSvgLike(root.tag) {
      PassNodeText(p, looksHostile, root, Totals(0, 0), false);
    }
  }

  // ---- Which rejected blocks count against the author ----

  const CLARK_SVG := "{http://www.w3.org/2000/svg}svg"

  lemma {:induction false} AbsentIndex(s: string, c: char)
    ensures IndexOf(s, c) < |s| <==> c in s
  {
    if s != "" && s[0] != c {
      AbsentIndex(s[1..], c);
    }
  }

  lemma BareLocal(name: string)
    requires !("{" <= name) && ':' !in name
    ensures SvgLocalName(Name(name)) == Some(Lower(name))
  {
    hide Lower;
    AbsentIndex(name, ':');
  }

  lemma ClarkColon(name: string)
    requires "{" <= name && SvgLocalName(Name(name)).Some?
    ensures ':' in name
  {
    hide Lower, IndexOf;
    var i := IndexOf(name[1..], '}');
    NamespaceColon();
    assert name[1..][..i][4] == SVG_NS[4];
    assert name[5] == ':';
  }

  lemma NamespaceColon()
    ensures |SVG_NS| == 26 && SVG_NS[4] == ':' && ':' in CLARK_SVG
  {
    assert CLARK_SVG[5] == ':';
  }

  /** A rejected `svg` of the SVG namespace always counts against its author, however it was rejected: the colon that
      tells a prefix is also in the namespace of every XML-parsed name. Only a bare `svg` can be rejected without, and
      that one counts exactly when the blocks are too many. */
  lemma RejectedHostility(tag: Tag, blocks: nat)
    ensures RejectedIsHostile(Name(CLARK_SVG), blocks)
    ensures RejectedIsHostile(tag, blocks) <==>
            !(tag.Name? && !("{" <= tag.name) && ':' !in tag.name
              && Lower(tag.name) == "svg" && blocks <= MAX_TOTAL_SVG_BLOCKS)
  {
    hide Lower, SvgLocalName;
    NamespaceColon();
    if tag.Name? {
      if "{" <= tag.name {
        if SvgLocalName(tag) == Some("svg") {
          ClarkColon(tag.name);
        }
      } else if ':' !in tag.name {
        BareLocal(tag.name);
      }
    } else {
      assert SvgLocalName(tag) == None by { NoName(tag); }
    }
  }

  lemma NoName(tag: Tag)
    requires !tag.Name?
    ensures SvgLocalName(tag) == None
  {
  }
}
