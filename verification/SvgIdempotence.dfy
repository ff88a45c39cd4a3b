/** What every rebuilt block is, and why rebuilding it again changes nothing and costs no more. */
module SvgIdempotence {
  import opened Text
  import opened SvgTree
  import opened SvgBuild

  // ---- The trees that can be built ----

  predicate IsPrintable(c: char) { !IsControl(c) }

  /** Text of a text element has no control characters; elsewhere there is only the layout newline. */
  predicate TextClean(t: Option<string>, keeps: bool) {
    t.Some? ==> if keeps then t.value != "" && All(t.value, IsPrintable) else t.value == "\n"
  }

  predicate AttrClean(p: Policy, element: string, dropped: set<string>, a: (string, string)) {
    var r := KeepAttribute(p, element, dropped, a.0, a.1);
    r.Some? && StoredName(r.value.0) == a.0 && r.value.1 == a.1
  }

  predicate HasAttr(attrs: seq<(string, string)>, name: string) {
    attrs != [] && (attrs[0].0 == name || HasAttr(attrs[1..], name))
  }

  /** Every attribute passes its own check unchanged, and no name is there twice. */
  predicate AttrsClean(p: Policy, element: string, dropped: set<string>, attrs: seq<(string, string)>) {
    attrs != [] ==>
      && AttrClean(p, element, dropped, attrs[0])
      && !HasAttr(attrs[1..], attrs[0].0)
      && AttrsClean(p, element, dropped, attrs[1..])
  }

  predicate IsCanonical(name: string) { CanonicalElement(Lower(name)) == Some(name) }

  /** Only allowlisted elements in their canonical spelling, nested no deeper than the cap. */
  predicate Clean(p: Policy, dropped: set<string>, node: Node, depth: nat)
    decreases node, 0
  {
    && depth <= MAX_SVG_DEPTH
    && node.tag.Name?
    && IsCanonical(node.tag.name)
    && AttrsClean(p, node.tag.name, dropped, node.attrs)
    && TextClean(node.text, node.tag.name in TEXT_ELEMENTS)
    && ChildrenClean(p, dropped, node.children, depth + 1, node.tag.name in TEXT_ELEMENTS)
  }

  predicate ChildrenClean(p: Policy, dropped: set<string>, nodes: seq<Node>, depth: nat, keeps: bool)
    decreases nodes, 1
  {
    nodes != [] ==>
      && Clean(p, dropped, nodes[0], depth)
      && TextClean(nodes[0].tail, keeps)
      && ChildrenClean(p, dropped, nodes[1..], depth, keeps)
  }

  // ---- What a tree holds ----

  function AttrCost(a: (string, string)): nat {
    |if a.0 == XML_SPACE then "xml:space" else a.0| + |a.1|
  }

  function AttrsBytes(attrs: seq<(string, string)>): nat {
    if attrs == [] then 0 else AttrCost(attrs[0]) + AttrsBytes(attrs[1..])
  }

  /** Names, attributes and kept text of a tree, without the tail of its root. */
  function Bytes(node: Node): nat
    decreases node, 0
  {
    var keeps := node.tag.Name? && node.tag.name in TEXT_ELEMENTS;
    (if node.tag.Name? then |node.tag.name| else 0) + AttrsBytes(node.attrs) + TextCost(node.text, keeps)
    + ChildrenBytes(node.children, keeps)
  }

  function ChildrenBytes(nodes: seq<Node>, keeps: bool): nat
    decreases nodes, 1
  {
    if nodes == [] then 0 else Bytes(nodes[0]) + TextCost(nodes[0].tail, keeps) + ChildrenBytes(nodes[1..], keeps)
  }

  function Elements(node: Node): nat
    decreases node, 0
  {
    1 + ChildElements(node.children)
  }

  function ChildElements(nodes: seq<Node>): nat
    decreases nodes, 1
  {
    if nodes == [] then 0 else Elements(nodes[0]) + ChildElements(nodes[1..])
  }

  // ---- Budgets ----

  predicate Fits(s: Spent, elements: nat, size: nat) {
    && s.elements + elements <= MAX_SVG_ELEMENTS
    && s.size + size <= MAX_SVG_BYTES
    && (s.total.Some? ==> s.total.value + size <= MAX_TOTAL_SVG_BYTES)
  }

  function Charge(s: Spent, elements: nat, size: nat): Spent {
    Spent(s.elements + elements, s.size + size, if s.total == None then None else Some(s.total.value + size))
  }

  /** From `s` to `t`, within the caps, exactly `elements` elements and at least `size` bytes were charged, and
      the same bytes went to the total. */
  predicate Charged(s: Spent, t: Spent, elements: int, size: int) {
    && t.elements == s.elements + elements && t.elements >= s.elements
    && t.size >= s.size + size && t.size >= s.size
    && t == Charge(s, t.elements - s.elements, t.size - s.size)
    && Fits(t, 0, 0)
  }

  lemma SpendFits(s: Spent, amount: nat)
    requires Fits(s, 0, 0)
    ensures Spend(s, amount).1 <==> Fits(s, 0, amount)
    ensures Spend(s, amount).1 ==>
              Spend(s, amount).0 == Charge(s, 0, amount) && Charged(s, Spend(s, amount).0, 0, amount)
  {
  }

  // ---- Names ----

  lemma {:induction false} LowerConcat(a: string, b: string)
    ensures Lower(a + b) == Lower(a) + Lower(b)
  {
    if a == "" {
      assert a + b == b;
    } else {
      assert (a + b)[1..] == a[1..] + b;
      LowerConcat(a[1..], b);
    }
  }

  lemma PlainLetters(name: string)
    requires name in PLAIN_ELEMENTS
    ensures All(name, IsLowerLetter)
  {
    hide All;
    AllEach(name, IsLowerLetter);
  }

  lemma LowerLetters(s: string)
    requires All(s, IsLowerLetter)
    ensures Lower(s) == s && All(s, IsLetter)
  {
    LowerFixed(s, IsLowerLetter);
    AllWeaken(s, IsLowerLetter, IsLetter);
  }

  lemma CamelName(head: string, big: char, small: char, tail: string)
    requires All(head, IsLowerLetter) && All(tail, IsLowerLetter)
    requires 'A' <= big <= 'Z' && small == big + ' '
    ensures var name := head + ([big] + tail); Lower(name) == head + ([small] + tail) && All(name, IsLetter)
  {
    LowerLetters(head);
    LowerLetters(tail);
    LowerConcat(head, [big] + tail);
    AllConcat([big], tail, IsLetter);
    AllConcat(head, [big] + tail, IsLetter);
    assert ([big] + tail)[1..] == tail;
  }

  lemma CamelGradient(head: string)
    requires All(head, IsLowerLetter)
    ensures Lower(head + "Gradient") == head + "gradient" && All(head + "Gradient", IsLetter)
  {
    AllEach("radient", IsLowerLetter);
    hide All, Lower;
    CamelName(head, 'G', 'g', "radient");
    assert ['G'] + "radient" == "Gradient" && ['g'] + "radient" == "gradient";
  }

  lemma CamelNames()
    ensures Lower("linearGradient") == "lineargradient" && All("linearGradient", IsLetter)
    ensures Lower("radialGradient") == "radialgradient" && All("radialGradient", IsLetter)
    ensures Lower("clipPath") == "clippath" && All("clipPath", IsLetter)
  {
    hide All, Lower;
    AllEach("linear", IsLowerLetter);
    AllEach("radial", IsLowerLetter);
    CamelGradient("linear");
    CamelGradient("radial");
    assert "linear" + "Gradient" == "linearGradient" && "linear" + "gradient" == "lineargradient";
    assert "radial" + "Gradient" == "radialGradient" && "radial" + "gradient" == "radialgradient";
    ClipName();
  }

  lemma ClipName()
    ensures Lower("clipPath") == "clippath" && All("clipPath", IsLetter)
  {
    hide All, Lower;
    AllEach("clip", IsLowerLetter);
    AllEach("ath", IsLowerLetter);
    CamelName("clip", 'P', 'p', "ath");
    assert "clip" + (['P'] + "ath") == "clipPath" && "clip" + (['p'] + "ath") == "clippath";
  }

  /** The canonical spelling of an element names the same element. */
  lemma CanonicalAgain(local: string)
    requires CanonicalElement(local).Some?
    ensures var name := CanonicalElement(local).value; IsCanonical(name) && All(name, IsLetter)
  {
    hide All, Lower;
    if local in PLAIN_ELEMENTS {
      PlainLetters(local);
      LowerLetters(local);
    } else {
      CamelNames();
    }
  }

  lemma LettersLocal(name: string)
    requires All(name, IsLetter)
    ensures SvgLocalName(Name(name)) == Some(Lower(name))
  {
    hide All, Lower;
    AllEach(name, IsLetter);
    IndexOfFirst(name, ':', "");
  }

  lemma CanonicalLocal(name: string)
    requires IsCanonical(name)
    ensures SvgLocalName(Name(name)) == Some(Lower(name))
  {
    hide Lower;
    CanonicalAgain(Lower(name));
    LettersLocal(name);
  }

  // ---- Text ----

  lemma {:induction false} RemoveControlsClean(s: string)
    ensures All(RemoveControls(s), IsPrintable)
    ensures All(s, IsPrintable) ==> RemoveControls(s) == s
  {
    if s != "" {
      RemoveControlsClean(s[1..]);
      AllConcat(if IsControl(s[0]) then "" else [s[0]], RemoveControls(s[1..]), IsPrintable);
    }
  }

  lemma CleanTextClean(text: Option<string>, keeps: bool)
    ensures TextClean(CleanText(text, keeps), keeps)
    ensures TextClean(text, keeps) ==> CleanText(text, keeps) == text
  {
    if text.Some? {
      RemoveControlsClean(text.value);
      assert Strip("\n") == "";
    }
  }

  /** Joining the tail of a dropped child to the text before it. */
  lemma JoinTextClean(first: Option<string>, second: string, keeps: bool)
    requires TextClean(first, keeps) && TextClean(Some(second), keeps)
    ensures var joined := Some(JoinText(first, second, keeps));
            TextClean(joined, keeps)
            && TextCost(joined, keeps) == TextCost(first, keeps) + TextCost(Some(second), keeps)
  {
    var joined := OrEmpty(first) + second;
    AllConcat(OrEmpty(first), second, IsPrintable);
    if !keeps {
      assert Strip(joined) == "" by {
        AllEach(joined, IsSpace);
        TrimLeftAllSpace(joined);
      }
    }
  }

  // ---- Attributes ----

  lemma {:induction false} SetAttrClean(p: Policy, element: string, dropped: set<string>, attrs: seq<(string, string)>,
                                        a: (string, string))
    requires AttrsClean(p, element, dropped, attrs) && AttrClean(p, element, dropped, a)
    ensures AttrsClean(p, element, dropped, SetAttr(attrs, a.0, a.1))
    ensures AttrsBytes(SetAttr(attrs, a.0, a.1)) <= AttrsBytes(attrs) + AttrCost(a)
    ensures forall n :: HasAttr(SetAttr(attrs, a.0, a.1), n) <==> HasAttr(attrs, n) || n == a.0
    ensures !HasAttr(attrs, a.0) ==> SetAttr(attrs, a.0, a.1) == attrs + [a]
  {
    hide AttrClean;
    if attrs == [] {
      assert [a][1..] == [];
    } else {
      var rest := attrs[1..];
      assert attrs == [attrs[0]] + rest;
      if attrs[0].0 == a.0 {
        assert ([a] + rest)[1..] == rest;
      } else {
        SetAttrClean(p, element, dropped, rest, a);
        assert ([attrs[0]] + SetAttr(rest, a.0, a.1))[1..] == SetAttr(rest, a.0, a.1);
      }
    }
  }

  lemma {:induction false} BuildAttrsClean(p: Policy, element: string, dropped: set<string>,
                                           attrs: seq<(string, string)>, done: seq<(string, string)>, s: Spent)
    requires SoundPolicy(p) && AttrsClean(p, element, dropped, done) && Fits(s, 0, 0)
    requires BuildAttrs(p, element, dropped, attrs, done, s).0.Some?
    ensures var (r, t) := BuildAttrs(p, element, dropped, attrs, done, s);
            && AttrsClean(p, element, dropped, r.value)
            && Charged(s, t, 0, AttrsBytes(r.value) - AttrsBytes(done))
    decreases |attrs|
  {
    hide KeepAttribute, SoundPolicy, Spend, AttrsClean, AttrsBytes, SetAttr, HasAttr;
    if attrs != [] {
      var kept := KeepAttribute(p, element, dropped, attrs[0].0, attrs[0].1);
      if kept == None {
        BuildAttrsClean(p, element, dropped, attrs[1..], done, s);
      } else {
        var a := (StoredName(kept.value.0), kept.value.1);
        KeepAttributeIdempotent(p, element, dropped, attrs[0].0, attrs[0].1);
        SpendFits(s, AttrCost(a));
        SetAttrClean(p, element, dropped, done, a);
        BuildAttrsClean(p, element, dropped, attrs[1..], SetAttr(done, a.0, a.1), Spend(s, AttrCost(a)).0);
      }
    }
  }

  /** None of `attrs` has a name of `done`. */
  predicate Apart(done: seq<(string, string)>, attrs: seq<(string, string)>) {
    attrs != [] ==> !HasAttr(done, attrs[0].0) && Apart(done, attrs[1..])
  }

  lemma {:induction false} ApartAppend(done: seq<(string, string)>, a: (string, string), attrs: seq<(string, string)>)
    requires Apart(done, attrs) && !HasAttr(attrs, a.0)
    ensures Apart(done + [a], attrs)
  {
    if attrs != [] {
      HasAttrAppend(done, a, attrs[0].0);
      ApartAppend(done, a, attrs[1..]);
    }
  }

  lemma {:induction false} HasAttrAppend(done: seq<(string, string)>, a: (string, string), name: string)
    ensures HasAttr(done + [a], name) <==> HasAttr(done, name) || a.0 == name
  {
    if done == [] {
      assert done + [a] == [a];
    } else {
      assert (done + [a])[1..] == done[1..] + [a];
      HasAttrAppend(done[1..], a, name);
    }
  }

  lemma {:induction false} SetAttrNew(attrs: seq<(string, string)>, a: (string, string))
    requires !HasAttr(attrs, a.0)
    ensures SetAttr(attrs, a.0, a.1) == attrs + [a]
  {
    if attrs != [] {
      SetAttrNew(attrs[1..], a);
      assert attrs + [a] == [attrs[0]] + (attrs[1..] + [a]);
    }
  }

  lemma {:induction false} BuildAttrsAgain(p: Policy, element: string, dropped: set<string>,
                                           attrs: seq<(string, string)>, done: seq<(string, string)>, s: Spent)
    requires SoundPolicy(p) && AttrsClean(p, element, dropped, attrs) && Apart(done, attrs) && Fits(s, 0, 0)
    ensures var (r, t) := BuildAttrs(p, element, dropped, attrs, done, s);
            && (r.Some? <==> Fits(s, 0, AttrsBytes(attrs)))
            && (r.Some? ==> r.value == done + attrs && t == Charge(s, 0, AttrsBytes(attrs)))
    decreases |attrs|
  {
    hide KeepAttribute, SoundPolicy, Spend, SetAttr, HasAttr;
    if attrs == [] {
      Regroup(done, attrs, attrs);
    } else {
      var a := attrs[0];
      var kept := KeepAttribute(p, element, dropped, a.0, a.1);
      KeepAttributeIdempotent(p, element, dropped, a.0, a.1);
      SpendFits(s, AttrCost(a));
      if Spend(s, AttrCost(a)).1 {
        SetAttrNew(done, a);
        ApartAppend(done, a, attrs[1..]);
        BuildAttrsAgain(p, element, dropped, attrs[1..], done + [a], Spend(s, AttrCost(a)).0);
        assert done + [a] + attrs[1..] == done + attrs;
      }
    }
  }

  // ---- Children ----

  lemma {:induction false} ChildrenAppend(p: Policy, dropped: set<string>, nodes: seq<Node>, last: Node, depth: nat,
                                          keeps: bool)
    ensures ChildrenClean(p, dropped, nodes + [last], depth, keeps) <==>
            (ChildrenClean(p, dropped, nodes, depth, keeps) && Clean(p, dropped, last, depth)
             && TextClean(last.tail, keeps))
    ensures ChildrenBytes(nodes + [last], keeps)
            == ChildrenBytes(nodes, keeps) + Bytes(last) + TextCost(last.tail, keeps)
    ensures ChildElements(nodes + [last]) == ChildElements(nodes) + Elements(last)
  {
    hide Clean, TextClean, Bytes, TextCost, Elements;
    if nodes == [] {
      assert nodes + [last] == [last] && [last][1..] == [];
    } else {
      assert (nodes + [last])[1..] == nodes[1..] + [last];
      ChildrenAppend(p, dropped, nodes[1..], last, depth, keeps);
    }
  }

  function PartBytes(part: Partial, keeps: bool): nat {
    TextCost(part.text, keeps) + ChildrenBytes(part.children, keeps)
  }

  predicate PartClean(p: Policy, dropped: set<string>, part: Partial, depth: nat, keeps: bool) {
    TextClean(part.text, keeps) && ChildrenClean(p, dropped, part.children, depth, keeps)
  }

  lemma TailKeepsRest(p: Policy, dropped: set<string>, node: Node, tail: Option<string>, depth: nat)
    ensures var n := node.(tail := tail);
            && (Clean(p, dropped, n, depth) <==> Clean(p, dropped, node, depth))
            && Bytes(n) == Bytes(node) && Elements(n) == Elements(node)
  {
  }

  /** Tail text of a dropped child goes to the text before it, and nothing is lost. */
  lemma AddTailClean(p: Policy, dropped: set<string>, part: Partial, tail: string, depth: nat, keeps: bool)
    requires PartClean(p, dropped, part, depth, keeps) && TextClean(Some(tail), keeps)
    ensures var next := AddTail(part, tail, keeps);
            && PartClean(p, dropped, next, depth, keeps)
            && PartBytes(next, keeps) == PartBytes(part, keeps) + TextCost(Some(tail), keeps)
            && ChildElements(next.children) == ChildElements(part.children)
  {
    hide Clean, TextClean, TextCost, JoinText, Bytes, Elements, ChildrenClean, ChildrenBytes, ChildElements;
    if part.children == [] {
      JoinTextClean(part.text, tail, keeps);
    } else {
      var n := |part.children| - 1;
      var last := part.children[n];
      var joined := last.(tail := Some(JoinText(last.tail, tail, keeps)));
      assert part.children == part.children[..n] + [last];
      ChildrenAppend(p, dropped, part.children[..n], last, depth, keeps);
      ChildrenAppend(p, dropped, part.children[..n], joined, depth, keeps);
      JoinTextClean(last.tail, tail, keeps);
      TailKeepsRest(p, dropped, last, joined.tail, depth);
    }
  }

  // ---- Every built block is clean ----

  /** A block that is built is clean, and the budget was charged for at least everything it holds. */
  lemma {:induction false} BuildClean(p: Policy, dropped: set<string>, source: Node, depth: nat, s: Spent)
    requires SoundPolicy(p) && Build(p, dropped, source, depth, s).0.Built? && Fits(s, 0, 0)
    ensures var (r, t) := Build(p, dropped, source, depth, s);
            && Clean(p, dropped, r.node, depth) && r.node.tail == None
            && Charged(s, t, Elements(r.node), Bytes(r.node))
    decreases source, 0
  {
    hide CanonicalElement, SvgLocalName, KeepAttribute, SoundPolicy, Spend, CleanText, TextCost, BuildAttrs,
      BuildChildren, AttrsClean, TextClean, ChildrenClean, ChildrenBytes, ChildElements, AttrsBytes, IsCanonical;
    var local := SvgLocalName(source.tag);
    CanonicalAgain(local.value);
    var name := CanonicalElement(local.value).value;
    var keeps := name in TEXT_ELEMENTS;
    var s1 := AddElement(s).0;
    SpendFits(s1, |name|);
    var s2 := Spend(s1, |name|).0;
    assert AttrsClean(p, name, dropped, []) && AttrsBytes([]) == 0 by { NoAttrs(p, name, dropped); }
    BuildAttrsClean(p, name, dropped, source.attrs, [], s2);
    var (attrs, s3) := BuildAttrs(p, name, dropped, source.attrs, [], s2);
    var text := CleanText(source.text, keeps);
    CleanTextClean(source.text, keeps);
    SpendFits(s3, TextCost(text, keeps));
    var s4 := Spend(s3, TextCost(text, keeps)).0;
    NoChildrenClean(p, dropped, depth + 1, keeps);
    BuildChildrenClean(p, dropped, source.children, depth + 1, keeps, Partial(text, []), s4);
  }

  lemma NoAttrs(p: Policy, element: string, dropped: set<string>)
    ensures AttrsClean(p, element, dropped, []) && AttrsBytes([]) == 0
  {
  }

  lemma NoChildrenClean(p: Policy, dropped: set<string>, depth: nat, keeps: bool)
    ensures ChildrenClean(p, dropped, [], depth, keeps) && ChildrenBytes([], keeps) == 0 && ChildElements([]) == 0
  {
  }

  lemma {:induction false} BuildChildrenClean(p: Policy, dropped: set<string>, sources: seq<Node>, depth: nat,
                                              keeps: bool, part: Partial, s: Spent)
    requires SoundPolicy(p) && PartClean(p, dropped, part, depth, keeps) && Fits(s, 0, 0)
    requires BuildChildren(p, dropped, sources, depth, keeps, part, s).0.Some?
    ensures var (r, t) := BuildChildren(p, dropped, sources, depth, keeps, part, s);
            && PartClean(p, dropped, r.value, depth, keeps)
            && Charged(s, t, ChildElements(r.value.children) - ChildElements(part.children),
                       PartBytes(r.value, keeps) - PartBytes(part, keeps))
    decreases sources, 1
  {
    hide SoundPolicy, Spend, CleanText, TextCost, TextClean, ChildrenClean, ChildrenBytes, ChildElements, Build,
      Clean, Bytes, Elements, AddTail, BuildChildren;
    if sources == [] {
      NoChildren(p, dropped, depth, keeps, part, s);
    } else {
      ChildStep(p, dropped, sources, depth, keeps, part, s);
      var (one, s1) := Build(p, dropped, sources[0], depth, s);
      var tail := CleanText(sources[0].tail, keeps);
      CleanTextClean(sources[0].tail, keeps);
      if one.Built? {
        BuildClean(p, dropped, sources[0], depth, s);
        var node := one.node.(tail := tail);
        TailKeepsRest(p, dropped, one.node, tail, depth);
        ChildrenAppend(p, dropped, part.children, node, depth, keeps);
        SpendFits(s1, TextCost(tail, keeps));
        BuildChildrenClean(p, dropped, sources[1..], depth, keeps, part.(children := part.children + [node]),
                           Spend(s1, TextCost(tail, keeps)).0);
      } else {
        DroppedFree(p, dropped, sources[0], depth, s);
        SpendFits(s1, TextCost(tail, keeps));
        if tail.Some? {
          AddTailClean(p, dropped, part, tail.value, depth, keeps);
        }
        BuildChildrenClean(p, dropped, sources[1..], depth, keeps,
                           if tail.Some? then AddTail(part, tail.value, keeps) else part,
                           Spend(s1, TextCost(tail, keeps)).0);
      }
    }
  }

  lemma DroppedFree(p: Policy, dropped: set<string>, source: Node, depth: nat, s: Spent)
    requires Build(p, dropped, source, depth, s).0.Dropped?
    ensures Build(p, dropped, source, depth, s).1 == s
  {
    hide CanonicalElement, SvgLocalName, Spend, BuildAttrs, BuildChildren;
  }

  // ---- A clean block is rebuilt unchanged ----

  /** `_build` when no step of it fails. */
  lemma BuildSteps(p: Policy, dropped: set<string>, source: Node, depth: nat, s: Spent, name: string, keeps: bool,
                   attrs: seq<(string, string)>, part: Partial, s1: Spent, s2: Spent, s3: Spent, s4: Spent, s5: Spent)
    requires depth <= MAX_SVG_DEPTH && keeps == (name in TEXT_ELEMENTS)
    requires SvgLocalName(source.tag).Some? && CanonicalElement(SvgLocalName(source.tag).value) == Some(name)
    requires AddElement(s) == (s1, true) && Spend(s1, |name|) == (s2, true)
    requires BuildAttrs(p, name, dropped, source.attrs, [], s2) == (Some(attrs), s3)
    requires Spend(s3, TextCost(CleanText(source.text, keeps), keeps)) == (s4, true)
    requires BuildChildren(p, dropped, source.children, depth + 1, keeps,
                           Partial(CleanText(source.text, keeps), []), s4)
          == (Some(part), s5)
    ensures Build(p, dropped, source, depth, s) == (Built(Node(Name(name), attrs, part.text, part.children, None)), s5)
  {
    hide CanonicalElement, SvgLocalName, Spend, CleanText, TextCost, BuildAttrs, BuildChildren, AddElement;
  }

  /** The budget after each charge of a block that fits. */
  lemma ChargeSteps(s: Spent, n: nat, a: nat, t: nat, k: nat, c: nat)
    requires Fits(s, 1 + k, n + a + t + c)
    ensures AddElement(s) == (Charge(s, 1, 0), true)
    ensures Spend(Charge(s, 1, 0), n) == (Charge(s, 1, n), true)
    ensures Fits(Charge(s, 1, n), 0, a) && Fits(Charge(s, 1, n), 0, 0)
    ensures Charge(Charge(s, 1, n), 0, a) == Charge(s, 1, n + a)
    ensures Spend(Charge(s, 1, n + a), t) == (Charge(s, 1, n + a + t), true)
    ensures Fits(Charge(s, 1, n + a + t), 0, 0) && Fits(Charge(s, 1, n + a + t), k, c)
    ensures Charge(Charge(s, 1, n + a + t), k, c) == Charge(s, 1 + k, n + a + t + c)
  {
  }

  /** A clean tree that fits is rebuilt as it is, for exactly its own elements and bytes. */
  lemma {:induction false} BuildAgainFits(p: Policy, dropped: set<string>, node: Node, depth: nat, s: Spent)
    requires SoundPolicy(p) && Clean(p, dropped, node, depth) && Fits(s, Elements(node), Bytes(node))
    ensures Build(p, dropped, node, depth, s) == (Built(node.(tail := None)), Charge(s, Elements(node), Bytes(node)))
    decreases node, 0
  {
    hide CanonicalElement, SvgLocalName, Lower, KeepAttribute, SoundPolicy, Spend, CleanText, TextCost, BuildAttrs,
      Build,
      BuildChildren, AttrsClean, TextClean, ChildrenClean, ChildrenBytes, ChildElements, AttrsBytes, Fits,
      Charge, AddElement;
    var name := node.tag.name;
    CanonicalLocal(name);
    var keeps := name in TEXT_ELEMENTS;
    var n, a, t, c := |name|, AttrsBytes(node.attrs), TextCost(node.text, keeps), ChildrenBytes(node.children, keeps);
    var k := ChildElements(node.children);
    assert Elements(node) == 1 + k && Bytes(node) == n + a + t + c;
    hide Elements, Bytes;
    ChargeSteps(s, n, a, t, k, c);
    ApartEmpty(node.attrs);
    BuildAttrsAgain(p, name, dropped, node.attrs, [], Charge(s, 1, n));
    Regroup(node.attrs, [], []);
    CleanTextClean(node.text, keeps);
    BuildChildrenAgain(p, dropped, node.children, depth + 1, keeps, node.text, [], Charge(s, 1, n + a + t));
    Regroup(node.children, [], []);
    BuildSteps(p, dropped, node, depth, s, name, keeps, node.attrs, Partial(node.text, node.children), Charge(s, 1, 0),
               Charge(s, 1, n), Charge(s, 1, n + a), Charge(s, 1, n + a + t), Charge(s, 1 + k, n + a + t + c));
  }

  /** A clean tree that does not fit is rejected. */
  lemma {:induction false} BuildAgainRejected(p: Policy, dropped: set<string>, node: Node, depth: nat, s: Spent)
    requires SoundPolicy(p) && Clean(p, dropped, node, depth) && Fits(s, 0, 0) && !Fits(s, Elements(node), Bytes(node))
    ensures Build(p, dropped, node, depth, s).0 == Rejected
    decreases node, 0
  {
    hide CanonicalElement, SvgLocalName, Lower, KeepAttribute, SoundPolicy, Spend, CleanText, TextCost, BuildAttrs,
      BuildChildren, AttrsClean, TextClean, ChildrenClean, ChildrenBytes, ChildElements, AttrsBytes;
    var name := node.tag.name;
    CanonicalLocal(name);
    var keeps := name in TEXT_ELEMENTS;
    if AddElement(s).1 {
      var s1 := AddElement(s).0;
      SpendFits(s1, |name|);
      if Spend(s1, |name|).1 {
        var s2 := Spend(s1, |name|).0;
        ApartEmpty(node.attrs);
        BuildAttrsAgain(p, name, dropped, node.attrs, [], s2);
        var (attrs, s3) := BuildAttrs(p, name, dropped, node.attrs, [], s2);
        if attrs.Some? {
          CleanTextClean(node.text, keeps);
          SpendFits(s3, TextCost(node.text, keeps));
          if Spend(s3, TextCost(node.text, keeps)).1 {
            var s4 := Spend(s3, TextCost(node.text, keeps)).0;
            BuildChildrenAgain(p, dropped, node.children, depth + 1, keeps, node.text, [], s4);
          }
        }
      }
    }
  }

  /** A clean tree is rebuilt as it is, for exactly its own elements and bytes, if and only if they fit. */
  lemma {:induction false} BuildAgain(p: Policy, dropped: set<string>, node: Node, depth: nat, s: Spent)
    requires SoundPolicy(p) && Clean(p, dropped, node, depth) && Fits(s, 0, 0)
    ensures var (r, t) := Build(p, dropped, node, depth, s);
            && r == (if Fits(s, Elements(node), Bytes(node)) then Built(node.(tail := None)) else Rejected)
            && (r.Built? ==> t == Charge(s, Elements(node), Bytes(node)))
    decreases node, 1
  {
    hide Build, SoundPolicy, Clean, Elements, Bytes;
    if Fits(s, Elements(node), Bytes(node)) {
      BuildAgainFits(p, dropped, node, depth, s);
    } else {
      BuildAgainRejected(p, dropped, node, depth, s);
    }
  }

  lemma {:induction false} ApartEmpty(attrs: seq<(string, string)>)
    ensures Apart([], attrs)
  {
    if attrs != [] {
      ApartEmpty(attrs[1..]);
    }
  }

  lemma ChargeChild(s: Spent, e: nat, b: nat, t: nat, f: nat, c: nat)
    requires Fits(s, e, b)
    ensures Fits(Charge(s, e, b), 0, 0)
    ensures Fits(s, e + f, b + t + c) <==> Fits(Charge(s, e, b), 0, t) && Fits(Charge(s, e, b + t), f, c)
    ensures Fits(Charge(s, e, b), 0, t) <==> Fits(Charge(s, e, b + t), 0, 0)
    ensures Charge(Charge(s, e, b), 0, t) == Charge(s, e, b + t)
    ensures Charge(Charge(s, e, b + t), f, c) == Charge(s, e + f, b + t + c)
  {
  }

  lemma FitsNot(s: Spent, e: nat, b: nat, f: nat, c: nat)
    requires !Fits(s, e, b)
    ensures !Fits(s, e + f, b + c)
  {
  }

  lemma {:induction false} BuildChildrenAgain(p: Policy, dropped: set<string>, nodes: seq<Node>, depth: nat,
                                              keeps: bool, text: Option<string>, done: seq<Node>, s: Spent)
    requires SoundPolicy(p) && ChildrenClean(p, dropped, nodes, depth, keeps) && Fits(s, 0, 0)
    ensures var (r, t) := BuildChildren(p, dropped, nodes, depth, keeps, Partial(text, done), s);
            && (r.Some? <==> Fits(s, ChildElements(nodes), ChildrenBytes(nodes, keeps)))
            && (r.Some? ==>
                  && r.value == Partial(text, done + nodes)
                  && t == Charge(s, ChildElements(nodes), ChildrenBytes(nodes, keeps)))
    decreases nodes, 2
  {
    hide SoundPolicy, Spend, CleanText, TextCost, TextClean, Build, Clean, Bytes, Elements, AddTail, BuildChildren;
    var part := Partial(text, done);
    if nodes == [] {
      NoChildren(p, dropped, depth, keeps, part, s);
      Regroup(done, nodes, nodes);
    } else {
      hide Fits, Charge;
      var n, rest := nodes[0], nodes[1..];
      var e, b, t := Elements(n), Bytes(n), TextCost(n.tail, keeps);
      var f, c := ChildElements(rest), ChildrenBytes(rest, keeps);
      assert ChildElements(nodes) == e + f && ChildrenBytes(nodes, keeps) == b + t + c;
      assert nodes == [n] + rest;
      assert Clean(p, dropped, n, depth) && TextClean(n.tail, keeps) && ChildrenClean(p, dropped, rest, depth, keeps);
      hide ChildElements, ChildrenBytes, ChildrenClean;
      ChildStep(p, dropped, nodes, depth, keeps, part, s);
      BuildAgain(p, dropped, n, depth, s);
      CleanTextClean(n.tail, keeps);
      if Fits(s, e, b) {
        ChargeChild(s, e, b, t, f, c);
        SpendFits(Charge(s, e, b), t);
        if Fits(Charge(s, e, b), 0, t) {
          BuildChildrenAgain(p, dropped, rest, depth, keeps, text, done + [n], Charge(s, e, b + t));
          Regroup(done, [n], rest);
        }
      } else {
        FitsNot(s, e, b, f, t + c);
      }
    }
  }

  /** Rebuilding a rebuilt block changes nothing and uses the same elements and no more bytes. */
  lemma RebuildIdempotent(p: Policy, dropped: set<string>, source: Node, depth: nat, s: Spent)
    requires SoundPolicy(p) && Fits(s, 0, 0) && Build(p, dropped, source, depth, s).0.Built?
    ensures var (r, t) := Build(p, dropped, source, depth, s);
            var (r2, t2) := Build(p, dropped, r.node, depth, s);
            && r2 == r && t2.elements == t.elements && t2.size <= t.size
            && t2 == Charge(s, Elements(r.node), Bytes(r.node))
            && (t.total.Some? ==> t2.total.Some? && t2.total.value <= t.total.value)
  {
    hide Build, SoundPolicy, Clean, Bytes, Elements;
    BuildClean(p, dropped, source, depth, s);
    BuildAgain(p, dropped, Build(p, dropped, source, depth, s).0.node, depth, s);
  }

  // ---- Depth ----

  /** How deep the elements of a tree are nested. */
  function Height(n: Node): nat
    decreases n, 0
  {
    1 + MaxHeight(n.children)
  }

  function MaxHeight(nodes: seq<Node>): nat
    decreases nodes, 1
  {
    if nodes == [] then 0
    else
      var h, rest := Height(nodes[0]), MaxHeight(nodes[1..]);
      if h > rest then h else rest
  }

  lemma {:induction false} MaxHeightAppend(nodes: seq<Node>, last: Node)
    ensures MaxHeight(nodes + [last]) == (if Height(last) > MaxHeight(nodes) then Height(last) else MaxHeight(nodes))
  {
    hide Height;
    if nodes == [] {
      assert nodes + [last] == [last] && [last][1..] == [];
    } else {
      assert (nodes + [last])[1..] == nodes[1..] + [last];
      MaxHeightAppend(nodes[1..], last);
    }
  }

  lemma AddTailHeight(part: Partial, tail: string, keeps: bool)
    ensures MaxHeight(AddTail(part, tail, keeps).children) == MaxHeight(part.children)
  {
    hide Height, MaxHeight, JoinText;
    if part.children != [] {
      var n := |part.children| - 1;
      var last := part.children[n];
      var joined := last.(tail := Some(JoinText(last.tail, tail, keeps)));
      assert part.children == part.children[..n] + [last];
      MaxHeightAppend(part.children[..n], last);
      MaxHeightAppend(part.children[..n], joined);
      assert Height(joined) == Height(last) by { TailHeight(last, joined.tail); }
    }
  }

  lemma TailHeight(n: Node, tail: Option<string>)
    ensures Height(n.(tail := tail)) == Height(n)
  {
  }

  /** A block is never built deeper than its source, and never deeper than the cap. */
  lemma {:induction false} BuildHeight(p: Policy, dropped: set<string>, source: Node, depth: nat, s: Spent)
    requires Build(p, dropped, source, depth, s).0.Built?
    ensures var r := Build(p, dropped, source, depth, s).0.node;
            Height(r) <= Height(source) && depth + Height(r) <= MAX_SVG_DEPTH + 1
    decreases source, 0
  {
    hide CanonicalElement, SvgLocalName, Spend, CleanText, TextCost, BuildAttrs, BuildChildren, MaxHeight;
    var name := CanonicalElement(SvgLocalName(source.tag).value).value;
    var keeps := name in TEXT_ELEMENTS;
    var s3 := BuildAttrs(p, name, dropped, source.attrs, [], Spend(AddElement(s).0, |name|).0).1;
    var text := CleanText(source.text, keeps);
    assert MaxHeight([]) == 0 by { NoHeight(); }
    BuildChildrenHeight(p, dropped, source.children, depth + 1, keeps, Partial(text, []),
                        Spend(s3, TextCost(text, keeps)).0);
  }

  lemma NoHeight()
    ensures MaxHeight([]) == 0
  {
  }

  lemma {:induction false} BuildChildrenHeight(p: Policy, dropped: set<string>, sources: seq<Node>, depth: nat,
                                               keeps: bool,
                                               part: Partial, s: Spent)
    requires BuildChildren(p, dropped, sources, depth, keeps, part, s).0.Some?
    requires depth <= MAX_SVG_DEPTH + 1
    ensures var r := BuildChildren(p, dropped, sources, depth, keeps, part, s).0.value;
            && (MaxHeight(r.children) <= MaxHeight(part.children) || MaxHeight(r.children) <= MaxHeight(sources))
            && (depth + MaxHeight(part.children) <= MAX_SVG_DEPTH + 1 ==>
                  depth + MaxHeight(r.children) <= MAX_SVG_DEPTH + 1)
    decreases sources, 1
  {
    hide Spend, CleanText, TextCost, Build, AddTail, BuildChildren, Height;
    if sources == [] {
      NoChildren(p, dropped, depth, keeps, part, s);
    } else {
      ChildStep(p, dropped, sources, depth, keeps, part, s);
      var (one, s1) := Build(p, dropped, sources[0], depth, s);
      var tail := CleanText(sources[0].tail, keeps);
      var s2 := Spend(s1, TextCost(tail, keeps)).0;
      if one.Built? {
        var node := one.node.(tail := tail);
        BuildHeight(p, dropped, sources[0], depth, s);
        TailHeight(one.node, tail);
        MaxHeightAppend(part.children, node);
        BuildChildrenHeight(p, dropped, sources[1..], depth, keeps, part.(children := part.children + [node]), s2);
      } else if tail.Some? {
        AddTailHeight(part, tail.value, keeps);
        BuildChildrenHeight(p, dropped, sources[1..], depth, keeps, AddTail(part, tail.value, keeps), s2);
      } else {
        BuildChildrenHeight(p, dropped, sources[1..], depth, keeps, part, s2);
      }
    }
  }
}
