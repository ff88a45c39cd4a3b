/** `sanitize_svg_element` on its own output, and over all the blocks of one call. */
module SvgBlocks {
  import opened Text
  import opened SvgTree
  import opened SvgBuild
  import opened SvgIdempotence

  // ---- One block, twice ----

  const NAMESPACE := ("xmlns", SVG_NS)

  /** The table entry `"xmlns": lambda value: SVG_NS if value.strip() == SVG_NS else None`, which no calling field
      refuses. */
  predicate KeepsNamespace(p: Policy, dropped: set<string>) {
    KeepAttribute(p, "svg", dropped, NAMESPACE.0, NAMESPACE.1) == Some(NAMESPACE)
  }

  lemma {:induction false} SetAttrTwice(attrs: seq<(string, string)>, name: string, value: string)
    ensures SetAttr(SetAttr(attrs, name, value), name, value) == SetAttr(attrs, name, value)
  {
    if attrs != [] && attrs[0].0 != name {
      SetAttrTwice(attrs[1..], name, value);
      assert ([attrs[0]] + SetAttr(attrs[1..], name, value))[1..] == SetAttr(attrs[1..], name, value);
    }
  }

  lemma NamespaceClean(p: Policy, dropped: set<string>, node: Node)
    requires Clean(p, dropped, node, 1) && node.tag.name == "svg" && KeepsNamespace(p, dropped)
    ensures Clean(p, dropped, WithNamespace(node), 1) && Elements(WithNamespace(node)) == Elements(node)
    ensures Bytes(WithNamespace(node)) <= Bytes(node) + 31
  {
    hide IsCanonical, KeepAttribute, TextClean, ChildrenClean, ChildrenBytes, SetAttr, AttrsClean;
    assert AttrClean(p, "svg", dropped, NAMESPACE) && AttrCost(NAMESPACE) == 31 by {
      assert |SVG_NS| == 26;
    }
    SetAttrClean(p, "svg", dropped, node.attrs, NAMESPACE);
  }

  lemma SvgCanonical()
    ensures CanonicalElement("svg") == Some("svg")
  {
  }

  /** The root of a rebuilt `svg` is an `svg`. */
  lemma BuiltTag(p: Policy, dropped: set<string>, source: Node, s: Spent)
    requires SvgLocalName(source.tag) == Some("svg") && Build(p, dropped, source, 1, s).0.Built?
    ensures Build(p, dropped, source, 1, s).0.node.tag == Name("svg")
  {
    hide SvgLocalName, CanonicalElement, Spend, BuildAttrs, BuildChildren, CleanText;
    SvgCanonical();
  }

  /** A returned block is clean and carries the namespace; the totals were charged for at least its own bytes
      without the namespace, and stay within their caps. */
  lemma SanitizedClean(p: Policy, dropped: set<string>, source: Node, totals: Totals)
    requires SoundPolicy(p) && KeepsNamespace(p, dropped) && Sanitize(p, dropped, source, totals).0.Some?
    ensures var (r, t) := Sanitize(p, dropped, source, totals);
            && Clean(p, dropped, r.value, 1) && r.value.tag == Name("svg") && r.value.tail == None
            && SetAttr(r.value.attrs, "xmlns", SVG_NS) == r.value.attrs
            && Elements(r.value) <= MAX_SVG_ELEMENTS
            && Bytes(r.value) <= t.size - totals.size + 31 && t.size - totals.size <= MAX_SVG_BYTES
            && totals.size <= t.size <= MAX_TOTAL_SVG_BYTES
            && t.blocks == totals.blocks + 1 <= MAX_TOTAL_SVG_BLOCKS
  {
    hide SvgLocalName, Build, SoundPolicy, Clean, Bytes, Elements, KeepsNamespace, SetAttr;
    var s := Fresh(Some(totals.size));
    BuiltTag(p, dropped, source, s);
    BuiltFits(p, dropped, source, s);
    BuildClean(p, dropped, source, 1, s);
    var node := Build(p, dropped, source, 1, s).0.node;
    NamespaceClean(p, dropped, node);
    SetAttrTwice(node.attrs, "xmlns", SVG_NS);
  }

  /** A block that is built starts from totals within the cap. */
  lemma BuiltFits(p: Policy, dropped: set<string>, source: Node, s: Spent)
    requires Build(p, dropped, source, 1, s).0.Built?
    ensures Fits(s, 0, 0)
  {
    hide SvgLocalName, CanonicalElement, BuildAttrs, BuildChildren, CleanText;
  }

  /** `sanitize_svg_element` returns its own result unchanged if and only if the block count and the bytes of the
      result, now with the namespace among its attributes, fit what is left of the caps. */
  lemma SanitizeIdempotent(p: Policy, dropped: set<string>, source: Node, first: Totals, second: Totals)
    requires SoundPolicy(p) && KeepsNamespace(p, dropped) && Sanitize(p, dropped, source, first).0.Some?
    ensures var r := Sanitize(p, dropped, source, first).0;
            Sanitize(p, dropped, r.value, second).0 ==
            (if second.blocks < MAX_TOTAL_SVG_BLOCKS && Bytes(r.value) <= MAX_SVG_BYTES &&
                second.size + Bytes(r.value) <= MAX_TOTAL_SVG_BYTES
             then r else None)
  {
    hide SvgLocalName, Build, SoundPolicy, Clean, Bytes, Elements, KeepsNamespace, SetAttr, Lower;
    SanitizedClean(p, dropped, source, first);
    var r := Sanitize(p, dropped, source, first).0.value;
    SvgLocal();
    var s := Fresh(Some(second.size));
    if Fits(s, 0, 0) {
      BuildAgain(p, dropped, r, 1, s);
      assert r.(tail := None) == r;
    } else if Build(p, dropped, r, 1, s).0.Built? {
      BuiltFits(p, dropped, r, s);
      assert false;
    }
  }

  lemma SvgLocal()
    ensures SvgLocalName(Name("svg")) == Some("svg")
  {
    AllEach("svg", IsLowerLetter);
    LowerLetters("svg");
    LettersLocal("svg");
  }

  // ---- The namespace can be one attribute too many ----

  /** A drawing that holds one title of `n` letters. */
  function Titled(n: nat): Node {
    Node(Name("svg"), [], None, [Node(Name("title"), [], Some(seq(n, _ => 'a')), [], None)], None)
  }

  lemma {:induction false} LettersPrintable(n: nat)
    ensures All(seq(n, _ => 'a'), IsPrintable)
  {
    AllEach(seq(n, _ => 'a'), IsPrintable);
  }

  lemma TitledClean(p: Policy, dropped: set<string>, n: nat)
    requires n > 0
    ensures Clean(p, dropped, Titled(n), 1) && Bytes(Titled(n)) == n + 8 && Elements(Titled(n)) == 2
  {
    hide Lower, All, AttrClean;
    var title := Titled(n).children[0];
    LettersPrintable(n);
    AllEach("svg", IsLowerLetter);
    AllEach("title", IsLowerLetter);
    LowerLetters("svg");
    LowerLetters("title");
    assert Clean(p, dropped, title, 2) && Bytes(title) == n + 5 && Elements(title) == 1;
    OneChild(p, dropped, title);
  }

  lemma OneChild(p: Policy, dropped: set<string>, child: Node)
    requires Clean(p, dropped, child, 2) && child.tail == None
    ensures ChildrenClean(p, dropped, [child], 2, false) && ChildrenBytes([child], false) == Bytes(child)
    ensures ChildElements([child]) == Elements(child)
  {
    hide Clean, Bytes, Elements;
    assert [child][1..] == [];
    NoChildrenClean(p, dropped, 2, false);
  }

  /** A block of exactly the size cap is kept, but its result, 31 bytes longer, is not. */
  lemma SizeCapWitness(p: Policy, dropped: set<string>)
    requires SoundPolicy(p) && KeepsNamespace(p, dropped)
    ensures var r := Sanitize(p, dropped, Titled(MAX_SVG_BYTES - 8), Totals(0, 0)).0;
            r.Some? && Sanitize(p, dropped, r.value, Totals(0, 0)).0 == None
  {
    hide Build, SoundPolicy, Clean, KeepsNamespace, SvgLocalName, Titled, ChildrenBytes;
    var n := MAX_SVG_BYTES - 8;
    var source := Titled(n);
    TitledClean(p, dropped, n);
    SvgLocal();
    BuildAgain(p, dropped, source, 1, Fresh(Some(0)));
    assert source.tag == Name("svg") && source.attrs == [] && source.text == None by { TitledParts(n); }
    var r := WithNamespace(source.(tail := None));
    assert r.attrs == [NAMESPACE] && [NAMESPACE][1..] == [];
    assert Bytes(r) == Bytes(source) + 31 by { assert |SVG_NS| == 26; }
    SanitizeIdempotent(p, dropped, source, Totals(0, 0), Totals(0, 0));
  }

  lemma TitledParts(n: nat)
    ensures Titled(n).tag == Name("svg") && Titled(n).attrs == [] && Titled(n).text == None && Titled(n).tail == None
  {
  }

  // ---- All the blocks of one call ----

  /** What one call returned for its blocks, in order, and what each of them charged to the totals. */
  datatype Answer = Answer(block: Option<Node>, charge: int)

  function SanitizeAll(p: Policy, dropped: set<string>, sources: seq<Node>, totals: Totals): seq<Answer> {
    if sources == [] then []
    else
      var (r, t) := Sanitize(p, dropped, sources[0], totals);
      [Answer(r, t.size - totals.size)] + SanitizeAll(p, dropped, sources[1..], t)
  }

  function Kept(answers: seq<Answer>): nat {
    if answers == [] then 0 else (if answers[0].block.Some? then 1 else 0) + Kept(answers[1..])
  }

  function KeptCharge(answers: seq<Answer>): int {
    if answers == [] then 0 else (if answers[0].block.Some? then answers[0].charge else 0) + KeptCharge(answers[1..])
  }

  function KeptBytes(answers: seq<Answer>): nat {
    if answers == [] then 0
    else (if answers[0].block.Some? then Bytes(answers[0].block.value) else 0) + KeptBytes(answers[1..])
  }

  predicate Grows(s: Spent, t: Spent) {
    match s.total case None => t.total == None case Some(n) => t.total.Some? && t.total.value >= n
  }

  lemma {:induction false} BuildAttrsGrows(p: Policy, element: string, dropped: set<string>,
                                           attrs: seq<(string, string)>, done: seq<(string, string)>, s: Spent)
    ensures Grows(s, BuildAttrs(p, element, dropped, attrs, done, s).1)
    decreases |attrs|
  {
    hide KeepAttribute;
    if attrs != [] {
      match KeepAttribute(p, element, dropped, attrs[0].0, attrs[0].1)
      case None => BuildAttrsGrows(p, element, dropped, attrs[1..], done, s);
      case Some(r) =>
        BuildAttrsGrows(p, element, dropped, attrs[1..], SetAttr(done, StoredName(r.0), r.1),
                        Spend(s, |r.0| + |r.1|).0);
    }
  }

  lemma {:induction false} BuildGrows(p: Policy, dropped: set<string>, source: Node, depth: nat, s: Spent)
    ensures Grows(s, Build(p, dropped, source, depth, s).1)
    decreases source, 0
  {
    hide CanonicalElement, SvgLocalName, CleanText, TextCost, BuildAttrs, BuildChildren;
    var local := SvgLocalName(source.tag);
    if local.Some? && CanonicalElement(local.value).Some? {
      var name := CanonicalElement(local.value).value;
      var keeps := name in TEXT_ELEMENTS;
      var s2 := Spend(AddElement(s).0, |name|).0;
      BuildAttrsGrows(p, name, dropped, source.attrs, [], s2);
      var s3 := BuildAttrs(p, name, dropped, source.attrs, [], s2).1;
      var text := CleanText(source.text, keeps);
      BuildChildrenGrows(p, dropped, source.children, depth + 1, keeps, Partial(text, []),
                         Spend(s3, TextCost(text, keeps)).0);
    }
  }

  lemma {:induction false} BuildChildrenGrows(p: Policy, dropped: set<string>, sources: seq<Node>, depth: nat,
                                              keeps: bool,
                                              part: Partial, s: Spent)
    ensures Grows(s, BuildChildren(p, dropped, sources, depth, keeps, part, s).1)
    decreases sources, 1
  {
    hide CleanText, TextCost, Build, BuildChildren, AddTail;
    if sources == [] {
      NoChildren(p, dropped, depth, keeps, part, s);
    } else {
      ChildStep(p, dropped, sources, depth, keeps, part, s);
      BuildGrows(p, dropped, sources[0], depth, s);
      var (one, s1) := Build(p, dropped, sources[0], depth, s);
      var tail := CleanText(sources[0].tail, keeps);
      var next :=
        if one.Built? then part.(children := part.children + [one.node.(tail := tail)])
        else if tail.Some? then AddTail(part, tail.value, keeps)
        else part;
      BuildChildrenGrows(p, dropped, sources[1..], depth, keeps, next, Spend(s1, TextCost(tail, keeps)).0);
    }
  }

  lemma SanitizeGrows(p: Policy, dropped: set<string>, source: Node, totals: Totals)
    ensures var t := Sanitize(p, dropped, source, totals).1; t.size >= totals.size && t.blocks >= totals.blocks
  {
    hide Build, SvgLocalName;
    BuildGrows(p, dropped, source, 1, Fresh(Some(totals.size)));
  }

  /** Whatever blocks are rejected in between, the kept ones are at most what the caps leave. */
  lemma {:induction false} SanitizeAllWithin(p: Policy, dropped: set<string>, sources: seq<Node>, totals: Totals)
    requires SoundPolicy(p) && KeepsNamespace(p, dropped)
    ensures var answers := SanitizeAll(p, dropped, sources, totals);
            && |answers| == |sources|
            && Kept(answers) <=
               (if totals.blocks <= MAX_TOTAL_SVG_BLOCKS then MAX_TOTAL_SVG_BLOCKS - totals.blocks else 0)
            && 0 <= KeptCharge(answers)
            && KeptCharge(answers) <=
               (if totals.size <= MAX_TOTAL_SVG_BYTES then MAX_TOTAL_SVG_BYTES - totals.size else 0)
            && KeptBytes(answers) <= KeptCharge(answers) + 31 * Kept(answers)
  {
    hide Sanitize, SoundPolicy, KeepsNamespace, Clean, Bytes, Elements;
    if sources != [] {
      var (r, t) := Sanitize(p, dropped, sources[0], totals);
      SanitizeGrows(p, dropped, sources[0], totals);
      SanitizeAllWithin(p, dropped, sources[1..], t);
      if r.Some? {
        SanitizedClean(p, dropped, sources[0], totals);
      }
      var answers := SanitizeAll(p, dropped, sources, totals);
      assert answers[1..] == SanitizeAll(p, dropped, sources[1..], t);
    }
  }

  /** One call keeps at most 1000 blocks, which charged at most 1 MiB; with their namespaces they hold at most
      31 bytes more each. */
  lemma CallWithinCaps(p: Policy, dropped: set<string>, sources: seq<Node>)
    requires SoundPolicy(p) && KeepsNamespace(p, dropped)
    ensures var answers := SanitizeAll(p, dropped, sources, Totals(0, 0));
            && Kept(answers) <= MAX_TOTAL_SVG_BLOCKS
            && KeptCharge(answers) <= MAX_TOTAL_SVG_BYTES
            && KeptBytes(answers) <= MAX_TOTAL_SVG_BYTES + 31 * MAX_TOTAL_SVG_BLOCKS
  {
    SanitizeAllWithin(p, dropped, sources, Totals(0, 0));
  }
}
