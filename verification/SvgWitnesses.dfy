/** Whole trees on which `sanitize_xml_svgs` does what its text does not say. */
module SvgWitnesses {
  import opened Text
  import opened SvgTree
  import opened SvgBuild
  import opened SvgIdempotence
  import opened SvgBlocks
  import opened SvgXml

  // ---- The trees ----

  /** The name that an XML parser gives an element of the SVG namespace. */
  function Clark(name: string): Tag { Name("{" + SVG_NS + "}" + name) }

  /** A drawing with one title, `svg` and `title` in the SVG namespace. */
  function Drawing(n: nat): Node {
    Node(Clark("svg"), [], None, [Node(Clark("title"), [], Some(seq(n, _ => 'a')), [], None)], None)
  }

  /** The element that the caller puts around the text it was given. */
  function Wrapped(kids: seq<Node>): Node { Node(Name("root"), [], None, kids, None) }

  /** Nothing in them looks hostile by itself. */
  predicate NothingHostile(n: Node) { false }

  // ---- Their names ----

  lemma ClarkParts(name: string)
    ensures var s := "{" + SVG_NS + "}" + name;
            && "{" <= s && s[1..] == SVG_NS + ['}'] + name && |s| == |SVG_NS| + 2 + |name|
            && s == ("{" + SVG_NS) + ['}'] + name
  {
  }

  lemma NoBrace()
    ensures forall i :: 0 <= i < |SVG_NS| ==> SVG_NS[i] != '}'
    ensures forall i :: 0 <= i < |"{" + SVG_NS| ==> ("{" + SVG_NS)[i] != '}'
  {
  }

  lemma LettersOnly(name: string, c: char)
    requires All(name, IsLowerLetter) && !IsLowerLetter(c)
    ensures IndexOf(name, c) == |name| && AfterLast(name, c) == name
  {
    hide All, IndexOf;
    AllEach(name, IsLowerLetter);
    IndexOfFirst(name, c, "");
  }

  lemma ClarkLocal(name: string)
    requires All(name, IsLowerLetter)
    ensures SvgLocalName(Clark(name)) == Some(name)
  {
    hide All, IndexOf, Lower;
    ClarkParts(name);
    NoBrace();
    IndexOfFirst(SVG_NS, '}', name);
    var t := SVG_NS + ['}'] + name;
    assert t[..|SVG_NS|] == SVG_NS && t[|SVG_NS| + 1..] == name;
    LowerLetters(name);
  }

  lemma BareName(name: string)
    requires All(name, IsLowerLetter)
    ensures IsSvgLike(Name(name)) <==> name == "svg"
  {
    hide All, IndexOf, Lower, AfterLast;
    LettersOnly(name, '}');
    LettersOnly(name, ':');
    LowerLetters(name);
  }

  lemma ClarkLike(name: string)
    requires All(name, IsLowerLetter)
    ensures IsSvgLike(Clark(name)) <==> name == "svg"
  {
    hide All, IndexOf, Lower;
    ClarkParts(name);
    NoBrace();
    var s := "{" + SVG_NS + "}" + name;
    IndexOfFirst("{" + SVG_NS, '}', name);
    assert s[|SVG_NS| + 2..] == name;
    LettersOnly(name, '}');
    assert AfterLast(s, '}') == name;
    hide AfterLast;
    LettersOnly(name, ':');
    LowerLetters(name);
  }

  lemma Names()
    ensures All("svg", IsLowerLetter) && All("title", IsLowerLetter) && All("root", IsLowerLetter)
  {
    hide All;
    AllEach("svg", IsLowerLetter);
    AllEach("title", IsLowerLetter);
    AllEach("root", IsLowerLetter);
  }

  // ---- Their rebuilds ----

  /** Of the name of an element only its local part matters. */
  lemma SameLocal(p: Policy, dropped: set<string>, source: Node, tag: Tag, depth: nat, s: Spent)
    requires SvgLocalName(tag) == SvgLocalName(source.tag)
    ensures Build(p, dropped, source.(tag := tag), depth, s) == Build(p, dropped, source, depth, s)
  {
    hide SvgLocalName, CanonicalElement, Spend, CleanText, TextCost, BuildAttrs, BuildChildren, AddElement;
  }

  lemma SameKid(p: Policy, dropped: set<string>, a: Node, b: Node, depth: nat, keeps: bool, part: Partial, s: Spent)
    requires a.tail == b.tail && Build(p, dropped, a, depth, s) == Build(p, dropped, b, depth, s)
    ensures BuildChildren(p, dropped, [a], depth, keeps, part, s)
            == BuildChildren(p, dropped, [b], depth, keeps, part, s)
  {
    hide Build, BuildChildren, Spend, CleanText, TextCost, AddTail;
    assert [a][1..] == [] && [b][1..] == [];
    ChildStep(p, dropped, [a], depth, keeps, part, s);
    ChildStep(p, dropped, [b], depth, keeps, part, s);
  }

  lemma SameKids(p: Policy, dropped: set<string>, source: Node, b: seq<Node>, depth: nat, below: nat, s: Spent)
    requires below == depth + 1
    requires var a := source.children;
             forall keeps, part, t ::
               BuildChildren(p, dropped, a, below, keeps, part, t)
               == BuildChildren(p, dropped, b, below, keeps, part, t)
    ensures Build(p, dropped, source.(children := b), depth, s) == Build(p, dropped, source, depth, s)
  {
    hide SvgLocalName, CanonicalElement, Spend, CleanText, TextCost, BuildAttrs, BuildChildren, AddElement;
  }

  /** The names of the SVG namespace make no difference to the rebuild. */
  lemma DrawingBuilt(p: Policy, dropped: set<string>, n: nat, s: Spent)
    ensures Build(p, dropped, Drawing(n), 1, s) == Build(p, dropped, Titled(n), 1, s)
  {
    hide SvgLocalName, Build, BuildChildren;
    Names();
    ClarkLocal("svg");
    ClarkLocal("title");
    BareLocals();
    var a, b := Drawing(n).children[0], Titled(n).children[0];
    forall keeps, part, t
      ensures BuildChildren(p, dropped, [a], 2, keeps, part, t) == BuildChildren(p, dropped, [b], 2, keeps, part, t)
    {
      SameLocal(p, dropped, a, Name("title"), 2, t);
      assert a.(tag := Name("title")) == b;
      SameKid(p, dropped, a, b, 2, keeps, part, t);
    }
    SameKids(p, dropped, Drawing(n), [b], 1, 2, s);
    SameLocal(p, dropped, Drawing(n).(children := [b]), Name("svg"), 1, s);
    assert Drawing(n).(children := [b]).(tag := Name("svg")) == Titled(n);
  }

  lemma BareLocals()
    ensures SvgLocalName(Name("svg")) == Some("svg") && SvgLocalName(Name("title")) == Some("title")
  {
    hide SvgLocalName, Lower, All;
    Names();
    LowerLetters("svg");
    LowerLetters("title");
    LettersLocal("svg");
    LettersLocal("title");
  }

  /** With a title one letter too long the block is refused for its size. */
  lemma TooLarge(p: Policy)
    requires SoundPolicy(p)
    ensures var n := MAX_SVG_BYTES - 7;
            && Sanitize(p, {}, Titled(n), Totals(0, 0)).0 == None
            && Sanitize(p, {}, Titled(n), Totals(0, 0)).1.blocks == 1
            && Sanitize(p, {}, Drawing(n), Totals(0, 0)).0 == None
            && Sanitize(p, {}, Drawing(n), Totals(0, 0)).1.blocks == 1
  {
    hide SvgLocalName, Build, SoundPolicy, Clean, Titled, Elements, Bytes;
    var n := MAX_SVG_BYTES - 7;
    TitledClean(p, {}, n);
    BuildAgain(p, {}, Titled(n), 1, Fresh(Some(0)));
    DrawingBuilt(p, {}, n, Fresh(Some(0)));
    Names();
    ClarkLocal("svg");
    BareLocals();
    TitledParts(n);
  }

  lemma Fitting(p: Policy)
    requires SoundPolicy(p)
    ensures Sanitize(p, {}, Titled(1), Totals(0, 0)).0.Some?
  {
    hide SvgLocalName, Build, SoundPolicy, Clean, Titled, Elements, Bytes;
    TitledClean(p, {}, 1);
    BuildAgain(p, {}, Titled(1), 1, Fresh(Some(0)));
    BareLocals();
    TitledParts(1);
  }

  // ---- What the pass does with them ----

  lemma OneBlock(p: Policy, n: Node)
    requires IsSvgLike(n.tag) && n.tail == None && Sanitize(p, {}, n, Totals(0, 0)).0 == None
    ensures SanitizeXml(p, NothingHostile, Wrapped([n])) ==
            Passed(Wrapped([]), RejectedIsHostile(n.tag, Sanitize(p, {}, n, Totals(0, 0)).1.blocks))
  {
    Names();
    hide Sanitize, RejectedIsHostile, IsSvgLike, All;
    assert !IsSvgLike(Name("root")) by { BareName("root"); }
    assert [n][1..] == [];
    var start := Pass(None, [], Totals(0, 0), false);
    var pass := PassBlock(p, NothingHostile, n, start);
    assert DropTail(start, n.tail) == start;
    assert PassNodes(p, NothingHostile, [], pass) == pass;
    assert PassNodes(p, NothingHostile, [n], start) == pass;
  }

  /** A rejected `svg` counts if it has the namespace. */
  lemma Counting()
    ensures IsSvgLike(Clark("svg")) && IsSvgLike(Name("svg"))
    ensures RejectedIsHostile(Clark("svg"), 1) && !RejectedIsHostile(Name("svg"), 1)
  {
    hide RejectedIsHostile, IsSvgLike, Lower, All;
    Names();
    ClarkLike("svg");
    BareName("svg");
    ClarkCounts();
    BareCounts();
  }

  lemma ClarkCounts()
    ensures RejectedIsHostile(Clark("svg"), 1)
  {
    hide RejectedIsHostile, Lower;
    assert Clark("svg") == Name(CLARK_SVG);
    RejectedHostility(Clark("svg"), 1);
  }

  lemma BareCounts()
    ensures !RejectedIsHostile(Name("svg"), 1)
  {
    hide RejectedIsHostile, Lower, All;
    Names();
    LowerLetters("svg");
    RejectedHostility(Name("svg"), 1);
    assert !("{" <= "svg") && ':' !in "svg";
  }

  /** A drawing that is only too large is dropped, and counts as an attempt of its author if it has the namespace that
      every honest drawing in such a text has; without the namespace it does not. */
  lemma OversizeWitness(p: Policy)
    requires SoundPolicy(p)
    ensures SanitizeXml(p, NothingHostile, Wrapped([Drawing(MAX_SVG_BYTES - 7)])) == Passed(Wrapped([]), true)
    ensures SanitizeXml(p, NothingHostile, Wrapped([Titled(MAX_SVG_BYTES - 7)])) == Passed(Wrapped([]), false)
  {
    hide Sanitize, RejectedIsHostile, IsSvgLike, Titled, SoundPolicy, SanitizeXml;
    var n := MAX_SVG_BYTES - 7;
    TooLarge(p);
    TitledParts(n);
    Counting();
    OneBlock(p, Drawing(n));
    OneBlock(p, Titled(n));
  }

  /** A valid drawing as the root fails the call, and one that is too large stays as it is. */
  lemma RootWitness(p: Policy)
    requires SoundPolicy(p)
    ensures SanitizeXml(p, NothingHostile, Titled(1)) == NoParent
    ensures SanitizeXml(p, NothingHostile, Titled(MAX_SVG_BYTES - 7)) == Passed(Titled(MAX_SVG_BYTES - 7), false)
  {
    hide Sanitize, RejectedIsHostile, IsSvgLike, Titled, SoundPolicy;
    Fitting(p);
    TooLarge(p);
    TitledParts(1);
    TitledParts(MAX_SVG_BYTES - 7);
    Counting();
  }
}
