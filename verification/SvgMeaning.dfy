/** What a rebuilt block is, told from its source alone: its elements, attributes and characters in document order, and
    what it costs. */
module SvgMeaning {
  import opened Text
  import opened SvgTree
  import opened SvgBuild
  import opened SvgIdempotence

  // ---- A tree, read from start to end ----

  /** What is met on the way through a tree. Where character data is not rendered, spaces between two elements are one
      `Layout`, however many there are. */
  datatype Token =
    | Open(name: string, order: seq<string>, values: map<string, string>)
    | Char(c: char)
    | Layout
    | Close

  function Chars(s: string): seq<Token> {
    if s == "" then [] else [Char(s[0])] + Chars(s[1..])
  }

  function Names(attrs: seq<(string, string)>): seq<string> {
    if attrs == [] then [] else [attrs[0].0] + Names(attrs[1..])
  }

  function Values(attrs: seq<(string, string)>): map<string, string> {
    if attrs == [] then map[]
    else Values(attrs[..|attrs| - 1])[attrs[|attrs| - 1].0 := attrs[|attrs| - 1].1]
  }

  function TextStream(t: Option<string>, keeps: bool): seq<Token> {
    if t == None || t.value == "" then [] else if keeps then Chars(t.value) else [Layout]
  }

  function Stream(n: Node): seq<Token>
    decreases n, 0
  {
    var name := if n.tag.Name? then n.tag.name else "";
    [Open(name, Names(n.attrs), Values(n.attrs))]
    + (TextStream(n.text, name in TEXT_ELEMENTS) + KidsStream(n.children, name in TEXT_ELEMENTS)) + [Close]
  }

  function KidsStream(nodes: seq<Node>, keeps: bool): seq<Token>
    decreases nodes, 1
  {
    if nodes == [] then []
    else Stream(nodes[0]) + TextStream(nodes[0].tail, keeps) + KidsStream(nodes[1..], keeps)
  }

  // ---- A source, read the same way ----

  /** The canonical name of an element that is kept. */
  function KeptName(tag: Tag): Option<string> {
    match SvgLocalName(tag)
    case None => None
    case Some(local) => CanonicalElement(local)
  }

  /** The characters that are no control characters. */
  function Plain(s: string): string {
    if s == "" then ""
    else Plain(s[..|s| - 1]) + if IsControl(s[|s| - 1]) then "" else [s[|s| - 1]]
  }

  function GivenText(t: Option<string>, keeps: bool): seq<Token> {
    if t == None then []
    else if keeps then Chars(Plain(t.value))
    else if t.value != "" && forall c :: c in t.value ==> IsSpace(c) then [Layout]
    else []
  }

  /** The attributes that are kept, each under the name it is stored with: the names in the order in which they come up,
      and for each the last value. */
  function GivenNames(p: Policy, element: string, dropped: set<string>, attrs: seq<(string, string)>): seq<string> {
    if attrs == [] then []
    else
      var front, last := attrs[..|attrs| - 1], attrs[|attrs| - 1];
      var names := GivenNames(p, element, dropped, front);
      match KeepAttribute(p, element, dropped, last.0, last.1)
      case None => names
      case Some(r) => if StoredName(r.0) in names then names else names + [StoredName(r.0)]
  }

  function GivenValues(p: Policy, element: string, dropped: set<string>, attrs: seq<(string, string)>)
    : map<string, string>
  {
    if attrs == [] then map[]
    else
      var front, last := attrs[..|attrs| - 1], attrs[|attrs| - 1];
      match KeepAttribute(p, element, dropped, last.0, last.1)
      case None => GivenValues(p, element, dropped, front)
      case Some(r) => GivenValues(p, element, dropped, front)[StoredName(r.0) := r.1]
  }

  /** An element that is not kept leaves nothing, with all that is in it; the text behind it stays. */
  function Given(p: Policy, dropped: set<string>, n: Node): seq<Token>
    decreases n, 0
  {
    match KeptName(n.tag)
    case None => []
    case Some(name) =>
      [Open(name, GivenNames(p, name, dropped, n.attrs), GivenValues(p, name, dropped, n.attrs))]
      + (GivenText(n.text, name in TEXT_ELEMENTS) + GivenKids(p, dropped, n.children, name in TEXT_ELEMENTS)) + [Close]
  }

  function GivenKids(p: Policy, dropped: set<string>, nodes: seq<Node>, keeps: bool): seq<Token>
    decreases nodes, 1
  {
    if nodes == [] then []
    else Given(p, dropped, nodes[0]) + GivenText(nodes[0].tail, keeps) + GivenKids(p, dropped, nodes[1..], keeps)
  }

  // ---- Layout in a row ----

  function Squeeze(s: seq<Token>): seq<Token> {
    if s == [] then [] else Glue([s[0]], Squeeze(s[1..]))
  }

  /** Two streams side by side, with one `Layout` where they meet. */
  function Glue(a: seq<Token>, b: seq<Token>): seq<Token> {
    if a != [] && b != [] && a[|a| - 1] == Layout && b[0] == Layout then a + b[1..] else a + b
  }

  predicate Same(a: seq<Token>, b: seq<Token>) { Squeeze(a) == Squeeze(b) }

  lemma GlueAssociative(a: seq<Token>, b: seq<Token>, c: seq<Token>)
    ensures Glue(Glue(a, b), c) == Glue(a, Glue(b, c))
  {
  }

  lemma GlueEmpty(a: seq<Token>)
    ensures Glue(a, []) == a && Glue([], a) == a
  {
  }

  lemma {:induction false} SqueezeConcat(a: seq<Token>, b: seq<Token>)
    ensures Squeeze(a + b) == Glue(Squeeze(a), Squeeze(b))
  {
    hide Glue;
    if a == [] {
      assert a + b == b;
      GlueEmpty(Squeeze(b));
    } else {
      assert (a + b)[1..] == a[1..] + b;
      SqueezeConcat(a[1..], b);
      GlueAssociative([a[0]], Squeeze(a[1..]), Squeeze(b));
    }
  }

  lemma SameConcat(a: seq<Token>, b: seq<Token>, c: seq<Token>, d: seq<Token>)
    requires Same(a, b) && Same(c, d)
    ensures Same(a + c, b + d)
  {
    SqueezeConcat(a, c);
    SqueezeConcat(b, d);
  }

  lemma TwoLayouts()
    ensures Same([Layout] + [Layout], [Layout])
  {
    assert [Layout][1..] == [] && ([Layout] + [Layout])[1..] == [Layout];
  }

  // ---- Text ----

  lemma {:induction false} CharsConcat(a: string, b: string)
    ensures Chars(a + b) == Chars(a) + Chars(b)
  {
    if a == "" {
      assert a + b == b;
    } else {
      assert (a + b)[1..] == a[1..] + b;
      CharsConcat(a[1..], b);
    }
  }

  lemma {:induction false} RemoveConcat(a: string, b: string)
    ensures RemoveControls(a + b) == RemoveControls(a) + RemoveControls(b)
  {
    if a == "" {
      assert a + b == b;
    } else {
      assert (a + b)[1..] == a[1..] + b;
      RemoveConcat(a[1..], b);
    }
  }

  lemma {:induction false} PlainIs(s: string)
    ensures Plain(s) == RemoveControls(s)
    decreases |s|
  {
    if s != "" {
      var front, last := s[..|s| - 1], s[|s| - 1];
      PlainIs(front);
      assert s == front + [last];
      RemoveConcat(front, [last]);
      assert [last][1..] == "";
    }
  }

  lemma BlankIs(s: string)
    ensures Strip(s) == "" <==> forall c :: c in s ==> IsSpace(c)
  {
    TrimLeftSplit(s);
    var t := TrimLeft(s);
    TrimRightSplit(t);
    AllEach(s, IsSpace);
    if Strip(s) == "" {
      assert t[0..] == t;
      AllEach(t, IsSpace);
      assert t == "";
      assert s[..|s| - 0] == s;
    } else if forall c :: c in s ==> IsSpace(c) {
      TrimLeftAllSpace(s);
    }
  }

  lemma CleanTextStream(t: Option<string>, keeps: bool)
    ensures TextStream(CleanText(t, keeps), keeps) == GivenText(t, keeps)
    ensures CleanText(t, keeps) != Some("")
    ensures TextCost(CleanText(t, keeps), keeps) == if keeps && t.Some? then |Plain(t.value)| else 0
  {
    if t.Some? {
      PlainIs(t.value);
      BlankIs(t.value);
    }
  }

  lemma JoinTextStream(first: Option<string>, second: string, keeps: bool)
    requires second != ""
    ensures Same(TextStream(Some(JoinText(first, second, keeps)), keeps),
                 TextStream(first, keeps) + TextStream(Some(second), keeps))
  {
    if keeps {
      CharsConcat(OrEmpty(first), second);
      assert OrEmpty(first) == "" ==> "" + second == second;
      Regroup(TextStream(Some(second), keeps), [], []);
    } else {
      TwoLayouts();
      Regroup([Layout], [], []);
    }
  }

  // ---- Attributes ----

  lemma {:induction false} NamesConcat(a: seq<(string, string)>, b: seq<(string, string)>)
    ensures Names(a + b) == Names(a) + Names(b)
  {
    if a == [] {
      assert a + b == b;
    } else {
      assert (a + b)[1..] == a[1..] + b;
      NamesConcat(a[1..], b);
    }
  }

  /** Setting an attribute: the order of the names, and their values. */
  lemma {:induction false} SetAttrNames(attrs: seq<(string, string)>, name: string, value: string)
    ensures Names(SetAttr(attrs, name, value)) == (if name in Names(attrs) then Names(attrs) else Names(attrs) + [name])
  {
    if attrs != [] && attrs[0].0 != name {
      SetAttrNames(attrs[1..], name, value);
      var rest := SetAttr(attrs[1..], name, value);
      assert ([attrs[0]] + rest)[1..] == rest;
    } else if attrs != [] {
      assert ([(name, value)] + attrs[1..])[1..] == attrs[1..];
    }
  }

  lemma {:induction false} ValuesConcat(a: seq<(string, string)>, b: seq<(string, string)>)
    ensures Values(a + b) == Values(a) + Values(b)
    decreases |b|
  {
    if b == [] {
      assert a + b == a;
    } else {
      assert (a + b)[..|a + b| - 1] == a + b[..|b| - 1];
      ValuesConcat(a, b[..|b| - 1]);
    }
  }

  lemma ValuesFirst(first: (string, string), rest: seq<(string, string)>)
    ensures Values([first] + rest) == map[first.0 := first.1] + Values(rest)
  {
    ValuesConcat([first], rest);
    assert [first][..0] == [];
  }

  lemma {:induction false} ValuesNames(attrs: seq<(string, string)>)
    ensures Values(attrs).Keys == (set n | n in Names(attrs))
  {
    if attrs != [] {
      assert attrs == [attrs[0]] + attrs[1..];
      ValuesFirst(attrs[0], attrs[1..]);
      ValuesNames(attrs[1..]);
    }
  }

  predicate NoneTwice(names: seq<string>) {
    forall i, j :: 0 <= i < j < |names| ==> names[i] != names[j]
  }

  lemma NoneTwiceRest(names: seq<string>)
    requires names != [] && NoneTwice(names)
    ensures NoneTwice(names[1..]) && names[0] !in names[1..]
  {
    var rest := names[1..];
    forall i, j | 0 <= i < j < |rest| ensures rest[i] != rest[j] {
      assert rest[i] == names[i + 1] && rest[j] == names[j + 1];
    }
  }

  lemma PutFirst(m: map<string, string>, name: string, was: string, value: string)
    requires name !in m
    ensures map[name := value] + m == (map[name := was] + m)[name := value]
  {
  }

  lemma PutLater(m: map<string, string>, first: string, was: string, name: string, value: string)
    requires first != name
    ensures map[first := was] + m[name := value] == (map[first := was] + m)[name := value]
  {
  }

  lemma {:induction false} SetAttrValues(attrs: seq<(string, string)>, name: string, value: string)
    requires NoneTwice(Names(attrs))
    ensures Values(SetAttr(attrs, name, value)) == Values(attrs)[name := value]
  {
    if attrs == [] {
      assert [(name, value)][..0] == [];
    } else {
      var first, rest := attrs[0], attrs[1..];
      assert attrs == [first] + rest;
      NoneTwiceRest(Names(attrs));
      assert Names(attrs)[1..] == Names(rest) && Names(attrs)[0] == first.0;
      hide NoneTwice, Values;
      ValuesFirst(first, rest);
      if first.0 == name {
        ValuesFirst((name, value), rest);
        ValuesNames(rest);
        PutFirst(Values(rest), name, first.1, value);
      } else {
        SetAttrValues(rest, name, value);
        ValuesFirst(first, SetAttr(rest, name, value));
        PutLater(Values(rest), first.0, first.1, name, value);
      }
    }
  }

  lemma {:induction false} NoneTwiceMore(names: seq<string>, name: string)
    requires NoneTwice(names) && name !in names
    ensures NoneTwice(names + [name])
  {
  }

  /** The costs of all attributes that are kept, overwritten ones included. */
  function AttrsCost(p: Policy, element: string, dropped: set<string>, attrs: seq<(string, string)>): nat {
    if attrs == [] then 0
    else
      (match KeepAttribute(p, element, dropped, attrs[0].0, attrs[0].1)
       case None => 0
       case Some(r) => |r.0| + |r.1|)
      + AttrsCost(p, element, dropped, attrs[1..])
  }

  /** The names and values after more attributes are read. */
  lemma {:induction false} GivenMore(p: Policy, element: string, dropped: set<string>, read: seq<(string, string)>,
                                     more: (string, string))
    ensures var r := KeepAttribute(p, element, dropped, more.0, more.1);
            var names, values := GivenNames(p, element, dropped, read), GivenValues(p, element, dropped, read);
            && GivenNames(p, element, dropped, read + [more]) ==
               (if r == None || StoredName(r.value.0) in names then names else names + [StoredName(r.value.0)])
            && GivenValues(p, element, dropped, read + [more]) ==
               (if r == None then values else values[StoredName(r.value.0) := r.value.1])
  {
    hide KeepAttribute;
    assert (read + [more])[..|read|] == read;
  }

  ghost predicate AttrsAre(p: Policy, element: string, dropped: set<string>, read: seq<(string, string)>,
                           done: seq<(string, string)>) {
    && Names(done) == GivenNames(p, element, dropped, read) && NoneTwice(Names(done))
    && Values(done) == GivenValues(p, element, dropped, read)
  }

  lemma AttrsAreMore(p: Policy, element: string, dropped: set<string>, read: seq<(string, string)>,
                     done: seq<(string, string)>, more: (string, string))
    requires AttrsAre(p, element, dropped, read, done)
    ensures var r := KeepAttribute(p, element, dropped, more.0, more.1);
            AttrsAre(p, element, dropped, read + [more],
                     if r == None then done else SetAttr(done, StoredName(r.value.0), r.value.1))
  {
    hide KeepAttribute, GivenNames, GivenValues, Names, Values, SetAttr, NoneTwice;
    GivenMore(p, element, dropped, read, more);
    var r := KeepAttribute(p, element, dropped, more.0, more.1);
    if r.Some? {
      SetAttrNames(done, StoredName(r.value.0), r.value.1);
      SetAttrValues(done, StoredName(r.value.0), r.value.1);
      if StoredName(r.value.0) !in Names(done) {
        NoneTwiceMore(Names(done), StoredName(r.value.0));
      }
    }
  }

  /** The attribute loop: what it keeps, and when it fits. */
  lemma {:induction false} BuildAttrsExactly(p: Policy, element: string, dropped: set<string>,
                                             read: seq<(string, string)>, attrs: seq<(string, string)>,
                                             done: seq<(string, string)>, s: Spent)
    requires Fits(s, 0, 0) && AttrsAre(p, element, dropped, read, done)
    ensures var (r, t) := BuildAttrs(p, element, dropped, attrs, done, s);
            && (r.Some? <==> Fits(s, 0, AttrsCost(p, element, dropped, attrs)))
            && (r.Some? ==>
                  && AttrsAre(p, element, dropped, read + attrs, r.value)
                  && t == Charge(s, 0, AttrsCost(p, element, dropped, attrs)))
    decreases |attrs|
  {
    hide KeepAttribute, AttrsAre, SetAttr, Spend;
    if attrs == [] {
      assert read + attrs == read;
    } else {
      var more, rest := attrs[0], attrs[1..];
      assert read + attrs == read + [more] + rest;
      AttrsAreMore(p, element, dropped, read, done, more);
      match KeepAttribute(p, element, dropped, more.0, more.1)
      case None => BuildAttrsExactly(p, element, dropped, read + [more], rest, done, s);
      case Some(r) =>
        SpendFits(s, |r.0| + |r.1|);
        if Spend(s, |r.0| + |r.1|).1 {
          BuildAttrsExactly(p, element, dropped, read + [more], rest, SetAttr(done, StoredName(r.0), r.1),
                            Spend(s, |r.0| + |r.1|).0);
        }
    }
  }

  // ---- What a source costs ----

  function SourceElements(n: Node): nat
    decreases n, 0
  {
    if KeptName(n.tag) == None then 0 else 1 + SourceElementsIn(n.children)
  }

  function SourceElementsIn(nodes: seq<Node>): nat
    decreases nodes, 1
  {
    if nodes == [] then 0 else SourceElements(nodes[0]) + SourceElementsIn(nodes[1..])
  }

  function SourceText(t: Option<string>, keeps: bool): nat {
    if keeps && t.Some? then |Plain(t.value)| else 0
  }

  function SourceBytes(p: Policy, dropped: set<string>, n: Node): nat
    decreases n, 0
  {
    match KeptName(n.tag)
    case None => 0
    case Some(name) =>
      |name| + AttrsCost(p, name, dropped, n.attrs) + SourceText(n.text, name in TEXT_ELEMENTS)
      + SourceBytesIn(p, dropped, n.children, name in TEXT_ELEMENTS)
  }

  function SourceBytesIn(p: Policy, dropped: set<string>, nodes: seq<Node>, keeps: bool): nat
    decreases nodes, 1
  {
    if nodes == [] then 0
    else
      SourceBytes(p, dropped, nodes[0]) + SourceText(nodes[0].tail, keeps)
      + SourceBytesIn(p, dropped, nodes[1..], keeps)
  }

  /** How deep the source is looked into: below a kept element its children are, kept or not. */
  function Reach(n: Node): nat
    decreases n, 0
  {
    1 + if KeptName(n.tag) == None then 0 else ReachIn(n.children)
  }

  function ReachIn(nodes: seq<Node>): nat
    decreases nodes, 1
  {
    if nodes == [] then 0
    else if Reach(nodes[0]) > ReachIn(nodes[1..]) then Reach(nodes[0]) else ReachIn(nodes[1..])
  }

  // ---- The rebuild ----

  function PartStream(part: Partial, keeps: bool): seq<Token> {
    TextStream(part.text, keeps) + KidsStream(part.children, keeps)
  }

  lemma {:induction false} KidsConcat(a: seq<Node>, b: seq<Node>, keeps: bool)
    ensures KidsStream(a + b, keeps) == KidsStream(a, keeps) + KidsStream(b, keeps)
  {
    hide Stream, TextStream;
    if a == [] {
      assert a + b == b;
      Regroup(KidsStream(b, keeps), [], []);
    } else {
      assert (a + b)[1..] == a[1..] + b;
      KidsConcat(a[1..], b, keeps);
      Regroup(Stream(a[0]) + TextStream(a[0].tail, keeps), KidsStream(a[1..], keeps), KidsStream(b, keeps));
    }
  }

  lemma KidsOne(n: Node, keeps: bool)
    ensures KidsStream([n], keeps) == Stream(n) + TextStream(n.tail, keeps)
  {
    hide Stream, TextStream;
    assert [n][1..] == [] && KidsStream([], keeps) == [];
    Regroup(Stream(n) + TextStream(n.tail, keeps), [], []);
  }

  lemma TailApart(n: Node, tail: Option<string>)
    ensures Stream(n.(tail := tail)) == Stream(n)
  {
  }

  lemma SameSelf(a: seq<Token>)
    ensures Same(a, a)
  {
  }

  /** The tail of a dropped child comes right behind all that was read before it. */
  lemma AddTailStream(part: Partial, tail: string, keeps: bool)
    requires tail != ""
    ensures Same(PartStream(AddTail(part, tail, keeps), keeps),
                 PartStream(part, keeps) + TextStream(Some(tail), keeps))
  {
    hide Stream, TextStream, JoinText, Same;
    var more := TextStream(Some(tail), keeps);
    if part.children == [] {
      assert KidsStream([], keeps) == [];
      JoinTextStream(part.text, tail, keeps);
      Regroup(TextStream(part.text, keeps), [], []);
      Regroup(TextStream(Some(JoinText(part.text, tail, keeps)), keeps), [], []);
    } else {
      var k := |part.children| - 1;
      var front, last := part.children[..k], part.children[k];
      var joined := last.(tail := Some(JoinText(last.tail, tail, keeps)));
      assert part.children == front + [last];
      KidsConcat(front, [last], keeps);
      KidsConcat(front, [joined], keeps);
      KidsOne(last, keeps);
      KidsOne(joined, keeps);
      TailApart(last, joined.tail);
      JoinTextStream(last.tail, tail, keeps);
      var before := TextStream(part.text, keeps) + KidsStream(front, keeps) + Stream(last);
      SameSelf(before);
      SameConcat(before, before, TextStream(joined.tail, keeps), TextStream(last.tail, keeps) + more);
      Regroup(TextStream(part.text, keeps), KidsStream(front, keeps), Stream(last));
      Regroup(TextStream(part.text, keeps) + KidsStream(front, keeps), Stream(last), TextStream(last.tail, keeps));
      Regroup(TextStream(part.text, keeps) + KidsStream(front, keeps), Stream(last), TextStream(joined.tail, keeps));
      Regroup(TextStream(part.text, keeps), KidsStream(front, keeps), Stream(last) + TextStream(last.tail, keeps));
      Regroup(TextStream(part.text, keeps), KidsStream(front, keeps), Stream(last) + TextStream(joined.tail, keeps));
      Regroup(before, TextStream(last.tail, keeps), more);
    }
  }

  lemma ChargeSplit(s: Spent, e: nat, b: nat, f: nat, c: nat)
    ensures Fits(s, e + f, b + c) <==> Fits(s, e, b) && Fits(Charge(s, e, b), f, c)
    ensures Charge(Charge(s, e, b), f, c) == Charge(s, e + f, b + c)
    ensures Fits(Charge(s, e, b), 0, 0) <==> Fits(s, e, b)
  {
  }

  lemma FirstElement(s: Spent)
    requires Fits(s, 0, 0)
    ensures AddElement(s) == (Charge(s, 1, 0), Fits(s, 1, 0))
  {
  }

  lemma SpendExactly(s: Spent, amount: nat)
    requires Fits(s, 0, 0)
    ensures Spend(s, amount).1 <==> Fits(s, 0, amount)
    ensures Spend(s, amount).1 ==> Spend(s, amount).0 == Charge(s, 0, amount)
  {
  }

  lemma NothingRead(p: Policy, element: string, dropped: set<string>)
    ensures AttrsAre(p, element, dropped, [], [])
  {
  }

  /** A kept element is built if and only if it is not too deep, and its elements and bytes fit what is left of the
      budget; it is charged exactly these. Read from start to end it is its source without the elements that are not
      kept. An element that is not kept is dropped for nothing. */
  lemma {:induction false} BuildExactly(p: Policy, dropped: set<string>, source: Node, depth: nat, s: Spent)
    requires Fits(s, 0, 0)
    ensures var (r, t) := Build(p, dropped, source, depth, s);
            var e, b := SourceElements(source), SourceBytes(p, dropped, source);
            && (depth > MAX_SVG_DEPTH ==> r == Rejected)
            && (depth <= MAX_SVG_DEPTH && KeptName(source.tag) == None ==> r == Dropped && t == s)
            && (depth <= MAX_SVG_DEPTH && KeptName(source.tag).Some? ==>
                  && !r.Dropped? && (r.Built? <==> depth + Reach(source) - 1 <= MAX_SVG_DEPTH && Fits(s, e, b))
                  && (r.Built? ==>
                        && t == Charge(s, e, b) && r.node.tail == None
                        && Same(Stream(r.node), Given(p, dropped, source))))
    decreases source, 0
  {
    hide CanonicalElement, SvgLocalName, KeepAttribute, Spend, CleanText, TextCost, BuildAttrs, BuildChildren,
      AddElement, AttrsAre, GivenNames, GivenValues, AttrsCost, TextStream, KidsStream, GivenText, GivenKids, Plain,
      SourceElementsIn, SourceBytesIn, ReachIn, Fits, Charge, Same;
    if depth <= MAX_SVG_DEPTH && KeptName(source.tag).Some? {
      var name := KeptName(source.tag).value;
      var keeps := name in TEXT_ELEMENTS;
      var n, a, x := |name|, AttrsCost(p, name, dropped, source.attrs), SourceText(source.text, keeps);
      var k, c := SourceElementsIn(source.children), SourceBytesIn(p, dropped, source.children, keeps);
      assert SourceElements(source) == 1 + k && SourceBytes(p, dropped, source) == n + a + x + c;
      ChargeSplit(s, 1, 0, k, n + a + x + c);
      ChargeSplit(s, 1, 0, 0, n);
      ChargeSplit(s, 1, n, k, a + x + c);
      ChargeSplit(s, 1, n, 0, a);
      ChargeSplit(s, 1, n + a, k, x + c);
      ChargeSplit(s, 1, n + a, 0, x);
      ChargeSplit(s, 1, n + a + x, k, c);
      FirstElement(s);
      if Fits(s, 1, 0) {
        SpendExactly(Charge(s, 1, 0), n);
        if Fits(s, 1, n) {
          NothingRead(p, name, dropped);
          BuildAttrsExactly(p, name, dropped, [], source.attrs, [], Charge(s, 1, n));
          Regroup([], source.attrs, []);
          assert [] + source.attrs == source.attrs;
          if Fits(s, 1, n + a) {
            var attrs := BuildAttrs(p, name, dropped, source.attrs, [], Charge(s, 1, n)).0.value;
            var text := CleanText(source.text, keeps);
            CleanTextStream(source.text, keeps);
            SpendExactly(Charge(s, 1, n + a), x);
            if Fits(s, 1, n + a + x) {
              ChildrenExactly(p, dropped, source.children, depth + 1, keeps, Partial(text, []),
                              Charge(s, 1, n + a + x));
              var (part, u) := BuildChildren(p, dropped, source.children, depth + 1, keeps, Partial(text, []),
                                             Charge(s, 1, n + a + x));
              assert source.children == [] ==> ReachIn(source.children) == 0 by { NoReach(); }
              if part.Some? {
                BuiltStream(p, dropped, source, name, attrs, text, part.value);
              }
            }
          }
        }
      }
    }
  }

  lemma BuiltStream(p: Policy, dropped: set<string>, source: Node, name: string, attrs: seq<(string, string)>,
                    text: Option<string>, part: Partial)
    requires KeptName(source.tag) == Some(name) && AttrsAre(p, name, dropped, source.attrs, attrs)
    requires var keeps := name in TEXT_ELEMENTS;
             && TextStream(text, keeps) == GivenText(source.text, keeps)
             && Same(PartStream(part, keeps),
                     PartStream(Partial(text, []), keeps) + GivenKids(p, dropped, source.children, keeps))
    ensures Same(Stream(Node(Name(name), attrs, part.text, part.children, None)), Given(p, dropped, source))
  {
    var keeps := name in TEXT_ELEMENTS;
    var node := Node(Name(name), attrs, part.text, part.children, None);
    var open := [Open(name, Names(attrs), Values(attrs))];
    assert KidsStream([], keeps) == [];
    Regroup(TextStream(text, keeps), [], []);
    var given := GivenText(source.text, keeps) + GivenKids(p, dropped, source.children, keeps);
    assert Same(PartStream(part, keeps), given);
    assert Stream(node) == open + PartStream(part, keeps) + [Close];
    assert Given(p, dropped, source) == open + given + [Close];
    hide Same, Stream, Given, PartStream, TEXT_ELEMENTS;
    SameSelf(open);
    SameSelf([Close]);
    SameConcat(open, open, PartStream(part, keeps), given);
    SameConcat(open + PartStream(part, keeps), open + given, [Close], [Close]);
  }

  lemma {:induction false} ChildrenExactly(p: Policy, dropped: set<string>, sources: seq<Node>, depth: nat, keeps: bool,
                                           part: Partial, s: Spent)
    requires Fits(s, 0, 0)
    ensures var (r, t) := BuildChildren(p, dropped, sources, depth, keeps, part, s);
            var e, b := SourceElementsIn(sources), SourceBytesIn(p, dropped, sources, keeps);
            && (r.Some? <==> (sources == [] || depth + ReachIn(sources) - 1 <= MAX_SVG_DEPTH) && Fits(s, e, b))
            && (r.Some? ==>
                  && t == Charge(s, e, b)
                  && Same(PartStream(r.value, keeps), PartStream(part, keeps) + GivenKids(p, dropped, sources, keeps)))
    decreases sources, 1
  {
    hide Spend, CleanText, TextCost, Build, AddTail, BuildChildren, Fits, Charge, Same, Stream, TextStream, Given,
      GivenText, PartStream, SourceBytes, SourceElements, Reach, Plain, KeptName;
    if sources == [] {
      NoChildren(p, dropped, depth, keeps, part, s);
      ChargeSplit(s, 0, 0, 0, 0);
      ChargeNothing(s);
      Regroup(PartStream(part, keeps), [], []);
      SameSelf(PartStream(part, keeps));
    } else {
      var n, rest := sources[0], sources[1..];
      var e, b, x := SourceElements(n), SourceBytes(p, dropped, n), SourceText(n.tail, keeps);
      var f, c := SourceElementsIn(rest), SourceBytesIn(p, dropped, rest, keeps);
      ReachPositive(n);
      ChildStep(p, dropped, sources, depth, keeps, part, s);
      BuildExactly(p, dropped, n, depth, s);
      UnkeptCosts(p, dropped, n);
      ChargeNothing(s);
      ChargeSplit(s, e, b, f, x + c);
      ChargeSplit(s, e, b, 0, x);
      ChargeSplit(s, e, b + x, f, c);
      var one := Build(p, dropped, n, depth, s).0;
      CleanTextStream(n.tail, keeps);
      if !one.Rejected? {
        SpendExactly(Charge(s, e, b), x);
        if Fits(s, e, b + x) {
          var next := NextPart(one, n.tail, keeps, part);
          NextStream(p, dropped, n, one, keeps, part);
          ChildrenExactly(p, dropped, rest, depth, keeps, next, Charge(s, e, b + x));
          var r := BuildChildren(p, dropped, rest, depth, keeps, next, Charge(s, e, b + x)).0;
          if r.Some? {
            var given, more := Given(p, dropped, n) + GivenText(n.tail, keeps), GivenKids(p, dropped, rest, keeps);
            StreamOn(PartStream(r.value, keeps), PartStream(next, keeps), PartStream(part, keeps), given, more);
          }
        }
      }
    }
  }

  lemma ChargeNothing(s: Spent)
    ensures Charge(s, 0, 0) == s
  {
  }

  lemma NoReach()
    ensures ReachIn([]) == 0
  {
  }

  lemma ReachPositive(n: Node)
    ensures Reach(n) >= 1 && (KeptName(n.tag) == None ==> Reach(n) == 1)
  {
  }

  lemma UnkeptCosts(p: Policy, dropped: set<string>, n: Node)
    ensures KeptName(n.tag) == None ==>
              SourceElements(n) == 0 && SourceBytes(p, dropped, n) == 0 && Given(p, dropped, n) == []
  {
  }

  /** What an element has after one more child. */
  function NextPart(one: Outcome, tail: Option<string>, keeps: bool, part: Partial): Partial {
    var t := CleanText(tail, keeps);
    if one.Built? then part.(children := part.children + [one.node.(tail := t)])
    else if t.Some? then AddTail(part, t.value, keeps)
    else part
  }

  lemma NextStream(p: Policy, dropped: set<string>, n: Node, one: Outcome, keeps: bool, part: Partial)
    requires !one.Rejected?
    requires if one.Built? then Same(Stream(one.node), Given(p, dropped, n)) else Given(p, dropped, n) == []
    ensures Same(PartStream(NextPart(one, n.tail, keeps, part), keeps),
                 PartStream(part, keeps) + (Given(p, dropped, n) + GivenText(n.tail, keeps)))
  {
    hide Same, Stream, Given, TextStream, GivenText, CleanText, AddTail;
    var t := CleanText(n.tail, keeps);
    CleanTextStream(n.tail, keeps);
    var before := PartStream(part, keeps);
    SameSelf(before);
    if one.Built? {
      var node := one.node.(tail := t);
      KidsConcat(part.children, [node], keeps);
      KidsOne(node, keeps);
      TailApart(one.node, t);
      SameSelf(GivenText(n.tail, keeps));
      SameConcat(Stream(one.node), Given(p, dropped, n), GivenText(n.tail, keeps), GivenText(n.tail, keeps));
      SameConcat(before, before, Stream(one.node) + GivenText(n.tail, keeps),
                 Given(p, dropped, n) + GivenText(n.tail, keeps));
      Regroup(TextStream(part.text, keeps), KidsStream(part.children, keeps), Stream(node) + TextStream(t, keeps));
    } else {
      Regroup(GivenText(n.tail, keeps), [], []);
      if t.Some? {
        AddTailStream(part, t.value, keeps);
      } else {
        assert GivenText(n.tail, keeps) == [] by { NoTextStream(keeps); }
        Regroup(before, [], []);
      }
    }
  }

  lemma NoTextStream(keeps: bool)
    ensures TextStream(None, keeps) == []
  {
  }

  lemma StreamOn(last: seq<Token>, next: seq<Token>, part: seq<Token>, given: seq<Token>, more: seq<Token>)
    requires Same(last, next + more) && Same(next, part + given)
    ensures Same(last, part + (given + more))
  {
    hide Squeeze;
    SameSelf(more);
    SameConcat(next, part + given, more, more);
    Regroup(part, given, more);
  }

  // ---- One block of a call ----

  /** With the totals already over, nothing is built any more. */
  lemma OverTotal(p: Policy, dropped: set<string>, source: Node, total: nat)
    requires total > MAX_TOTAL_SVG_BYTES
    ensures !Build(p, dropped, source, 1, Fresh(Some(total))).0.Built?
  {
    hide CanonicalElement, SvgLocalName, BuildAttrs, BuildChildren, CleanText, TextCost;
  }

  lemma SvgKept(tag: Tag)
    requires SvgLocalName(tag) == Some("svg")
    ensures KeptName(tag) == Some("svg")
  {
    hide SvgLocalName;
  }

  /** `sanitize_svg_element` returns a block if and only if it is an `svg`, is not one too many, is not too deep, and
      its elements and bytes fit its own caps and what is left of the totals. Then it is charged exactly these, and
      the block, read from start to end, is its source without what is not kept; only the namespace is set on its
      root. */
  lemma SanitizeExactly(p: Policy, dropped: set<string>, source: Node, totals: Totals)
    ensures var (r, t) := Sanitize(p, dropped, source, totals);
            var e, b := SourceElements(source), SourceBytes(p, dropped, source);
            && (r.Some? <==>
                  && SvgLocalName(source.tag) == Some("svg") && totals.blocks < MAX_TOTAL_SVG_BLOCKS
                  && Reach(source) <= MAX_SVG_DEPTH
                  && e <= MAX_SVG_ELEMENTS && b <= MAX_SVG_BYTES && totals.size + b <= MAX_TOTAL_SVG_BYTES)
            && (r.Some? ==>
                  && t == Totals(totals.blocks + 1, totals.size + b)
                  && exists n: Node ::
                       r.value == WithNamespace(n) && n.tail == None && Same(Stream(n), Given(p, dropped, source)))
            && t.blocks == totals.blocks + (if SvgLocalName(source.tag) == Some("svg") then 1 else 0)
  {
    hide SvgLocalName, Build, Same, Stream, Given, SourceBytes, SourceElements, Reach, WithNamespace;
    if SvgLocalName(source.tag) == Some("svg") && totals.blocks < MAX_TOTAL_SVG_BLOCKS {
      SvgKept(source.tag);
      var s := Fresh(Some(totals.size));
      if totals.size > MAX_TOTAL_SVG_BYTES {
        OverTotal(p, dropped, source, totals.size);
      } else {
        BuildExactly(p, dropped, source, 1, s);
        var r := Build(p, dropped, source, 1, s).0;
        if r.Built? {
          assert Sanitize(p, dropped, source, totals).0 == Some(WithNamespace(r.node));
        }
      }
    }
  }
}
