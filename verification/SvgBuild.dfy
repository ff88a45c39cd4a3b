/** `_build` and its budgets: the rebuilding of one SVG block. */
module SvgBuild {
  import opened Text
  import opened SvgTree

  const MAX_SVG_BYTES := 256 * 1024
  const MAX_SVG_ELEMENTS := 5000
  const MAX_SVG_DEPTH := 32
  const MAX_TOTAL_SVG_BLOCKS := 1000
  const MAX_TOTAL_SVG_BYTES := 1024 * 1024

  // ---- Budgets ----

  /** What one block has used so far, and what all blocks of the call have used, if that is counted. */
  datatype Spent = Spent(elements: nat, size: nat, total: Option<nat>)

  function Fresh(total: Option<nat>): Spent { Spent(0, 0, total) }

  /** `_Budget.element`. The flag is false when the block is rejected. */
  function AddElement(s: Spent): (Spent, bool) {
    (s.(elements := s.elements + 1), s.elements + 1 <= MAX_SVG_ELEMENTS)
  }

  /** `_Budget.spend`. A block over its own cap is not added to the total. */
  function Spend(s: Spent, amount: nat): (Spent, bool) {
    var t := s.(size := s.size + amount);
    if t.size > MAX_SVG_BYTES then (t, false)
    else
      match s.total
      case None => (t, true)
      case Some(n) => (t.(total := Some(n + amount)), n + amount <= MAX_TOTAL_SVG_BYTES)
  }

  class CallTotals {
    var blocks: nat
    var size: nat

    constructor ()
      ensures blocks == 0 && size == 0
    {
      blocks, size := 0, 0;
    }
  }

  class Budget {
    var elements: nat
    var size: nat
    const totals: CallTotals?

    ghost function State(): Spent
      reads this, totals
    {
      Spent(elements, size, if totals == null then None else Some(totals.size))
    }

    constructor (totals: CallTotals?)
      ensures this.totals == totals
      ensures State() == Fresh(if totals == null then None else Some(totals.size))
    {
      elements, size := 0, 0;
      this.totals := totals;
    }

    method Element() returns (ok: bool)
      modifies this`elements
      ensures (State(), ok) == AddElement(old(State()))
    {
      elements := elements + 1;
      ok := elements <= MAX_SVG_ELEMENTS;
    }

    method SpendBytes(amount: nat) returns (ok: bool)
      modifies this`size, totals
      ensures (State(), ok) == Spend(old(State()), amount)
      ensures totals != null ==> totals.blocks == old(totals.blocks)
    {
      size := size + amount;
      if size > MAX_SVG_BYTES {
        return false;
      }
      if totals != null {
        totals.size := totals.size + amount;
        return totals.size <= MAX_TOTAL_SVG_BYTES;
      }
      return true;
    }
  }

  // ---- Text ----

  /** `_RE_CONTROL`. */
  predicate IsControl(c: char) {
    (c < ' ' && c != '\t' && c != '\n' && c != '\r') || c == '\U{FFFE}' || c == '\U{FFFF}'
  }

  function RemoveControls(s: string): string {
    if s == "" then "" else (if IsControl(s[0]) then "" else [s[0]]) + RemoveControls(s[1..])
  }

  function OrNone(s: string): Option<string> { if s == "" then None else Some(s) }

  function OrEmpty(t: Option<string>): string { if t.Some? then t.value else "" }

  /** `_clean_text`, and the bytes it charges. */
  function CleanText(text: Option<string>, keeps: bool): Option<string> {
    if text == None || text.value == "" then None
    else if keeps then OrNone(RemoveControls(text.value))
    else if Strip(text.value) == "" then Some("\n")
    else None
  }

  function TextCost(clean: Option<string>, keeps: bool): nat {
    if keeps && clean.Some? then |clean.value| else 0
  }

  /** `_join_text`. */
  function JoinText(first: Option<string>, second: string, keeps: bool): string {
    var joined := OrEmpty(first) + second;
    if !keeps && Strip(joined) == "" then "\n" else joined
  }

  // ---- Attributes ----

  /** `clean.set(name, value)`: a name that is already there keeps its place. */
  function SetAttr(attrs: seq<(string, string)>, name: string, value: string): seq<(string, string)> {
    if attrs == [] then [(name, value)]
    else if attrs[0].0 == name then [(name, value)] + attrs[1..]
    else [attrs[0]] + SetAttr(attrs[1..], name, value)
  }

  /** The attribute loop of `_build`; None when the block is rejected. */
  function BuildAttrs(p: Policy, element: string, dropped: set<string>, attrs: seq<(string, string)>,
                      done: seq<(string, string)>, s: Spent): (Option<seq<(string, string)>>, Spent)
    decreases |attrs|
  {
    if attrs == [] then (Some(done), s)
    else
      match KeepAttribute(p, element, dropped, attrs[0].0, attrs[0].1)
      case None => BuildAttrs(p, element, dropped, attrs[1..], done, s)
      case Some(r) =>
        var t := Spend(s, |r.0| + |r.1|);
        if !t.1 then (None, t.0)
        else BuildAttrs(p, element, dropped, attrs[1..], SetAttr(done, StoredName(r.0), r.1), t.0)
  }

  // ---- Elements ----

  datatype Outcome = Rejected | Dropped | Built(node: Node)

  /** What an element has of its text and children while its source children are read. */
  datatype Partial = Partial(text: Option<string>, children: seq<Node>)

  /** Tail text of a dropped child goes to the text or the child before it. */
  function AddTail(part: Partial, tail: string, keeps: bool): Partial {
    if part.children == [] then part.(text := Some(JoinText(part.text, tail, keeps)))
    else
      var n := |part.children| - 1;
      var last := part.children[n];
      part.(children := part.children[..n] + [last.(tail := Some(JoinText(last.tail, tail, keeps)))])
  }

  function Build(p: Policy, dropped: set<string>, source: Node, depth: nat, s: Spent): (Outcome, Spent)
    decreases source, 0
  {
    if depth > MAX_SVG_DEPTH then (Rejected, s)
    else
      var local := SvgLocalName(source.tag);
      if local == None || CanonicalElement(local.value) == None then (Dropped, s)
      else
        var name := CanonicalElement(local.value).value;
        var keeps := name in TEXT_ELEMENTS;
        var s1 := AddElement(s);
        if !s1.1 then (Rejected, s1.0)
        else
          var s2 := Spend(s1.0, |name|);
          if !s2.1 then (Rejected, s2.0)
          else
            var (attrs, s3) := BuildAttrs(p, name, dropped, source.attrs, [], s2.0);
            if attrs == None then (Rejected, s3)
            else
              var text := CleanText(source.text, keeps);
              var s4 := Spend(s3, TextCost(text, keeps));
              if !s4.1 then (Rejected, s4.0)
              else
                var (part, s5) :=
                  BuildChildren(p, dropped, source.children, depth + 1, keeps, Partial(text, []), s4.0);
                if part == None then (Rejected, s5)
                else (Built(Node(Name(name), attrs.value, part.value.text, part.value.children, None)), s5)
  }

  function BuildChildren(p: Policy, dropped: set<string>, sources: seq<Node>, depth: nat, keeps: bool,
                         part: Partial, s: Spent): (Option<Partial>, Spent)
    decreases sources, 1
  {
    if sources == [] then (Some(part), s)
    else
      var (one, s1) := Build(p, dropped, sources[0], depth, s);
      if one.Rejected? then (None, s1)
      else
        var tail := CleanText(sources[0].tail, keeps);
        var s2 := Spend(s1, TextCost(tail, keeps));
        if !s2.1 then (None, s2.0)
        else
          var next :=
            if one.Built? then part.(children := part.children + [one.node.(tail := tail)])
            else if tail.Some? then AddTail(part, tail.value, keeps)
            else part;
          BuildChildren(p, dropped, sources[1..], depth, keeps, next, s2.0)
  }

  /** `_build`. A rejection is the exception `_Rejected`. */
  method BuildElement(p: Policy, dropped: set<string>, source: Node, depth: nat, budget: Budget) returns (r: Outcome)
    modifies budget, budget.totals
    ensures budget.totals != null ==> budget.totals.blocks == old(budget.totals.blocks)
    ensures (r, budget.State()) == Build(p, dropped, source, depth, old(budget.State()))
    decreases source
  {
    hide CanonicalElement, SvgLocalName, KeepAttribute, Spend, AddElement, BuildAttrs, BuildChildren, CleanText,
      TextCost, AddTail;
    if depth > MAX_SVG_DEPTH {
      return Rejected;
    }
    var local := SvgLocalName(source.tag);
    if local == None || CanonicalElement(local.value) == None {
      return Dropped;
    }
    var name := CanonicalElement(local.value).value;
    var ok := budget.Element();
    if !ok {
      return Rejected;
    }
    ok := budget.SpendBytes(|name|);
    if !ok {
      return Rejected;
    }
    var attrs;
    ok, attrs := BuildAttributes(p, name, dropped, source.attrs, budget);
    if !ok {
      return Rejected;
    }
    var keeps := name in TEXT_ELEMENTS;
    var text := CleanText(source.text, keeps);
    ok := budget.SpendBytes(TextCost(text, keeps));
    if !ok {
      return Rejected;
    }
    var children: seq<Node> := [];
    ghost var start := budget.State();
    ghost var first := Partial(text, []);
    assert source.children[0..] == source.children;
    for k := 0 to |source.children|
      invariant budget.totals != null ==> budget.totals.blocks == old(budget.totals.blocks)
      invariant BuildChildren(p, dropped, source.children, depth + 1, keeps, first, start)
             == BuildChildren(p, dropped, source.children[k..], depth + 1, keeps,
                              Partial(text, children), budget.State())
    {
      var child := source.children[k];
      Rest(source.children, k);
      ghost var before := budget.State();
      ghost var part := Partial(text, children);
      var built := BuildElement(p, dropped, child, depth + 1, budget);
      if built.Rejected? {
        ChildStep(p, dropped, source.children[k..], depth + 1, keeps, part, before);
        return Rejected;
      }
      var tail := CleanText(child.tail, keeps);
      ok := budget.SpendBytes(TextCost(tail, keeps));
      ChildStep(p, dropped, source.children[k..], depth + 1, keeps, part, before);
      if !ok {
        return Rejected;
      }
      if built.Built? {
        children := children + [built.node.(tail := tail)];
      } else if tail.Some? {
        var next := AddTail(Partial(text, children), tail.value, keeps);
        text, children := next.text, next.children;
      }
    }
    assert source.children[|source.children|..] == [];
    NoChildren(p, dropped, depth + 1, keeps, Partial(text, children), budget.State());
    return Built(Node(Name(name), attrs, text, children, None));
  }

  /** The recursion of `BuildChildren`, unfolded once. */
  lemma ChildStep(p: Policy, dropped: set<string>, sources: seq<Node>, depth: nat, keeps: bool, part: Partial, s: Spent)
    requires sources != []
    ensures
      var (one, s1) := Build(p, dropped, sources[0], depth, s);
      var tail := CleanText(sources[0].tail, keeps);
      var s2 := Spend(s1, TextCost(tail, keeps));
      var next :=
        if one.Built? then part.(children := part.children + [one.node.(tail := tail)])
        else if tail.Some? then AddTail(part, tail.value, keeps)
        else part;
      BuildChildren(p, dropped, sources, depth, keeps, part, s) ==
      (if one.Rejected? then (None, s1)
       else if !s2.1 then (None, s2.0)
       else BuildChildren(p, dropped, sources[1..], depth, keeps, next, s2.0))
  {
  }

  lemma NoChildren(p: Policy, dropped: set<string>, depth: nat, keeps: bool, part: Partial, s: Spent)
    ensures BuildChildren(p, dropped, [], depth, keeps, part, s) == (Some(part), s)
  {
  }

  method BuildAttributes(p: Policy, element: string, dropped: set<string>, attrs: seq<(string, string)>, budget: Budget)
    returns (ok: bool, done: seq<(string, string)>)
    modifies budget`size, budget.totals
    ensures budget.totals != null ==> budget.totals.blocks == old(budget.totals.blocks)
    ensures var b := BuildAttrs(p, element, dropped, attrs, [], old(budget.State()));
            ok == b.0.Some? && (ok ==> done == b.0.value) && budget.State() == b.1
  {
    hide KeepAttribute, SetAttr, Spend;
    done := [];
    assert attrs[0..] == attrs;
    for k := 0 to |attrs|
      invariant budget.totals != null ==> budget.totals.blocks == old(budget.totals.blocks)
      invariant BuildAttrs(p, element, dropped, attrs, [], old(budget.State()))
             == BuildAttrs(p, element, dropped, attrs[k..], done, budget.State())
    {
      Rest(attrs, k);
      var kept := KeepAttribute(p, element, dropped, attrs[k].0, attrs[k].1);
      if kept.Some? {
        var fits := budget.SpendBytes(|kept.value.0| + |kept.value.1|);
        if !fits {
          return false, done;
        }
        done := SetAttr(done, StoredName(kept.value.0), kept.value.1);
      }
    }
    assert attrs[|attrs|..] == [];
    return true, done;
  }

  // ---- A block ----

  /** The totals of one call: the blocks seen and the bytes charged. */
  datatype Totals = Totals(blocks: nat, size: nat)

  /** `sanitize_svg_element` with totals. */
  function Sanitize(p: Policy, dropped: set<string>, source: Node, totals: Totals): (Option<Node>, Totals) {
    if SvgLocalName(source.tag) != Some("svg") then (None, totals)
    else
      var t := totals.(blocks := totals.blocks + 1);
      if t.blocks > MAX_TOTAL_SVG_BLOCKS then (None, t)
      else
        var (r, s) := Build(p, dropped, source, 1, Fresh(Some(t.size)));
        var after := if s.total.Some? then t.(size := s.total.value) else t;
        if r.Built? then (Some(WithNamespace(r.node)), after) else (None, after)
  }

  function WithNamespace(node: Node): Node {
    node.(attrs := SetAttr(node.attrs, "xmlns", SVG_NS))
  }

  method SanitizeSvgElement(p: Policy, dropped: set<string>, source: Node, totals: CallTotals) returns (r: Option<Node>)
    modifies totals
    ensures (r, Totals(totals.blocks, totals.size))
         == Sanitize(p, dropped, source, Totals(old(totals.blocks), old(totals.size)))
  {
    hide SvgLocalName, Build, WithNamespace;
    if SvgLocalName(source.tag) != Some("svg") {
      return None;
    }
    totals.blocks := totals.blocks + 1;
    if totals.blocks > MAX_TOTAL_SVG_BLOCKS {
      return None;
    }
    var budget := new Budget(totals);
    var built := BuildElement(p, dropped, source, 1, budget);
    if built.Built? {
      return Some(WithNamespace(built.node));
    }
    return None;
  }
}
