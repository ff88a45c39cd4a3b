/** Which placeholders of a cleaned document are filled: an exact description of the reattachment, for any cleaner. */
module SvgReattach {
  import opened Text
  import opened SvgTree
  import opened SvgBuild
  import opened SvgDocument

  /** A placeholder of a document, and whether a blocked context is above it. */
  datatype Mark = Mark(index: nat, blocked: bool)

  /** The placeholders below a node, in document order. */
  function MarksOf(n: Node, blocked: bool): seq<Mark>
    decreases n, 1
  {
    match n.tag
    case Comment(Some(index)) => [Mark(index, blocked)]
    case _ => MarksBelow(n, blocked)
  }

  function MarksBelow(n: Node, blocked: bool): seq<Mark>
    decreases n, 0
  {
    MarksIn(n.children, blocked || IsBlocked(n.tag))
  }

  function MarksIn(nodes: seq<Node>, blocked: bool): seq<Mark>
    decreases nodes, 2
  {
    if nodes == [] then [] else MarksOf(nodes[0], blocked) + MarksIn(nodes[1..], blocked)
  }

  /** What stands for each placeholder in turn. */
  function Choices(marks: seq<Mark>, stash: Stash): seq<Option<Node>> {
    if marks == [] then []
    else
      var m := marks[0];
      [if m.blocked || m.index !in stash then None else stash[m.index]] + Choices(marks[1..], stash - {m.index})
  }

  function Left(marks: seq<Mark>, stash: Stash): Stash {
    if marks == [] then stash else Left(marks[1..], stash - {marks[0].index})
  }

  /** Each placeholder of a document replaced by its choice, or removed with its tail text kept. */
  function PutKid(n: Node, choices: seq<Option<Node>>): Kid
    requires |choices| == |MarksOf(n, false)|
    decreases n, 1
  {
    match n.tag
    case Comment(Some(_)) =>
      if choices[0] == None then Goes(n.tail) else Stays(choices[0].value.(tail := n.tail))
    case _ => Stays(PutBelow(n, choices))
  }

  function PutBelow(n: Node, choices: seq<Option<Node>>): Node
    requires |choices| == |MarksBelow(n, false)|
    decreases n, 0
  {
    MarkCount(n.children, false, IsBlocked(n.tag));
    Settle(n, PutIn(n.children, choices))
  }

  function PutIn(nodes: seq<Node>, choices: seq<Option<Node>>): seq<Kid>
    requires |choices| == |MarksIn(nodes, false)|
    decreases nodes, 2
  {
    if nodes == [] then []
    else
      var k := |MarksOf(nodes[0], false)|;
      [PutKid(nodes[0], choices[..k])] + PutIn(nodes[1..], choices[k..])
  }

  lemma {:induction false} MarkCountOf(n: Node, a: bool, b: bool)
    ensures |MarksOf(n, a)| == |MarksOf(n, b)|
    decreases n, 1
  {
    hide IsBlocked;
    MarkCount(n.children, a || IsBlocked(n.tag), b || IsBlocked(n.tag));
  }

  lemma {:induction false} MarkCount(nodes: seq<Node>, a: bool, b: bool)
    ensures |MarksIn(nodes, a)| == |MarksIn(nodes, b)|
    decreases nodes, 2
  {
    if nodes != [] {
      MarkCountOf(nodes[0], a, b);
      MarkCount(nodes[1..], a, b);
    }
  }

  lemma {:induction false} ChoicesConcat(a: seq<Mark>, b: seq<Mark>, stash: Stash)
    ensures |Choices(a, stash)| == |a|
    ensures Choices(a + b, stash) == Choices(a, stash) + Choices(b, Left(a, stash))
    ensures Left(a + b, stash) == Left(b, Left(a, stash))
    decreases |a|
  {
    if a == [] {
      assert a + b == b;
    } else {
      var rest := stash - {a[0].index};
      assert (a + b)[1..] == a[1..] + b && (a + b)[0] == a[0];
      ChoicesConcat(a[1..], b, rest);
      Regroup([Choices(a, stash)[0]], Choices(a[1..], rest), Choices(b, Left(a[1..], rest)));
    }
  }

  lemma ChoicesLength(a: seq<Mark>, stash: Stash)
    ensures |Choices(a, stash)| == |a|
  {
    ChoicesConcat(a, [], stash);
  }

  /** The swap is the replacement of every placeholder by its choice. */
  lemma {:induction false} SwapIsPut(n: Node, stash: Stash, blocked: bool)
    ensures |Choices(MarksBelow(n, blocked), stash)| == |MarksBelow(n, false)|
    ensures SwapNode(n, stash, blocked) ==
            (PutBelow(n, Choices(MarksBelow(n, blocked), stash)), Left(MarksBelow(n, blocked), stash))
    decreases n, 0
  {
    hide IsBlocked, Settle, Choices, Left, MarksIn, SwapKids, PutIn;
    SwapKidsIsPut(n.children, stash, blocked || IsBlocked(n.tag));
    MarkCount(n.children, false, IsBlocked(n.tag));
  }

  lemma {:induction false} SwapKidIsPut(n: Node, stash: Stash, blocked: bool)
    ensures |Choices(MarksOf(n, blocked), stash)| == |MarksOf(n, false)|
    ensures SwapKid(n, stash, blocked) ==
            (PutKid(n, Choices(MarksOf(n, blocked), stash)), Left(MarksOf(n, blocked), stash))
    decreases n, 1
  {
    hide IsBlocked, SwapNode, MarksBelow, PutBelow;
    if n.tag.Comment? && n.tag.mark.Some? {
      OneChoice(Mark(n.tag.mark.value, blocked), stash);
    } else {
      SwapIsPut(n, stash, blocked);
    }
  }

  lemma OneChoice(m: Mark, stash: Stash)
    ensures Choices([m], stash) == [if m.blocked || m.index !in stash then None else stash[m.index]]
    ensures Left([m], stash) == stash - {m.index}
  {
    assert [m][1..] == [];
  }

  lemma {:induction false} SwapKidsIsPut(nodes: seq<Node>, stash: Stash, blocked: bool)
    ensures |Choices(MarksIn(nodes, blocked), stash)| == |MarksIn(nodes, false)|
    ensures SwapKids(nodes, stash, blocked) ==
            (PutIn(nodes, Choices(MarksIn(nodes, blocked), stash)), Left(MarksIn(nodes, blocked), stash))
    decreases nodes, 2
  {
    hide SwapKid, MarksOf, PutKid;
    MarkCount(nodes, blocked, false);
    ChoicesLength(MarksIn(nodes, blocked), stash);
    if nodes != [] {
      var a, b := MarksOf(nodes[0], blocked), MarksIn(nodes[1..], blocked);
      SwapKidIsPut(nodes[0], stash, blocked);
      SwapKidsIsPut(nodes[1..], Left(a, stash), blocked);
      ChoicesConcat(a, b, stash);
      var c, d := Choices(a, stash), Choices(b, Left(a, stash));
      assert (c + d)[..|c|] == c && (c + d)[|c|..] == d;
    }
  }

  /** Whether the block of mark `k` has not been asked for before. */
  predicate FirstAsked(marks: seq<Mark>, k: nat)
    requires k < |marks|
  {
    forall j :: 0 <= j < k ==> marks[j].index != marks[k].index
  }

  /** A placeholder gets its block exactly if no blocked context is above it and no placeholder before it, blocked or
      not, had the same number. */
  lemma {:induction false} ChoiceAt(marks: seq<Mark>, stash: Stash, k: nat)
    requires k < |marks|
    ensures |Choices(marks, stash)| == |marks|
    ensures Choices(marks, stash)[k] ==
            (if !marks[k].blocked && marks[k].index in stash && FirstAsked(marks, k)
             then stash[marks[k].index] else None)
  {
    ChoicesLength(marks, stash);
    if k > 0 {
      var rest := stash - {marks[0].index};
      ChoiceAt(marks[1..], rest, k - 1);
      assert marks[1..][k - 1] == marks[k];
      assert FirstAsked(marks, k) <==> marks[0].index != marks[k].index && FirstAsked(marks[1..], k - 1) by {
        assert forall j :: 0 < j < k ==> marks[j] == marks[1..][j - 1];
        assert forall j :: 0 <= j < k - 1 ==> marks[1..][j] == marks[j + 1];
      }
    }
  }

  /** For any cleaner, the reattached document is the cleaned one with each placeholder filled or removed: it is
      filled if and only if its block was validated, it lies under no blocked context, and it is the first with its
      number. */
  lemma ReattachExactly(cleaned: Node, blocks: seq<Option<Node>>)
    ensures var marks := MarksBelow(cleaned, false);
            var choices := Choices(marks, StashFrom(blocks, 0));
            && |choices| == |marks| && Reattach(cleaned, blocks) == PutBelow(cleaned, choices)
            && (forall k :: 0 <= k < |marks| ==>
                  choices[k] ==
                  (if !marks[k].blocked && marks[k].index < |blocks| && FirstAsked(marks, k) then blocks[marks[k].index]
                   else None))
  {
    hide Choices, PutBelow, SwapNode, MarksBelow, FirstAsked;
    var marks := MarksBelow(cleaned, false);
    var choices := Choices(marks, StashFrom(blocks, 0));
    SwapIsPut(cleaned, StashFrom(blocks, 0), false);
    ChoicesLength(marks, StashFrom(blocks, 0));
    forall k | 0 <= k < |marks|
      ensures choices[k] ==
              (if !marks[k].blocked && marks[k].index < |blocks| && FirstAsked(marks, k)
               then blocks[marks[k].index] else None)
    {
      ChoiceAt(marks, StashFrom(blocks, 0), k);
    }
  }

  /** No block is put back twice. */
  lemma PutBackOnce(cleaned: Node, blocks: seq<Option<Node>>, j: nat, k: nat)
    requires j < k < |MarksBelow(cleaned, false)|
    requires MarksBelow(cleaned, false)[j].index == MarksBelow(cleaned, false)[k].index
    ensures var choices := Choices(MarksBelow(cleaned, false), StashFrom(blocks, 0));
            |choices| == |MarksBelow(cleaned, false)| && choices[k] == None
  {
    hide Choices, MarksBelow;
    ChoiceAt(MarksBelow(cleaned, false), StashFrom(blocks, 0), k);
  }
}
