/** Taking nodes out of a parent while their tail text stays: one at a time, and all at once. */
module SvgTails {
  import opened Text
  import opened SvgBuild

  // ---- On values ----

  /** A place for character data: the text of the parent, or the tail of a child. An absent text and an empty
      text are the same. */
  datatype Slot<T> = Slot(holder: T, text: string)

  /** All text of a list of slots, in document order. */
  function AllText<T>(slots: seq<Slot<T>>): string {
    if slots == [] then "" else slots[0].text + AllText(slots[1..])
  }

  function Holders<T>(slots: seq<Slot<T>>): seq<T> {
    if slots == [] then [] else [slots[0].holder] + Holders(slots[1..])
  }

  predicate Distinct<T(==)>(items: seq<T>) {
    items != [] ==> items[0] !in items[1..] && Distinct(items[1..])
  }

  /** All of `gone` taken out after `first`, each text going to the nearest slot that stays before it. */
  function RemoveAll<T(==)>(first: Slot<T>, rest: seq<Slot<T>>, gone: set<T>): seq<Slot<T>>
    decreases |rest|
  {
    if rest == [] then [first]
    else if rest[0].holder in gone then RemoveAll(first.(text := first.text + rest[0].text), rest[1..], gone)
    else [first] + RemoveAll(rest[0], rest[1..], gone)
  }

  /** One node taken out after `first`. */
  function RemoveOne<T(==)>(first: Slot<T>, rest: seq<Slot<T>>, node: T): seq<Slot<T>>
    decreases |rest|
  {
    if rest == [] then [first]
    else if rest[0].holder == node then [first.(text := first.text + rest[0].text)] + rest[1..]
    else [first] + RemoveOne(rest[0], rest[1..], node)
  }

  lemma {:induction false} RemoveOneFirst<T>(first: Slot<T>, rest: seq<Slot<T>>, node: T)
    ensures var r := RemoveOne(first, rest, node); r != [] && r[0].holder == first.holder
  {
  }

  /** The nodes of `order` taken out one at a time. */
  function RemoveInOrder<T(==)>(slots: seq<Slot<T>>, order: seq<T>): seq<Slot<T>>
    requires slots != []
    decreases |order|
  {
    if order == [] then slots
    else
      RemoveOneFirst(slots[0], slots[1..], order[0]);
      RemoveInOrder(RemoveOne(slots[0], slots[1..], order[0]), order[1..])
  }

  lemma {:induction false} RemoveNone<T>(first: Slot<T>, rest: seq<Slot<T>>)
    ensures RemoveAll(first, rest, {}) == [first] + rest
    decreases |rest|
  {
    if rest != [] {
      RemoveNone(rest[0], rest[1..]);
      assert rest == [rest[0]] + rest[1..];
    }
  }

  lemma {:induction false} RemoveAbsent<T>(first: Slot<T>, rest: seq<Slot<T>>, gone: set<T>, node: T)
    requires node !in Holders(rest)
    ensures RemoveAll(first, rest, gone) == RemoveAll(first, rest, gone - {node})
    decreases |rest|
  {
    if rest != [] {
      assert rest[0].holder != node;
      assert forall h :: h in Holders(rest[1..]) ==> h in Holders(rest);
      if rest[0].holder in gone {
        RemoveAbsent(first.(text := first.text + rest[0].text), rest[1..], gone, node);
      } else {
        RemoveAbsent(rest[0], rest[1..], gone, node);
      }
    }
  }

  /** Taking one node out first and the others afterwards is taking them all out. */
  lemma {:induction false} RemoveOneThenAll<T>(first: Slot<T>, rest: seq<Slot<T>>, node: T, gone: set<T>)
    requires node in gone && Distinct(Holders(rest))
    ensures var r := RemoveOne(first, rest, node);
            r != [] && RemoveAll(r[0], r[1..], gone - {node}) == RemoveAll(first, rest, gone)
    decreases |rest|
  {
    if rest != [] {
      var h := rest[0].holder;
      assert Holders(rest)[1..] == Holders(rest[1..]);
      if h == node {
        RemoveAbsent(first.(text := first.text + rest[0].text), rest[1..], gone, node);
      } else if h in gone {
        var joined := first.(text := first.text + rest[0].text);
        RemoveOneThenAll(joined, rest[1..], node, gone);
        RemoveOneShift(first, rest[0], rest[1..], node);
        var a := RemoveOne(rest[0], rest[1..], node);
        assert ([first] + a)[1..] == a;
      } else {
        RemoveOneThenAll(rest[0], rest[1..], node, gone);
        var a := RemoveOne(rest[0], rest[1..], node);
        RemoveOneFirst(rest[0], rest[1..], node);
        assert ([first] + a)[1..] == a;
      }
    }
  }

  /** Moving text to an earlier slot and taking a node out can be done in either order. */
  lemma RemoveOneShift<T>(first: Slot<T>, second: Slot<T>, rest: seq<Slot<T>>, node: T)
    ensures var a := RemoveOne(second, rest, node);
            var b := RemoveOne(first.(text := first.text + second.text), rest, node);
            && a != [] && b != [] && a[0].holder == second.holder
            && b == [Slot(first.holder, first.text + a[0].text)] + a[1..]
  {
    if rest != [] && rest[0].holder == node {
      Regroup(first.text, second.text, rest[0].text);
    }
  }

  lemma {:induction false} RemoveOneHolders<T>(first: Slot<T>, rest: seq<Slot<T>>, node: T)
    requires Distinct(Holders([first] + rest)) && node != first.holder
    ensures var r := RemoveOne(first, rest, node);
            && r != [] && Distinct(Holders(r)) && node !in Holders(r)
            && (forall h :: h in Holders(r) <==> h in Holders([first] + rest) && h != node)
    decreases |rest|
  {
    assert ([first] + rest)[1..] == rest && Holders([first] + rest)[1..] == Holders(rest);
    if rest != [] {
      assert rest == [rest[0]] + rest[1..];
      assert Holders(rest)[1..] == Holders(rest[1..]);
      if rest[0].holder == node {
        var joined := first.(text := first.text + rest[0].text);
        assert ([joined] + rest[1..])[1..] == rest[1..];
      } else {
        RemoveOneHolders(rest[0], rest[1..], node);
        var a := RemoveOne(rest[0], rest[1..], node);
        assert ([first] + a)[1..] == a;
        assert Holders([first] + a)[1..] == Holders(a);
      }
    }
  }

  function Elems<T(==)>(s: seq<T>): set<T> { set x | x in s }

  /** Taking any distinct nodes out one at a time, in any order, is taking them all out at once. */
  lemma {:induction false} AnyOrder<T>(slots: seq<Slot<T>>, order: seq<T>)
    requires slots != [] && Distinct(Holders(slots)) && Distinct(order) && slots[0].holder !in order
    ensures RemoveInOrder(slots, order) == RemoveAll(slots[0], slots[1..], Elems(order))
    decreases |order|
  {
    if order == [] {
      RemoveNone(slots[0], slots[1..]);
      assert slots == [slots[0]] + slots[1..];
      assert Elems(order) == {};
    } else {
      var node := order[0];
      assert slots == [slots[0]] + slots[1..];
      assert Holders(slots)[1..] == Holders(slots[1..]);
      RemoveOneFirst(slots[0], slots[1..], node);
      RemoveOneHolders(slots[0], slots[1..], node);
      var next := RemoveOne(slots[0], slots[1..], node);
      AnyOrder(next, order[1..]);
      assert Elems(order) - {node} == Elems(order[1..]);
      RemoveOneThenAll(slots[0], slots[1..], node, Elems(order));
    }
  }

  function Without<T(==)>(items: seq<T>, gone: set<T>): seq<T> {
    if items == [] then [] else (if items[0] in gone then [] else [items[0]]) + Without(items[1..], gone)
  }

  lemma HoldersStep<T>(first: Slot<T>, rest: seq<Slot<T>>)
    ensures Holders([first] + rest) == [first.holder] + Holders(rest)
    ensures AllText([first] + rest) == first.text + AllText(rest)
  {
    assert ([first] + rest)[1..] == rest;
  }

  lemma WithoutStep<T>(first: T, rest: seq<T>, gone: set<T>)
    ensures Without([first] + rest, gone) == (if first in gone then [] else [first]) + Without(rest, gone)
  {
    assert ([first] + rest)[1..] == rest;
  }

  /** Exactly the other nodes stay, in their order, and the text of the parent is what it was. */
  lemma {:induction false} RemoveAllKeeps<T>(first: Slot<T>, rest: seq<Slot<T>>, gone: set<T>)
    ensures Holders(RemoveAll(first, rest, gone)) == [first.holder] + Without(Holders(rest), gone)
    ensures AllText(RemoveAll(first, rest, gone)) == first.text + AllText(rest)
    decreases |rest|
  {
    if rest == [] {
      assert [first][1..] == [];
    } else {
      var next, more := rest[0], rest[1..];
      assert rest == [next] + more;
      hide Holders, AllText, Without;
      HoldersStep(next, more);
      WithoutStep(next.holder, Holders(more), gone);
      Regroup(first.text, next.text, AllText(more));
      if next.holder in gone {
        RemoveAllKeeps(first.(text := first.text + next.text), more, gone);
        Regroup(Without(Holders(more), gone), [], []);
      } else {
        RemoveAllKeeps(next, more, gone);
        HoldersStep(first, RemoveAll(next, more, gone));
      }
    }
  }

  // ---- On elements ----

  class Element {
    var text: Option<string>
    var tail: Option<string>
    var children: seq<Element>
  }

  function Tails(nodes: seq<Element>): seq<Slot<Element>>
    reads nodes`tail
  {
    if nodes == [] then [] else [Slot(nodes[0], OrEmpty(nodes[0].tail))] + Tails(nodes[1..])
  }

  function Front(parent: Element): Slot<Element>
    reads parent`text
  {
    Slot(parent, OrEmpty(parent.text))
  }

  /** The character data of a parent: its own text, then the tail of each child. */
  function View(parent: Element): seq<Slot<Element>>
    reads parent`text, parent`children, parent.children`tail
  {
    [Front(parent)] + Tails(parent.children)
  }

  predicate Proper(parent: Element)
    reads parent`children
  {
    Distinct([parent] + parent.children)
  }

  lemma {:induction false} TailsAppend(a: seq<Element>, b: seq<Element>)
    ensures Tails(a + b) == Tails(a) + Tails(b)
  {
    if a == [] {
      assert a + b == b;
    } else {
      assert (a + b)[1..] == a[1..] + b;
      TailsAppend(a[1..], b);
    }
  }

  lemma {:induction false} TailHolders(nodes: seq<Element>)
    ensures Holders(Tails(nodes)) == nodes
  {
    if nodes != [] {
      TailHolders(nodes[1..]);
      assert nodes == [nodes[0]] + nodes[1..];
    }
  }

  lemma {:induction false} DistinctParts<T>(a: seq<T>, b: seq<T>)
    ensures Distinct(a + b) <==> Distinct(a) && Distinct(b) && forall x :: x in a ==> x !in b
  {
    if a == [] {
      assert a + b == b;
    } else {
      assert (a + b)[1..] == a[1..] + b;
      DistinctParts(a[1..], b);
      assert forall x :: x in a <==> x == a[0] || x in a[1..];
    }
  }

  lemma DistinctAt<T>(s: seq<T>, k: nat)
    requires Distinct(s) && k < |s|
    ensures s[k] !in s[..k] && s[k] !in s[k + 1..] && Distinct(s[k..])
    ensures forall x :: x in s[..k] ==> x !in s[k..]
  {
    assert s == s[..k] + s[k..] && s[k..] == [s[k]] + s[k + 1..];
    DistinctParts(s[..k], s[k..]);
    DistinctParts([s[k]], s[k + 1..]);
  }

  lemma {:induction false} WithoutDistinct<T>(items: seq<T>, gone: set<T>)
    requires Distinct(items)
    ensures Distinct(Without(items, gone)) && forall x :: x in Without(items, gone) <==> x in items && x !in gone
  {
    if items != [] {
      WithoutDistinct(items[1..], gone);
      var rest := Without(items[1..], gone);
      assert [] + rest == rest && ([items[0]] + rest)[1..] == rest;
    }
  }

  lemma {:induction false} WithoutAppend<T>(items: seq<T>, last: T, gone: set<T>)
    ensures Without(items + [last], gone) == Without(items, gone) + (if last in gone then [] else [last])
    ensures forall x :: x in Without(items, gone) ==> x in items
  {
    if items == [] {
      assert items + [last] == [last] && [last][1..] == [];
    } else {
      assert (items + [last])[1..] == items[1..] + [last];
      WithoutAppend(items[1..], last, gone);
      Regroup(if items[0] in gone then [] else [items[0]], Without(items[1..], gone),
              if last in gone then [] else [last]);
    }
  }

  /** `list.remove`: the first occurrence of `e` taken out. */
  function RemovedFrom(children: seq<Element>, e: Element): seq<Element> {
    if children == [] then []
    else if children[0] == e then children[1..]
    else [children[0]] + RemovedFrom(children[1..], e)
  }

  lemma {:induction false} RemovedAt(a: seq<Element>, e: Element, b: seq<Element>)
    requires e !in a
    ensures RemovedFrom(a + ([e] + b), e) == a + b
  {
    var s := a + ([e] + b);
    if a != [] {
      assert s[1..] == a[1..] + ([e] + b);
      RemovedAt(a[1..], e, b);
    } else {
      assert s[1..] == b;
    }
  }

  /** `_store_text`. */
  method StoreText(parent: Element, holder: Element?, pieces: seq<string>)
    modifies (if holder == null then {parent} else {})`text
    modifies (if holder == null then {} else {holder})`tail
    ensures holder == null ==> OrEmpty(parent.text) == Join(pieces, "")
    ensures holder != null ==> OrEmpty(holder.tail) == Join(pieces, "")
  {
    var text := OrNone(Join(pieces, ""));
    if holder == null {
      parent.text := text;
    } else {
      holder.tail := text;
    }
  }

  lemma RemoveAllStep<T>(first: Slot<T>, next: Slot<T>, rest: seq<Slot<T>>, gone: set<T>)
    ensures RemoveAll(first, [next] + rest, gone) ==
            (if next.holder in gone then RemoveAll(first.(text := first.text + next.text), rest, gone)
             else [first] + RemoveAll(next, rest, gone))
  {
    assert ([next] + rest)[1..] == rest;
  }

  /** The slots that are stored, and the one that is still open. */
  function Open<T(==)>(done: seq<Slot<T>>, current: Slot<T>, rest: seq<Slot<T>>, gone: set<T>): seq<Slot<T>> {
    done + RemoveAll(current, rest, gone)
  }

  lemma OpenStep<T>(done: seq<Slot<T>>, current: Slot<T>, next: Slot<T>, rest: seq<Slot<T>>, gone: set<T>)
    ensures Open(done, current, [next] + rest, gone) ==
            (if next.holder in gone then Open(done, current.(text := current.text + next.text), rest, gone)
             else Open(done + [current], next, rest, gone))
  {
    hide RemoveAll;
    RemoveAllStep(current, next, rest, gone);
    Regroup(done, [current], RemoveAll(next, rest, gone));
  }

  lemma TailsStep(child: Element, rest: seq<Element>)
    ensures Tails([child] + rest) == [Slot(child, OrEmpty(child.tail))] + Tails(rest)
  {
    assert ([child] + rest)[1..] == rest;
  }

  /** One child that goes. */
  lemma GoneChild(kids: seq<Element>, k: nat, gone: set<Element>)
    requires Distinct(kids) && k < |kids| && kids[k] in gone
    ensures Without(kids[..k + 1], gone) == Without(kids[..k], gone)
    ensures RemovedFrom(Without(kids[..k], gone) + kids[k..], kids[k]) == Without(kids[..k + 1], gone) + kids[k + 1..]
  {
    hide Distinct, Without, RemovedFrom;
    var front := Without(kids[..k], gone);
    CutAt(kids, k);
    DistinctAt(kids, k);
    WithoutAppend(kids[..k], kids[k], gone);
    Regroup(front, [], []);
    WithoutDistinct(kids[..k], gone) by { DistinctParts(kids[..k], kids[k..]); }
    RemovedAt(front, kids[k], kids[k + 1..]);
  }

  /** One child that stays. */
  lemma KeptChild(kids: seq<Element>, k: nat, gone: set<Element>)
    requires Distinct(kids) && k < |kids| && kids[k] !in gone
    ensures Without(kids[..k + 1], gone) == Without(kids[..k], gone) + [kids[k]]
    ensures Without(kids[..k], gone) + kids[k..] == Without(kids[..k + 1], gone) + kids[k + 1..]
    ensures Distinct(Without(kids[..k], gone))
    ensures forall x :: x in Without(kids[..k], gone) ==> x in kids && x != kids[k] && x !in kids[k + 1..]
  {
    hide Distinct, Without;
    CutAt(kids, k);
    DistinctAt(kids, k);
    WithoutAppend(kids[..k], kids[k], gone);
    DistinctParts(kids[..k], kids[k..]);
    WithoutDistinct(kids[..k], gone);
    Regroup(Without(kids[..k], gone), [kids[k]], kids[k + 1..]);
  }

  /** What is still to do, at one child. */
  lemma OpenAt(done: seq<Slot<Element>>, current: Slot<Element>, kids: seq<Element>, k: nat, gone: set<Element>)
    requires k < |kids|
    ensures var text, rest := OrEmpty(kids[k].tail), Tails(kids[k + 1..]);
            Open(done, current, Tails(kids[k..]), gone) ==
            (if kids[k] in gone then Open(done, current.(text := current.text + text), rest, gone)
             else Open(done + [current], Slot(kids[k], text), rest, gone))
  {
    hide Open, Tails, OrEmpty;
    CutAt(kids, k);
    TailsStep(kids[k], kids[k + 1..]);
    OpenStep(done, current, Slot(kids[k], OrEmpty(kids[k].tail)), Tails(kids[k + 1..]), gone);
  }

  lemma CutAt<T>(s: seq<T>, k: nat)
    requires k < |s|
    ensures s == s[..k] + s[k..] && s[..k + 1] == s[..k] + [s[k]] && s[k..] == [s[k]] + s[k + 1..]
  {
  }

  lemma LastApart<T>(stored: seq<T>, last: T)
    requires Distinct(stored + [last])
    ensures last !in stored
  {
    DistinctParts(stored, [last]);
  }

  /** What is stored: the text of the parent, then the tails of the nodes before the open one. */
  ghost predicate Stored(parent: Element, stored: seq<Element>, done: seq<Slot<Element>>)
    reads parent`text, stored`tail
  {
    done == [Front(parent)] + Tails(stored)
  }

  lemma FirstStored(parent: Element)
    ensures Stored(parent, [], [] + [Front(parent)])
  {
  }

  /** Storing the open slot. */
  lemma StoredMore(parent: Element, stored: seq<Element>, last: Element, done: seq<Slot<Element>>)
    requires Stored(parent, stored, done)
    ensures Stored(parent, stored + [last], done + [Slot(last, OrEmpty(last.tail))])
  {
    TailsAppend(stored, [last]);
    assert [last][1..] == [];
    Regroup([Front(parent)], Tails(stored), [Slot(last, OrEmpty(last.tail))]);
  }

  /** `_store_text` of the open slot, with what is stored then. */
  method StoreSlot(parent: Element, holder: Element?, pieces: seq<string>, ghost stored: seq<Element>,
                   ghost done: seq<Slot<Element>>, ghost current: Slot<Element>) returns (ghost more: seq<Element>)
    requires current.text == Join(pieces, "")
    requires holder == null ==> current.holder == parent && stored == [] && done == []
    requires holder != null ==> holder == current.holder && holder !in stored && Stored(parent, stored, done)
    modifies (if holder == null then {parent} else {})`text
    modifies (if holder == null then {} else {holder})`tail
    ensures more == if holder == null then [] else stored + [current.holder]
    ensures Stored(parent, more, done + [current])
  {
    hide Join, OrEmpty, Tails;
    StoreText(parent, holder, pieces);
    if holder == null {
      FirstStored(parent);
      more := [];
    } else {
      hide Stored;
      StoredMore(parent, stored, current.holder, done);
      more := stored + [current.holder];
    }
  }

  /** `_remove_keeping_tails` takes all of `comments` out at once. */
  method RemoveKeepingTails(parent: Element, comments: set<Element>)
    requires Proper(parent)
    modifies parent`text, parent`children, parent.children`tail
    ensures View(parent) == RemoveAll(old(Front(parent)), old(Tails(parent.children)), comments)
    ensures parent.children == Without(old(parent.children), comments)
  {
    hide Distinct, Without, RemovedFrom, RemoveAll, Join, Open, Tails, OrEmpty, Stored;
    var kids := parent.children;
    assert Distinct(kids) by { DistinctParts<Element>([parent], kids); }
    var pieces := [OrEmpty(parent.text)];
    var holder: Element? := null;
    ghost var all := RemoveAll(Front(parent), Tails(kids), comments);
    ghost var stored: seq<Element>, done: seq<Slot<Element>> := [], [];
    ghost var current := Front(parent);
    Start(parent, kids, comments);
    for k := 0 to |kids|
      invariant parent.children == Without(kids[..k], comments) + kids[k..]
      invariant holder == null ==>
                  Without(kids[..k], comments) == [] && current.holder == parent && stored == [] && done == []
      invariant holder != null ==> holder == current.holder && Without(kids[..k], comments) == stored + [current.holder]
      invariant holder != null ==> holder in kids
      invariant pieces != [] && current.text == Join(pieces, "")
      invariant holder != null ==> Stored(parent, stored, done)
      invariant all == Open(done, current, Tails(kids[k..]), comments)
    {
      var child := kids[k];
      ghost var next := Slot(child, OrEmpty(child.tail));
      OpenAt(done, current, kids, k, comments);
      if child in comments {
        GoneChild(kids, k, comments);
        JoinMore(pieces, OrEmpty(child.tail));
        pieces := pieces + [OrEmpty(child.tail)];
        current := current.(text := current.text + next.text);
        parent.children := RemovedFrom(parent.children, child);
      } else {
        KeptChild(kids, k, comments);
        if holder != null {
          LastApart(stored, current.holder);
          assert holder in Without(kids[..k], comments);
        }
        stored := StoreSlot(parent, holder, pieces, stored, done, current);
        done := done + [current];
        holder := child;
        pieces := [OrEmpty(child.tail)];
        current := next;
        JoinOne(OrEmpty(child.tail));
      }
    }
    Start(parent, kids, comments);
    Regroup(Without(kids, comments), [], []);
    assert parent.children == Without(kids, comments);
    if holder != null {
      WithoutDistinct(kids, comments);
      LastApart(stored, current.holder);
    }
    OpenLast(done, current, comments);
    stored := StoreSlot(parent, holder, pieces, stored, done, current);
    StoredView(parent, stored, done + [current]);
  }

  lemma StoredView(parent: Element, stored: seq<Element>, done: seq<Slot<Element>>)
    requires Stored(parent, stored, done) && parent.children == stored
    ensures View(parent) == done
  {
  }

  lemma OpenLast<T>(done: seq<Slot<T>>, current: Slot<T>, gone: set<T>)
    ensures Open(done, current, [], gone) == done + [current]
  {
  }

  lemma Start(parent: Element, kids: seq<Element>, comments: set<Element>)
    ensures kids[0..] == kids[..|kids|] == kids && kids[..0] == [] == kids[|kids|..]
    ensures Without<Element>([], comments) == [] && Tails([]) == []
    ensures Join([OrEmpty(parent.text)], "") == OrEmpty(parent.text)
    ensures RemoveAll(Front(parent), Tails(kids), comments) == Open([], Front(parent), Tails(kids), comments)
  {
  }

  lemma JoinMore(pieces: seq<string>, piece: string)
    requires pieces != []
    ensures Join(pieces + [piece], "") == Join(pieces, "") + piece
  {
    JoinAppend(pieces, piece, "");
  }

  lemma JoinOne(piece: string)
    ensures Join([piece], "") == piece
  {
  }

  /** The text of the first child goes to the text of the parent. */
  lemma RemoveOneHead<T>(first: Slot<T>, node: Slot<T>, b: seq<Slot<T>>)
    ensures RemoveOne(first, [node] + b, node.holder) == [first.(text := first.text + node.text)] + b
  {
    assert ([node] + b)[1..] == b;
  }

  /** The text of any other child goes to the child before it. */
  lemma {:induction false} RemoveOneAfter<T>(first: Slot<T>, a: seq<Slot<T>>, prev: Slot<T>, node: Slot<T>,
                                             b: seq<Slot<T>>)
    requires node.holder !in Holders(a) && node.holder != prev.holder
    ensures RemoveOne(first, a + ([prev] + ([node] + b)), node.holder) ==
            [first] + (a + ([prev.(text := prev.text + node.text)] + b))
    decreases |a|
  {
    var s := a + ([prev] + ([node] + b));
    if a == [] {
      assert s[1..] == [node] + b && s[0] == prev;
      RemoveOneHead(prev, node, b);
      Regroup<Slot<T>>([], [prev.(text := prev.text + node.text)] + b, []);
    } else {
      assert s[1..] == a[1..] + ([prev] + ([node] + b)) && s[0] == a[0];
      assert forall h :: h in Holders(a[1..]) ==> h in Holders(a);
      RemoveOneAfter(a[0], a[1..], prev, node, b);
      var tail := [prev.(text := prev.text + node.text)] + b;
      assert [a[0]] + (a[1..] + tail) == a + tail;
    }
  }

  /** The tails of the children around one of them. */
  lemma TailsAround(a: seq<Element>, e: Element, b: seq<Element>)
    ensures Tails(a + ([e] + b)) == Tails(a) + ([Slot(e, OrEmpty(e.tail))] + Tails(b))
  {
    TailsAppend(a, [e] + b);
    TailsStep(e, b);
  }

  lemma DropFirst(parent: Element, kids: seq<Element>)
    requires kids != []
    ensures var tail := OrEmpty(kids[0].tail);
            && RemovedFrom(kids, kids[0]) == kids[1..]
            && RemoveOne(Front(parent), Tails(kids), kids[0]) ==
               [Slot(parent, OrEmpty(parent.text) + tail)] + Tails(kids[1..])
  {
    TailsStep(kids[0], kids[1..]);
    assert kids == [kids[0]] + kids[1..];
    RemoveOneHead(Front(parent), Slot(kids[0], OrEmpty(kids[0].tail)), Tails(kids[1..]));
  }

  lemma DropLater(parent: Element, kids: seq<Element>, k: nat)
    requires Distinct(kids) && 0 < k < |kids|
    ensures var front, prev, e, b := kids[..k - 1], kids[k - 1], kids[k], kids[k + 1..];
            && RemovedFrom(kids, e) == front + ([prev] + b)
            && prev !in front && prev !in b
            && RemoveOne(Front(parent), Tails(kids), e) ==
               [Front(parent)] + (Tails(front) + ([Slot(prev, OrEmpty(prev.tail) + OrEmpty(e.tail))] + Tails(b)))
  {
    hide Distinct, RemovedFrom, RemoveOne, Tails, Holders, OrEmpty;
    var front, prev, e, b := kids[..k - 1], kids[k - 1], kids[k], kids[k + 1..];
    DistinctAt(kids, k);
    DistinctAt(kids, k - 1);
    assert kids[..k] == front + [prev] && kids[k..] == [e] + b;
    assert kids == front + [prev] + ([e] + b);
    RemovedAt(front + [prev], e, b);
    Regroup(front, [prev], b);
    Regroup(front, [prev], [e] + b);
    TailsAround(front, prev, [e] + b);
    TailsStep(e, b);
    TailHolders(front);
    RemoveOneAfter(Front(parent), Tails(front), Slot(prev, OrEmpty(prev.tail)), Slot(e, OrEmpty(e.tail)), Tails(b));
  }

  /** `_drop_keeping_tail` takes one child out. */
  method DropKeepingTail(parent: Element?, element: Element)
    requires parent != null ==> Proper(parent) && element in parent.children
    modifies (if parent == null then {} else {parent})`text, (if parent == null then {} else {parent})`children
    modifies (if parent == null then {} else Elems(parent.children))`tail
    ensures parent != null ==>
              && View(parent) == RemoveOne(old(Front(parent)), old(Tails(parent.children)), element)
              && parent.children == RemovedFrom(old(parent.children), element)
  {
    hide Distinct, RemovedFrom, RemoveOne, Tails, Holders;
    if parent == null {
      return;
    }
    var tail := OrEmpty(element.tail);
    var kids := parent.children;
    assert Distinct(kids) && parent !in kids by { DistinctParts<Element>([parent], kids); }
    var k := 0;
    assert kids[0..] == kids;
    while kids[k] != element
      invariant 0 <= k < |kids| && element in kids[k..]
      decreases |kids| - k
    {
      assert kids[k..] == [kids[k]] + kids[k + 1..];
      k := k + 1;
    }
    GiveTail(parent, kids, k, tail);
    parent.children := RemovedFrom(kids, element);
  }

  /** The tail of the child at `k` goes to the text before it. */
  method GiveTail(parent: Element, kids: seq<Element>, k: nat, tail: string)
    requires Distinct(kids) && parent !in kids && k < |kids| && tail == OrEmpty(kids[k].tail)
    modifies parent`text, kids`tail
    ensures [Front(parent)] + Tails(RemovedFrom(kids, kids[k]))
            == RemoveOne(old(Front(parent)), old(Tails(kids)), kids[k])
  {
    hide Distinct, RemovedFrom, RemoveOne, Tails, Holders;
    if k == 0 {
      DropFirst(parent, kids);
      Regroup(OrEmpty(parent.text), [], []);
      if tail != "" {
        parent.text := Some(OrEmpty(parent.text) + tail);
      }
    } else {
      var previous := kids[k - 1];
      DropLater(parent, kids, k);
      Regroup(OrEmpty(previous.tail), [], []);
      if tail != "" {
        previous.tail := Some(OrEmpty(previous.tail) + tail);
      }
      TailsAround(kids[..k - 1], previous, kids[k + 1..]);
    }
  }
}
