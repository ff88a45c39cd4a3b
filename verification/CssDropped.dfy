/** When the filters say that they left something out. */
module CssDropped {
  import opened Text
  import opened CssLexer
  import opened CssGrammar
  import opened CssFilter
  import opened CssSanitizer
  import opened CssTheorems

  // ---- Declarations ----

  function NonBlank(pieces: seq<string>): nat {
    if pieces == [] then 0 else (if Strip(pieces[0]) == "" then 0 else 1) + NonBlank(pieces[1..])
  }

  /** Every piece that is not blank is a good declaration. */
  ghost predicate AllGood(pieces: seq<string>) {
    forall piece :: piece in pieces && Strip(piece) != "" ==> ReadPiece(piece).Good?
  }

  lemma BlankPiece(piece: string)
    ensures ReadPiece(piece).Blank? <==> Strip(piece) == ""
  {
  }

  lemma AllGoodFirst(pieces: seq<string>)
    requires pieces != []
    ensures AllGood(pieces) <==>
            (Strip(pieces[0]) != "" ==> ReadPiece(pieces[0]).Good?) && AllGood(pieces[1..])
  {
    assert pieces[0] in pieces && forall piece :: piece in pieces[1..] ==> piece in pieces;
    assert forall piece :: piece in pieces ==> piece == pieces[0] || piece in pieces[1..];
  }

  /** Something is left out of a rule exactly if some piece is neither blank nor a good declaration, or there are too
      many; otherwise every such piece is kept. */
  lemma {:induction false} DeclsDropped(pieces: seq<string>, already: nat)
    requires already <= MAX_DECLARATIONS_PER_RULE
    ensures var (decls, dropped) := KeepDecls(pieces, already);
            && (dropped <==> !(AllGood(pieces) && already + NonBlank(pieces) <= MAX_DECLARATIONS_PER_RULE))
            && (!dropped ==> |decls| == NonBlank(pieces))
  {
    hide ReadPiece, Strip, AllGood;
    if pieces != [] {
      AllGoodFirst(pieces);
      BlankPiece(pieces[0]);
      match ReadPiece(pieces[0])
      case Blank => DeclsDropped(pieces[1..], already);
      case Good(_) =>
        if already < MAX_DECLARATIONS_PER_RULE {
          DeclsDropped(pieces[1..], already + 1);
        }
      case _ =>
    } else {
      assert AllGood([]) by { NothingBad(); }
    }
  }

  lemma NothingBad()
    ensures AllGood([])
  {
  }

  /** The whole of a `style` attribute is refused exactly if some piece is malformed. */
  lemma {:induction false} AttributeRefused(pieces: seq<string>, already: nat)
    ensures KeepAttribute(pieces, already) == None <==> exists piece :: piece in pieces && ReadPiece(piece).Malformed?
  {
    hide ReadPiece;
    if pieces != [] {
      AttributeRefused(pieces[1..], already);
      AttributeRefused(pieces[1..], already + 1);
      assert forall piece :: piece in pieces <==> piece == pieces[0] || piece in pieces[1..];
    }
  }

  // ---- Blocks ----

  /** Nothing is lost of any block, but for rules that are blank. */
  ghost predicate Whole(items: seq<Item>, depth: nat, inKeyframes: bool)
    requires depth <= MAX_MEDIA_DEPTH
    decreases MAX_MEDIA_DEPTH - depth, |items|
  {
    items != [] ==>
      && items[0].body.Some? && WholeBlock(items[0].prelude, items[0].body.value, depth, inKeyframes)
      && Whole(items[1..], depth, inKeyframes)
  }

  /** What the inside of a group is read as: rules of a `@media`, or stops of `@keyframes`; None for a refused group. */
  function Group(prelude: string, depth: nat, inKeyframes: bool): Option<bool> {
    if inKeyframes then None
    else if MediaCondition(prelude).Some? && depth < MAX_MEDIA_DEPTH then Some(false)
    else if KeyframesName(prelude).Some? && depth == 0 then Some(true)
    else None
  }

  ghost predicate WholeBlock(prelude: string, body: string, depth: nat, inKeyframes: bool)
    requires depth <= MAX_MEDIA_DEPTH
    decreases MAX_MEDIA_DEPTH - depth, 0
  {
    if "@" <= prelude then
      var inside := Group(prelude, depth, inKeyframes);
      inside.Some? && Whole(ParseBlocks(body), depth + 1, inside.value)
    else
      && (if inKeyframes then IsKeyframeSelector(Collapse(prelude)) else IsSelector(Collapse(prelude)))
      && All(body, NotBrace) && AllGood(SplitPieces(body))
      && NonBlank(SplitPieces(body)) <= MAX_DECLARATIONS_PER_RULE
      && (NonBlank(SplitPieces(body)) == 0 ==> Strip(body) == "")
  }

  /** The blocks that are counted: all of them, and those inside the groups that are read. */
  function Blocks(items: seq<Item>, depth: nat, inKeyframes: bool): nat
    requires depth <= MAX_MEDIA_DEPTH
    decreases MAX_MEDIA_DEPTH - depth, |items|
  {
    if items == [] then 0
    else
      (if items[0].body == None then 0 else 1 + Inside(items[0].prelude, items[0].body.value, depth, inKeyframes))
      + Blocks(items[1..], depth, inKeyframes)
  }

  function Inside(prelude: string, body: string, depth: nat, inKeyframes: bool): nat
    requires depth <= MAX_MEDIA_DEPTH
    decreases MAX_MEDIA_DEPTH - depth, 0
  {
    if "@" <= prelude && Group(prelude, depth, inKeyframes).Some? then
      Blocks(ParseBlocks(body), depth + 1, Group(prelude, depth, inKeyframes).value)
    else 0
  }

  lemma {:induction false} CountMore(items: seq<Item>, depth: nat, count: nat, inKeyframes: bool)
    requires depth <= MAX_MEDIA_DEPTH
    ensures CleanItems(items, depth, count, inKeyframes).count >= count
    decreases MAX_MEDIA_DEPTH - depth, |items|
  {
    hide CleanItem;
    if items != [] {
      if items[0].body == None {
        CountMore(items[1..], depth, count, inKeyframes);
      } else if count + 1 <= MAX_RULES {
        var prelude, body := items[0].prelude, items[0].body.value;
        CountMoreOne(prelude, body, depth, count + 1, inKeyframes);
        CountMore(items[1..], depth, CleanItem(prelude, body, depth, count + 1, inKeyframes).count, inKeyframes);
      }
    }
  }

  lemma {:induction false} CountMoreOne(prelude: string, body: string, depth: nat, count: nat, inKeyframes: bool)
    requires depth <= MAX_MEDIA_DEPTH
    ensures CleanItem(prelude, body, depth, count, inKeyframes).count >= count
    decreases MAX_MEDIA_DEPTH - depth, 0
  {
    hide CleanItems, MediaCondition, KeyframesName, IsSelector, IsKeyframeSelector, KeepDecls, SplitPieces, All,
      Collapse;
    if depth < MAX_MEDIA_DEPTH {
      CountMore(ParseBlocks(body), depth + 1, count, false);
      CountMore(ParseBlocks(body), depth + 1, count, true);
    }
  }

  /** As long as the blocks are not too many, something is left out exactly if some block is not whole. */
  lemma {:induction false} ItemsDropped(items: seq<Item>, depth: nat, count: nat, inKeyframes: bool)
    requires depth <= MAX_MEDIA_DEPTH && count <= MAX_RULES
    ensures var c, n := CleanItems(items, depth, count, inKeyframes), count + Blocks(items, depth, inKeyframes);
            && (n <= MAX_RULES ==> c.count == n && (c.dropped <==> !Whole(items, depth, inKeyframes)))
            && (n > MAX_RULES ==> c.count > MAX_RULES && c.dropped)
    decreases MAX_MEDIA_DEPTH - depth, |items|
  {
    hide CleanItem, WholeBlock, Inside;
    if items != [] {
      if items[0].body == None {
        ItemsDropped(items[1..], depth, count, inKeyframes);
      } else if count + 1 <= MAX_RULES {
        var prelude, body := items[0].prelude, items[0].body.value;
        var one := CleanItem(prelude, body, depth, count + 1, inKeyframes);
        BlockDropped(prelude, body, depth, count + 1, inKeyframes);
        CountMore(items[1..], depth, one.count, inKeyframes);
        if one.count <= MAX_RULES {
          ItemsDropped(items[1..], depth, one.count, inKeyframes);
        }
      }
    }
  }

  lemma {:induction false} BlockDropped(prelude: string, body: string, depth: nat, count: nat, inKeyframes: bool)
    requires depth <= MAX_MEDIA_DEPTH && count <= MAX_RULES
    ensures var c := CleanItem(prelude, body, depth, count, inKeyframes);
            var n := count + Inside(prelude, body, depth, inKeyframes);
            && (n <= MAX_RULES ==> c.count == n && (c.dropped <==> !WholeBlock(prelude, body, depth, inKeyframes)))
            && (n > MAX_RULES ==> c.count > MAX_RULES && c.dropped)
    decreases MAX_MEDIA_DEPTH - depth, 0
  {
    hide CleanItems, Whole, Blocks, MediaCondition, KeyframesName, IsSelector, IsKeyframeSelector, KeepDecls,
      SplitPieces, All, Collapse, AllGood, NonBlank, ParseBlocks, Strip;
    if "@" <= prelude {
      var inside := Group(prelude, depth, inKeyframes);
      if inside.Some? {
        ItemsDropped(ParseBlocks(body), depth + 1, count, inside.value);
      }
    } else {
      DeclsDropped(SplitPieces(body), 0);
    }
  }

  // ---- The two filters ----

  /** A sheet that is not refused as a whole is said to be changed exactly if one of its blocks is not whole, its blocks
      are too many, or its last comment has no end. */
  lemma SheetDropped(text: string)
    requires Strip(text) != "" && |text| <= MAX_SHEET_CHARS && All(DeleteComments(text).0, IsAllowedChar)
    ensures var items := ParseBlocks(DeleteComments(text).0);
            Stylesheet(text).1 <==>
            !Whole(items, 0, false) || Blocks(items, 0, false) > MAX_RULES || DeleteComments(text).1
  {
    hide CleanItems, ParseBlocks, Strip, PrintRules, DeleteComments, All, Whole, Blocks;
    ItemsDropped(ParseBlocks(DeleteComments(text).0), 0, 0, false);
  }

  /** A `style` attribute is said to be changed exactly if it is not balanced, holds a brace, a forbidden character or a
      comment without an end, or one of its pieces is neither blank nor a good declaration, or these are too many. */
  lemma AttributeDropped(text: string)
    requires Strip(text) != "" && |text| <= MAX_ATTRIBUTE_CHARS
    ensures var clean := DeleteComments(text);
            StyleAttribute(text).1 <==>
            !(&& !clean.1 && All(clean.0, IsAllowedChar) && All(clean.0, NotBrace) && Balanced(clean.0)
              && AllGood(SplitPieces(clean.0)) && NonBlank(SplitPieces(clean.0)) <= MAX_DECLARATIONS_PER_RULE)
    ensures var clean := DeleteComments(text);
            (exists piece :: piece in SplitPieces(clean.0) && ReadPiece(piece).Malformed?) ==>
              StyleAttribute(text).0 == ""
  {
    hide SplitPieces, KeepAttribute, KeepDecls, Strip, PrintDecls, DeleteComments, All, Balanced, AllGood, NonBlank,
      ReadPiece;
    var pieces := SplitPieces(DeleteComments(text).0);
    AttributeKeeps(pieces, 0);
    AttributeRefused(pieces, 0);
    DeclsDropped(pieces, 0);
    if KeepAttribute(pieces, 0) == None {
      var piece :| piece in pieces && ReadPiece(piece).Malformed?;
      MalformedBad(pieces, piece);
    }
  }

  lemma MalformedBad(pieces: seq<string>, piece: string)
    requires piece in pieces && ReadPiece(piece).Malformed?
    ensures !AllGood(pieces)
  {
    BlankPiece(piece);
    hide ReadPiece, Strip;
  }
}
