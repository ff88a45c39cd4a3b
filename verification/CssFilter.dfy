/** The member stylesheet filter: `_clean_declarations`, `_clean_rules`, `sanitize_stylesheet` and
    `sanitize_style_attribute`. Each loop is proved against a function that says which syntax tree
    is kept; the text the loop builds is that tree, printed. */
module CssFilter {
  import opened Text
  import opened CssLexer
  import opened CssGrammar

  // ---- Declarations ----

  /** The pieces of a rule body between the semicolons outside strings and parentheses. */
  function SplitPieces(s: string): seq<string>
    decreases |s|
  {
    if s == "" then []
    else
      var end := ScanLen(OUTSIDE, s, {';'});
      [s[..end]] + if end < |s| then SplitPieces(s[end + 1..]) else []
  }

  datatype Piece = Blank | Malformed | Unwanted | Good(decl: Decl)

  function ReadPiece(piece: string): Piece {
    if Strip(piece) == "" then Blank
    else
      var i := IndexOf(piece, ':');
      var prop := Lower(Strip(piece[..i]));
      if i == |piece| || !IsProperty(prop) then Malformed
      else if prop in BAD_PROPERTIES then Unwanted
      else
        match CleanValue(prop, piece[i + 1..])
        case None => Unwanted
        case Some(v) => Good(Decl(prop, v))
  }

  /** The declarations kept from `pieces` when `already` are kept, and whether any was dropped. */
  function KeepDecls(pieces: seq<string>, already: nat): (r: (seq<Decl>, bool))
    ensures already <= MAX_DECLARATIONS_PER_RULE ==> already + |r.0| <= MAX_DECLARATIONS_PER_RULE
  {
    if pieces == [] then ([], false)
    else
      match ReadPiece(pieces[0])
      case Blank => KeepDecls(pieces[1..], already)
      case Good(d) =>
        if already < MAX_DECLARATIONS_PER_RULE then
          var rest := KeepDecls(pieces[1..], already + 1);
          ([d] + rest.0, rest.1)
        else (KeepDecls(pieces[1..], already).0, true)
      case _ => (KeepDecls(pieces[1..], already).0, true)
  }

  function PrintEachDecl(decls: seq<Decl>): (r: seq<string>)
    ensures |r| == |decls|
  {
    if decls == [] then [] else [PrintDecl(decls[0])] + PrintEachDecl(decls[1..])
  }

  lemma {:induction false} PrintEachDeclAppend(decls: seq<Decl>, d: Decl)
    ensures PrintEachDecl(decls + [d]) == PrintEachDecl(decls) + [PrintDecl(d)]
  {
    if decls == [] {
      assert decls + [d] == [d];
    } else {
      assert (decls + [d])[1..] == decls[1..] + [d];
      PrintEachDeclAppend(decls[1..], d);
    }
  }

  lemma {:induction false} JoinEachDecl(decls: seq<Decl>)
    ensures Join(PrintEachDecl(decls), ";") == PrintDecls(decls)
  {
    if |decls| > 1 {
      JoinEachDecl(decls[1..]);
    }
  }

  lemma SplitPiecesStep(body: string, i: nat, end: nat)
    requires i < |body| && end == i + ScanLen(OUTSIDE, body[i..], {';'})
    ensures SplitPieces(body[i..])
         == [body[i..end]] + if end + 1 <= |body| then SplitPieces(body[end + 1..]) else []
  {
    hide ScanLen;
    Slice(body, i, 0, end - i);
    if end < |body| {
      Slice(body, i, 0, end - i + 1);
    }
  }

  lemma NoPieces()
    ensures SplitPieces("") == []
  {
  }

  method SplitText(body: string) returns (pieces: seq<string>)
    ensures pieces == SplitPieces(body)
  {
    hide ScanLen, SplitPieces;
    pieces := [];
    var i := 0;
    assert body[0..] == body;
    while i < |body|
      invariant 0 <= i <= |body| + 1
      invariant SplitPieces(body) == pieces + if i <= |body| then SplitPieces(body[i..]) else []
    {
      var end := Scan(body, i, {';'});
      SplitPiecesStep(body, i, end);
      ghost var rest := if end + 1 <= |body| then SplitPieces(body[end + 1..]) else [];
      Regroup(pieces, [body[i..end]], rest);
      pieces := pieces + [body[i..end]];
      i := end + 1;
    }
    assert i == |body| ==> body[i..] == "";
    NoPieces();
    Regroup(pieces, [], []);
  }

  /** `_clean_declarations`. */
  method CleanDeclarations(body: string) returns (text: string, dropped: bool)
    ensures var c := KeepDecls(SplitPieces(body), 0);
            text == PrintDecls(c.0) && dropped == c.1
  {
    var kept: seq<string> := [];
    ghost var decls: seq<Decl> := [];
    hide ReadPiece, PrintDecl, PrintDecls, Join, PrintEachDecl;
    dropped := false;
    var pieces := SplitText(body);
    assert PrintEachDecl([]) == [] && pieces[0..] == pieces;
    Regroup(decls, KeepDecls(pieces, 0).0, []);
    for k := 0 to |pieces|
      invariant kept == PrintEachDecl(decls) && |decls| <= MAX_DECLARATIONS_PER_RULE
      invariant KeepDecls(pieces, 0).0 == decls + KeepDecls(pieces[k..], |decls|).0
      invariant KeepDecls(pieces, 0).1 == (dropped || KeepDecls(pieces[k..], |decls|).1)
    {
      Rest(pieces, k);
      match ReadPiece(pieces[k]) {
        case Blank =>
        case Good(d) =>
          if |kept| < MAX_DECLARATIONS_PER_RULE {
            PrintEachDeclAppend(decls, d);
            kept := kept + [PrintDecl(d)];
            Regroup(decls, [d], KeepDecls(pieces[k + 1..], |decls| + 1).0);
            decls := decls + [d];
          } else {
            dropped := true;
          }
        case _ => dropped := true;
      }
    }
    assert pieces[|pieces|..] == [];
    Regroup(decls, [], []);
    JoinEachDecl(decls);
    text := Join(kept, ";");
  }

  // ---- Rules ----

  /** What is kept from some blocks, whether anything was dropped, and the rule counter afterwards. */
  datatype Cleaned = Cleaned(rules: seq<Rule>, dropped: bool, count: nat)

  /** What is kept from one block that is not over the rule cap; `count` already includes it. */
  function CleanItem(prelude: string, body: string, depth: nat, count: nat, inKeyframes: bool): Cleaned
    requires depth <= MAX_MEDIA_DEPTH
    decreases MAX_MEDIA_DEPTH - depth, 0
  {
    if "@" <= prelude then
      if MediaCondition(prelude).Some? && !inKeyframes && depth < MAX_MEDIA_DEPTH then
        var inner := CleanItems(ParseBlocks(body), depth + 1, count, false);
        var condition := Collapse(Strip(MediaCondition(prelude).value));
        inner.(rules := if inner.rules == [] then [] else [Media(condition, inner.rules)])
      else if KeyframesName(prelude).Some? && !inKeyframes && depth == 0 then
        var inner := CleanItems(ParseBlocks(body), depth + 1, count, true);
        inner.(rules := if inner.rules == [] then [] else [Keyframes(KeyframesName(prelude).value, inner.rules)])
      else Cleaned([], true, count)
    else
      var selector := Collapse(prelude);
      if !(if inKeyframes then IsKeyframeSelector(selector) else IsSelector(selector)) || !All(body, NotBrace) then
        Cleaned([], true, count)
      else
        var c := KeepDecls(SplitPieces(body), 0);
        if c.0 == [] then Cleaned([], c.1 || Strip(body) != "", count)
        else Cleaned([Style(selector, c.0)], c.1, count)
  }

  function CleanItems(items: seq<Item>, depth: nat, count: nat, inKeyframes: bool): Cleaned
    requires depth <= MAX_MEDIA_DEPTH
    decreases MAX_MEDIA_DEPTH - depth, |items|
  {
    if items == [] then Cleaned([], false, count)
    else if items[0].body == None then CleanItems(items[1..], depth, count, inKeyframes).(dropped := true)
    else if count + 1 > MAX_RULES then Cleaned([], true, count + 1)
    else
      var one := CleanItem(items[0].prelude, items[0].body.value, depth, count + 1, inKeyframes);
      Prepend(one.rules, one.dropped, CleanItems(items[1..], depth, one.count, inKeyframes))
  }

  function Prepend(rules: seq<Rule>, dropped: bool, rest: Cleaned): Cleaned {
    Cleaned(rules + rest.rules, dropped || rest.dropped, rest.count)
  }

  function PrintEach(rules: seq<Rule>): (r: seq<string>)
    ensures |r| == |rules|
  {
    if rules == [] then [] else [PrintRule(rules[0])] + PrintEach(rules[1..])
  }

  lemma PrintEachOne(r: Rule)
    ensures PrintEach([r]) == [PrintRule(r)]
  {
    assert [r][1..] == [];
  }

  lemma {:induction false} PrintEachAppend(rules: seq<Rule>, r: Rule)
    ensures PrintEach(rules + [r]) == PrintEach(rules) + [PrintRule(r)]
  {
    if rules == [] {
      assert rules + [r] == [r];
    } else {
      assert (rules + [r])[1..] == rules[1..] + [r];
      PrintEachAppend(rules[1..], r);
    }
  }

  lemma {:induction false} JoinEach(rules: seq<Rule>)
    ensures Join(PrintEach(rules), "\n") == PrintRules(rules, "\n")
  {
    if |rules| > 1 {
      JoinEach(rules[1..]);
    }
  }

  /** The shared rule counter of one sheet. */
  class Counter {
    var rules: nat

    constructor ()
      ensures rules == 0
    {
      rules := 0;
    }
  }

  /** One turn of the loop of `_clean_rules`, for a block with a body. */
  method CleanBlock(prelude: string, body: string, depth: nat, counter: Counter, inKeyframes: bool)
    returns (out: seq<string>, dropped: bool)
    requires depth <= MAX_MEDIA_DEPTH
    modifies counter
    ensures var one := CleanItem(prelude, body, depth, old(counter.rules), inKeyframes);
            |one.rules| <= 1 && out == PrintEach(one.rules) && dropped == one.dropped && counter.rules == one.count
    decreases MAX_MEDIA_DEPTH - depth, 0
  {
    hide IsKeyframeSelector, IsSelector, MediaCondition, KeyframesName, ParseBlocks, CleanItems, Collapse, Strip,
         KeepDecls, SplitPieces, PrintDecls, PrintRules, All, NotBrace;
    if "@" <= prelude {
      var media := MediaCondition(prelude);
      var keyframes := KeyframesName(prelude);
      if media.Some? && !inKeyframes && depth < MAX_MEDIA_DEPTH {
        var condition := Collapse(Strip(media.value));
        var inner, innerDropped := CleanRules(body, depth + 1, counter, false);
        ghost var r := Media(condition, CleanItems(ParseBlocks(body), depth + 1, old(counter.rules), false).rules);
        assert PrintEach([r]) == [PrintRule(r)];
        return if inner != "" then ["@media " + condition + "{" + inner + "}"] else [], innerDropped;
      } else if keyframes.Some? && !inKeyframes && depth == 0 {
        var inner, innerDropped := CleanRules(body, depth + 1, counter, true);
        ghost var r := Keyframes(keyframes.value,
                                 CleanItems(ParseBlocks(body), depth + 1, old(counter.rules), true).rules);
        assert PrintEach([r]) == [PrintRule(r)];
        return if inner != "" then ["@keyframes " + keyframes.value + "{" + inner + "}"] else [], innerDropped;
      }
      return [], true;
    }
    var selector := Collapse(prelude);
    if !(if inKeyframes then IsKeyframeSelector(selector) else IsSelector(selector)) || !All(body, NotBrace) {
      return [], true;
    }
    var declarations, declarationsDropped := CleanDeclarations(body);
    if declarations != "" {
      ghost var r := Style(selector, KeepDecls(SplitPieces(body), 0).0);
      assert PrintEach([r]) == [PrintRule(r)];
      return [selector + "{" + declarations + "}"], declarationsDropped;
    }
    return [], declarationsDropped || Strip(body) != "";
  }

  lemma NextItem(items: seq<Item>, k: nat, depth: nat, count: nat, inKeyframes: bool)
    requires depth <= MAX_MEDIA_DEPTH && k < |items|
    ensures CleanItems(items[k..], depth, count, inKeyframes) ==
            if items[k].body == None then Prepend([], true, CleanItems(items[k + 1..], depth, count, inKeyframes))
            else if count + 1 > MAX_RULES then Cleaned([], true, count + 1)
            else
              var one := CleanItem(items[k].prelude, items[k].body.value, depth, count + 1, inKeyframes);
              Prepend(one.rules, one.dropped, CleanItems(items[k + 1..], depth, one.count, inKeyframes))
  {
    hide CleanItem;
    Rest(items, k);
    if items[k].body == None {
      Regroup(CleanItems(items[k + 1..], depth, count, inKeyframes).rules, [], []);
    }
  }

  lemma NoItems(depth: nat, count: nat, inKeyframes: bool)
    requires depth <= MAX_MEDIA_DEPTH
    ensures CleanItems([], depth, count, inKeyframes) == Cleaned([], false, count)
  {
  }

  /** `_clean_rules`. */
  method CleanRules(text: string, depth: nat, counter: Counter, inKeyframes: bool)
    returns (css: string, dropped: bool)
    requires depth <= MAX_MEDIA_DEPTH
    modifies counter
    ensures var c := CleanItems(ParseBlocks(text), depth, old(counter.rules), inKeyframes);
            css == PrintRules(c.rules, "\n") && dropped == c.dropped && counter.rules == c.count
    ensures css == "" <==> CleanItems(ParseBlocks(text), depth, old(counter.rules), inKeyframes).rules == []
    decreases MAX_MEDIA_DEPTH - depth, 1
  {
    hide CleanItem, CleanItems, PrintRule, PrintRules, PrintEach, Join, ParseBlocks;
    var out: seq<string> := [];
    ghost var kept: seq<Rule> := [];
    dropped := false;
    var items := ParseText(text);
    assert items[0..] == items && [] + CleanItems(items, depth, counter.rules, inKeyframes).rules
        == CleanItems(items, depth, counter.rules, inKeyframes).rules;
    for k := 0 to |items|
      invariant out == PrintEach(kept)
      invariant CleanItems(items, depth, old(counter.rules), inKeyframes)
             == Prepend(kept, dropped, CleanItems(items[k..], depth, counter.rules, inKeyframes))
    {
      NextItem(items, k, depth, counter.rules, inKeyframes);
      if items[k].body == None {
        Regroup(kept, [], CleanItems(items[k + 1..], depth, counter.rules, inKeyframes).rules);
        dropped := true;
        continue;
      }
      counter.rules := counter.rules + 1;
      if counter.rules > MAX_RULES {
        Regroup(kept, [], []);
        JoinEach(kept);
        return Join(out, "\n"), true;
      }
      ghost var one := CleanItem(items[k].prelude, items[k].body.value, depth, counter.rules, inKeyframes);
      var more, d := CleanBlock(items[k].prelude, items[k].body.value, depth, counter, inKeyframes);
      if one.rules == [] {
        Regroup(out, [], []);
        Regroup(kept, [], []);
      } else {
        assert one.rules == [one.rules[0]];
        PrintEachOne(one.rules[0]);
        PrintEachAppend(kept, one.rules[0]);
      }
      Regroup(kept, one.rules, CleanItems(items[k + 1..], depth, counter.rules, inKeyframes).rules);
      out := out + more;
      kept := kept + one.rules;
      dropped := dropped || d;
    }
    assert items[|items|..] == [];
    NoItems(depth, counter.rules, inKeyframes);
    Regroup(kept, [], []);
    JoinEach(kept);
    return Join(out, "\n"), dropped;
  }
}
