/** Where a start-of-comment mark in a printed sheet can come from: the filters make none themselves. */
module CssComments {
  import opened Text
  import opened CssLexer
  import opened CssGrammar
  import opened CssFilter
  import opened CssFixedPoints
  import opened CssEmission
  import opened CssSanitizer
  import opened CssTheorems

  // ---- Texts without a mark ----

  /** No `/` has a `*` behind it. */
  ghost predicate Clear(s: string) {
    forall i, j :: 0 <= i < |s| && j == i + 1 < |s| && s[i] == '/' ==> s[j] != '*'
  }

  lemma {:induction false} ClearExactly(s: string)
    ensures Clear(s) <==> !HasComment(s)
  {
    if s != "" {
      ClearExactly(s[1..]);
      if "/*" <= s {
        assert s[0] == '/' && s[1] == '*';
      } else {
        MarkFirst(s);
        ClearRest(s);
      }
    }
  }

  lemma MarkFirst(s: string)
    ensures "/*" <= s <==> |s| > 1 && s[0] == '/' && s[1] == '*'
  {
  }

  lemma ClearRest(s: string)
    requires s != "" && (|s| > 1 ==> s[0] != '/' || s[1] != '*')
    ensures Clear(s) <==> Clear(s[1..])
  {
    var t := s[1..];
    if Clear(t) {
      forall i, j | 0 <= i < |s| && j == i + 1 < |s| && s[i] == '/' ensures s[j] != '*' {
        if i > 0 {
          assert t[i - 1] == s[i] && t[j - 1] == s[j];
        }
      }
    }
    if Clear(s) {
      forall i, j | 0 <= i < |t| && j == i + 1 < |t| && t[i] == '/' ensures t[j] != '*' {
        assert t[i] == s[i + 1] && t[j] == s[j + 1];
      }
    }
  }

  /** Two texts side by side. */
  lemma ClearConcat(a: string, b: string)
    requires Clear(a) && Clear(b)
    requires a == "" || b == "" || a[|a| - 1] != '/' || b[0] != '*'
    ensures Clear(a + b)
  {
    var s := a + b;
    forall i, j | 0 <= i < |s| && j == i + 1 < |s| && s[i] == '/' ensures s[j] != '*' {
      if j < |a| {
        assert s[i] == a[i] && s[j] == a[j];
      } else if i >= |a| {
        assert s[i] == b[i - |a|] && s[j] == b[j - |a|];
      }
    }
  }

  lemma ClearSlice(s: string, i: nat, j: nat)
    requires Clear(s) && i <= j <= |s|
    ensures Clear(s[i..j])
  {
    var t := s[i..j];
    forall k, m | 0 <= k < |t| && m == k + 1 < |t| && t[k] == '/' ensures t[m] != '*' {
      assert t[k] == s[i + k] && t[m] == s[i + m];
    }
  }

  lemma ClearFrom(s: string, i: nat)
    requires Clear(s) && i <= |s|
    ensures Clear(s[i..]) && Clear(s[..i])
  {
    ClearSlice(s, i, |s|);
    ClearSlice(s, 0, i);
    assert s[i..|s|] == s[i..] && s[0..i] == s[..i];
  }

  lemma ClearStrip(s: string)
    requires Clear(s)
    ensures Clear(TrimLeft(s)) && Clear(TrimRight(s)) && Clear(Strip(s))
  {
    hide Clear;
    ClearTrimLeft(s);
    ClearTrimRight(s);
    ClearTrimRight(TrimLeft(s));
  }

  lemma ClearTrimLeft(s: string)
    requires Clear(s)
    ensures Clear(TrimLeft(s))
  {
    hide Clear;
    TrimLeftSplit(s);
    ClearFrom(s, |s| - |TrimLeft(s)|);
    assert s[|s| - |TrimLeft(s)|..] == TrimLeft(s);
  }

  lemma ClearTrimRight(s: string)
    requires Clear(s)
    ensures Clear(TrimRight(s))
  {
    hide Clear;
    TrimRightSplit(s);
    ClearFrom(s, |TrimRight(s)|);
    assert s[..|TrimRight(s)|] == TrimRight(s);
  }

  lemma ClearOne(c: char)
    ensures Clear([c])
  {
  }

  lemma CollapseHead(s: string)
    requires s != ""
    ensures Collapse(s) != "" && Collapse(s)[0] == if IsSpace(s[0]) then ' ' else s[0]
  {
  }

  /** Collapsing spaces brings no two other characters together. */
  lemma {:induction false} ClearCollapse(s: string)
    requires Clear(s)
    ensures Clear(Collapse(s))
    decreases |s|
  {
    hide IsSpace;
    if s != "" {
      if IsSpace(s[0]) {
        hide Clear;
        ClearTrimLeft(s);
        ClearCollapse(TrimLeft(s));
        CollapseSpace(s);
        ClearOne(' ');
        ClearConcat(" ", Collapse(TrimLeft(s)));
      } else {
        var t := s[1..];
        assert t != "" && s[0] == '/' ==> t[0] != '*' by { assert t != "" ==> t[0] == s[1]; }
        hide Clear;
        ClearFrom(s, 1);
        ClearCollapse(t);
        assert s == [s[0]] + t;
        CollapseOther(s[0], t);
        if t != "" {
          CollapseHead(t);
        } else {
          CollapseEmpty();
        }
        ClearOne(s[0]);
        ClearConcat([s[0]], Collapse(t));
      }
    }
  }

  /** Characters of which none is a `/`. */
  lemma ClearAll(s: string, p: char -> bool)
    requires All(s, p) && !p('/')
    ensures Clear(s)
  {
    AllEach(s, p);
  }

  // ---- Declarations ----

  lemma ClearImportant()
    ensures Clear(IMPORTANT) && IMPORTANT[0] == ' '
  {
    ImportantAll();
    ClearAll(IMPORTANT, IsImportantChar);
  }

  lemma ClearValue(prop: string, raw: string)
    requires Clear(raw) && CleanValue(prop, raw).Some?
    ensures Clear(PrintValue(CleanValue(prop, raw).value))
  {
    hide Clear, IsCleanValue, ImportantStart, Strip, Collapse;
    var v := Strip(raw);
    ClearStrip(raw);
    var cut := ImportantStart(v);
    if cut.Some? {
      var head := v[..cut.value];
      ClearFrom(v, cut.value);
      ClearStrip(head);
      ClearCollapse(Strip(head));
      ClearImportant();
      ClearConcat(Collapse(Strip(head)), IMPORTANT);
    } else {
      ClearCollapse(v);
    }
  }

  lemma ClearPiece(piece: string)
    requires Clear(piece) && ReadPiece(piece).Good?
    ensures Clear(PrintDecl(ReadPiece(piece).decl))
  {
    hide Clear, IsCleanValue, CleanValue, PrintValue, Strip, Lower, IndexOf, IsProperty, All;
    var d := ReadPiece(piece).decl;
    var i := IndexOf(piece, ':');
    ClearFrom(piece, i + 1);
    ClearValue(d.prop, piece[i + 1..]);
    PropertyInert(d.prop);
    ClearAll(d.prop, IsPropertyChar);
    ClearOne(':');
    ClearConcat(d.prop, ":");
    ClearConcat(d.prop + ":", PrintValue(d.value));
  }

  ghost predicate AllClear(parts: seq<string>) {
    forall s :: s in parts ==> Clear(s)
  }

  lemma {:induction false} ClearPieces(s: string)
    requires Clear(s)
    ensures AllClear(SplitPieces(s))
    decreases |s|
  {
    hide Clear, ScanLen;
    if s != "" {
      var end := ScanLen(OUTSIDE, s, {';'});
      ClearFrom(s, end);
      if end < |s| {
        ClearFrom(s, end + 1);
        ClearPieces(s[end + 1..]);
      }
    }
  }

  lemma PrintDeclsStep(d: Decl, rest: seq<Decl>)
    ensures PrintDecls([d] + rest) == if rest == [] then PrintDecl(d) else PrintDecl(d) + ";" + PrintDecls(rest)
  {
    hide PrintDecl;
    assert ([d] + rest)[1..] == rest;
  }

  lemma {:induction false} ClearKept(pieces: seq<string>, already: nat)
    requires AllClear(pieces)
    ensures Clear(PrintDecls(KeepDecls(pieces, already).0))
  {
    hide Clear, ReadPiece, PrintDecl, PrintDecls;
    if pieces == [] {
      ClearEmpty();
    } else {
      ClearKept(pieces[1..], already);
      match ReadPiece(pieces[0])
      case Good(d) =>
        ClearPiece(pieces[0]);
        ClearKept(pieces[1..], already + 1);
        var rest := KeepDecls(pieces[1..], already + 1).0;
        PrintDeclsStep(d, rest);
        ClearOne(';');
        ClearConcat(PrintDecl(d), ";");
        ClearConcat(PrintDecl(d) + ";", PrintDecls(rest));
      case _ =>
    }
  }

  lemma ClearEmpty()
    ensures Clear("") && PrintDecls([]) == ""
  {
  }

  // ---- Rules ----

  ghost predicate ClearItem(item: Item) {
    Clear(item.prelude) && (item.body.Some? ==> Clear(item.body.value))
  }

  ghost predicate ClearItems(items: seq<Item>) {
    forall item :: item in items ==> ClearItem(item)
  }

  lemma ClearBlock(t: string)
    requires t != "" && Clear(t)
    ensures ClearItem(NextBlock(t).0)
  {
    hide Clear, Strip, ScanLen, BraceLen;
    var end := ScanLen(OUTSIDE, t, BLOCK_STOPS);
    var item, n := NextBlock(t).0, NextBlock(t).1;
    ClearFrom(t, end);
    ClearStrip(t[..end]);
    if item.body.Some? {
      ClearSlice(t, end + 1, n - 1);
    }
  }

  lemma {:induction false} ClearBlocks(s: string)
    requires Clear(s)
    ensures ClearItems(ParseBlocks(s))
    decreases |s|
  {
    hide Clear, ClearItem, NextBlock;
    var t := TrimLeft(s);
    ClearTrimLeft(s);
    if t != "" {
      ClearBlock(t);
      ClearFrom(t, NextBlock(t).1);
      ClearBlocks(t[NextBlock(t).1..]);
    }
  }

  ghost predicate ClearRules(rules: seq<Rule>) {
    forall r :: r in rules ==> Clear(PrintRule(r))
  }

  /** Between two rules there are a brace and a line feed. */
  lemma {:induction false} ClearPrinted(rules: seq<Rule>)
    requires ClearRules(rules)
    ensures Clear(PrintRules(rules, "\n"))
  {
    hide Clear, PrintRule;
    if |rules| == 0 {
      ClearEmpty();
    } else if |rules| > 1 {
      ClearPrinted(rules[1..]);
      ClearOne('\n');
      ClearConcat(PrintRule(rules[0]), "\n");
      ClearConcat(PrintRule(rules[0]) + "\n", PrintRules(rules[1..], "\n"));
    }
  }

  lemma ClearRule(r: Rule)
    requires Clear(Prelude(r)) && Clear(Body(r))
    ensures Clear(PrintRule(r))
  {
    hide Clear, Prelude, Body;
    ClearOne('{');
    ClearOne('}');
    ClearConcat(Prelude(r), "{");
    ClearConcat(Prelude(r) + "{", Body(r));
    ClearConcat(Prelude(r) + "{" + Body(r), "}");
  }

  /** The rules kept from blocks without a mark are printed without one. */
  lemma {:induction false} ClearCleaned(items: seq<Item>, depth: nat, count: nat, inKeyframes: bool)
    requires depth <= MAX_MEDIA_DEPTH && ClearItems(items)
    ensures ClearRules(CleanItems(items, depth, count, inKeyframes).rules)
    decreases MAX_MEDIA_DEPTH - depth, |items|
  {
    hide Clear, CleanItem, PrintRule;
    if items != [] {
      if items[0].body == None {
        ClearCleaned(items[1..], depth, count, inKeyframes);
      } else if count + 1 <= MAX_RULES {
        assert ClearItem(items[0]);
        var prelude, body := items[0].prelude, items[0].body.value;
        var one := CleanItem(prelude, body, depth, count + 1, inKeyframes);
        ClearKeptRule(prelude, body, depth, count + 1, inKeyframes);
        ClearCleaned(items[1..], depth, one.count, inKeyframes);
      }
    }
  }

  lemma ClearKeptRule(prelude: string, body: string, depth: nat, count: nat, inKeyframes: bool)
    requires depth <= MAX_MEDIA_DEPTH && Clear(prelude) && Clear(body)
    ensures ClearRules(CleanItem(prelude, body, depth, count, inKeyframes).rules)
    decreases MAX_MEDIA_DEPTH - depth, 0
  {
    hide Clear, PrintRule, PrintRules, Collapse, Strip, MediaCondition, KeyframesName, IsSelector, IsKeyframeSelector,
      All, ParseBlocks, CleanItems, KeepDecls, SplitPieces, PrintDecls;
    var one := CleanItem(prelude, body, depth, count, inKeyframes);
    if one.rules != [] {
      var r := one.rules[0];
      assert one.rules == [r];
      match r {
        case Style(_, _) =>
          ClearCollapse(prelude);
          ClearPieces(body);
          ClearKept(SplitPieces(body), 0);
        case Media(_, rules) =>
          ClearMedia(prelude);
          ClearBlocks(body);
          ClearCleaned(ParseBlocks(body), depth + 1, count, false);
          ClearPrinted(rules);
        case Keyframes(_, rules) =>
          ClearKeyframes(prelude);
          ClearBlocks(body);
          ClearCleaned(ParseBlocks(body), depth + 1, count, true);
          ClearPrinted(rules);
      }
      ClearRule(r);
    }
  }

  lemma ClearHeader(header: string)
    requires header == "@media " || header == "@keyframes "
    ensures Clear(header) && header[|header| - 1] == ' '
  {
    hide All;
    AllEach(header, IsHeaderChar);
    ClearAll(header, IsHeaderChar);
  }

  lemma ClearMedia(prelude: string)
    requires Clear(prelude) && MediaCondition(prelude).Some?
    ensures Clear("@media " + Collapse(Strip(MediaCondition(prelude).value)))
  {
    hide Clear, Collapse, Strip, TrimLeft, IsSpace;
    var group := MediaCondition(prelude).value;
    ClearFrom(prelude, 6);
    ClearStrip(prelude[6..]);
    ClearStrip(group);
    ClearCollapse(Strip(group));
    ClearHeader("@media ");
    ClearConcat("@media ", Collapse(Strip(group)));
  }

  lemma ClearKeyframes(prelude: string)
    requires Clear(prelude) && KeyframesName(prelude).Some?
    ensures Clear("@keyframes " + KeyframesName(prelude).value)
  {
    hide Clear, TrimLeft, IsSpace;
    var n := if "@keyframes" <= prelude then 10 else 18;
    ClearFrom(prelude, n);
    ClearStrip(prelude[n..]);
    ClearHeader("@keyframes ");
    ClearConcat("@keyframes ", KeyframesName(prelude).value);
  }

  // ---- The two filters ----

  /** A text whose comments were deleted without forming another gives a sheet without a mark. */
  lemma SheetUncommented(text: string)
    requires !HasComment(DeleteComments(text).0)
    ensures !HasComment(Stylesheet(text).0)
  {
    hide Clear, HasComment, CleanItems, ParseBlocks, PrintRules, DeleteComments, Strip, All;
    var clean := DeleteComments(text).0;
    ClearExactly(clean);
    ClearExactly(Stylesheet(text).0);
    ClearBlocks(clean);
    ClearCleaned(ParseBlocks(clean), 0, 0, false);
    ClearPrinted(CleanItems(ParseBlocks(clean), 0, 0, false).rules);
    ClearEmpty();
  }

  lemma AttributeUncommented(text: string)
    requires !HasComment(DeleteComments(text).0)
    ensures !HasComment(StyleAttribute(text).0)
  {
    hide Clear, HasComment, SplitPieces, KeepAttribute, KeepDecls, PrintDecls, DeleteComments, Strip, All, Balanced;
    var clean := DeleteComments(text).0;
    ClearExactly(clean);
    ClearExactly(StyleAttribute(text).0);
    AttributeKeeps(SplitPieces(clean), 0);
    ClearPieces(clean);
    ClearKept(SplitPieces(clean), 0);
    ClearEmpty();
  }

  /** So the author can tell from the text: if deleting its comments leaves none, only the size cap can keep the filters
      from giving back their own output. */
  lemma StableFromInput(text: string)
    requires !HasComment(DeleteComments(text).0)
    ensures var css := Stylesheet(text).0; Stylesheet(css) == (css, false) <==> |css| <= MAX_SHEET_CHARS
    ensures var css := StyleAttribute(text).0; StyleAttribute(css) == (css, false) <==> |css| <= MAX_ATTRIBUTE_CHARS
  {
    hide HasComment, Stylesheet, StyleAttribute, DeleteComments;
    SheetUncommented(text);
    AttributeUncommented(text);
    StylesheetIdempotent(text);
    StyleAttributeIdempotent(text);
  }
}
