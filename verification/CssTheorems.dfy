/** When the two public filters change nothing on their own output, and what they can print. */
module CssTheorems {
  import opened Text
  import opened CssLexer
  import opened CssGrammar
  import opened CssFilter
  import opened CssFixedPoints
  import opened CssEmission
  import opened CssSanitizer

  // ---- Characters the printer does not add ----

  /** A character that only the author can put into a printed sheet. */
  predicate IsForeign(c: char) {
    && !IsSpace(c) && !IsLetter(c) && !IsDigit(c)
    && c !in {'-', '{', '}', ';', ':', '@', '!'}
  }

  lemma {:induction false} CountZero(s: string, p: char -> bool, c: char)
    requires All(s, p) && !p(c)
    ensures Count(s, c) == 0
  {
    if s != "" {
      CountZero(s[1..], p, c);
    }
  }

  lemma CountStrip(s: string, c: char)
    requires !IsSpace(c)
    ensures Count(Strip(s), c) == Count(s, c)
    ensures Count(TrimLeft(s), c) == Count(s, c)
  {
    var t := TrimLeft(s);
    var head, tail := s[..|s| - |t|], t[|TrimRight(t)|..];
    TrimLeftSplit(s);
    TrimRightSplit(t);
    CountConcat(head, t, c);
    CountConcat(TrimRight(t), tail, c);
    CountZero(head, IsSpace, c);
    CountZero(tail, IsSpace, c);
  }

  lemma {:induction false} CountCollapse(s: string, c: char)
    requires !IsSpace(c)
    ensures Count(Collapse(s), c) == Count(s, c)
    decreases |s|
  {
    if s != "" {
      var t := if IsSpace(s[0]) then TrimLeft(s) else s[1..];
      CountStrip(s, c);
      CountCollapse(t, c);
      assert Collapse(s)[1..] == Collapse(t);
      assert IsSpace(' ');
    }
  }

  lemma CountSlice(s: string, i: nat, j: nat, c: char)
    requires i <= j <= |s|
    ensures Count(s, c) == Count(s[..i], c) + Count(s[i..j], c) + Count(s[j..], c)
  {
    assert s == s[..i] + (s[i..j] + s[j..]);
    CountConcat(s[..i], s[i..j] + s[j..], c);
    CountConcat(s[i..j], s[j..], c);
  }

  predicate IsPrinterChar(c: char) { !IsForeign(c) }

  lemma PrinterLiterals()
    ensures All(":", IsPrinterChar) && All(";", IsPrinterChar) && All("{", IsPrinterChar) && All("}", IsPrinterChar)
    ensures All("\n", IsPrinterChar)
  {
  }

  lemma ImportantPrinter()
    ensures All(IMPORTANT, IsPrinterChar)
  {
    hide All;
    ImportantAll();
    AllWeaken(IMPORTANT, IsImportantChar, IsPrinterChar);
  }

  lemma HeaderPrinter(header: string)
    requires header == "@media " || header == "@keyframes "
    ensures All(header, IsPrinterChar)
  {
    AllEach(header, IsHeaderChar);
    AllWeaken(header, IsHeaderChar, IsPrinterChar);
  }

  lemma CountValue(prop: string, raw: string, c: char)
    requires IsForeign(c) && CleanValue(prop, raw).Some?
    ensures Count(PrintValue(CleanValue(prop, raw).value), c) <= Count(raw, c)
  {
    hide IsCleanValue, ImportantStart, Strip, Collapse, Count, IsForeign;
    assert !IsSpace(c) by { ForeignNotSpace(c); }
    var v := Strip(raw);
    CountStrip(raw, c);
    var cut := ImportantStart(v);
    if cut.Some? {
      var head := v[..cut.value];
      CountSlice(v, 0, cut.value, c);
      assert v[0..cut.value] == head;
      CountStrip(head, c);
      CountCollapse(Strip(head), c);
      ImportantPrinter();
      CountZero(IMPORTANT, IsPrinterChar, c);
      CountConcat(Collapse(Strip(head)), IMPORTANT, c);
    } else {
      CountCollapse(v, c);
    }
  }

  lemma ForeignNotSpace(c: char)
    requires IsForeign(c)
    ensures !IsSpace(c)
  {
  }

  lemma CountPiece(piece: string, c: char)
    requires IsForeign(c) && ReadPiece(piece).Good?
    ensures Count(PrintDecl(ReadPiece(piece).decl), c) <= Count(piece, c)
  {
    hide IsCleanValue, CleanValue, PrintValue, Strip, Lower, IndexOf, Count, IsForeign, IsProperty, All;
    var d := ReadPiece(piece).decl;
    var i := IndexOf(piece, ':');
    CountSlice(piece, i + 1, |piece|, c);
    assert piece[i + 1..|piece|] == piece[i + 1..];
    CountValue(d.prop, piece[i + 1..], c);
    PropertyInert(d.prop);
    AllWeaken(d.prop, IsPropertyChar, IsPrinterChar) by { PropertyPrinter(); }
    PrinterLiterals();
    CountZero(d.prop, IsPrinterChar, c) by { ForeignNotPrinter(c); }
    CountZero(":", IsPrinterChar, c) by { ForeignNotPrinter(c); }
    CountConcat(d.prop, ":", c);
    CountConcat(d.prop + ":", PrintValue(d.value), c);
  }

  lemma ForeignNotPrinter(c: char)
    requires IsForeign(c)
    ensures !IsPrinterChar(c)
  {
  }

  lemma PropertyPrinter()
    ensures forall c :: IsPropertyChar(c) ==> IsPrinterChar(c)
  {
  }

  function CountAll(parts: seq<string>, c: char): nat {
    if parts == [] then 0 else Count(parts[0], c) + CountAll(parts[1..], c)
  }

  lemma {:induction false} CountPieces(s: string, c: char)
    ensures CountAll(SplitPieces(s), c) <= Count(s, c)
    decreases |s|
  {
    hide Count;
    if s != "" {
      var end := ScanLen(OUTSIDE, s, {';'});
      CountSlice(s, 0, end, c);
      assert s[0..end] == s[..end];
      if end < |s| {
        CountSlice(s, end, end + 1, c);
        CountPieces(s[end + 1..], c);
      }
    }
  }

  lemma {:induction false} CountKept(pieces: seq<string>, already: nat, c: char)
    requires IsForeign(c)
    ensures Count(PrintDecls(KeepDecls(pieces, already).0), c) <= CountAll(pieces, c)
  {
    hide ReadPiece, Count, IsForeign, PrintDecl;
    if pieces == [] {
      assert Count("", c) == 0 by { CountEmpty(c); }
    } else {
      CountKept(pieces[1..], already, c);
      match ReadPiece(pieces[0])
      case Good(d) =>
        CountPiece(pieces[0], c);
        CountKept(pieces[1..], already + 1, c);
        var rest := KeepDecls(pieces[1..], already + 1).0;
        assert ([d] + rest)[1..] == rest;
        if already < MAX_DECLARATIONS_PER_RULE && rest != [] {
          PrinterLiterals();
          CountZero(";", IsPrinterChar, c) by { ForeignNotPrinter(c); }
          CountConcat(PrintDecl(d), ";", c);
          CountConcat(PrintDecl(d) + ";", PrintDecls(rest), c);
        }
      case _ =>
    }
  }

  lemma CountEmpty(c: char)
    ensures Count("", c) == 0
  {
  }

  function CountItem(item: Item, c: char): nat {
    Count(item.prelude, c) + if item.body.Some? then Count(item.body.value, c) else 0
  }

  function CountItems(items: seq<Item>, c: char): nat {
    if items == [] then 0 else CountItem(items[0], c) + CountItems(items[1..], c)
  }

  lemma Inside<T>(t: seq<T>, i: nat, j: nat)
    requires i + 2 <= j <= |t|
    ensures t[i..j][1..j - i - 1] == t[i + 1..j - 1]
  {
    var a, b := t[i..j][1..j - i - 1], t[i + 1..j - 1];
    forall k | 0 <= k < j - i - 2 ensures a[k] == b[k] {
      assert a[k] == t[i..j][k + 1] == t[i + 1 + k];
    }
  }

  lemma CountBlock(t: string, c: char)
    requires t != "" && !IsSpace(c)
    ensures CountItem(NextBlock(t).0, c) + Count(t[NextBlock(t).1..], c) <= Count(t, c)
  {
    hide Count, Strip, ScanLen, BraceLen, IsSpace;
    var end := ScanLen(OUTSIDE, t, BLOCK_STOPS);
    var item, n := NextBlock(t).0, NextBlock(t).1;
    CountStrip(t[..end], c);
    CountSlice(t, end, n, c);
    if item.body.Some? {
      CountSlice(t[end..n], 1, n - end - 1, c);
      Inside(t, end, n);
      assert item.body.value == t[end + 1..n - 1];
    }
  }

  lemma {:induction false} CountBlocks(s: string, c: char)
    requires !IsSpace(c)
    ensures CountItems(ParseBlocks(s), c) <= Count(s, c)
    decreases |s|
  {
    hide Count, CountItem, NextBlock, IsSpace;
    var t := TrimLeft(s);
    CountStrip(s, c);
    if t != "" {
      CountBlock(t, c);
      CountBlocks(t[NextBlock(t).1..], c);
      assert ParseBlocks(s)[1..] == ParseBlocks(t[NextBlock(t).1..]);
    }
  }

  lemma {:induction false} CountPrinted(rules: seq<Rule>, c: char)
    requires c != '\n'
    ensures rules != [] ==>
              Count(PrintRules(rules, "\n"), c)
              == Count(PrintRule(rules[0]), c) + Count(PrintRules(rules[1..], "\n"), c)
  {
    hide Count, PrintRule;
    if |rules| > 1 {
      CountOther("\n", c);
      CountConcat(PrintRule(rules[0]), "\n", c);
      CountConcat(PrintRule(rules[0]) + "\n", PrintRules(rules[1..], "\n"), c);
    } else if |rules| == 1 {
      assert PrintRules(rules[1..], "\n") == "";
      CountEmpty(c);
    }
  }

  lemma CountOther(s: string, c: char)
    requires |s| == 1
    ensures Count(s, c) == if s[0] == c then 1 else 0
  {
    assert s[1..] == "";
  }

  lemma CountRule(r: Rule, c: char)
    ensures Count(PrintRule(r), c)
         == Count(Prelude(r), c) + Count(Body(r), c) + if c == '{' || c == '}' then 1 else 0
  {
    hide Count, Prelude, Body;
    CountOther("{", c);
    CountOther("}", c);
    CountConcat(Prelude(r), "{", c);
    CountConcat(Prelude(r) + "{", Body(r), c);
    CountConcat(Prelude(r) + "{" + Body(r), "}", c);
  }

  lemma {:induction false} CountRulesAppend(a: seq<Rule>, b: seq<Rule>, c: char)
    requires c != '\n'
    ensures Count(PrintRules(a + b, "\n"), c) == Count(PrintRules(a, "\n"), c) + Count(PrintRules(b, "\n"), c)
  {
    hide Count, PrintRule, PrintRules;
    if a == [] {
      assert a + b == b;
      CountEmpty(c);
      assert PrintRules(a, "\n") == "";
    } else {
      CountPrinted(a, c);
      CountPrinted(a + b, c);
      assert (a + b)[1..] == a[1..] + b;
      CountRulesAppend(a[1..], b, c);
    }
  }

  /** A printed sheet holds no more of a foreign character than the blocks it was made from. */
  lemma {:induction false} CountCleaned(items: seq<Item>, depth: nat, count: nat, inKeyframes: bool, c: char)
    requires depth <= MAX_MEDIA_DEPTH && IsForeign(c)
    ensures Count(PrintRules(CleanItems(items, depth, count, inKeyframes).rules, "\n"), c) <= CountItems(items, c)
    decreases MAX_MEDIA_DEPTH - depth, |items|
  {
    hide CleanItem, Count, IsForeign, PrintRules;
    CountEmpty(c);
    ForeignNotSpace(c);
    assert c != '\n' by { assert IsSpace('\n'); }
    assert PrintRules([], "\n") == "";
    if items != [] {
      if items[0].body == None {
        CountCleaned(items[1..], depth, count, inKeyframes, c);
      } else if count + 1 <= MAX_RULES {
        var prelude, body := items[0].prelude, items[0].body.value;
        var one := CleanItem(prelude, body, depth, count + 1, inKeyframes);
        CountOne(prelude, body, depth, count + 1, inKeyframes, c);
        CountCleaned(items[1..], depth, one.count, inKeyframes, c);
        CountRulesAppend(one.rules, CleanItems(items[1..], depth, one.count, inKeyframes).rules, c);
      }
    }
  }

  lemma CountOne(prelude: string, body: string, depth: nat, count: nat, inKeyframes: bool, c: char)
    requires depth <= MAX_MEDIA_DEPTH && IsForeign(c)
    ensures Count(PrintRules(CleanItem(prelude, body, depth, count, inKeyframes).rules, "\n"), c)
         <= Count(prelude, c) + Count(body, c)
    decreases MAX_MEDIA_DEPTH - depth, 0
  {
    hide Count, IsForeign, PrintRules, PrintRule, Collapse, Strip, MediaCondition, KeyframesName, IsSelector,
      IsKeyframeSelector,
         All, ParseBlocks, CleanItems, KeepDecls, SplitPieces, PrintDecls;
    var one := CleanItem(prelude, body, depth, count, inKeyframes);
    CountEmpty(c);
    assert PrintRules([], "\n") == "";
    if one.rules != [] {
      var r := one.rules[0];
      assert one.rules == [r] && one.rules[1..] == [];
      ForeignNotSpace(c);
      assert c != '\n' && c != '{' && c != '}' by { ForeignNotPrinter(c); PrinterLiterals(); }
      CountPrinted(one.rules, c);
      CountRule(r, c);
      CountBlocks(body, c);
      match r
      case Style(_, _) =>
        CountCollapse(prelude, c);
        CountPieces(body, c);
        CountKept(SplitPieces(body), 0, c);
      case Media(_, _) =>
        CountMedia(prelude, c);
        CountCleaned(ParseBlocks(body), depth + 1, count, false, c);
      case Keyframes(_, _) =>
        CountKeyframes(prelude, c);
        CountCleaned(ParseBlocks(body), depth + 1, count, true, c);
    }
  }

  lemma CountMedia(prelude: string, c: char)
    requires IsForeign(c) && MediaCondition(prelude).Some?
    ensures Count("@media " + Collapse(Strip(MediaCondition(prelude).value)), c) <= Count(prelude, c)
  {
    hide Count, IsForeign, Collapse, Strip, TrimLeft, IsSpace;
    var group := MediaCondition(prelude).value;
    ForeignNotSpace(c);
    CountSlice(prelude, 6, |prelude|, c);
    assert prelude[6..|prelude|] == prelude[6..];
    CountStrip(prelude[6..], c);
    CountStrip(group, c);
    CountCollapse(Strip(group), c);
    HeaderPrinter("@media ");
    CountZero("@media ", IsPrinterChar, c) by { ForeignNotPrinter(c); }
    CountConcat("@media ", Collapse(Strip(group)), c);
  }

  lemma CountKeyframes(prelude: string, c: char)
    requires IsForeign(c) && KeyframesName(prelude).Some?
    ensures Count("@keyframes " + KeyframesName(prelude).value, c) <= Count(prelude, c)
  {
    hide Count, IsForeign, TrimLeft, IsSpace;
    var n := if "@keyframes" <= prelude then 10 else 18;
    ForeignNotSpace(c);
    CountSlice(prelude, n, |prelude|, c);
    assert prelude[n..|prelude|] == prelude[n..];
    CountStrip(prelude[n..], c);
    HeaderPrinter("@keyframes ");
    CountZero("@keyframes ", IsPrinterChar, c) by { ForeignNotPrinter(c); }
    CountConcat("@keyframes ", KeyframesName(prelude).value, c);
  }

  // ---- Characters of a printed sheet ----

  lemma SheetLiterals()
    ensures All("{", IsSheetChar) && All("}", IsSheetChar) && All("\n", IsSheetChar) && All("", IsSheetChar)
  {
  }

  lemma {:induction false} CollapsedChars(s: string, p: char -> bool, q: char -> bool)
    requires Collapsed(s) && All(s, p)
    requires forall c :: p(c) && (IsSpace(c) ==> c == ' ') ==> q(c)
    ensures All(s, q)
  {
    if s != "" {
      CollapsedChars(s[1..], p, q);
    }
  }

  lemma HeaderSheetChars(header: string)
    requires IsHeader(header)
    ensures All(header, IsSheetChar)
  {
    hide All;
    HeaderChars(header);
    AllWeaken(header, IsHeaderChar, IsSheetChar);
  }

  lemma PreludeChars(r: Rule, depth: nat, inKeyframes: bool)
    requires RuleOk(r, depth, inKeyframes)
    ensures All(Prelude(r), IsSheetChar)
  {
    hide All, IsKeyframeSelector, Lexed, Accepted, DeclsOk, Run, PrintDecls, Collapsed, Stripped;
    match r
    case Style(selector, _) =>
      if inKeyframes {
        KeyframeSelectorAll(selector);
        CollapsedChars(selector, IsStopChar, IsSheetChar);
      } else {
        CollapsedChars(selector, IsSelectorChar, IsSheetChar);
      }
    case Media(condition, _) =>
      CollapsedChars(condition, IsMediaChar, IsSheetChar);
      HeaderSheetChars("@media ");
      AllConcat("@media ", condition, IsSheetChar);
    case Keyframes(name, _) =>
      AllWeaken(name, IsNameChar, IsSheetChar);
      HeaderSheetChars("@keyframes ");
      AllConcat("@keyframes ", name, IsSheetChar);
  }

  lemma {:induction false} RuleChars(r: Rule, depth: nat, inKeyframes: bool)
    requires RuleOk(r, depth, inKeyframes)
    ensures All(PrintRule(r), IsSheetChar)
    decreases r, 0
  {
    hide All, IsKeyframeSelector, IsSelector, Lexed, Run, PrintDecls, PrintRules, Prelude, IsSheetChar, DeclsOk;
    PreludeChars(r, depth, inKeyframes);
    SheetLiterals();
    match r {
      case Style(_, decls) =>
        DeclsChars(decls);
        AllWeaken(PrintDecls(decls), IsDeclChar, IsSheetChar);
      case Media(_, rules) => RulesChars(rules, "\n", depth + 1, false);
      case Keyframes(_, rules) => RulesChars(rules, "\n", depth + 1, true);
    }
    AllConcat(Prelude(r), "{", IsSheetChar);
    AllConcat(Prelude(r) + "{", Body(r), IsSheetChar);
    AllConcat(Prelude(r) + "{" + Body(r), "}", IsSheetChar);
  }

  lemma {:induction false} RulesChars(rules: seq<Rule>, sep: string, depth: nat, inKeyframes: bool)
    requires Accepted(rules, depth, inKeyframes) && All(sep, IsSheetChar)
    ensures All(PrintRules(rules, sep), IsSheetChar)
    decreases rules, 1
  {
    hide RuleOk, PrintRule, All;
    SheetLiterals();
    if rules != [] {
      RuleChars(rules[0], depth, inKeyframes);
      RulesChars(rules[1..], sep, depth, inKeyframes);
      AllConcat(PrintRule(rules[0]), sep, IsSheetChar);
      AllConcat(PrintRule(rules[0]) + sep, PrintRules(rules[1..], sep), IsSheetChar);
    }
  }

  /** A character that stands nowhere in the text, from the number of times it occurs. */
  lemma {:induction false} CountNone(s: string, c: char)
    requires Count(s, c) == 0
    ensures forall i :: 0 <= i < |s| ==> s[i] != c
  {
    if s != "" {
      CountNone(s[1..], c);
      assert forall i :: 1 <= i < |s| ==> s[i] == s[1..][i - 1];
    }
  }

  lemma CountAllowed(s: string)
    requires All(s, IsAllowedChar)
    ensures Count(s, '\U{FFFE}') == 0 && Count(s, '\U{FFFF}') == 0
  {
    CountZero(s, IsAllowedChar, '\U{FFFE}');
    CountZero(s, IsAllowedChar, '\U{FFFF}');
  }

  lemma AllowedIf(s: string)
    requires All(s, IsSheetChar) && Count(s, '\U{FFFE}') == 0 && Count(s, '\U{FFFF}') == 0
    ensures All(s, IsAllowedChar)
  {
    CountNone(s, '\U{FFFE}');
    CountNone(s, '\U{FFFF}');
    AllEach(s, IsSheetChar);
    AllEach(s, IsAllowedChar);
  }

  // ---- Comments ----

  lemma {:induction false} NoCommentFixed(s: string)
    requires !HasComment(s)
    ensures DeleteComments(s) == (s, false)
    decreases |s|
  {
    if s != "" {
      NoCommentFixed(s[1..]);
      assert s == [s[0]] + s[1..];
    }
  }

  /** `DeleteComments`, one step. */
  lemma DeleteOpen(s: string)
    requires "/*" <= s
    ensures DeleteComments(s) ==
            match CloseLen(s[2..]) case None => ("", true) case Some(k) => DeleteComments(s[k + 4..])
  {
    hide CloseLen;
    assert s != "";
  }

  lemma DeleteOther(s: string)
    requires s != "" && !("/*" <= s)
    ensures DeleteComments(s).0 == [s[0]] + DeleteComments(s[1..]).0
  {
    hide CloseLen;
  }

  lemma CountStep(c: char, s: string, d: char)
    ensures Count([c] + s, d) == (if c == d then 1 else 0) + Count(s, d)
  {
    assert ([c] + s)[1..] == s;
  }

  lemma CountSuffix(s: string, i: nat, c: char)
    requires i <= |s|
    ensures Count(s[i..], c) <= Count(s, c)
  {
    hide Count;
    assert s == s[..i] + s[i..];
    CountConcat(s[..i], s[i..], c);
  }

  lemma StarMark(s: string)
    requires "/*" <= s
    ensures Count(s, '*') == 1 + Count(s[2..], '*')
  {
    hide Count;
    assert s == ['/'] + (['*'] + s[2..]);
    CountStep('/', ['*'] + s[2..], '*');
    CountStep('*', s[2..], '*');
  }

  lemma NoStars()
    ensures Count("", '*') == 0
  {
  }

  lemma SmallText()
    ensures DeleteComments("").0 == "" && !HasComment("")
  {
  }

  lemma MarkLater(s: string)
    requires s != "" && !("/*" <= s)
    ensures HasComment(s) <==> HasComment(s[1..])
  {
  }

  /** Deleting comments removes at least one star from a text that has one. */
  lemma {:induction false} CommentStars(s: string)
    ensures Count(DeleteComments(s).0, '*') <= Count(s, '*')
    ensures HasComment(s) ==> Count(DeleteComments(s).0, '*') < Count(s, '*')
    decreases |s|
  {
    hide Count, DeleteComments, CloseLen, HasComment;
    NoStars();
    SmallText();
    if s != "" {
      if "/*" <= s {
        StarMark(s);
        DeleteOpen(s);
        var k := CloseLen(s[2..]);
        if k.Some? {
          CountSuffix(s[2..], k.value + 2, '*');
          Slice(s, 2, k.value + 2, |s| - 2);
          CommentStars(s[k.value + 4..]);
        }
      } else {
        CommentStars(s[1..]);
        MarkLater(s);
        DeleteOther(s);
        assert s == [s[0]] + s[1..];
        CountStep(s[0], s[1..], '*');
        CountStep(s[0], DeleteComments(s[1..]).0, '*');
      }
    }
  }

  // ---- When the stylesheet filter is stable ----

  lemma SheetNotBlank(rules: seq<Rule>, depth: nat, inKeyframes: bool)
    requires rules != [] && Accepted(rules, depth, inKeyframes)
    ensures Strip(PrintRules(rules, "\n")) != ""
  {
    var css := PrintRules(rules, "\n");
    var p := Prelude(rules[0]);
    assert PreludeOk(p);
    assert PrintRule(rules[0])[..|p|] == p;
    assert css[..|p|] == p;
    assert css[0] == p[0];
    StripNonEmpty(css, 0);
  }

  /** The filter changes nothing on its own output exactly when that output is empty, or fits the size
      cap and holds no start-of-comment mark. */
  lemma StylesheetIdempotent(text: string)
    ensures var css := Stylesheet(text).0;
            Stylesheet(css) == (css, false) <==> css == "" || (|css| <= MAX_SHEET_CHARS && !HasComment(css))
  {
    hide CleanItems, ParseBlocks, Strip, PrintRules, DeleteComments, Accepted, HasComment, All;
    var css := Stylesheet(text).0;
    if css == "" {
      assert Strip("") == "" by { StripEmpty(); }
    } else {
      var clean := DeleteComments(text).0;
      var c := CleanItems(ParseBlocks(clean), 0, 0, false);
      EmittedIsAccepted(clean);
      SheetNotBlank(c.rules, 0, false);
      if |css| <= MAX_SHEET_CHARS {
        if HasComment(css) {
          CommentedSheet(css);
        } else {
          NoCommentFixed(css);
          CleanRulesIdempotent(clean);
          PrintedAllowed(clean);
        }
      }
    }
  }

  lemma StripEmpty()
    ensures Strip("") == ""
  {
  }

  lemma PrintedAllowed(clean: string)
    requires All(clean, IsAllowedChar)
    ensures All(PrintRules(CleanItems(ParseBlocks(clean), 0, 0, false).rules, "\n"), IsAllowedChar)
  {
    hide CleanItems, ParseBlocks, PrintRules, Accepted, All;
    var items := ParseBlocks(clean);
    var rules := CleanItems(items, 0, 0, false).rules;
    EmittedIsAccepted(clean);
    SheetLiterals();
    RulesChars(rules, "\n", 0, false);
    CountAllowed(clean);
    CountCleaned(items, 0, 0, false, '\U{FFFE}');
    CountCleaned(items, 0, 0, false, '\U{FFFF}');
    CountBlocks(clean, '\U{FFFE}');
    CountBlocks(clean, '\U{FFFF}');
    AllowedIf(PrintRules(rules, "\n"));
  }

  lemma CommentedSheet(css: string)
    requires HasComment(css)
    ensures Stylesheet(css).0 != css
  {
    hide CleanItems, ParseBlocks, Strip, PrintRules, DeleteComments, HasComment, All, Count;
    CommentStars(css);
    var clean := DeleteComments(css).0;
    CountCleaned(ParseBlocks(clean), 0, 0, false, '*');
    CountBlocks(clean, '*');
    CountEmpty('*');
  }

  // ---- When the attribute filter is stable ----

  /** When no piece is malformed, the attribute filter keeps what the rule filter keeps. */
  lemma {:induction false} AttributeKeeps(pieces: seq<string>, already: nat)
    ensures KeepAttribute(pieces, already).Some? ==> KeepAttribute(pieces, already).value == KeepDecls(pieces, already)
  {
    hide ReadPiece;
    if pieces != [] {
      AttributeKeeps(pieces[1..], already);
      AttributeKeeps(pieces[1..], already + 1);
    }
  }

  lemma {:induction false} AttributeReadBack(decls: seq<Decl>, already: nat)
    requires DeclsOk(decls) && already + |decls| <= MAX_DECLARATIONS_PER_RULE
    ensures KeepAttribute(PrintEachDecl(decls), already) == Some((decls, false))
  {
    hide ReadPiece, DeclOk, PrintDecl;
    if decls != [] {
      DeclReadBack(decls[0], |decls| == 1);
      AttributeReadBack(decls[1..], already + 1);
      assert decls == [decls[0]] + decls[1..];
      assert PrintEachDecl(decls)[1..] == PrintEachDecl(decls[1..]);
    }
  }

  lemma CountDecl(d: Decl, last: bool, c: char)
    requires DeclOk(d, last) && IsForeign(c)
    ensures Count(PrintDecl(d), c) == Count(d.value.text, c)
  {
    hide Count, IsProperty, IsCleanValue, All;
    PropertyInert(d.prop);
    AllWeaken(d.prop, IsPropertyChar, IsPrinterChar) by { PropertyPrinter(); }
    PrinterLiterals();
    ImportantPrinter();
    CountZero(d.prop, IsPrinterChar, c);
    CountZero(":", IsPrinterChar, c);
    CountZero(IMPORTANT, IsPrinterChar, c);
    CountConcat(d.prop, ":", c);
    CountConcat(d.value.text, IMPORTANT, c);
    CountConcat(d.prop + ":", PrintValue(d.value), c);
  }

  lemma {:induction false} DeclsBalanced(decls: seq<Decl>)
    requires DeclsOk(decls)
    ensures Balanced(PrintDecls(decls))
  {
    hide PrintDecl, Count, Contains, ContainsCall, UrlsAreFragments, Run, ScanLen, Stripped, Collapsed,
      ImportantStart, All;
    CountEmpty('\"');
    CountEmpty('\'');
    CountEmpty('(');
    CountEmpty(')');
    if decls != [] {
      forall c | c in {'\"', '\'', '(', ')'}
        ensures Count(PrintDecls(decls), c) == Count(decls[0].value.text, c) + Count(PrintDecls(decls[1..]), c)
      {
        CountDecl(decls[0], |decls| == 1, c);
        if |decls| > 1 {
          PrinterLiterals();
          CountZero(";", IsPrinterChar, c);
          CountConcat(PrintDecl(decls[0]), ";", c);
          CountConcat(PrintDecl(decls[0]) + ";", PrintDecls(decls[1..]), c);
        }
      }
      DeclsBalanced(decls[1..]);
    }
  }

  lemma DeclsNotBlank(decls: seq<Decl>)
    requires decls != []
    ensures Strip(PrintDecls(decls)) != ""
  {
    var css := PrintDecls(decls);
    var first := PrintDecl(decls[0]);
    assert css[..|first|] == first;
    assert first[|decls[0].prop|] == ':' && css[|decls[0].prop|] == ':';
    StripNonEmpty(css, |decls[0].prop|);
  }

  /** The attribute filter changes nothing on its own output exactly when that output is empty, or fits
      the size cap and holds no start-of-comment mark, even when the last value ends inside a string
      or a parenthesis. */
  lemma StyleAttributeIdempotent(text: string)
    ensures var css := StyleAttribute(text).0;
            StyleAttribute(css) == (css, false) <==> css == "" || (|css| <= MAX_ATTRIBUTE_CHARS && !HasComment(css))
  {
    hide SplitPieces, KeepAttribute, KeepDecls, Strip, PrintDecls, DeleteComments, HasComment, All, Balanced;
    var css := StyleAttribute(text).0;
    if css == "" {
      StripEmpty();
    } else {
      var clean := DeleteComments(text).0;
      var decls := KeepDecls(SplitPieces(clean), 0).0;
      AttributeKeeps(SplitPieces(clean), 0);
      assert css == PrintDecls(decls);
      SplitPiecesOk(clean);
      KeepDeclsOk(SplitPieces(clean), 0);
      DeclsNotBlank(decls);
      if |css| <= MAX_ATTRIBUTE_CHARS {
        if HasComment(css) {
          CommentedAttribute(css);
        } else {
          NoCommentFixed(css);
          AttributeAllowed(clean);
          DeclsNoBrace(decls);
          DeclsBalanced(decls);
          PiecesReadBack(decls);
          AttributeReadBack(decls, 0);
        }
      }
    }
  }

  lemma AttributeAllowed(clean: string)
    requires All(clean, IsAllowedChar)
    ensures All(PrintDecls(KeepDecls(SplitPieces(clean), 0).0), IsAllowedChar)
  {
    hide SplitPieces, KeepDecls, PrintDecls, All;
    SplitPiecesOk(clean);
    KeepDeclsOk(SplitPieces(clean), 0);
    DeclsChars(KeepDecls(SplitPieces(clean), 0).0);
    AllWeaken(PrintDecls(KeepDecls(SplitPieces(clean), 0).0), IsDeclChar, IsSheetChar);
    CountAllowed(clean);
    CountKept(SplitPieces(clean), 0, '\U{FFFE}');
    CountKept(SplitPieces(clean), 0, '\U{FFFF}');
    CountPieces(clean, '\U{FFFE}');
    CountPieces(clean, '\U{FFFF}');
    AllowedIf(PrintDecls(KeepDecls(SplitPieces(clean), 0).0));
  }

  lemma CommentedAttribute(css: string)
    requires HasComment(css)
    ensures StyleAttribute(css).0 != css
  {
    hide SplitPieces, KeepAttribute, KeepDecls, Strip, PrintDecls, DeleteComments, HasComment, All, Count, Balanced;
    CommentStars(css);
    var clean := DeleteComments(css).0;
    AttributeKeeps(SplitPieces(clean), 0);
    CountKept(SplitPieces(clean), 0, '*');
    CountPieces(clean, '*');
    CountEmpty('*');
  }

  // ---- The shape of a printed sheet ----

  lemma PreludeMarks(r: Rule, depth: nat, inKeyframes: bool)
    requires RuleOk(r, depth, inKeyframes)
    ensures Count(Prelude(r), '{') == 0 && Count(Prelude(r), '}') == 0
    ensures Count(Prelude(r), '@') == if r.Style? then 0 else 1
  {
    hide All, IsKeyframeSelector, Lexed, Accepted, DeclsOk, Run, PrintDecls, Collapsed, Stripped, Count;
    PreludeNoBrace(r, depth, inKeyframes);
    CountZero(Prelude(r), NotBrace, '{');
    CountZero(Prelude(r), NotBrace, '}');
    match r
    case Style(selector, _) =>
      if inKeyframes {
        KeyframeSelectorAll(selector);
        CountZero(selector, IsStopChar, '@');
      } else {
        CountZero(selector, IsSelectorChar, '@');
      }
    case Media(condition, _) =>
      CountZero(condition, IsMediaChar, '@');
      HeaderMark("@media ");
      CountConcat("@media ", condition, '@');
    case Keyframes(name, _) =>
      CountZero(name, IsNameChar, '@');
      HeaderMark("@keyframes ");
      CountConcat("@keyframes ", name, '@');
  }

  lemma HeaderMark(header: string)
    requires header == "@media " || header == "@keyframes "
    ensures Count(header, '@') == 1
  {
    var tail := header[1..];
    AllEach(tail, IsPropertyOrSpace);
    CountZero(tail, IsPropertyOrSpace, '@');
  }

  predicate IsPropertyOrSpace(c: char) { IsPropertyChar(c) || c == ' ' }

  lemma {:induction false} BodyMarks(r: Rule, depth: nat, inKeyframes: bool, c: char)
    requires RuleOk(r, depth, inKeyframes) && c in {'{', '}', '@'}
    ensures Count(Body(r), c) == if r.Style? then 0 else if c == '@' then AtRuleCount(r.rules) else RuleCount(r.rules)
    decreases r, 0
  {
    hide Prelude, PrintDecls, PrintRules, Count, All, DeclsOk, Lexed, IsSelector, IsKeyframeSelector, Run, RuleCount,
      AtRuleCount;
    match r
    case Style(_, decls) =>
      DeclsChars(decls);
      CountZero(PrintDecls(decls), IsDeclChar, c);
    case Media(_, rules) => RulesMarks(rules, depth + 1, false, c);
    case Keyframes(_, rules) => RulesMarks(rules, depth + 1, true, c);
  }

  /** A printed sheet holds one `{` and one `}` for each of its rules, and one `@` for each at-rule. */
  lemma {:induction false} RulesMarks(rules: seq<Rule>, depth: nat, inKeyframes: bool, c: char)
    requires Accepted(rules, depth, inKeyframes) && c in {'{', '}', '@'}
    ensures Count(PrintRules(rules, "\n"), c) == if c == '@' then AtRuleCount(rules) else RuleCount(rules)
    decreases rules, 1
  {
    hide RuleOk, PrintRule, Count, Body, Prelude;
    if rules == [] {
      CountEmpty(c);
    } else {
      CountPrinted(rules, c);
      CountRule(rules[0], c);
      PreludeMarks(rules[0], depth, inKeyframes);
      BodyMarks(rules[0], depth, inKeyframes, c);
      RulesMarks(rules[1..], depth, inKeyframes, c);
    }
  }

  /** Whatever the author wrote, the printed sheet has no markup, entity or escape character, its braces
      nest, every `@` opens a kept at-rule, and there are at most `MAX_RULES` rules. */
  lemma SheetShape(text: string)
    ensures var rules := CleanItems(ParseBlocks(text), 0, 0, false).rules;
            var css := PrintRules(rules, "\n");
            && Accepted(rules, 0, false)
            && Count(css, '<') == 0 && Count(css, '&') == 0 && Count(css, '\\') == 0
            && Nested(Braces(None, 1), css, Braces(None, 1))
            && Count(css, '{') == Count(css, '}') == RuleCount(rules) <= MAX_RULES
            && Count(css, '@') == AtRuleCount(rules)
  {
    hide CleanItems, ParseBlocks, PrintRules, Accepted, All, Nested, Count;
    var rules := CleanItems(ParseBlocks(text), 0, 0, false).rules;
    var css := PrintRules(rules, "\n");
    EmittedIsAccepted(text);
    SheetLiterals();
    RulesChars(rules, "\n", 0, false);
    CountZero(css, IsSheetChar, '<');
    CountZero(css, IsSheetChar, '&');
    CountZero(css, IsSheetChar, '\\');
    RulesNested(rules, 0, false, 1);
    RulesMarks(rules, 0, false, '{');
    RulesMarks(rules, 0, false, '}');
    RulesMarks(rules, 0, false, '@');
  }
}
