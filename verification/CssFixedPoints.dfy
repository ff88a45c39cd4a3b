/** Every accepted sheet is a fixed point: printed, it is read back block by block and declaration
    by declaration, and nothing of it is dropped. */
module CssFixedPoints {
  import opened Text
  import opened CssLexer
  import opened CssGrammar
  import opened CssFilter

  // ---- Characters of the accepted parts ----

  predicate IsStopChar(c: char) {
    IsSpace(c) || IsLetter(c) || IsDecimal(c) || c == '.' || c == '%' || c == ','
  }

  lemma {:induction false} DigitRunAll(s: string)
    ensures All(s[..DigitRun(s)], IsStopChar)
  {
    if DigitRun(s) > 0 {
      DigitRunAll(s[1..]);
      assert s[..DigitRun(s)][1..] == s[1..][..DigitRun(s[1..])];
    }
  }

  lemma StopLiterals()
    ensures All("%", IsStopChar) && All(".", IsStopChar) && All("from", IsStopChar) && All("to", IsStopChar)
  {
    hide All, IsDecimal, IsSpace;
    AllEach("%", IsStopChar);
    AllEach(".", IsStopChar);
    AllEach("from", IsStopChar);
    AllEach("to", IsStopChar);
  }

  lemma KeyframeStopAll(s: string)
    requires IsKeyframeStop(s)
    ensures All(s, IsStopChar)
  {
    hide All, IsDecimal, DigitRun;
    StopLiterals();
    if IsPercentage(s) {
      var n := DigitRun(s);
      DigitRunAll(s);
      if s[n..] == "%" {
        assert s == s[..n] + "%";
        AllConcat(s[..n], "%", IsStopChar);
      } else {
        var t := s[n + 1..];
        DigitRunAll(t);
        var m := DigitRun(t);
        assert s == s[..n] + ("." + (t[..m] + "%"));
        AllConcat(t[..m], "%", IsStopChar);
        AllConcat(".", t[..m] + "%", IsStopChar);
        AllConcat(s[..n], "." + (t[..m] + "%"), IsStopChar);
      }
    }
  }

  lemma AllUnstrip(s: string, p: char -> bool)
    requires All(Strip(s), p) && forall c :: IsSpace(c) ==> p(c)
    ensures All(s, p)
  {
    var t := TrimLeft(s);
    TrimRightSplit(t);
    AllWeaken(t[|TrimRight(t)|..], IsSpace, p);
    AllConcat(TrimRight(t), t[|TrimRight(t)|..], p);
    TrimLeftSplit(s);
    AllWeaken(s[..|s| - |t|], IsSpace, p);
    AllConcat(s[..|s| - |t|], t, p);
  }

  lemma SpacesAreStops()
    ensures forall c :: IsSpace(c) ==> IsStopChar(c)
  {
  }

  lemma {:induction false} KeyframeSelectorAll(s: string)
    requires IsKeyframeSelector(s)
    ensures All(s, IsStopChar)
    decreases |s|
  {
    hide IsDecimal, IsSpace, IsKeyframeStop, Strip;
    var i := IndexOf(s, ',');
    SpacesAreStops();
    KeyframeStopAll(Strip(s[..i]));
    AllUnstrip(s[..i], IsStopChar);
    if i < |s| {
      KeyframeSelectorAll(s[i + 1..]);
      assert s == s[..i] + ("," + s[i + 1..]);
      AllConcat(",", s[i + 1..], IsStopChar);
      AllConcat(s[..i], "," + s[i + 1..], IsStopChar);
    } else {
      assert s == s[..i];
    }
  }

  lemma StopsNoBrace(s: string)
    requires All(s, IsStopChar)
    ensures All(s, NotBrace)
  {
    hide All;
    AllWeaken(s, IsStopChar, NotBrace);
  }

  lemma SelectorNoBrace(s: string)
    requires All(s, IsSelectorChar)
    ensures All(s, NotBrace)
  {
    hide All;
    AllWeaken(s, IsSelectorChar, NotBrace);
  }

  lemma MediaNoBrace(s: string)
    requires All(s, IsMediaChar)
    ensures All(s, NotBrace)
  {
    hide All;
    AllWeaken(s, IsMediaChar, NotBrace);
  }

  lemma NameNoBrace(s: string)
    requires All(s, IsNameChar)
    ensures All(s, NotBrace)
  {
    hide All;
    AllWeaken(s, IsNameChar, NotBrace);
  }

  lemma HeadersNoBrace()
    ensures All("@media ", NotBrace) && All("@keyframes ", NotBrace)
  {
    hide All;
    AllEach("@media ", NotBrace);
    AllEach("@keyframes ", NotBrace);
  }

  lemma PreludeNoBrace(r: Rule, depth: nat, inKeyframes: bool)
    requires RuleOk(r, depth, inKeyframes)
    ensures All(Prelude(r), NotBrace)
  {
    hide All, IsKeyframeSelector, Lexed, Accepted, DeclsOk, Run, PrintDecls, IsSelectorChar, IsMediaChar, IsNameChar,
      IsStopChar, NotBrace, Stripped;
    HeadersNoBrace();
    match r
    case Style(selector, _) =>
      if inKeyframes {
        KeyframeSelectorAll(selector);
        StopsNoBrace(selector);
      } else {
        SelectorNoBrace(selector);
      }
    case Media(condition, _) =>
      MediaNoBrace(condition);
      AllConcat("@media ", condition, NotBrace);
    case Keyframes(name, _) =>
      NameNoBrace(name);
      AllConcat("@keyframes ", name, NotBrace);
  }

  // ---- Declarations are read back ----

  /** The scanner sees nothing in the name of a property. */
  lemma PropertyInert(prop: string)
    requires IsProperty(prop)
    ensures AllInert(prop, {';'}) && All(prop, IsPropertyChar)
  {
    if "--" <= prop && IsPlainProperty(prop[2..]) {
      assert prop == "--" + prop[2..];
      AllConcat("--", prop[2..], IsPropertyChar);
      assert All("--", IsPropertyChar);
    }
    InertIfAll(prop, IsPropertyChar, {';'});
  }

  predicate IsImportantChar(c: char) { c == ' ' || c == '!' || IsLowerLetter(c) }

  lemma ImportantAll()
    ensures All(IMPORTANT, IsImportantChar)
  {
    hide All;
    AllEach(IMPORTANT, IsImportantChar);
  }

  lemma ImportantInert()
    ensures AllInert(IMPORTANT, {';'}) && All(IMPORTANT, IsDeclChar)
  {
    hide All, AllInert;
    ImportantAll();
    InertIfAll(IMPORTANT, IsImportantChar, {';'});
    AllWeaken(IMPORTANT, IsImportantChar, IsDeclChar);
  }

  /** A printed declaration is scanned as its value is. */
  lemma DeclLexed(d: Decl, last: bool)
    requires DeclOk(d, last)
    ensures Lexed(OUTSIDE, PrintDecl(d), {';'}, Run(OUTSIDE, d.value.text))
  {
    var text := d.value.text;
    var end := Run(OUTSIDE, text);
    if d.value.important {
      ImportantInert();
      LexedInert(end, IMPORTANT, {';'});
      LexedConcat(OUTSIDE, text, IMPORTANT, {';'}, end);
    }
    PropertyInert(d.prop);
    LexedInert(OUTSIDE, d.prop, {';'});
    LexedInert(OUTSIDE, ":", {';'});
    LexedConcat(OUTSIDE, d.prop, ":", {';'}, OUTSIDE);
    LexedConcat(OUTSIDE, d.prop + ":", PrintValue(d.value), {';'}, end);
  }

  /** The value a declaration ends with, as the scanner leaves it. */
  function EndOf(decls: seq<Decl>): Lex
    requires decls != []
  {
    Run(OUTSIDE, decls[|decls| - 1].value.text)
  }

  lemma RunSemicolon()
    ensures Run(OUTSIDE, ";") == OUTSIDE && Stops(OUTSIDE, ';', {';'})
  {
    assert ";"[1..] == "";
  }

  /** All but the last declaration leave the scanner outside. */
  lemma EndsOutside(d: Decl)
    requires DeclOk(d, false)
    ensures Lexed(OUTSIDE, PrintDecl(d), {';'}, OUTSIDE)
  {
    hide ScanLen, Run, IsProperty, Contains, ContainsCall, UrlsAreFragments, Count, PrintDecl;
    DeclLexed(d, false);
  }

  lemma {:induction false} RunDecls(decls: seq<Decl>)
    requires decls != [] && DeclsOk(decls)
    ensures Run(OUTSIDE, PrintDecls(decls)) == EndOf(decls)
  {
    hide Run, ScanLen, DeclOk, PrintDecl;
    DeclLexed(decls[0], |decls| == 1);
    if |decls| > 1 {
      var first, rest := PrintDecl(decls[0]), PrintDecls(decls[1..]);
      EndsOutside(decls[0]);
      RunConcat(OUTSIDE, first + ";", rest);
      RunConcat(OUTSIDE, first, ";");
      RunSemicolon();
      RunDecls(decls[1..]);
    }
  }

  /** A piece that leaves the scanner outside ends at its semicolon. */
  lemma PieceBack(first: string, rest: string)
    requires Lexed(OUTSIDE, first, {';'}, OUTSIDE)
    ensures SplitPieces(first + (";" + rest)) == [first] + SplitPieces(rest)
  {
    hide Run, Stops;
    var s := first + (";" + rest);
    ScanConcat(OUTSIDE, first, ";" + rest, {';'});
    RunSemicolon();
    assert (";" + rest)[0] == ';';
    assert ScanLen(OUTSIDE, s, {';'}) == |first|;
    assert s[..|first|] == first && s[|first| + 1..] == rest;
  }

  lemma LastPiece(last: string, end: Lex)
    requires last != "" && Lexed(OUTSIDE, last, {';'}, end)
    ensures SplitPieces(last) == [last]
  {
    assert last[..|last|] == last;
  }

  lemma {:induction false} PiecesReadBack(decls: seq<Decl>)
    requires DeclsOk(decls)
    ensures SplitPieces(PrintDecls(decls)) == PrintEachDecl(decls)
  {
    hide SplitPieces, DeclOk, PrintDecl, Lexed, Run;
    if decls == [] {
      assert SplitPieces("") == [] by { NoPieces(); }
    } else {
      var first := PrintDecl(decls[0]);
      DeclLexed(decls[0], |decls| == 1);
      if |decls| > 1 {
        var rest := PrintDecls(decls[1..]);
        EndsOutside(decls[0]);
        Regroup(first, ";", rest);
        PieceBack(first, rest);
        PiecesReadBack(decls[1..]);
      } else {
        assert PrintDecls(decls) == first;
        LastPiece(first, Run(OUTSIDE, decls[0].value.text));
        assert PrintEachDecl(decls[1..]) == [];
      }
    }
  }

  lemma {:induction false} FoldSelf(w: string)
    requires All(w, IsLowerLetter)
    ensures StartsFold(w, w)
  {
    if w != "" {
      FoldSelf(w[1..]);
    }
  }

  lemma FoldImportant()
    ensures StartsFold("important", "important")
  {
    hide All, StartsFold;
    AllEach("important", IsLowerLetter);
    FoldSelf("important");
  }

  /** Splitting `!important` off a value it was put behind gives the value back. */
  lemma ImportantReadBack(text: string)
    requires text != "" && Stripped(text)
    ensures ImportantStart(text + IMPORTANT) == Some(|text|)
  {
    hide TrimRight, StartsFold;
    FoldImportant();
    var v := text + IMPORTANT;
    TrimRightFixed(v);
    assert v[|v| - 9..] == "important";
    var u := v[..|v| - 9];
    assert u == text + " !";
    TrimRightFixed(u);
    assert u[..|u| - 1] == text + " ";
    TrimRightFixed(text);
    TrimRightSpace(text);
  }

  lemma TrimRightFixed(s: string)
    requires s != "" && !IsSpace(s[|s| - 1])
    ensures TrimRight(s) == s
  {
  }

  lemma TrimRightSpace(s: string)
    ensures TrimRight(s + " ") == TrimRight(s)
  {
    assert (s + " ")[..|s|] == s;
  }

  lemma ValueReadBack(d: Decl, last: bool)
    requires DeclOk(d, last)
    ensures CleanValue(d.prop, PrintValue(d.value)) == Some(d.value)
  {
    var text := d.value.text;
    StripStripped(text);
    CollapseFixed(text);
    if d.value.important {
      var v := text + IMPORTANT;
      StripStripped(v);
      ImportantReadBack(text);
      assert v[..|text|] == text;
    }
  }

  lemma StripNonEmpty(s: string, i: nat)
    requires i < |s| && !IsSpace(s[i])
    ensures Strip(s) != ""
  {
    if Strip(s) == "" {
      AllUnstrip(s, IsSpace);
      AllEach(s, IsSpace);
    }
  }

  /** A property name is taken as it stands. */
  lemma PropertyPlain(prop: string)
    requires IsProperty(prop)
    ensures prop != "" && !IsSpace(prop[0]) && Strip(prop) == prop && Lower(prop) == prop
    ensures forall i :: 0 <= i < |prop| ==> prop[i] != ':'
  {
    hide Strip, Lower, All, AllInert;
    PropertyInert(prop);
    AllEach(prop, IsPropertyChar);
    StripStripped(prop);
    LowerFixed(prop, IsPropertyChar);
  }

  lemma DeclReadBack(d: Decl, last: bool)
    requires DeclOk(d, last)
    ensures ReadPiece(PrintDecl(d)) == Good(d)
  {
    hide IsCleanValue, CleanValue, Strip, IndexOf, Lower, IsProperty, All, AllInert, IsSpace;
    var piece := PrintDecl(d);
    PropertyPlain(d.prop);
    IndexOfFirst(d.prop, ':', PrintValue(d.value));
    assert piece == d.prop + [':'] + PrintValue(d.value);
    var i := |d.prop|;
    assert piece[..i] == d.prop && piece[i + 1..] == PrintValue(d.value);
    ValueReadBack(d, last);
    StripNonEmpty(piece, 0);
  }

  lemma {:induction false} DeclsReadBack(decls: seq<Decl>, already: nat)
    requires DeclsOk(decls) && already + |decls| <= MAX_DECLARATIONS_PER_RULE
    ensures KeepDecls(PrintEachDecl(decls), already) == (decls, false)
  {
    hide ReadPiece, DeclOk, PrintDecl;
    if decls != [] {
      DeclReadBack(decls[0], |decls| == 1);
      DeclsReadBack(decls[1..], already + 1);
      assert decls == [decls[0]] + decls[1..];
      assert PrintEachDecl(decls)[1..] == PrintEachDecl(decls[1..]);
    }
  }

  lemma DeclChars(d: Decl, last: bool)
    requires DeclOk(d, last)
    ensures All(PrintDecl(d), IsDeclChar)
  {
    hide All, IsProperty, Contains, ContainsCall, UrlsAreFragments, Run, ScanLen, Count, Lower, ImportantStart;
    PropertyInert(d.prop);
    AllWeaken(d.prop, IsPropertyChar, IsDeclChar);
    AllWeaken(d.value.text, IsValueChar, IsDeclChar);
    ImportantInert();
    DeclLiterals();
    AllConcat(d.prop, ":", IsDeclChar);
    AllConcat(d.value.text, IMPORTANT, IsDeclChar);
    AllConcat(d.prop + ":", PrintValue(d.value), IsDeclChar);
  }

  lemma DeclLiterals()
    ensures All(":", IsDeclChar) && All(";", IsDeclChar) && All("", IsDeclChar)
  {
  }

  lemma {:induction false} DeclsChars(decls: seq<Decl>)
    requires DeclsOk(decls)
    ensures All(PrintDecls(decls), IsDeclChar)
  {
    hide DeclOk, PrintDecl, All;
    DeclLiterals();
    if decls != [] {
      DeclChars(decls[0], |decls| == 1);
      DeclsChars(decls[1..]);
      AllConcat(PrintDecl(decls[0]), ";", IsDeclChar);
      AllConcat(PrintDecl(decls[0]) + ";", PrintDecls(decls[1..]), IsDeclChar);
    }
  }

  lemma DeclsNoBrace(decls: seq<Decl>)
    requires DeclsOk(decls)
    ensures All(PrintDecls(decls), NotBrace)
  {
    DeclsChars(decls);
    AllWeaken(PrintDecls(decls), IsDeclChar, NotBrace);
  }

  // ---- Blocks are read back ----

  /** The scanner stops at the brace after the prelude, */
  lemma PreludeScanned(p: string, tail: string)
    requires PreludeOk(p) && tail != "" && tail[0] == '{'
    ensures ScanLen(OUTSIDE, p + tail, BLOCK_STOPS) == |p|
  {
    hide Run;
    ScanConcat(OUTSIDE, p, tail, BLOCK_STOPS);
    assert Stops(OUTSIDE, '{', BLOCK_STOPS);
  }

  /** and the brace that matches it is the one behind the body. */
  lemma BodyMatched(b: string, rest: string)
    requires Nested(Braces(None, 1), b, Braces(None, 1))
    ensures BraceLen(Braces(None, 0), "{" + (b + ("}" + rest))) == Some(|b| + 1)
  {
    var tail := "{" + (b + ("}" + rest));
    NestedConcat(Braces(None, 1), b, Braces(None, 1), "}" + rest);
    assert tail[1..] == b + ("}" + rest);
    assert BraceLen(Braces(None, 1), "}" + rest) == Some(0);
  }

  /** So a printed block is read back as the same prelude and body, with any text behind it. */
  lemma BlockReadBack(p: string, b: string, rest: string)
    requires PreludeOk(p) && Nested(Braces(None, 1), b, Braces(None, 1))
    ensures NextBlock(p + "{" + b + "}" + rest) == (Item(p, Some(b)), |p| + |b| + 2)
  {
    hide ScanLen, BraceLen, Run, Strip;
    var tail := "{" + (b + ("}" + rest));
    var t := p + "{" + b + "}" + rest;
    assert t == p + tail;
    assert tail[0] == '{';
    PreludeScanned(p, tail);
    assert t[..|p|] == p && t[|p|..] == tail && t[|p|] == '{';
    StripStripped(p);
    BodyMatched(b, rest);
    assert t[|p| + 1..|p| + 1 + |b|] == b;
  }

  lemma BracesNested(p: string, b: string, open: int)
    requires open >= 1
    requires Nested(Braces(None, open), p, Braces(None, open))
    requires Nested(Braces(None, open + 1), b, Braces(None, open + 1))
    ensures Nested(Braces(None, open), p + "{" + b + "}", Braces(None, open))
  {
    var outer, inner := Braces(None, open), Braces(None, open + 1);
    NestedOne(open);
    hide Nested;
    NestedTwo(outer, p, outer, "{", inner);
    NestedTwo(outer, p + "{", inner, b, inner);
    NestedTwo(outer, p + "{" + b, inner, "}", outer);
  }

  lemma NestedOne(open: int)
    requires open >= 1
    ensures Nested(Braces(None, open), "{", Braces(None, open + 1))
    ensures Nested(Braces(None, open + 1), "}", Braces(None, open))
  {
    assert "{"[1..] == "" && "}"[1..] == "";
  }

  lemma NestedTwo(b: Braces, a: string, mid: Braces, c: string, end: Braces)
    requires Nested(b, a, mid) && Nested(mid, c, end)
    ensures Nested(b, a + c, end)
  {
    hide BraceLen, BraceRun;
    NestedConcat(b, a, mid, c);
  }

  lemma PreludeNested(p: string, open: int)
    requires PreludeOk(p) && All(p, NotBrace)
    ensures Nested(Braces(None, open), p, Braces(None, open))
  {
    hide Nested, All;
    NestedFlat(None, open, 0, p);
  }

  /** Inside a block, a printed rule opens and closes exactly its own braces. */
  lemma {:induction false} RuleNested(r: Rule, depth: nat, inKeyframes: bool, open: int)
    requires RuleOk(r, depth, inKeyframes) && open >= 1
    ensures Nested(Braces(None, open), Body(r), Braces(None, open))
    ensures Nested(Braces(None, open), PrintRule(r), Braces(None, open))
    decreases r, 0
  {
    hide Nested, PreludeOk, Prelude, Body;
    BodyNested(r, depth, inKeyframes, open);
    BodyNested(r, depth, inKeyframes, open + 1);
    PreludeNoBrace(r, depth, inKeyframes);
    PreludeNested(Prelude(r), open);
    BracesNested(Prelude(r), Body(r), open);
  }

  lemma {:induction false} BodyNested(r: Rule, depth: nat, inKeyframes: bool, open: int)
    requires RuleOk(r, depth, inKeyframes) && open >= 1
    ensures Nested(Braces(None, open), Body(r), Braces(None, open))
    decreases r, 0, 0
  {
    match r
    case Style(_, decls) =>
      DeclsNoBrace(decls);
      NestedFlat(None, open, 0, PrintDecls(decls));
    case Media(_, rules) => RulesNested(rules, depth + 1, false, open);
    case Keyframes(_, rules) => RulesNested(rules, depth + 1, true, open);
  }

  lemma {:induction false} RulesNested(rules: seq<Rule>, depth: nat, inKeyframes: bool, open: int)
    requires Accepted(rules, depth, inKeyframes) && open >= 1
    ensures Nested(Braces(None, open), PrintRules(rules, "\n"), Braces(None, open))
    decreases rules, 1
  {
    hide RuleOk;
    if rules != [] {
      var b := Braces(None, open);
      RuleNested(rules[0], depth, inKeyframes, open);
      RulesNested(rules[1..], depth, inKeyframes, open);
      assert Nested(b, "\n", b);
      NestedConcat(b, PrintRule(rules[0]), b, "\n");
      NestedConcat(b, PrintRule(rules[0]) + "\n", b, PrintRules(rules[1..], "\n"));
    }
  }

  function ItemsOf(rules: seq<Rule>): seq<Item> {
    if rules == [] then [] else [Item(Prelude(rules[0]), Some(Body(rules[0])))] + ItemsOf(rules[1..])
  }

  lemma {:induction false} TrimLeftSpaces(sep: string, s: string)
    requires All(sep, IsSpace)
    ensures TrimLeft(sep + s) == TrimLeft(s)
  {
    if sep == "" {
      assert sep + s == s;
    } else {
      assert (sep + s)[1..] == sep[1..] + s;
      TrimLeftSpaces(sep[1..], s);
    }
  }

  /** `_parse_blocks` of printed rules, with any spaces between them, gives back their preludes and
      bodies: the scanner and the brace matcher agree on everything the printer writes. */
  lemma {:induction false} SheetReadBack(rules: seq<Rule>, sep: string, depth: nat, inKeyframes: bool)
    requires Accepted(rules, depth, inKeyframes) && All(sep, IsSpace)
    ensures ParseBlocks(PrintRules(rules, sep)) == ItemsOf(rules)
  {
    hide RuleOk, ParseBlocks, PrintRule, Prelude, Body;
    if rules == [] {
      BlankSheet();
    } else {
      var next := PrintRules(rules[1..], sep);
      RuleReadBack(rules[0], if |rules| == 1 then "" else sep + next, depth, inKeyframes);
      SheetReadBack(rules[1..], sep, depth, inKeyframes);
      SkipSeparator(sep, next);
      Regroup(PrintRule(rules[0]), sep, next);
    }
  }

  lemma BlankSheet()
    ensures ParseBlocks("") == []
  {
  }

  lemma RuleReadBack(r: Rule, rest: string, depth: nat, inKeyframes: bool)
    requires RuleOk(r, depth, inKeyframes)
    ensures ParseBlocks(PrintRule(r) + rest) == [Item(Prelude(r), Some(Body(r)))] + ParseBlocks(rest)
  {
    hide NextBlock, Nested, Body, Prelude;
    var p, b := Prelude(r), Body(r);
    var s := PrintRule(r) + rest;
    RuleNested(r, depth, inKeyframes, 1);
    BlockReadBack(p, b, rest);
    assert s[0] == p[0] && TrimLeft(s) == s;
    assert s[|p| + |b| + 2..] == rest;
  }

  lemma SkipSeparator(sep: string, s: string)
    requires All(sep, IsSpace)
    ensures ParseBlocks(sep + s) == ParseBlocks(s)
  {
    TrimLeftSpaces(sep, s);
  }

  // ---- Rules are kept ----

  lemma MediaReadBack(condition: string)
    requires IsMediaCondition(condition) && Stripped(condition) && Collapsed(condition)
    ensures MediaCondition("@media " + condition) == Some(condition)
    ensures Collapse(Strip(condition)) == condition
  {
    assert ("@media " + condition)[6..] == " " + condition;
    assert TrimLeft(" " + condition) == TrimLeft(condition) == condition by {
      assert (" " + condition)[1..] == condition;
    }
    StripStripped(condition);
    CollapseFixed(condition);
  }

  lemma KeyframesReadBack(name: string)
    requires IsKeyframesName(name)
    ensures MediaCondition("@keyframes " + name) == None
    ensures KeyframesName("@keyframes " + name) == Some(name)
  {
    assert ("@keyframes " + name)[1] == 'k' && "@media"[1] == 'm';
    assert ("@keyframes " + name)[10..] == " " + name;
    assert TrimLeft(" " + name) == TrimLeft(name) == name by {
      assert (" " + name)[1..] == name;
    }
  }

  lemma SelectorNotAt(selector: string, inKeyframes: bool)
    requires if inKeyframes then IsKeyframeSelector(selector) else IsSelector(selector)
    ensures !("@" <= selector)
  {
    if inKeyframes {
      KeyframeSelectorAll(selector);
      AllEach(selector, IsStopChar);
    } else {
      AllEach(selector, IsSelectorChar);
    }
  }

  lemma StyleKept(selector: string, decls: seq<Decl>, depth: nat, count: nat, inKeyframes: bool)
    requires depth <= MAX_MEDIA_DEPTH && RuleOk(Style(selector, decls), depth, inKeyframes)
    ensures CleanItem(selector, PrintDecls(decls), depth, count + 1, inKeyframes)
         == Cleaned([Style(selector, decls)], false, count + 1)
  {
    hide IsSelector, IsKeyframeSelector, All, PrintDecls, Collapse, SplitPieces, KeepDecls, Lexed, Collapsed, DeclsOk;
    SelectorNotAt(selector, inKeyframes);
    CollapseFixed(selector);
    DeclsNoBrace(decls);
    PiecesReadBack(decls);
    DeclsReadBack(decls, 0);
  }

  lemma MediaKept(condition: string, body: string, depth: nat, count: nat)
    requires depth < MAX_MEDIA_DEPTH
    requires IsMediaCondition(condition) && Stripped(condition) && Collapsed(condition)
    ensures var inner := CleanItems(ParseBlocks(body), depth + 1, count, false);
            CleanItem("@media " + condition, body, depth, count, false) ==
            inner.(rules := if inner.rules == [] then [] else [Media(condition, inner.rules)])
  {
    hide MediaCondition, KeyframesName, IsMediaCondition, ParseBlocks, CleanItems, Collapse, Strip, Stripped, Collapsed;
    MediaReadBack(condition);
    assert ("@media " + condition)[0] == '@';
  }

  lemma KeyframesKept(name: string, body: string, count: nat)
    requires IsKeyframesName(name)
    ensures var inner := CleanItems(ParseBlocks(body), 1, count, true);
            CleanItem("@keyframes " + name, body, 0, count, false) ==
            inner.(rules := if inner.rules == [] then [] else [Keyframes(name, inner.rules)])
  {
    hide MediaCondition, KeyframesName, IsKeyframesName, ParseBlocks, CleanItems;
    KeyframesReadBack(name);
    assert ("@keyframes " + name)[0] == '@';
  }

  lemma RuleCountOne(r: Rule)
    ensures RuleCount([r]) == 1 + if r.Style? then 0 else RuleCount(r.rules)
  {
    assert [r][1..] == [];
  }

  lemma {:induction false} RuleKept(r: Rule, depth: nat, count: nat, inKeyframes: bool)
    requires depth <= MAX_MEDIA_DEPTH && RuleOk(r, depth, inKeyframes)
    requires count + RuleCount([r]) <= MAX_RULES
    ensures CleanItem(Prelude(r), Body(r), depth, count + 1, inKeyframes)
         == Cleaned([r], false, count + RuleCount([r]))
    decreases r, 0
  {
    hide CleanItem, CleanItems, IsSelector, IsKeyframeSelector, IsMediaCondition, IsKeyframesName, ParseBlocks,
         PrintDecls, PrintRules, Lexed, Collapsed, Stripped, RuleCount, Accepted, DeclsOk, ItemsOf, PreludeOk, Run;
    RuleCountOne(r);
    SpaceLiteral();
    match r
    case Style(selector, decls) => StyleKept(selector, decls, depth, count, inKeyframes);
    case Media(condition, rules) =>
      SheetReadBack(rules, "\n", depth + 1, false);
      RulesKept(rules, depth + 1, count + 1, false);
      MediaKept(condition, Body(r), depth, count + 1);
    case Keyframes(name, rules) =>
      SheetReadBack(rules, "\n", depth + 1, true);
      RulesKept(rules, depth + 1, count + 1, true);
      KeyframesKept(name, Body(r), count + 1);
  }

  lemma SpaceLiteral()
    ensures All("\n", IsSpace) && All("", IsSpace)
  {
  }

  lemma {:induction false} RuleCountAppend(a: seq<Rule>, b: seq<Rule>)
    ensures RuleCount(a + b) == RuleCount(a) + RuleCount(b)
  {
    if a == [] {
      assert a + b == b;
    } else {
      assert (a + b)[1..] == a[1..] + b;
      RuleCountAppend(a[1..], b);
    }
  }

  /** The filter keeps every rule of an accepted sheet and counts each of them once. */
  lemma {:induction false} RulesKept(rules: seq<Rule>, depth: nat, count: nat, inKeyframes: bool)
    requires depth <= MAX_MEDIA_DEPTH && Accepted(rules, depth, inKeyframes)
    requires count + RuleCount(rules) <= MAX_RULES
    ensures CleanItems(ItemsOf(rules), depth, count, inKeyframes)
         == Cleaned(rules, false, count + RuleCount(rules))
    decreases rules, 1
  {
    hide RuleOk, CleanItem, Prelude, Body;
    if rules != [] {
      assert rules == [rules[0]] + rules[1..];
      RuleCountAppend([rules[0]], rules[1..]);
      RuleKept(rules[0], depth, count, inKeyframes);
      RulesKept(rules[1..], depth, count + RuleCount([rules[0]]), inKeyframes);
      assert ItemsOf(rules)[1..] == ItemsOf(rules[1..]);
    }
  }

  /** Filtering a printed sheet of at most `MAX_RULES` accepted rules gives the same rules back and
      reports nothing dropped, whatever spaces stand between the rules. */
  lemma AcceptedIsFixed(rules: seq<Rule>, sep: string)
    requires Accepted(rules, 0, false) && RuleCount(rules) <= MAX_RULES && All(sep, IsSpace)
    ensures CleanItems(ParseBlocks(PrintRules(rules, sep)), 0, 0, false)
         == Cleaned(rules, false, RuleCount(rules))
  {
    SheetReadBack(rules, sep, 0, false);
    RulesKept(rules, 0, 0, false);
  }
}
