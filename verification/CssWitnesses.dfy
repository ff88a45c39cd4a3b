/** Inputs on which a second pass of the filters does change their output. */
module CssWitnesses {
  import opened Text
  import opened CssLexer
  import opened CssGrammar
  import opened CssFilter
  import opened CssFixedPoints
  import opened CssSanitizer
  import opened CssTheorems

  // ---- Values without letters that any pattern starts with ----

  predicate IsDull(c: char) { c == '/' || c == '*' || c == 'x' }

  predicate IsPatternStart(c: char) { IsLowerLetter(c) && c != 'x' }

  lemma {:induction false} DullContains(v: string, word: string, mark: char)
    requires All(v, IsDull) && word != "" && IsPatternStart(word[0])
    ensures !Contains(v, word) && !ContainsCall(v, word, mark)
  {
    if v != "" {
      DullContains(v[1..], word, mark);
    }
  }

  lemma {:induction false} DullUrls(v: string)
    requires All(v, IsDull)
    ensures UrlsAreFragments(v)
  {
    if v != "" {
      DullUrls(v[1..]);
    }
  }

  lemma DullBad(v: string)
    requires All(v, IsDull)
    ensures !IsBadValue(v)
  {
    hide Contains, ContainsCall;
    AllWeaken(v, IsDull, IsValueChar);
    DullContains(v, "javascript", '(');
    DullContains(v, "vbscript", '(');
    DullContains(v, "expression", '(');
    DullContains(v, "behavior", '(');
    DullContains(v, "binding", '(');
    DullContains(v, "image-set", '(');
    DullContains(v, "cross-fade", '(');
    DullContains(v, "image", '(');
    DullContains(v, "src", '(');
    DullContains(v, "element", '(');
    DullContains(v, "paint", '(');
    DullContains(v, "attr", '(');
    DullContains(v, "data", ':');
  }

  lemma {:induction false} DullSpaces(v: string)
    requires All(v, IsDull)
    ensures Collapsed(v) && Stripped(v)
  {
    AllEach(v, IsDull);
    if v != "" {
      DullSpaces(v[1..]);
    }
  }

  lemma DullImportant(v: string)
    requires All(v, IsDull)
    ensures ImportantStart(v) == None
  {
    AllEach(v, IsDull);
    DullSpaces(v);
    if v != "" {
      TrimRightFixed(v);
      if |v| >= 9 {
        assert v[|v| - 9..][0] == v[|v| - 9];
      }
    }
  }

  lemma DullDecl(v: string)
    requires v != "" && |v| <= MAX_VALUE_CHARS && All(v, IsDull)
    ensures DeclOk(Decl("top", Value(v, false)), true)
    ensures Run(OUTSIDE, v) == OUTSIDE
  {
    hide IsBadValue, UrlsAreFragments, ImportantStart, Collapsed, Stripped, Count, Run, ScanLen, All;
    DullBad(v);
    DullUrls(v);
    DullSpaces(v);
    DullImportant(v);
    CountZero(v, IsDull, '\"');
    CountZero(v, IsDull, '\'');
    CountZero(v, IsDull, '(');
    CountZero(v, IsDull, ')');
    InertIfAll(v, IsDull, {';'});
    LexedInert(OUTSIDE, v, {';'});
    TopIsProperty();
  }

  lemma TopIsProperty()
    ensures IsProperty("top") && "top" !in BAD_PROPERTIES && "top" != "position"
  {
    AllEach("top", IsPropertyChar);
  }

  function DullRule(v: string): Rule {
    Style("p", [Decl("top", Value(v, false))])
  }

  lemma OneDecl(d: Decl)
    ensures DeclsOk([d]) <==> DeclOk(d, true)
    ensures PrintDecls([d]) == PrintDecl(d)
  {
    hide DeclOk, PrintDecl;
    assert [d][1..] == [];
  }

  lemma PrintTop(v: string)
    ensures PrintDecl(Decl("top", Value(v, false))) == "top:" + v
  {
    assert "top" + ":" == "top:";
    Regroup("top", ":", v);
  }

  lemma DullDecls(v: string)
    requires v != "" && |v| <= MAX_VALUE_CHARS && All(v, IsDull)
    ensures var decls := [Decl("top", Value(v, false))];
            && DeclsOk(decls) && PrintDecls(decls) == "top:" + v && Run(OUTSIDE, PrintDecls(decls)) == OUTSIDE
  {
    hide DeclOk, Run, All, PrintDecl, PrintDecls, DeclsOk;
    var d := Decl("top", Value(v, false));
    DullDecl(v);
    OneDecl(d);
    PrintTop(v);
    RunDecls([d]);
  }

  lemma DullRuleOk(v: string)
    requires v != "" && |v| <= MAX_VALUE_CHARS && All(v, IsDull)
    ensures RuleOk(DullRule(v), 0, false)
    ensures PrintRule(DullRule(v)) == "p{top:" + v + "}"
  {
    hide DeclsOk, PrintDecls, Run, All, IsSelector, PreludeOk, Collapsed, PrintRule;
    DullDecls(v);
    SelectorP();
    DullPrint(v);
  }

  lemma DullPrint(v: string)
    ensures PrintRule(DullRule(v)) == "p{top:" + v + "}"
  {
    hide PrintDecls, PrintDecl;
    OneDecl(Decl("top", Value(v, false)));
    PrintTop(v);
    assert "p" + "{" + "top:" == "p{top:";
    Regroup("p" + "{", "top:", v);
  }

  lemma SelectorP()
    ensures IsSelector("p") && PreludeOk("p") && Collapsed("p")
  {
    AllEach("p", IsSelectorChar);
  }

  // ---- A comment that forms when another is deleted ----

  lemma KeepChar(c: char, s: string)
    requires c != '/' || s == "" || s[0] != '*'
    ensures DeleteComments([c] + s) == ([c] + DeleteComments(s).0, DeleteComments(s).1)
  {
    assert |s| > 0 ==> ([c] + s)[1] == s[0];
    assert ([c] + s)[1..] == s;
  }

  lemma EmptyCommentDeleted()
    ensures DeleteComments("/**/*") == ("*", false)
  {
    assert CloseLen("*/*") == Some(0);
    assert "/**/*"[2..] == "*/*" && "/**/*"[4..] == "*";
    KeepChar('*', "");
    assert ['*'] + "" == "*";
    assert "/*" <= "/**/*";
  }

  lemma CommentForms()
    ensures DeleteComments("top://**/*") == ("top:/*", false)
    ensures HasComment("top:/*")
  {
    hide DeleteComments, HasComment;
    EmptyCommentDeleted();
    KeepChar('/', "/**/*");
    assert ['/'] + "/**/*" == "//**/*" && ['/'] + "*" == "/*";
    KeepChar(':', "//**/*");
    assert [':'] + "//**/*" == "://**/*" && [':'] + "/*" == ":/*";
    KeepChar('p', "://**/*");
    assert ['p'] + "://**/*" == "p://**/*" && ['p'] + ":/*" == "p:/*";
    KeepChar('o', "p://**/*");
    assert ['o'] + "p://**/*" == "op://**/*" && ['o'] + "p:/*" == "op:/*";
    KeepChar('t', "op://**/*");
    assert ['t'] + "op://**/*" == "top://**/*" && ['t'] + "op:/*" == "top:/*";
    StillCommented();
  }

  lemma StillCommented()
    ensures HasComment("top:/*")
  {
    assert "/*" <= "/*";
    HasCommentAppend("top:", "/*");
    assert "top:" + "/*" == "top:/*";
  }

  // What is printed for this attribute holds a start-of-comment mark, and a second pass refuses it.
  lemma AttributeCommentWitness()
    ensures StyleAttribute("top://**/*") == ("top:/*", false)
    ensures StyleAttribute("top:/*") != ("top:/*", false)
  {
    hide ReadPiece, SplitPieces, PrintDecl, HasComment, DeleteComments, All, Count, Strip, KeepAttribute;
    var text, css := "top://**/*", "top:/*";
    var decls := [Decl("top", Value("/*", false))];
    assert All("/*", IsDull) by { AllEach("/*", IsDull); }
    CommentForms();
    DullDecl("/*");
    assert decls[1..] == [] && DeclsOk(decls);
    assert PrintDecls(decls) == css by { TopStar(); }
    DeclsNoBrace(decls);
    DeclsBalanced(decls);
    PiecesReadBack(decls);
    AttributeReadBack(decls, 0);
    AllEach(css, IsAllowedChar);
    assert text[0] == 't' && css[0] == 't';
    StripNonEmpty(text, 0);
    StyleAttributeIdempotent(text);
  }

  lemma TopStar()
    ensures PrintDecls([Decl("top", Value("/*", false))]) == "top:/*"
  {
  }

  lemma {:induction false} HasCommentAppend(a: string, b: string)
    requires HasComment(b)
    ensures HasComment(a + b)
  {
    if a == "" {
      assert a + b == b;
    } else {
      HasCommentAppend(a[1..], b);
      assert (a + b)[1..] == a[1..] + b;
    }
  }

  // ---- A sheet that outgrows the size cap ----

  function Copies(r: Rule, n: nat): (rules: seq<Rule>)
    ensures |rules| == n
  {
    if n == 0 then [] else [r] + Copies(r, n - 1)
  }

  lemma {:induction false} CopiesOk(r: Rule, n: nat)
    requires RuleOk(r, 0, false) && r.Style?
    ensures Accepted(Copies(r, n), 0, false) && RuleCount(Copies(r, n)) == n
  {
    hide RuleOk;
    if n > 0 {
      CopiesOk(r, n - 1);
    }
  }

  lemma {:induction false} CopiesLength(r: Rule, n: nat, sep: string)
    ensures n > 0 ==> |PrintRules(Copies(r, n), sep)| == n * |PrintRule(r)| + (n - 1) * |sep|
  {
    hide PrintRule;
    if n > 1 {
      CopiesLength(r, n - 1, sep);
      assert Copies(r, n)[1..] == Copies(r, n - 1);
    }
  }

  predicate IsX(c: char) { c == 'x' }

  predicate IsSmall(c: char) { c in {'p', '{', 't', 'o', ':', 'x', '}', '\n'} }

  lemma {:induction false} CopiesSmall(v: string, n: nat, sep: string)
    requires v != "" && |v| <= MAX_VALUE_CHARS && All(v, IsX) && All(sep, IsSmall)
    ensures All(PrintRules(Copies(DullRule(v), n), sep), IsSmall)
  {
    hide PrintRule, DullRule, All;
    if n == 0 {
      assert All("", IsSmall) by { AllEach("", IsSmall); }
    } else {
      var rules := Copies(DullRule(v), n);
      AllWeaken(v, IsX, IsDull);
      DullRuleOk(v);
      AllEach("p{top:", IsSmall);
      AllEach("}", IsSmall);
      AllWeaken(v, IsX, IsSmall);
      AllConcat("p{top:", v, IsSmall);
      AllConcat("p{top:" + v, "}", IsSmall);
      CopiesSmall(v, n - 1, sep);
      assert rules[1..] == Copies(DullRule(v), n - 1);
      AllConcat(PrintRule(rules[0]), sep, IsSmall);
      AllConcat(PrintRule(rules[0]) + sep, PrintRules(rules[1..], sep), IsSmall);
    }
  }

  lemma SmallClean(s: string)
    requires s != "" && All(s, IsSmall) && s[0] == 'p'
    ensures DeleteComments(s) == (s, false) && All(s, IsAllowedChar) && Strip(s) != ""
  {
    AllWeaken(s, IsSmall, IsAllowedChar);
    CountZero(s, IsSmall, '*');
    NoStarNoComment(s);
    NoCommentFixed(s);
    StripNonEmpty(s, 0);
  }

  lemma {:induction false} NoStarNoComment(s: string)
    requires Count(s, '*') == 0
    ensures !HasComment(s)
  {
    if s != "" {
      NoStarNoComment(s[1..]);
    }
  }

  predicate Outgrows(text: string) {
    var css := Stylesheet(text);
    !css.1 && |css.0| > MAX_SHEET_CHARS && Stylesheet(css.0) == ("", true)
  }

  lemma StartsWithP(v: string, n: nat, sep: string)
    requires n > 0 && v != "" && |v| <= MAX_VALUE_CHARS && All(v, IsDull)
    ensures var s := PrintRules(Copies(DullRule(v), n), sep); s != "" && s[0] == 'p'
  {
    hide PrintRule, DullRule, All;
    DullRuleOk(v);
  }

  /** Copies of a rule with nothing between them are printed one to a line. */
  lemma CopiesSplit(v: string, n: nat)
    requires v != "" && |v| <= MAX_VALUE_CHARS && All(v, IsX) && 0 < n <= MAX_RULES
    requires |PrintRules(Copies(DullRule(v), n), "")| <= MAX_SHEET_CHARS
    ensures Stylesheet(PrintRules(Copies(DullRule(v), n), "")) == (PrintRules(Copies(DullRule(v), n), "\n"), false)
  {
    hide CleanItems, ParseBlocks, PrintRules, PrintRule, DeleteComments, Accepted, All, Strip, RuleOk, Copies;
    var rules := Copies(DullRule(v), n);
    AllWeaken(v, IsX, IsDull);
    DullRuleOk(v);
    CopiesOk(DullRule(v), n);
    SpaceLiteral();
    AcceptedIsFixed(rules, "");
    AllEach("", IsSmall);
    CopiesSmall(v, n, "");
    StartsWithP(v, n, "");
    SmallClean(PrintRules(rules, ""));
  }

  lemma TooLong(css: string)
    requires |css| > MAX_SHEET_CHARS && css[0] == 'p'
    ensures Stylesheet(css) == ("", true)
  {
    hide Strip, CleanItems, ParseBlocks, DeleteComments, All, PrintRules;
    assert !IsSpace('p') by { PNotSpace(); }
    StripNonEmpty(css, 0);
  }

  lemma PNotSpace()
    ensures !IsSpace('p')
  {
  }

  /** Two thousand rules with nothing between them fit the cap; printed one to a line, they do not. */
  lemma SheetSizeWitness()
    ensures exists text :: |text| <= MAX_SHEET_CHARS && Outgrows(text)
  {
    hide PrintRules, PrintRule, Stylesheet, DullRule, All, Copies;
    var v := seq(25, _ => 'x');
    var rules := Copies(DullRule(v), 2000);
    var text, css := PrintRules(rules, ""), PrintRules(rules, "\n");
    AllEach(v, IsX);
    AllWeaken(v, IsX, IsDull);
    DullRuleOk(v);
    CopiesLength(DullRule(v), 2000, "");
    CopiesLength(DullRule(v), 2000, "\n");
    CopiesSplit(v, 2000);
    StartsWithP(v, 2000, "\n");
    TooLong(css);
    assert Outgrows(text);
  }
}
