/** Deleting comments: exactly the comments go, and the filters see the text without them. */
module CssDeletion {
  import opened Text
  import opened CssLexer
  import opened CssGrammar
  import opened CssFilter
  import opened CssFixedPoints
  import opened CssSanitizer
  import opened CssTheorems
  import opened CssComments

  // ---- The first end of a comment ----

  /** No `*` has a `/` behind it. */
  ghost predicate NoEnd(s: string) {
    forall i, j :: 0 <= i < |s| && j == i + 1 < |s| && s[i] == '*' ==> s[j] != '/'
  }

  lemma NoEndRest(s: string)
    requires s != "" && NoEnd(s)
    ensures NoEnd(s[1..])
  {
    var t := s[1..];
    forall i, j | 0 <= i < |t| && j == i + 1 < |t| && t[i] == '*' ensures t[j] != '/' {
      assert t[i] == s[i + 1] && t[j] == s[j + 1];
    }
  }

  lemma EndFirst(s: string)
    ensures "*/" <= s <==> |s| > 1 && s[0] == '*' && s[1] == '/'
  {
  }

  lemma CloseStep(s: string)
    requires s != "" && !("*/" <= s)
    ensures CloseLen(s) == match CloseLen(s[1..]) case None => None case Some(k) => Some(k + 1)
  {
  }

  lemma CloseHere(s: string)
    ensures CloseLen("*/" + s) == Some(0) && CloseLen("") == None
  {
    assert "*/" <= "*/" + s;
  }

  /** A comment ends at its first end mark, whatever is behind it. */
  lemma {:induction false} CloseFirst(c: string, rest: string)
    requires NoEnd(c)
    ensures CloseLen(c + "*/" + rest) == Some(|c|)
  {
    hide CloseLen;
    if c == "" {
      CloseHere(rest);
      assert c + "*/" + rest == "*/" + rest;
    } else {
      var s := c + "*/" + rest;
      NoEndRest(c);
      EndFirst(s);
      assert s[0] == c[0] && s[1] == if |c| > 1 then c[1] else '*';
      hide NoEnd;
      CloseFirst(c[1..], rest);
      assert s[1..] == c[1..] + "*/" + rest;
      CloseStep(s);
    }
  }

  /** Without one it runs to the end of the text. */
  lemma {:induction false} CloseNone(c: string)
    requires NoEnd(c)
    ensures CloseLen(c) == None
  {
    hide CloseLen;
    CloseHere("");
    if c != "" {
      NoEndRest(c);
      EndFirst(c);
      hide NoEnd;
      CloseNone(c[1..]);
      CloseStep(c);
    }
  }

  // ---- What deletion leaves ----

  lemma OneMore(c: char, s: string)
    requires c != '/' || s == "" || s[0] != '*'
    ensures DeleteComments([c] + s) == ([c] + DeleteComments(s).0, DeleteComments(s).1)
  {
    var t := [c] + s;
    MarkFirst(t);
    assert t[1..] == s && (s != "" ==> t[1] == s[0]);
    hide CloseLen;
  }

  /** Two texts side by side that do not form a mark between them. */
  ghost predicate Apart(a: string, b: string) {
    a == "" || b == "" || a[|a| - 1] != '/' || b[0] != '*'
  }

  /** Text without a mark is left as it is, whatever follows it. */
  lemma {:induction false} DeleteAfter(a: string, b: string)
    requires !HasComment(a) && Apart(a, b)
    ensures DeleteComments(a + b) == (a + DeleteComments(b).0, DeleteComments(b).1)
  {
    hide DeleteComments, HasComment;
    if a == "" {
      assert a + b == b && a + DeleteComments(b).0 == DeleteComments(b).0;
    } else {
      ClearExactly(a);
      ClearFrom(a, 1);
      ClearExactly(a[1..]);
      var c, rest := a[0], a[1..];
      assert a == [c] + rest;
      assert rest != "" && c == '/' ==> rest[0] != '*' by { assert rest != "" ==> rest[0] == a[1]; }
      DeleteAfter(rest, b);
      assert rest + b != "" ==> (rest + b)[0] == if rest == "" then b[0] else rest[0];
      OneMore(c, rest + b);
      Regroup([c], rest, b);
      Regroup([c], rest, DeleteComments(b).0);
    }
  }

  lemma DeleteHead(c: string, b: string)
    requires NoEnd(c)
    ensures DeleteComments("/*" + c + "*/" + b) == DeleteComments(b)
    ensures DeleteComments("/*" + c) == ("", true)
  {
    hide NoEnd, CloseLen;
    var s, t := "/*" + c + "*/" + b, "/*" + c;
    CloseFirst(c, b);
    CloseNone(c);
    assert "/*" <= s && s[2..] == c + "*/" + b && s[|c| + 4..] == b;
    assert "/*" <= t && t[2..] == c;
  }

  /** A comment is deleted up to its first end mark; one that has none takes the rest of the text and is told. */
  lemma DeleteOne(a: string, c: string, b: string)
    requires !HasComment(a) && NoEnd(c)
    ensures DeleteComments(a + "/*" + c + "*/" + b) == (a + DeleteComments(b).0, DeleteComments(b).1)
    ensures DeleteComments(a + "/*" + c) == (a, true)
    ensures DeleteComments(a) == (a, false)
  {
    hide DeleteComments, HasComment, NoEnd;
    DeleteHead(c, b);
    DeleteAfter(a, "/*" + c + "*/" + b);
    DeleteAfter(a, "/*" + c);
    NoCommentFixed(a);
    assert a + ("/*" + c + "*/" + b) == a + "/*" + c + "*/" + b && a + ("/*" + c) == a + "/*" + c && a + "" == a;
  }

  // ---- Every text, comment by comment ----

  /** A text before a comment, and the inside of the comment. */
  datatype Part = Part(text: string, comment: string)

  /** The parts, the text behind them, and the inside of a last comment that nothing ends. */
  function Written(parts: seq<Part>, last: string, open: Option<string>): string {
    if parts == [] then last + (if open.Some? then "/*" + open.value else "")
    else parts[0].text + "/*" + parts[0].comment + "*/" + Written(parts[1..], last, open)
  }

  function Uncommented(parts: seq<Part>): string {
    if parts == [] then "" else parts[0].text + Uncommented(parts[1..])
  }

  ghost predicate IsWritten(parts: seq<Part>, last: string, open: Option<string>) {
    && (forall q :: q in parts ==> !HasComment(q.text) && NoEnd(q.comment))
    && !HasComment(last) && (open.Some? ==> NoEnd(open.value))
  }

  /** Exactly the comments are deleted, and whether one of them has no end is told. */
  lemma {:induction false} DeletionExactly(parts: seq<Part>, last: string, open: Option<string>)
    requires IsWritten(parts, last, open)
    ensures DeleteComments(Written(parts, last, open)) == (Uncommented(parts) + last, open.Some?)
  {
    hide DeleteComments, HasComment, NoEnd;
    if parts == [] {
      DeleteOne(last, if open.Some? then open.value else "", "") by { assert NoEnd("") by { EmptyNoEnd(); } }
      assert last + "" == last && "" + last == last;
      assert open.Some? ==> last + ("/*" + open.value) == last + "/*" + open.value;
    } else {
      DeletionExactly(parts[1..], last, open);
      DeleteOne(parts[0].text, parts[0].comment, Written(parts[1..], last, open));
      Regroup(parts[0].text, Uncommented(parts[1..]), last);
    }
  }

  lemma EmptyNoEnd()
    ensures NoEnd("")
  {
  }

  lemma {:induction false} FindMark(s: string) returns (a: string, b: string)
    requires HasComment(s)
    ensures s == a + "/*" + b && !HasComment(a)
  {
    hide HasComment;
    SmallText();
    if "/*" <= s {
      a, b := "", s[2..];
      assert s == "" + "/*" + s[2..];
    } else {
      assert s != "";
      MarkLater(s);
      var t: string;
      t, b := FindMark(s[1..]);
      a := [s[0]] + t;
      assert s == [s[0]] + s[1..] && s == a + "/*" + b;
      ClearExactly(t);
      ClearExactly(a);
      MarkFirst(s);
      assert t != "" ==> t[0] == s[1];
      ClearOne(s[0]);
      ClearConcat([s[0]], t);
    }
  }

  lemma {:induction false} FindEnd(s: string) returns (c: string, b: Option<string>)
    ensures NoEnd(c) && s == (if b.Some? then c + "*/" + b.value else c)
  {
    if s == "" {
      c, b := "", None;
    } else if "*/" <= s {
      c, b := "", Some(s[2..]);
      assert s == "" + "*/" + s[2..];
    } else {
      var t: string;
      t, b := FindEnd(s[1..]);
      c := [s[0]] + t;
      assert s == [s[0]] + s[1..];
      if b.Some? {
        Regroup([s[0]], t + "*/", b.value);
        assert [s[0]] + (t + "*/") == c + "*/";
      }
      EndFirst(s);
      assert t != "" ==> t[0] == s[1];
      NoEndMore(s[0], t);
    }
  }

  lemma NoEndMore(c: char, t: string)
    requires NoEnd(t) && (t != "" && c == '*' ==> t[0] != '/')
    ensures NoEnd([c] + t)
  {
    var s := [c] + t;
    forall i, j | 0 <= i < |s| && j == i + 1 < |s| && s[i] == '*' ensures s[j] != '/' {
      if i > 0 {
        assert t[i - 1] == s[i] && t[j - 1] == s[j];
      }
    }
  }

  /** Every text is written so. */
  lemma {:induction false} EveryText(s: string) returns (parts: seq<Part>, last: string, open: Option<string>)
    ensures IsWritten(parts, last, open) && s == Written(parts, last, open)
    decreases |s|
  {
    hide HasComment, NoEnd;
    if !HasComment(s) {
      parts, last, open := [], s, None;
      assert s + "" == s;
    } else {
      var a, b := FindMark(s);
      var c, rest := FindEnd(b);
      if rest.Some? {
        parts, last, open := EveryText(rest.value);
        var first := Part(a, c);
        assert ([first] + parts)[1..] == parts;
        assert s == a + "/*" + c + "*/" + rest.value;
        parts := [first] + parts;
      } else {
        parts, last, open := [], a, Some(c);
        assert a + ("/*" + c) == a + "/*" + c;
      }
    }
  }

  // ---- The filters ----

  lemma MarkNotBlank(a: string, b: string)
    ensures Strip(a + "/*" + b) != ""
  {
    var s := a + "/*" + b;
    assert s[|a|] == '/' && !IsSpace('/');
    StripNonEmpty(s, |a|);
  }

  /** A comment in a sheet might as well not be there. */
  lemma SheetIgnoresComment(a: string, c: string, b: string)
    requires !HasComment(a) && NoEnd(c) && Apart(a, b)
    requires |a| + |c| + |b| + 4 <= MAX_SHEET_CHARS
    ensures Stylesheet(a + "/*" + c + "*/" + b).0 == Stylesheet(a + b).0
    ensures Strip(a + b) != "" ==> Stylesheet(a + "/*" + c + "*/" + b) == Stylesheet(a + b)
  {
    hide CleanItems, ParseBlocks, Strip, PrintRules, DeleteComments, HasComment, All, NoEnd, Apart;
    DeleteOne(a, c, b);
    DeleteAfter(a, b);
    assert a + "/*" + c + "*/" + b == a + "/*" + (c + "*/" + b);
    MarkNotBlank(a, c + "*/" + b);
    if Strip(a + b) == "" {
      BlankSheetText(a, b);
    }
  }

  lemma BlankSheetText(a: string, b: string)
    requires Strip(a + b) == "" && !HasComment(a) && Apart(a, b)
    ensures PrintRules(CleanItems(ParseBlocks(a + DeleteComments(b).0), 0, 0, false).rules, "\n") == ""
  {
    hide CleanItems, PrintRules, DeleteComments, HasComment, Apart;
    BlankText(a + b);
    BlankClear(a + b);
    NoCommentFixed(a + b);
    DeleteAfter(a, b);
    NothingPrinted(a + b);
  }

  lemma BlankText(s: string)
    requires Strip(s) == ""
    ensures TrimLeft(s) == "" && All(s, IsSpace)
  {
    TrimLeftSplit(s);
    TrimRightSplit(TrimLeft(s));
    var t := TrimLeft(s);
    assert TrimRight(t) == "" && t[0..] == t;
    assert t == "" by { AllEach(t, IsSpace); }
    assert s[..|s| - |t|] == s;
  }

  lemma BlankClear(s: string)
    requires All(s, IsSpace)
    ensures !HasComment(s)
  {
    AllEach(s, IsSpace);
    ClearExactly(s);
  }

  lemma NothingPrinted(s: string)
    requires TrimLeft(s) == ""
    ensures PrintRules(CleanItems(ParseBlocks(s), 0, 0, false).rules, "\n") == ""
  {
    assert ParseBlocks(s) == [];
    assert CleanItems([], 0, 0, false).rules == [];
  }

  /** A comment that nothing ends takes what is behind it, and is told. */
  lemma SheetUnended(a: string, c: string)
    requires !HasComment(a) && NoEnd(c) && |a| + |c| + 2 <= MAX_SHEET_CHARS
    ensures Stylesheet(a + "/*" + c) == (Stylesheet(a).0, true)
  {
    hide CleanItems, ParseBlocks, Strip, PrintRules, DeleteComments, HasComment, All, NoEnd;
    DeleteOne(a, c, "");
    MarkNotBlank(a, c);
    if Strip(a) == "" {
      BlankText(a);
      NothingPrinted(a);
    }
  }

  /** The same in a `style` attribute, which a comment without an end empties. */
  lemma AttributeIgnoresComment(a: string, c: string, b: string)
    requires !HasComment(a) && NoEnd(c) && Apart(a, b)
    requires |a| + |c| + |b| + 4 <= MAX_ATTRIBUTE_CHARS
    ensures Strip(a + b) != "" ==> StyleAttribute(a + "/*" + c + "*/" + b) == StyleAttribute(a + b)
    ensures StyleAttribute(a + "/*" + c) == ("", true)
  {
    hide SplitPieces, KeepAttribute, PrintDecls, DeleteComments, HasComment, All, Balanced, Strip, NoEnd, Apart;
    DeleteOne(a, c, b);
    DeleteAfter(a, b);
    assert a + "/*" + c + "*/" + b == a + "/*" + (c + "*/" + b);
    MarkNotBlank(a, c + "*/" + b);
    MarkNotBlank(a, c);
  }

  /** A sheet is filtered as the text without its comments, however many there are and wherever they stand. */
  lemma SheetIgnoresComments(parts: seq<Part>, last: string)
    requires IsWritten(parts, last, None) && |Written(parts, last, None)| <= MAX_SHEET_CHARS
    requires !HasComment(Uncommented(parts) + last) && Strip(Uncommented(parts) + last) != ""
    ensures Stylesheet(Written(parts, last, None)) == Stylesheet(Uncommented(parts) + last)
  {
    hide CleanItems, ParseBlocks, Strip, PrintRules, DeleteComments, HasComment, All, NoEnd, IsWritten;
    DeletionExactly(parts, last, None);
    NoCommentFixed(Uncommented(parts) + last);
    WrittenNotBlank(parts, last);
    UncommentedShorter(parts, last);
  }

  /** And so is a `style` attribute. */
  lemma AttributeIgnoresComments(parts: seq<Part>, last: string)
    requires IsWritten(parts, last, None) && |Written(parts, last, None)| <= MAX_ATTRIBUTE_CHARS
    requires !HasComment(Uncommented(parts) + last) && Strip(Uncommented(parts) + last) != ""
    ensures StyleAttribute(Written(parts, last, None)) == StyleAttribute(Uncommented(parts) + last)
  {
    hide SplitPieces, KeepAttribute, PrintDecls, DeleteComments, HasComment, All, Balanced, Strip, NoEnd, IsWritten;
    DeletionExactly(parts, last, None);
    NoCommentFixed(Uncommented(parts) + last);
    WrittenNotBlank(parts, last);
    UncommentedShorter(parts, last);
  }

  lemma {:induction false} UncommentedShorter(parts: seq<Part>, last: string)
    ensures |Uncommented(parts)| + |last| <= |Written(parts, last, None)|
  {
    if parts != [] {
      UncommentedShorter(parts[1..], last);
    }
  }

  lemma WrittenNotBlank(parts: seq<Part>, last: string)
    requires Strip(Uncommented(parts) + last) != ""
    ensures Strip(Written(parts, last, None)) != ""
  {
    hide Strip;
    if parts == [] {
      assert Uncommented(parts) + last == last == last + "";
    } else {
      var rest := parts[0].comment + "*/" + Written(parts[1..], last, None);
      assert Written(parts, last, None) == parts[0].text + "/*" + rest;
      MarkNotBlank(parts[0].text, rest);
    }
  }
}
