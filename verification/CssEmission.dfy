/** Everything the filter keeps is an accepted sheet, whatever text it reads. */
module CssEmission {
  import opened Text
  import opened CssLexer
  import opened CssGrammar
  import opened CssFilter
  import opened CssFixedPoints

  // ---- What the block parser returns ----

  predicate ItemOk(item: Item) {
    && Stripped(item.prelude)
    && (item.body.Some? ==>
          && Lexed(OUTSIDE, item.prelude, BLOCK_STOPS, OUTSIDE)
          && Run(OUTSIDE, item.body.value).quote == None)
  }

  predicate ItemsOk(items: seq<Item>) {
    items != [] ==> ItemOk(items[0]) && ItemsOk(items[1..])
  }

  lemma NextBlockOk(t: string)
    requires t != ""
    ensures ItemOk(NextBlock(t).0)
  {
    hide Strip, Stripped, BraceLen, Run, ScanLen;
    var end := ScanLen(OUTSIDE, t, BLOCK_STOPS);
    StripStripped(t[..end]);
    ScanStop(OUTSIDE, t, BLOCK_STOPS);
    if end < |t| && t[end] == '{' {
      LexedStrip(OUTSIDE, t[..end], BLOCK_STOPS, OUTSIDE);
      var k := BraceLen(Braces(None, 0), t[end..]);
      if k.Some? {
        BraceLenQuote(Braces(None, 0), 0, t[end..]);
        var body := t[end + 1..end + k.value];
        assert t[end..][..k.value] == "{" + body;
        BodyQuote(body);
      }
    }
  }

  lemma BodyQuote(body: string)
    ensures Run(OUTSIDE, "{" + body) == Run(OUTSIDE, body)
  {
    assert ("{" + body)[1..] == body;
  }

  lemma {:induction false} ParseBlocksOk(s: string)
    ensures ItemsOk(ParseBlocks(s))
    decreases |s|
  {
    hide ItemOk, NextBlock;
    var t := TrimLeft(s);
    if t != "" {
      NextBlockOk(t);
      ParseBlocksOk(t[NextBlock(t).1..]);
    }
  }

  // ---- What a declaration becomes ----

  /** Pieces as `_scan` cuts them: only the last may end inside a string or a parenthesis. */
  predicate PiecesOk(pieces: seq<string>) {
    pieces != [] ==>
      && ScanLen(OUTSIDE, pieces[0], {';'}) == |pieces[0]|
      && (|pieces| > 1 ==> Run(OUTSIDE, pieces[0]) == OUTSIDE)
      && PiecesOk(pieces[1..])
  }

  predicate LastQuoteClosed(pieces: seq<string>) {
    pieces != [] ==> Run(OUTSIDE, pieces[|pieces| - 1]).quote == None
  }

  lemma {:induction false} SplitPiecesOk(s: string)
    ensures PiecesOk(SplitPieces(s))
    ensures Run(OUTSIDE, s).quote == None ==> LastQuoteClosed(SplitPieces(s))
    decreases |s|
  {
    if s != "" {
      var end := ScanLen(OUTSIDE, s, {';'});
      ScanStop(OUTSIDE, s, {';'});
      if end < |s| {
        SplitPiecesOk(s[end + 1..]);
        assert s == s[..end] + ";" + s[end + 1..];
        RunConcat(OUTSIDE, s[..end] + ";", s[end + 1..]);
        RunConcat(OUTSIDE, s[..end], ";");
        assert Run(OUTSIDE, ";") == OUTSIDE;
        if SplitPieces(s[end + 1..]) == [] {
          assert s[end + 1..] == "";
        }
      } else {
        assert s[..end] == s;
      }
    }
  }

  /** The characters that can become part of a property name are nothing to the scanner. */
  predicate IsNamePart(c: char) { IsSpace(c) || All(LowerChar(c), IsPropertyChar) }

  lemma NamePartInert(c: char)
    requires IsNamePart(c)
    ensures Inert(c) && c != ';'
  {
    assert c in {'\"', '\'', '(', ')', ';'} ==> LowerChar(c) == [c] && !IsPropertyChar([c][0]);
  }

  lemma {:induction false} LowerParts(s: string)
    requires All(Lower(s), IsPropertyChar)
    ensures All(s, IsNamePart)
  {
    if s != "" {
      AllConcat(LowerChar(s[0]), Lower(s[1..]), IsPropertyChar);
      LowerParts(s[1..]);
    }
  }

  lemma NameInert(name: string)
    requires IsProperty(Lower(Strip(name)))
    ensures AllInert(name, {';'})
  {
    PropertyInert(Lower(Strip(name)));
    LowerParts(Strip(name));
    AllUnstrip(name, IsNamePart);
    forall c | IsNamePart(c) ensures Inert(c) && c !in {';'} { NamePartInert(c); }
    InertIfAll(name, IsNamePart, {';'});
  }

  /** The characters of the `!important` marker are nothing to the scanner. */
  predicate IsMarkerPart(c: char) { IsSpace(c) || c == '!' || IsLowerLetter(Fold(c)) }

  lemma {:induction false} FoldedParts(s: string, word: string)
    requires StartsFold(s, word) && |s| == |word| && All(word, IsLowerLetter)
    ensures All(s, IsMarkerPart)
  {
    if s != "" {
      FoldedParts(s[1..], word[1..]);
    }
  }

  lemma AllTail(s: string, i: nat, j: nat, p: char -> bool)
    requires i <= j <= |s| && All(s[i..j], p) && All(s[j..], p)
    ensures All(s[i..], p)
  {
    assert s[i..] == s[i..j] + s[j..];
    AllConcat(s[i..j], s[j..], p);
  }

  /** Trimming the prefix of length `j` removes marker parts only. */
  lemma TrimmedParts(s: string, j: nat)
    requires j <= |s|
    ensures var n := |TrimRight(s[..j])|; n <= j && TrimRight(s[..j]) == s[..n] && All(s[n..j], IsMarkerPart)
  {
    var n := |TrimRight(s[..j])|;
    TrimRightSplit(s[..j]);
    AllWeaken(s[..j][n..], IsSpace, IsMarkerPart);
    assert s[..j][n..] == s[n..j];
  }

  lemma ImportantLetters()
    ensures All("important", IsLowerLetter)
  {
    hide All;
    AllEach("important", IsLowerLetter);
  }

  lemma CutFront<T>(v: seq<T>, n: nat, k: nat)
    requires k <= n <= |v|
    ensures v[..n][n - k..] == v[n - k..n] && v[..n][..n - k] == v[..n - k]
  {
  }

  lemma MarkerParts(v: string)
    requires ImportantStart(v).Some?
    ensures All(v[ImportantStart(v).value..], IsMarkerPart)
  {
    hide IsMarkerPart, TrimRight, StartsFold, All;
    assert v[..|v|] == v;
    TrimmedParts(v, |v|);
    var n := |TrimRight(v)|;
    CutFront(v, n, 9);
    ImportantLetters();
    FoldedParts(v[n - 9..n], "important");
    assert v[|v|..] == "" && All("", IsMarkerPart) by { BangPart(); }
    AllTail(v, n, |v|, IsMarkerPart);
    AllTail(v, n - 9, n, IsMarkerPart);
    TrimmedParts(v, n - 9);
    var m := |TrimRight(v[..n - 9])|;
    AllTail(v, m, n - 9, IsMarkerPart);
    assert v[m - 1..m] == "!";
    BangPart();
    AllTail(v, m - 1, m, IsMarkerPart);
    CutFront(v, m, 1);
    TrimmedParts(v, m - 1);
    AllTail(v, |TrimRight(v[..m - 1])|, m - 1, IsMarkerPart);
  }

  lemma BangPart()
    ensures All("!", IsMarkerPart) && All("", IsMarkerPart)
  {
  }

  lemma MarkerInert(s: string)
    requires All(s, IsMarkerPart)
    ensures AllInert(s, {';'})
  {
    forall c | IsMarkerPart(c) ensures Inert(c) && c !in {';'} {
      assert c in {'\"', '\'', '(', ')', ';'} ==> Fold(c) == c && !IsLowerLetter(c);
    }
    InertIfAll(s, IsMarkerPart, {';'});
  }

  /** Splitting off `!important`, stripping and collapsing leave the state of the scanner alone. */
  lemma CleanValueLexed(prop: string, raw: string, end: Lex)
    requires CleanValue(prop, raw).Some? && Lexed(OUTSIDE, raw, {';'}, end)
    ensures Lexed(OUTSIDE, CleanValue(prop, raw).value.text, {';'}, end)
  {
    hide IsCleanValue, Lexed, Strip, Collapse, ImportantStart;
    assert NoSpaceIn({';'});
    var v := Strip(raw);
    LexedStrip(OUTSIDE, raw, {';'}, end);
    var cut := ImportantStart(v);
    if cut.Some? {
      var head, tail := v[..cut.value], v[cut.value..];
      MarkerParts(v);
      MarkerInert(tail);
      LexedInert(Run(OUTSIDE, head), tail, {';'});
      assert v == head + tail;
      LexedConcat(OUTSIDE, head, tail, {';'}, end);
      HeadEnd(OUTSIDE, head, tail, end);
      LexedStrip(OUTSIDE, head, {';'}, end);
      LexedCollapse(OUTSIDE, Strip(head), {';'}, end);
    } else {
      LexedCollapse(OUTSIDE, v, {';'}, end);
    }
  }

  lemma HeadEnd(l: Lex, head: string, tail: string, end: Lex)
    requires Lexed(l, head + tail, {';'}, end) && Lexed(l, head, {';'}, Run(l, head))
    requires Lexed(Run(l, head), tail, {';'}, Run(l, head))
    ensures Lexed(l, head, {';'}, end)
  {
    RunConcat(l, head, tail);
  }

  /** The last `n` characters are no spaces. */
  predicate SolidEnd(c: string, n: nat)
    requires n <= |c|
  {
    n > 0 ==> !IsSpace(c[|c| - 1]) && SolidEnd(c[..|c| - 1], n - 1)
  }

  lemma {:induction false} SolidIfAll(c: string, n: nat)
    requires n <= |c| && forall i :: |c| - n <= i < |c| ==> !IsSpace(c[i])
    ensures SolidEnd(c, n)
    decreases n
  {
    if n > 0 {
      SolidIfAll(c[..|c| - 1], n - 1);
    }
  }

  /** Non-space characters at the end of a collapsed text were at the end of the text. */
  lemma {:induction false} CollapseSuffix(v: string, n: nat)
    requires n <= |Collapse(v)| && SolidEnd(Collapse(v), n)
    ensures n <= |v| && v[|v| - n..] == Collapse(v)[|Collapse(v)| - n..]
    ensures Collapse(v[..|v| - n]) == Collapse(v)[..|Collapse(v)| - n]
    decreases n
  {
    hide Collapse, IsSpace;
    var c := Collapse(v);
    if n == 0 {
      assert v[..|v|] == v && c[..|c|] == c;
    } else {
      CollapseTrimRight(v);
      assert v != "" by { CollapseEmpty(); }
      var w, last := v[..|v| - 1], v[|v| - 1];
      assert |c| >= n && !IsSpace(c[|c| - 1]);
      assert v == w + [last];
      CollapseAppend(w, last);
      assert Collapse(w) == c[..|c| - 1];
      CollapseSuffix(w, n - 1);
      SuffixStep(v, w, c, Collapse(w), last, n);
    }
  }

  lemma SuffixStep(v: string, w: string, c: string, d: string, last: char, n: nat)
    requires v == w + [last] && c == d + [last] && 1 <= n <= |w| + 1 && n <= |d| + 1
    requires w[|w| - (n - 1)..] == d[|d| - (n - 1)..]
    ensures v[|v| - n..] == c[|c| - n..]
    ensures v[..|v| - n] == w[..|w| - (n - 1)] && c[..|c| - n] == d[..|d| - (n - 1)]
  {
    assert v[|v| - n..] == w[|w| - (n - 1)..] + [last];
    assert c[|c| - n..] == d[|d| - (n - 1)..] + [last];
  }

  lemma {:induction false} FoldedNotSpace(s: string, word: string)
    requires StartsFold(s, word) && |s| == |word| && All(word, IsLowerLetter)
    ensures forall i :: 0 <= i < |s| ==> !IsSpace(s[i])
  {
    FoldedParts(s, word);
    if s != "" {
      FoldedNotSpace(s[1..], word[1..]);
      assert forall i :: 1 <= i < |s| ==> s[i] == s[1..][i - 1];
    }
  }

  /** If the collapsed text ends in `important`, so does the text, and the rest collapses alike. */
  lemma ImportantTail(v: string)
    requires |Collapse(v)| >= 9 && StartsFold(Collapse(v)[|Collapse(v)| - 9..], "important")
    ensures |v| >= 9 && v[|v| - 9..] == Collapse(v)[|Collapse(v)| - 9..]
    ensures TrimRight(Collapse(v)[..|Collapse(v)| - 9]) == Collapse(TrimRight(v[..|v| - 9]))
  {
    hide Collapse, StartsFold, TrimRight, IsSpace;
    var c := Collapse(v);
    ImportantLetters();
    FoldedNotSpace(c[|c| - 9..], "important");
    assert forall i :: |c| - 9 <= i < |c| ==> c[i] == c[|c| - 9..][i - (|c| - 9)];
    SolidIfAll(c, 9);
    CollapseSuffix(v, 9);
    CollapseTrimRight(v[..|v| - 9]);
  }

  lemma BangTail(u: string)
    requires Collapse(u) != "" && Collapse(u)[|Collapse(u)| - 1] == '!'
    ensures u != "" && u[|u| - 1] == '!'
  {
    hide Collapse, IsSpace;
    BangNotSpace();
    SolidIfAll(Collapse(u), 1);
    CollapseSuffix(u, 1);
    assert u[|u| - 1..][0] == Collapse(u)[|Collapse(u)| - 1..][0];
  }

  /** Collapsing spaces cannot make an `!important` marker appear. */
  lemma ImportantCollapse(v: string)
    requires v != "" && Stripped(v) && ImportantStart(v) == None
    ensures ImportantStart(Collapse(v)) == None
  {
    hide Collapse, StartsFold, TrimRight, IsSpace;
    var c := Collapse(v);
    CollapseStripped(v);
    TrimRightFixed(v);
    TrimRightFixed(c);
    if |c| >= 9 && StartsFold(c[|c| - 9..], "important") {
      ImportantTail(v);
      var u := TrimRight(v[..|v| - 9]);
      if Collapse(u) != "" && Collapse(u)[|Collapse(u)| - 1] == '!' {
        BangTail(u);
      }
    }
  }

  lemma BangNotSpace()
    ensures !IsSpace('!')
  {
  }

  lemma CleanValueOk(prop: string, raw: string)
    requires CleanValue(prop, raw).Some?
    ensures var v := CleanValue(prop, raw).value;
            && IsCleanValue(prop, v.text) && Stripped(v.text) && Collapsed(v.text)
            && (!v.important ==> ImportantStart(v.text) == None)
  {
    hide Strip, Collapse, ImportantStart, IsCleanValue, Stripped, Collapsed;
    var v := Strip(raw);
    StripStripped(raw);
    var cut := ImportantStart(v);
    var head := if cut.Some? then Strip(v[..cut.value]) else v;
    if cut.Some? {
      StripStripped(v[..cut.value]);
    }
    CollapseStripped(head);
    assert Collapse(head) != "" by { CleanNonEmpty(prop, Collapse(head)); }
    if cut.None? {
      ImportantCollapse(v);
    }
  }

  lemma CleanNonEmpty(prop: string, v: string)
    requires IsCleanValue(prop, v)
    ensures v != ""
  {
  }

  lemma PieceDeclOk(piece: string, last: bool)
    requires ReadPiece(piece).Good?
    requires ScanLen(OUTSIDE, piece, {';'}) == |piece| && (!last ==> Run(OUTSIDE, piece) == OUTSIDE)
    ensures DeclOk(ReadPiece(piece).decl, last)
    ensures Run(OUTSIDE, ReadPiece(piece).decl.value.text) == Run(OUTSIDE, piece)
  {
    hide Run, ScanLen, CleanValue, IsCleanValue, Strip, IndexOf, Lower, IsProperty, ImportantStart, Stripped,
      Collapsed, AllInert;
    var i := IndexOf(piece, ':');
    var raw := piece[i + 1..];
    var end := Run(OUTSIDE, piece);
    var d := ReadPiece(piece).decl;
    RawLexed(piece, end);
    CleanValueLexed(d.prop, raw, end);
    CleanValueOk(d.prop, raw);
  }

  /** What follows the colon of a declaration is scanned as the whole piece is. */
  lemma RawLexed(piece: string, end: Lex)
    requires var i := IndexOf(piece, ':'); i < |piece| && IsProperty(Lower(Strip(piece[..i])))
    requires Lexed(OUTSIDE, piece, {';'}, end)
    ensures Lexed(OUTSIDE, piece[IndexOf(piece, ':') + 1..], {';'}, end)
  {
    hide Run, ScanLen, Strip, IndexOf, Lower, IsProperty, AllInert;
    var i := IndexOf(piece, ':');
    var name, raw := piece[..i], piece[i + 1..];
    NameInert(name);
    LexedInert(OUTSIDE, name, {';'});
    ColonInert();
    LexedInert(OUTSIDE, ":", {';'});
    assert piece == name + (":" + raw);
    LexedConcat(OUTSIDE, name, ":" + raw, {';'}, end);
    LexedConcat(OUTSIDE, ":", raw, {';'}, end);
  }

  lemma ColonInert()
    ensures AllInert(":", {';'})
  {
  }

  lemma {:induction false} KeepDeclsOk(pieces: seq<string>, already: nat)
    requires PiecesOk(pieces)
    ensures var decls := KeepDecls(pieces, already).0;
            && DeclsOk(decls) && |decls| <= |pieces|
            && (decls != [] && LastQuoteClosed(pieces) ==> EndOf(decls).quote == None)
  {
    hide ReadPiece, DeclOk, Run, ScanLen;
    if pieces != [] {
      var rest := pieces[1..];
      assert |pieces| > 1 && LastQuoteClosed(pieces) ==> LastQuoteClosed(rest) by {
        if |pieces| > 1 {
          assert rest[|rest| - 1] == pieces[|pieces| - 1];
        }
      }
      match ReadPiece(pieces[0]) {
        case Good(d) =>
          PieceDeclOk(pieces[0], |pieces| == 1);
          if already < MAX_DECLARATIONS_PER_RULE {
            KeepDeclsOk(rest, already + 1);
            GoodFirst(d, KeepDecls(rest, already + 1).0, |pieces| == 1);
          } else {
            KeepDeclsOk(rest, already);
          }
        case _ => KeepDeclsOk(rest, already);
      }
    }
  }

  lemma GoodFirst(d: Decl, rest: seq<Decl>, last: bool)
    requires DeclOk(d, last) && DeclsOk(rest) && (last ==> rest == [])
    ensures DeclsOk([d] + rest)
    ensures EndOf([d] + rest) == if rest == [] then Run(OUTSIDE, d.value.text) else EndOf(rest)
  {
    hide IsCleanValue, Run, ScanLen, ImportantStart, IsProperty, Stripped, Collapsed;
    assert ([d] + rest)[1..] == rest;
  }

  // ---- What a rule becomes ----

  lemma BlockStops()
    ensures NoSpaceIn(BLOCK_STOPS)
  {
  }

  lemma StyleOk(prelude: string, body: string, depth: nat, inKeyframes: bool)
    requires ItemOk(Item(prelude, Some(body)))
    requires var selector := Collapse(prelude);
             if inKeyframes then IsKeyframeSelector(selector) else IsSelector(selector)
    requires KeepDecls(SplitPieces(body), 0).0 != []
    ensures RuleOk(Style(Collapse(prelude), KeepDecls(SplitPieces(body), 0).0), depth, inKeyframes)
  {
    hide IsSelector, IsKeyframeSelector, Collapse, Stripped, Collapsed, Lexed, Run, KeepDecls, SplitPieces, DeclsOk,
      PrintDecls;
    var decls := KeepDecls(SplitPieces(body), 0).0;
    SplitPiecesOk(body);
    KeepDeclsOk(SplitPieces(body), 0);
    RunDecls(decls);
    BlockStops();
    LexedCollapse(OUTSIDE, prelude, BLOCK_STOPS, OUTSIDE);
    CollapseStripped(prelude);
    SelectorNonEmpty(Collapse(prelude), inKeyframes);
  }

  lemma SelectorNonEmpty(selector: string, inKeyframes: bool)
    requires if inKeyframes then IsKeyframeSelector(selector) else IsSelector(selector)
    ensures selector != ""
  {
    assert Strip("") == "";
  }

  lemma MediaOk(prelude: string, rules: seq<Rule>, depth: nat)
    requires Stripped(prelude) && Lexed(OUTSIDE, prelude, BLOCK_STOPS, OUTSIDE)
    requires MediaCondition(prelude).Some? && depth < MAX_MEDIA_DEPTH
    requires rules != [] && Accepted(rules, depth + 1, false)
    ensures RuleOk(Media(Collapse(Strip(MediaCondition(prelude).value)), rules), depth, false)
  {
    hide Collapse, Strip, Stripped, Collapsed, Lexed, Run, TrimLeft, All, Accepted;
    var group := MediaCondition(prelude).value;
    var condition := Collapse(Strip(group));
    GroupOk(prelude, "@media", group);
    LexedStrip(OUTSIDE, group, BLOCK_STOPS, OUTSIDE) by { BlockStops(); }
    LexedCollapse(OUTSIDE, Strip(group), BLOCK_STOPS, OUTSIDE) by { BlockStops(); }
    StripStripped(group);
    CollapseStripped(Strip(group));
    assert condition != "" by { StripNonEmpty(group, 0); }
    AllStrip(group, IsMediaChar);
    AllCollapse(Strip(group), IsMediaChar) by { assert IsMediaChar(' ') by { SpaceIsMedia(); } }
    StripShorter(group);
    HeadedOk("@media ", condition);
  }

  lemma SpaceIsMedia()
    ensures IsMediaChar(' ')
  {
  }

  /** A header word and a space in front of a condition or a name. */
  predicate IsHeaderChar(c: char) { IsLowerLetter(c) || c == '@' || c == '-' || c == ' ' }

  predicate IsHeader(s: string) {
    s == "@media" || s == "@media " || s == "@keyframes" || s == "@keyframes " || s == "@-webkit-keyframes"
  }

  lemma HeaderChars(header: string)
    requires IsHeader(header)
    ensures All(header, IsHeaderChar)
  {
    hide All;
    AllEach(header, IsHeaderChar);
  }

  /** The scanner sees nothing in the word of an at-rule. */
  lemma HeaderLexed(header: string)
    requires IsHeader(header)
    ensures Lexed(OUTSIDE, header, BLOCK_STOPS, OUTSIDE)
  {
    hide All, AllInert, Lexed;
    HeaderChars(header);
    InertIfAll(header, IsHeaderChar, BLOCK_STOPS);
    LexedInert(OUTSIDE, header, BLOCK_STOPS);
  }

  lemma HeadedOk(header: string, name: string)
    requires header == "@media " || header == "@keyframes "
    requires name != "" && Stripped(name) && Lexed(OUTSIDE, name, BLOCK_STOPS, OUTSIDE)
    ensures PreludeOk(header + name)
  {
    hide Run, ScanLen, IsSpace;
    HeaderLexed(header);
    LexedConcat(OUTSIDE, header, name, BLOCK_STOPS, OUTSIDE);
    assert !IsSpace('@') by { AtNotSpace(); }
  }

  lemma AtNotSpace()
    ensures !IsSpace('@')
  {
  }

  /** What follows an at-keyword and its spaces is scanned as the whole prelude is. */
  lemma GroupOk(prelude: string, header: string, group: string)
    requires header == "@media" || header == "@keyframes" || header == "@-webkit-keyframes"
    requires header <= prelude && group == TrimLeft(prelude[|header|..])
    requires Lexed(OUTSIDE, prelude, BLOCK_STOPS, OUTSIDE)
    ensures Lexed(OUTSIDE, group, BLOCK_STOPS, OUTSIDE)
    ensures group != "" ==> !IsSpace(group[0])
  {
    hide Run, ScanLen, TrimLeft, IsSpace;
    HeaderLexed(header);
    assert prelude == header + prelude[|header|..];
    LexedConcat(OUTSIDE, header, prelude[|header|..], BLOCK_STOPS, OUTSIDE);
    BlockStops();
    LexedTrimLeft(OUTSIDE, prelude[|header|..], BLOCK_STOPS, OUTSIDE);
  }

  lemma KeyframesOk(prelude: string, rules: seq<Rule>)
    requires Lexed(OUTSIDE, prelude, BLOCK_STOPS, OUTSIDE) && KeyframesName(prelude).Some?
    requires rules != [] && Accepted(rules, 1, true)
    ensures RuleOk(Keyframes(KeyframesName(prelude).value, rules), 0, false)
  {
    hide Stripped, Lexed, Run, TrimLeft, All, Accepted, IsSpace;
    var name := KeyframesName(prelude).value;
    if "@keyframes" <= prelude {
      GroupOk(prelude, "@keyframes", name);
    } else {
      GroupOk(prelude, "@-webkit-keyframes", name);
    }
    NameStripped(name);
    HeadedOk("@keyframes ", name);
  }

  lemma NameStripped(name: string)
    requires IsKeyframesName(name)
    ensures Stripped(name) && name != ""
  {
    AllEach(name, IsNameChar);
  }

  lemma CleanItemOk(prelude: string, body: string, depth: nat, count: nat, inKeyframes: bool)
    requires depth <= MAX_MEDIA_DEPTH && ItemOk(Item(prelude, Some(body)))
    ensures Accepted(CleanItem(prelude, body, depth, count, inKeyframes).rules, depth, inKeyframes)
    decreases MAX_MEDIA_DEPTH - depth, 0
  {
    hide RuleOk, Lexed, Stripped, Collapse, Strip, MediaCondition, KeyframesName, IsSelector, IsKeyframeSelector, All,
         ParseBlocks, CleanItems, KeepDecls, SplitPieces;
    var one := CleanItem(prelude, body, depth, count, inKeyframes);
    if one.rules != [] {
      assert one.rules[1..] == [];
      if "@" <= prelude {
        ParseBlocksOk(body);
        if MediaCondition(prelude).Some? && !inKeyframes && depth < MAX_MEDIA_DEPTH {
          CleanItemsOk(ParseBlocks(body), depth + 1, count, false);
          MediaOk(prelude, CleanItems(ParseBlocks(body), depth + 1, count, false).rules, depth);
        } else {
          CleanItemsOk(ParseBlocks(body), depth + 1, count, true);
          KeyframesOk(prelude, CleanItems(ParseBlocks(body), depth + 1, count, true).rules);
        }
      } else {
        StyleOk(prelude, body, depth, inKeyframes);
      }
    }
  }

  lemma {:induction false} AcceptedAppend(a: seq<Rule>, b: seq<Rule>, depth: nat, inKeyframes: bool)
    requires Accepted(a, depth, inKeyframes) && Accepted(b, depth, inKeyframes)
    ensures Accepted(a + b, depth, inKeyframes)
  {
    hide RuleOk;
    if a == [] {
      assert a + b == b;
    } else {
      assert (a + b)[1..] == a[1..] + b;
      AcceptedAppend(a[1..], b, depth, inKeyframes);
    }
  }

  /** Whatever blocks it reads, the filter keeps only rules of the accepted grammar. */
  lemma {:induction false} CleanItemsOk(items: seq<Item>, depth: nat, count: nat, inKeyframes: bool)
    requires depth <= MAX_MEDIA_DEPTH && ItemsOk(items)
    ensures Accepted(CleanItems(items, depth, count, inKeyframes).rules, depth, inKeyframes)
    decreases MAX_MEDIA_DEPTH - depth, |items|
  {
    hide RuleOk, ItemOk, CleanItem;
    if items != [] {
      if items[0].body == None {
        CleanItemsOk(items[1..], depth, count, inKeyframes);
      } else if count + 1 <= MAX_RULES {
        var prelude, body := items[0].prelude, items[0].body.value;
        assert items[0] == Item(prelude, Some(body));
        var one := CleanItem(prelude, body, depth, count + 1, inKeyframes);
        CleanItemOk(prelude, body, depth, count + 1, inKeyframes);
        CleanItemsOk(items[1..], depth, one.count, inKeyframes);
        AcceptedAppend(one.rules, CleanItems(items[1..], depth, one.count, inKeyframes).rules, depth, inKeyframes);
      }
    }
  }

  // ---- The rule cap ----

  /** Every kept rule was counted when it was read, so no more than `MAX_RULES` are kept at all depths. */
  lemma {:induction false} CountBound(items: seq<Item>, depth: nat, count: nat, inKeyframes: bool)
    requires depth <= MAX_MEDIA_DEPTH
    ensures var c := CleanItems(items, depth, count, inKeyframes);
            && count <= c.count && count + RuleCount(c.rules) <= c.count
            && (count <= MAX_RULES ==> count + RuleCount(c.rules) <= MAX_RULES)
            && (count >= MAX_RULES ==> c.rules == [])
    decreases MAX_MEDIA_DEPTH - depth, |items|
  {
    hide CleanItem;
    if items != [] {
      if items[0].body == None {
        CountBound(items[1..], depth, count, inKeyframes);
      } else if count + 1 <= MAX_RULES {
        var prelude, body := items[0].prelude, items[0].body.value;
        var one := CleanItem(prelude, body, depth, count + 1, inKeyframes);
        OneCountBound(prelude, body, depth, count + 1, inKeyframes);
        CountBound(items[1..], depth, one.count, inKeyframes);
        RuleCountAppend(one.rules, CleanItems(items[1..], depth, one.count, inKeyframes).rules);
      }
    }
  }

  lemma OneCountBound(prelude: string, body: string, depth: nat, count: nat, inKeyframes: bool)
    requires depth <= MAX_MEDIA_DEPTH && 0 < count <= MAX_RULES
    ensures var one := CleanItem(prelude, body, depth, count, inKeyframes);
            && count <= one.count && count - 1 + RuleCount(one.rules) <= one.count
            && count - 1 + RuleCount(one.rules) <= MAX_RULES
    decreases MAX_MEDIA_DEPTH - depth, 0
  {
    hide Collapse, Strip, MediaCondition, KeyframesName, IsSelector, IsKeyframeSelector, All,
         ParseBlocks, CleanItems, KeepDecls, SplitPieces;
    var one := CleanItem(prelude, body, depth, count, inKeyframes);
    if "@" <= prelude {
      if MediaCondition(prelude).Some? && !inKeyframes && depth < MAX_MEDIA_DEPTH {
        CountBound(ParseBlocks(body), depth + 1, count, false);
      } else if KeyframesName(prelude).Some? && !inKeyframes && depth == 0 {
        CountBound(ParseBlocks(body), depth + 1, count, true);
      }
    }
    if one.rules != [] {
      assert one.rules[1..] == [];
    }
  }

  // ---- Idempotence ----

  /** What the filter keeps from any text is accepted and within the rule cap. */
  lemma EmittedIsAccepted(text: string)
    ensures var c := CleanItems(ParseBlocks(text), 0, 0, false);
            Accepted(c.rules, 0, false) && RuleCount(c.rules) <= MAX_RULES
  {
    ParseBlocksOk(text);
    CleanItemsOk(ParseBlocks(text), 0, 0, false);
    CountBound(ParseBlocks(text), 0, 0, false);
  }

  /** Filtering what the filter printed keeps every rule and drops nothing, for every text. */
  lemma CleanRulesIdempotent(text: string)
    ensures var c := CleanItems(ParseBlocks(text), 0, 0, false);
            CleanItems(ParseBlocks(PrintRules(c.rules, "\n")), 0, 0, false) ==
            Cleaned(c.rules, false, RuleCount(c.rules))
  {
    EmittedIsAccepted(text);
    SpaceLiteral();
    AcceptedIsFixed(CleanItems(ParseBlocks(text), 0, 0, false).rules, "\n");
  }
}
