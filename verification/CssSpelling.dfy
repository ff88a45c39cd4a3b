/** What is kept of a well-formed sheet, however it is spelled: with any spaces, letter case, comments and empty
    declarations. */
module CssSpelling {
  import opened Text
  import opened CssLexer
  import opened CssGrammar
  import opened CssFilter
  import opened CssFixedPoints
  import opened CssEmission
  import opened CssSanitizer
  import opened CssTheorems
  import opened CssComments
  import opened CssDeletion

  // ---- Spellings ----

  /** A value with spaces around it, and perhaps an `!important` in any case behind it. */
  datatype ValueText =
    | Bare(before: string, text: string, after: string)
    | Marked(before: string, text: string, gap: string, inner: string, word: string, after: string)

  function Raw(v: ValueText): string {
    match v
    case Bare(before, text, after) => before + text + after
    case Marked(before, text, gap, inner, word, after) => before + text + gap + "!" + inner + word + after
  }

  function ValueOf(v: ValueText): Value { Value(Collapse(v.text), v.Marked?) }

  /** What stands between two semicolons: nothing, or a declaration with its name in any case. */
  datatype PieceText = Gap(spaces: string) | Said(before: string, name: string, after: string, value: ValueText)

  function PieceOf(p: PieceText): string {
    match p
    case Gap(spaces) => spaces
    case Said(before, name, after, value) => before + name + after + ":" + Raw(value)
  }

  function BodyOf(pieces: seq<PieceText>): string {
    if |pieces| == 0 then ""
    else if |pieces| == 1 then PieceOf(pieces[0])
    else PieceOf(pieces[0]) + (";" + BodyOf(pieces[1..]))
  }

  function DeclsOf(pieces: seq<PieceText>): seq<Decl> {
    if pieces == [] then []
    else
      (if pieces[0].Said? then [Decl(Lower(pieces[0].name), ValueOf(pieces[0].value))] else []) + DeclsOf(pieces[1..])
  }

  datatype RuleText =
    | Ruled(before: string, prelude: string, after: string, pieces: seq<PieceText>)
    | Grouped(before: string, keyword: string, gap: string, argument: string, after: string, rules: seq<RuleText>,
              end: string)

  function HeadOf(r: RuleText): string {
    match r
    case Ruled(_, prelude, _, _) => prelude
    case Grouped(_, keyword, gap, argument, _, _, _) => keyword + gap + argument
  }

  function InsideOf(r: RuleText): string
    decreases r, 0
  {
    match r
    case Ruled(_, _, _, pieces) => BodyOf(pieces)
    case Grouped(_, _, _, _, _, rules, end) => SheetOf(rules, end)
  }

  function RuleOf(r: RuleText): string
    decreases r, 1
  {
    r.before + (HeadOf(r) + r.after + "{" + InsideOf(r) + "}")
  }

  function SheetOf(rules: seq<RuleText>, end: string): string
    decreases rules, 2
  {
    if rules == [] then end else RuleOf(rules[0]) + SheetOf(rules[1..], end)
  }

  function Meaning(r: RuleText): Rule
    decreases r, 0
  {
    match r
    case Ruled(_, prelude, _, pieces) => Style(Collapse(prelude), DeclsOf(pieces))
    case Grouped(_, keyword, _, argument, _, rules, _) =>
      if keyword == "@media" then Media(Collapse(argument), Meanings(rules)) else Keyframes(argument, Meanings(rules))
  }

  function Meanings(rules: seq<RuleText>): seq<Rule>
    decreases rules, 1
  {
    if rules == [] then [] else [Meaning(rules[0])] + Meanings(rules[1..])
  }

  // ---- Well-formed spellings ----

  ghost predicate FineValue(prop: string, v: ValueText) {
    && All(v.before, IsSpace) && All(v.after, IsSpace)
    && v.text != "" && Stripped(v.text) && IsCleanValue(prop, Collapse(v.text))
    && Lexed(OUTSIDE, v.text, {';'}, OUTSIDE) && All(v.text, NotBrace)
    && match v
       case Bare(_, text, _) => ImportantStart(text) == None
       case Marked(_, _, gap, inner, word, _) =>
         All(gap, IsSpace) && All(inner, IsSpace) && |word| == 9 && StartsFold(word, "important")
  }

  ghost predicate FinePiece(p: PieceText) {
    match p
    case Gap(spaces) => All(spaces, IsSpace)
    case Said(before, name, after, value) =>
      && All(before, IsSpace) && All(after, IsSpace)
      && IsProperty(Lower(name)) && Lower(name) !in BAD_PROPERTIES && FineValue(Lower(name), value)
  }

  ghost predicate FinePieces(pieces: seq<PieceText>) {
    pieces != [] ==> FinePiece(pieces[0]) && FinePieces(pieces[1..])
  }

  ghost predicate FineRule(r: RuleText, depth: nat, inKeyframes: bool)
    decreases r, 0
  {
    && All(r.before, IsSpace) && All(r.after, IsSpace)
    && Lexed(OUTSIDE, HeadOf(r), BLOCK_STOPS, OUTSIDE)
    && match r
       case Ruled(_, prelude, _, pieces) =>
         && prelude != "" && Stripped(prelude) && All(prelude, NotBrace)
         && (if inKeyframes then IsKeyframeSelector(Collapse(prelude)) else IsSelector(Collapse(prelude)))
         && FinePieces(pieces) && 0 < |DeclsOf(pieces)| <= MAX_DECLARATIONS_PER_RULE
       case Grouped(_, keyword, gap, argument, _, rules, end) =>
         && !inKeyframes && gap != "" && All(gap, IsSpace) && All(end, IsSpace)
         && argument != "" && Stripped(argument) && rules != []
         && (if keyword == "@media" then depth < MAX_MEDIA_DEPTH && IsMediaCondition(argument)
             else
               && depth == 0 && IsKeyframesName(argument)
               && (keyword == "@keyframes" || keyword == "@-webkit-keyframes"))
         && FineRules(rules, depth + 1, keyword != "@media")
  }

  ghost predicate FineRules(rules: seq<RuleText>, depth: nat, inKeyframes: bool)
    decreases rules, 1
  {
    rules != [] ==> FineRule(rules[0], depth, inKeyframes) && FineRules(rules[1..], depth, inKeyframes)
  }

  // ---- A value ----

  lemma {:induction false} FoldedAll(s: string, word: string)
    requires StartsFold(s, word) && |s| == |word| && All(word, IsLowerLetter)
    ensures All(s, IsWordChar)
  {
    if s != "" {
      FoldedAll(s[1..], word[1..]);
    }
  }

  /** A character that folds to a letter. */
  predicate IsWordChar(c: char) { IsLowerLetter(Fold(c)) }

  lemma WordPlain()
    ensures forall c :: IsWordChar(c) ==> !IsSpace(c) && Inert(c) && NotBrace(c) && c != ';' && c != ':'
    ensures forall c :: IsSpace(c) ==> Inert(c) && NotBrace(c) && c != ';' && c != ':'
  {
  }

  lemma WordFacts(word: string)
    requires |word| == 9 && StartsFold(word, "important")
    ensures All(word, IsWordChar) && !IsSpace(word[0]) && !IsSpace(word[8])
  {
    hide All, StartsFold;
    ImportantLetters();
    FoldedAll(word, "important");
    AllEach(word, IsWordChar);
    WordPlain();
  }

  lemma NoMarkSpelled(prop: string, a: string, t: string, b: string)
    requires All(a, IsSpace) && All(b, IsSpace) && t != "" && Stripped(t) && ImportantStart(t) == None
    requires IsCleanValue(prop, Collapse(t))
    ensures CleanValue(prop, a + t + b) == Some(Value(Collapse(t), false))
  {
    hide All, Strip, Collapse, IsCleanValue, ImportantStart;
    StripAround(a, t, b);
  }

  /** Where `!important` is found behind a value. */
  lemma MarkFound(t: string, gap: string, inner: string, word: string)
    requires All(gap, IsSpace) && All(inner, IsSpace) && t != "" && Stripped(t)
    requires |word| == 9 && StartsFold(word, "important")
    ensures ImportantStart(t + gap + "!" + inner + word) == Some(|t|)
  {
    hide All, StartsFold, TrimRight;
    WordFacts(word);
    var u := t + gap + "!";
    var v := t + gap + "!" + inner + word;
    assert v[|v| - 1] == word[8];
    TrimRightFixed(v);
    assert v[|v| - 9..] == word && v[..|v| - 9] == u + inner;
    assert !IsSpace('!');
    TrimRightPast(u, inner);
    assert u[|u| - 1] == '!' && u[..|u| - 1] == t + gap;
    TrimRightPast(t, gap);
  }

  lemma MarkSpelled(prop: string, a: string, t: string, gap: string, inner: string, word: string, b: string)
    requires All(a, IsSpace) && All(b, IsSpace) && All(gap, IsSpace) && All(inner, IsSpace)
    requires t != "" && Stripped(t) && IsCleanValue(prop, Collapse(t))
    requires |word| == 9 && StartsFold(word, "important")
    ensures CleanValue(prop, a + t + gap + "!" + inner + word + b) == Some(Value(Collapse(t), true))
  {
    hide All, Strip, Collapse, IsCleanValue, StartsFold, Stripped;
    var v := t + gap + "!" + inner + word;
    WordFacts(word);
    MarkedEnds(t, gap, inner, word);
    MarkedAround(a, t, gap, inner, word, b);
    StripAround(a, v, b);
    MarkFound(t, gap, inner, word);
    StripStripped(t);
    ValueRead(prop, a + v + b, v, t);
  }

  lemma MarkedEnds(t: string, gap: string, inner: string, word: string)
    requires t != "" && Stripped(t) && |word| == 9 && !IsSpace(word[8])
    ensures var v := t + gap + "!" + inner + word;
            Stripped(v) && |v| >= |t| && v[..|t|] == t
  {
    hide IsSpace;
    var more := gap + ("!" + inner);
    assert t + gap + "!" + inner + word == t + (more + word);
    SolidEnds(t, more, word);
  }

  lemma SolidEnds(t: string, more: string, word: string)
    requires t != "" && Stripped(t) && |word| == 9 && !IsSpace(word[8])
    ensures Stripped(t + (more + word)) && (t + (more + word))[..|t|] == t
  {
    hide IsSpace;
    var v := t + (more + word);
    assert v[0] == t[0] && v[|v| - 1] == word[8];
  }

  lemma MarkedAround(a: string, t: string, gap: string, inner: string, word: string, b: string)
    ensures a + (t + gap + "!" + inner + word) + b == a + t + gap + "!" + inner + word + b
  {
    Regroup(a, t, gap);
    Regroup(a, t + gap, "!");
    Regroup(a, t + gap + "!", inner);
    Regroup(a, t + gap + "!" + inner, word);
  }

  /** A value whose stripped text has its mark behind `t`. */
  lemma ValueRead(prop: string, raw: string, v: string, t: string)
    requires Strip(raw) == v && ImportantStart(v) == Some(|t|) && |t| <= |v| && v[..|t|] == t && Strip(t) == t
    requires IsCleanValue(prop, Collapse(t))
    ensures CleanValue(prop, raw) == Some(Value(Collapse(t), true))
  {
    hide Strip, Collapse, IsCleanValue, ImportantStart;
  }

  lemma ValueSpelled(prop: string, v: ValueText)
    requires FineValue(prop, v)
    ensures CleanValue(prop, Raw(v)) == Some(ValueOf(v))
  {
    hide All, CleanValue, Collapse, IsCleanValue, ImportantStart, StartsFold, Lexed, Stripped;
    match v
    case Bare(before, text, after) => NoMarkSpelled(prop, before, text, after);
    case Marked(before, text, gap, inner, word, after) => MarkSpelled(prop, before, text, gap, inner, word, after);
  }

  // ---- A declaration ----

  lemma {:induction false} LowerProperty(name: string)
    requires All(Lower(name), IsPropertyChar)
    ensures All(name, IsPlainChar)
  {
    if name != "" {
      var c := LowerChar(name[0]);
      assert Lower(name) == c + Lower(name[1..]);
      AllConcat(c, Lower(name[1..]), IsPropertyChar);
      assert IsPropertyChar(c[0]);
      LowerProperty(name[1..]);
    }
  }

  /** A character that means nothing to the lexers. */
  predicate IsPlainChar(c: char) { !IsSpace(c) && Inert(c) && NotBrace(c) && c != ';' && c != ':' }

  lemma PlainFacts(name: string)
    requires name != "" && All(name, IsPlainChar)
    ensures Stripped(name) && forall i :: 0 <= i < |name| ==> name[i] != ':'
  {
    AllEach(name, IsPlainChar);
  }

  lemma NameNotEmpty(name: string)
    requires IsProperty(Lower(name))
    ensures name != "" && All(name, IsPlainChar)
  {
    hide All;
    PropertyInert(Lower(name));
    assert Lower("") == "";
    LowerProperty(name);
  }

  lemma SaidRead(p: PieceText)
    requires p.Said? && FinePiece(p)
    ensures ReadPiece(PieceOf(p)) == Good(Decl(Lower(p.name), ValueOf(p.value)))
    ensures Strip(PieceOf(p)) != ""
  {
    hide All, Strip, Lower, IndexOf, IsProperty, CleanValue, FineValue, Raw, Stripped;
    var head := p.before + p.name + p.after;
    var text := PieceOf(p);
    NameNotEmpty(p.name);
    PlainFacts(p.name);
    StripAround(p.before, p.name, p.after);
    SpacesNoColon(p.before);
    SpacesNoColon(p.after);
    IndexOfFirst(head, ':', Raw(p.value));
    assert text == head + [':'] + Raw(p.value) && text[..|head|] == head && text[|head| + 1..] == Raw(p.value);
    ValueSpelled(Lower(p.name), p.value);
    assert !IsSpace(':') && text[|head|] == ':';
    StripNonEmpty(text, |head|);
  }

  lemma SpacesNoColon(s: string)
    requires All(s, IsSpace)
    ensures forall i :: 0 <= i < |s| ==> s[i] != ':'
  {
    AllEach(s, IsSpace);
  }

  lemma GapRead(p: PieceText)
    requires p.Gap? && FinePiece(p)
    ensures ReadPiece(PieceOf(p)).Blank?
  {
    TrimLeftAllSpace(p.spaces);
  }

  lemma SpacesInert(s: string, stops: set<char>)
    requires All(s, IsSpace) && (stops == {';'} || stops == BLOCK_STOPS)
    ensures Lexed(OUTSIDE, s, stops, OUTSIDE) && All(s, NotBrace)
  {
    WordPlain();
    InertIfAll(s, IsSpace, stops);
    LexedInert(OUTSIDE, s, stops);
    AllWeaken(s, IsSpace, NotBrace);
  }

  lemma LexedTwo(a: string, b: string, stops: set<char>)
    requires Lexed(OUTSIDE, a, stops, OUTSIDE) && Lexed(OUTSIDE, b, stops, OUTSIDE)
    ensures Lexed(OUTSIDE, a + b, stops, OUTSIDE)
  {
    hide Run, ScanLen;
    ScanConcat(OUTSIDE, a, b, stops);
    RunConcat(OUTSIDE, a, b);
  }

  lemma PlainLexed(s: string)
    requires All(s, IsPlainChar)
    ensures Lexed(OUTSIDE, s, {';'}, OUTSIDE) && All(s, NotBrace)
  {
    InertIfAll(s, IsPlainChar, {';'});
    LexedInert(OUTSIDE, s, {';'});
    AllWeaken(s, IsPlainChar, NotBrace);
  }

  /** Two texts that the lexers read through. */
  ghost predicate Through(s: string) { Lexed(OUTSIDE, s, {';'}, OUTSIDE) && All(s, NotBrace) }

  lemma ThroughTwo(a: string, b: string)
    requires Through(a) && Through(b)
    ensures Through(a + b)
  {
    hide Lexed, All;
    LexedTwo(a, b, {';'});
    AllConcat(a, b, NotBrace);
  }

  lemma ThroughSpaces(s: string)
    requires All(s, IsSpace)
    ensures Through(s)
  {
    SpacesInert(s, {';'});
  }

  lemma ThroughMarks()
    ensures Through("!") && Through(":")
  {
  }

  lemma RawThrough(prop: string, v: ValueText)
    requires FineValue(prop, v)
    ensures Through(Raw(v))
  {
    assert Through(v.text);
    ThroughSpaces(v.before);
    ThroughSpaces(v.after);
    ThroughTwo(v.before, v.text);
    match v
    case Bare(before, text, after) =>
      hide Through;
      ThroughTwo(before + text, after);
    case Marked(before, text, gap, inner, word, after) =>
      WordFacts(word);
      WordThrough(word);
      ThroughSpaces(gap);
      ThroughSpaces(inner);
      ThroughMarks();
      hide Through;
      ThroughTwo(before + text, gap);
      ThroughTwo(before + text + gap, "!");
      ThroughTwo(before + text + gap + "!", inner);
      ThroughTwo(before + text + gap + "!" + inner, word);
      ThroughTwo(before + text + gap + "!" + inner + word, after);
  }

  lemma WordThrough(word: string)
    requires All(word, IsWordChar)
    ensures Through(word)
  {
    WordPlain();
    AllWeaken(word, IsWordChar, IsPlainChar);
    PlainLexed(word);
  }

  lemma PieceThrough(p: PieceText)
    requires FinePiece(p)
    ensures Through(PieceOf(p))
  {
    match p
    case Gap(spaces) => ThroughSpaces(spaces);
    case Said(before, name, after, value) =>
      NameNotEmpty(name);
      PlainLexed(name);
      assert Through(name);
      ThroughSpaces(before);
      ThroughSpaces(after);
      ThroughMarks();
      RawThrough(Lower(name), value);
      hide Through;
      ThroughTwo(before, name);
      ThroughTwo(before + name, after);
      ThroughTwo(before + name + after, ":");
      ThroughTwo(before + name + after + ":", Raw(value));
  }

  /** One piece before others. */
  lemma KeepFirst(piece: string, rest: seq<string>, already: nat)
    ensures KeepDecls([piece] + rest, already) ==
            match ReadPiece(piece)
            case Blank => KeepDecls(rest, already)
            case Good(d) =>
              if already < MAX_DECLARATIONS_PER_RULE then
                var more := KeepDecls(rest, already + 1);
                ([d] + more.0, more.1)
              else (KeepDecls(rest, already).0, true)
            case _ => (KeepDecls(rest, already).0, true)
  {
    hide ReadPiece;
    assert ([piece] + rest)[1..] == rest;
  }

  lemma PieceKept(p: PieceText, rest: seq<string>, already: nat)
    requires FinePiece(p) && already + (if p.Said? then 1 else 0) <= MAX_DECLARATIONS_PER_RULE
    ensures var one := if p.Said? then [Decl(Lower(p.name), ValueOf(p.value))] else [];
            var more := KeepDecls(rest, already + |one|);
            KeepDecls([PieceOf(p)] + rest, already) == (one + more.0, more.1)
  {
    hide ReadPiece, KeepDecls, PieceOf, FinePiece;
    KeepFirst(PieceOf(p), rest, already);
    if p.Said? {
      SaidRead(p);
    } else {
      GapRead(p);
      assert [] + KeepDecls(rest, already).0 == KeepDecls(rest, already).0;
    }
  }

  /** The declarations of a body are kept, in their order, and nothing is dropped. */
  lemma {:induction false} BodySpelled(pieces: seq<PieceText>, already: nat)
    requires FinePieces(pieces) && already + |DeclsOf(pieces)| <= MAX_DECLARATIONS_PER_RULE
    ensures KeepDecls(SplitPieces(BodyOf(pieces)), already) == (DeclsOf(pieces), false)
    ensures All(BodyOf(pieces), NotBrace)
    decreases |pieces|
  {
    hide KeepDecls, SplitPieces, PieceOf, FinePiece, All, Lexed;
    NoPieces();
    assert KeepDecls([], already) == ([], false) by { NothingKept(already); }
    if pieces == [] {
      assert All("", NotBrace) by { NoBraceInNothing(); }
    } else {
      var p, rest := pieces[0], pieces[1..];
      var first := PieceOf(p);
      PieceThrough(p);
      assert |DeclsOf(pieces)| == (if p.Said? then 1 else 0) + |DeclsOf(rest)|;
      var n := already + if p.Said? then 1 else 0;
      if rest == [] {
        assert KeepDecls([], n) == ([], false) by { NothingKept(n); }
        PieceKept(p, [], already);
        assert [first] + [] == [first];
        assert DeclsOf(rest) == [];
        if first == "" {
          EmptyPiece(p);
        } else {
          LastPiece(first, OUTSIDE);
        }
      } else {
        BodySpelled(rest, n);
        PieceBack(first, BodyOf(rest));
        PieceKept(p, SplitPieces(BodyOf(rest)), already);
        SemicolonNoBrace();
        AllConcat(";", BodyOf(rest), NotBrace);
        AllConcat(first, ";" + BodyOf(rest), NotBrace);
      }
    }
  }

  lemma EmptyPiece(p: PieceText)
    requires PieceOf(p) == ""
    ensures p.Gap?
  {
  }

  lemma NothingKept(already: nat)
    ensures KeepDecls([], already) == ([], false)
  {
  }

  lemma NoBraceInNothing()
    ensures All("", NotBrace)
  {
  }

  lemma SemicolonNoBrace()
    ensures All(";", NotBrace)
  {
  }

  // ---- A block ----

  lemma HeadScanned(head: string, tail: string)
    requires Lexed(OUTSIDE, head, BLOCK_STOPS, OUTSIDE) && tail != "" && tail[0] == '{'
    ensures ScanLen(OUTSIDE, head + tail, BLOCK_STOPS) == |head|
  {
    hide Run;
    ScanConcat(OUTSIDE, head, tail, BLOCK_STOPS);
    assert Stops(OUTSIDE, '{', BLOCK_STOPS);
  }

  lemma HeadStripped(head: string, after: string)
    requires All(after, IsSpace) && Stripped(head)
    ensures Strip(head + after) == head
  {
    hide Strip, Stripped;
    StripAround("", head, after) by { NothingSpace(); }
    assert "" + head + after == head + after;
  }

  lemma HeadLexed(head: string, after: string)
    requires All(after, IsSpace) && Lexed(OUTSIDE, head, BLOCK_STOPS, OUTSIDE)
    ensures Lexed(OUTSIDE, head + after, BLOCK_STOPS, OUTSIDE)
  {
    hide Lexed, All;
    SpacesInert(after, BLOCK_STOPS);
    LexedTwo(head, after, BLOCK_STOPS);
  }

  lemma BlockHere(h: string, b: string, rest: string)
    requires Lexed(OUTSIDE, h, BLOCK_STOPS, OUTSIDE) && Nested(Braces(None, 1), b, Braces(None, 1))
    ensures NextBlock(h + ("{" + (b + ("}" + rest)))) == (Item(Strip(h), Some(b)), |h| + |b| + 2)
  {
    hide ScanLen, BraceLen, Run, Strip, Nested, Lexed;
    var tail := "{" + (b + ("}" + rest));
    var t := h + tail;
    assert tail[0] == '{';
    HeadScanned(h, tail);
    BodyMatched(b, rest);
    assert t[..|h|] == h && t[|h|..] == tail && t[|h|] == '{';
    assert t[|h| + 1..|h| + 1 + |b|] == b;
  }

  /** A block is read as its prelude without the spaces around it and its body, with anything behind it. */
  lemma BlockRead(before: string, head: string, after: string, b: string, rest: string)
    requires All(before, IsSpace) && All(after, IsSpace) && head != "" && Stripped(head)
    requires Lexed(OUTSIDE, head, BLOCK_STOPS, OUTSIDE) && Nested(Braces(None, 1), b, Braces(None, 1))
    ensures ParseBlocks(before + (head + after + "{" + b + "}") + rest) == [Item(head, Some(b))] + ParseBlocks(rest)
  {
    HeadSolid(head);
    HeadLexed(head, after);
    HeadStripped(head, after);
    hide Strip, Nested, Lexed, All, ParseBlocks, NextBlock, Stripped, IsSpace;
    BlockParts(before, head, after, b, rest);
    BlockHere(head + after, b, rest);
    BlockFirst(before, head + after + ("{" + (b + ("}" + rest))), head, b, rest);
  }

  lemma HeadSolid(head: string)
    requires head != "" && Stripped(head)
    ensures !IsSpace(head[0])
  {
  }

  lemma BlockFirst(before: string, s: string, head: string, b: string, rest: string)
    requires All(before, IsSpace) && s != "" && !IsSpace(s[0])
    requires NextBlock(s).0 == Item(head, Some(b)) && s[NextBlock(s).1..] == rest
    ensures ParseBlocks(before + s) == [Item(head, Some(b))] + ParseBlocks(rest)
  {
    hide All, ParseBlocks, NextBlock, IsSpace;
    SkipSeparator(before, s);
    FirstBlock(s);
  }

  lemma BlockParts(before: string, head: string, after: string, b: string, rest: string)
    requires head != ""
    ensures var s := head + after + ("{" + (b + ("}" + rest)));
            && before + (head + after + "{" + b + "}") + rest == before + s
            && s != "" && s[0] == head[0] && s[|head + after| + |b| + 2..] == rest
  {
    var s := head + after + ("{" + (b + ("}" + rest)));
    Regroup(before, head + after + "{" + b + "}", rest);
    assert head + after + "{" + b + "}" + rest == s;
    BlockEnd(head + after, b, rest);
  }

  lemma BlockEnd(h: string, b: string, rest: string)
    ensures (h + ("{" + (b + ("}" + rest))))[|h| + |b| + 2..] == rest
  {
  }

  lemma NothingSpace()
    ensures All("", IsSpace)
  {
  }

  lemma FirstBlock(s: string)
    requires s != "" && !IsSpace(s[0])
    ensures ParseBlocks(s) == [NextBlock(s).0] + ParseBlocks(s[NextBlock(s).1..])
  {
    hide NextBlock;
  }

  lemma HeadNested(before: string, head: string, after: string, open: int)
    requires All(before, IsSpace) && All(after, IsSpace) && All(head, NotBrace)
    requires Lexed(OUTSIDE, head, BLOCK_STOPS, OUTSIDE)
    ensures Nested(Braces(None, open), before + (head + after), Braces(None, open))
  {
    SpacesInert(before, BLOCK_STOPS);
    SpacesInert(after, BLOCK_STOPS);
    LexedTwo(head, after, BLOCK_STOPS);
    LexedTwo(before, head + after, BLOCK_STOPS);
    AllConcat(head, after, NotBrace);
    AllConcat(before, head + after, NotBrace);
    hide All, Nested;
    NestedFlat(None, open, 0, before + (head + after));
  }

  lemma HeadNoBrace(r: RuleText, depth: nat, inKeyframes: bool)
    requires FineRule(r, depth, inKeyframes)
    ensures All(HeadOf(r), NotBrace)
  {
    hide Lexed, FinePieces, FineRules, Stripped, IsSelector, IsKeyframeSelector, Collapse;
    match r
    case Ruled(_, _, _, _) =>
    case Grouped(_, keyword, gap, argument, _, _, _) =>
      KeywordNoBrace(keyword);
      SpacesInert(gap, BLOCK_STOPS);
      ArgumentNoBrace(keyword, argument);
      hide All;
      AllConcat(keyword, gap, NotBrace);
      AllConcat(keyword + gap, argument, NotBrace);
  }

  lemma KeywordNoBrace(keyword: string)
    requires keyword == "@media" || keyword == "@keyframes" || keyword == "@-webkit-keyframes"
    ensures All(keyword, NotBrace)
  {
    hide All;
    HeaderChars(keyword);
    AllWeaken(keyword, IsHeaderChar, NotBrace);
  }

  lemma ArgumentNoBrace(keyword: string, argument: string)
    requires if keyword == "@media" then IsMediaCondition(argument) else IsKeyframesName(argument)
    ensures All(argument, NotBrace)
  {
    if keyword == "@media" {
      AllWeaken(argument, IsMediaChar, NotBrace);
    } else {
      AllWeaken(argument, IsNameChar, NotBrace);
    }
  }

  lemma {:induction false} RuleIsNested(r: RuleText, depth: nat, inKeyframes: bool, open: int)
    requires FineRule(r, depth, inKeyframes) && open >= 1
    ensures Nested(Braces(None, open), RuleOf(r), Braces(None, open))
    ensures Nested(Braces(None, open), InsideOf(r), Braces(None, open))
    decreases r, 1
  {
    hide Nested, Lexed, FinePieces, FineRules, Stripped, IsSelector, IsKeyframeSelector, Collapse, All,
      IsMediaCondition, IsKeyframesName, HeadOf;
    InsideNested(r, depth, inKeyframes, open);
    InsideNested(r, depth, inKeyframes, open + 1);
    HeadNoBrace(r, depth, inKeyframes);
    HeadNested(r.before, HeadOf(r), r.after, open);
    BracesNested(r.before + (HeadOf(r) + r.after), InsideOf(r), open);
    assert RuleOf(r) == r.before + (HeadOf(r) + r.after) + "{" + InsideOf(r) + "}";
  }

  lemma {:induction false} InsideNested(r: RuleText, depth: nat, inKeyframes: bool, open: int)
    requires FineRule(r, depth, inKeyframes) && open >= 1
    ensures Nested(Braces(None, open), InsideOf(r), Braces(None, open))
    decreases r, 0
  {
    hide Nested, Lexed, Stripped, IsSelector, IsKeyframeSelector, Collapse, All, IsMediaCondition, IsKeyframesName,
      HeadOf, DeclsOf;
    match r
    case Ruled(_, _, _, pieces) =>
      hide FinePieces;
      BodySpelled(pieces, 0);
      BodyRun(pieces);
      NestedFlat(None, open, 0, BodyOf(pieces));
    case Grouped(_, keyword, _, _, _, rules, end) => SheetNested(rules, end, depth + 1, keyword != "@media", open);
  }

  lemma {:induction false} BodyRun(pieces: seq<PieceText>)
    requires FinePieces(pieces)
    ensures Run(OUTSIDE, BodyOf(pieces)) == OUTSIDE
    decreases |pieces|
  {
    hide FinePiece, PieceOf, Run;
    if pieces == [] {
      assert Run(OUTSIDE, "") == OUTSIDE by { RunNothing(); }
    } else {
      PieceThrough(pieces[0]);
      if |pieces| > 1 {
        BodyRun(pieces[1..]);
        RunSemicolon();
        RunConcat(OUTSIDE, ";", BodyOf(pieces[1..]));
        RunConcat(OUTSIDE, PieceOf(pieces[0]), ";" + BodyOf(pieces[1..]));
      }
    }
  }

  lemma RunNothing()
    ensures Run(OUTSIDE, "") == OUTSIDE
  {
  }

  lemma {:induction false} SheetNested(rules: seq<RuleText>, end: string, depth: nat, inKeyframes: bool, open: int)
    requires FineRules(rules, depth, inKeyframes) && All(end, IsSpace) && open >= 1
    ensures Nested(Braces(None, open), SheetOf(rules, end), Braces(None, open))
    decreases rules, 2
  {
    hide FineRule, RuleOf, Nested;
    if rules == [] {
      SpacesInert(end, BLOCK_STOPS);
      NestedFlat(None, open, 0, end);
    } else {
      RuleIsNested(rules[0], depth, inKeyframes, open);
      SheetNested(rules[1..], end, depth, inKeyframes, open);
      NestedTwo(Braces(None, open), RuleOf(rules[0]), Braces(None, open), SheetOf(rules[1..], end), Braces(None, open));
    }
  }

  // ---- A sheet ----

  function ItemsIn(rules: seq<RuleText>): seq<Item> {
    if rules == [] then [] else [Item(HeadOf(rules[0]), Some(InsideOf(rules[0])))] + ItemsIn(rules[1..])
  }

  lemma HeadStands(r: RuleText, depth: nat, inKeyframes: bool)
    requires FineRule(r, depth, inKeyframes)
    ensures HeadOf(r) != "" && Stripped(HeadOf(r))
  {
    hide Lexed, FinePieces, FineRules, IsSelector, IsKeyframeSelector, Collapse, IsMediaCondition, IsKeyframesName, All;
    match r
    case Ruled(_, _, _, _) =>
    case Grouped(_, keyword, gap, argument, _, _, _) => assert keyword[0] == '@' && !IsSpace('@');
  }

  /** The blocks of a sheet are its rules. */
  lemma {:induction false} SheetRead(rules: seq<RuleText>, end: string, depth: nat, inKeyframes: bool)
    requires FineRules(rules, depth, inKeyframes) && All(end, IsSpace)
    ensures ParseBlocks(SheetOf(rules, end)) == ItemsIn(rules)
    decreases |rules|
  {
    hide ParseBlocks, Nested, HeadOf, InsideOf, All;
    if rules == [] {
      BlankRead(end);
    } else {
      var r := rules[0];
      SheetRead(rules[1..], end, depth, inKeyframes);
      RuleIsNested(r, depth, inKeyframes, 1);
      HeadStands(r, depth, inKeyframes);
      hide Lexed, Stripped, FineRules;
      RuleParts(r, depth, inKeyframes);
      hide FineRule;
      BlockRead(r.before, HeadOf(r), r.after, InsideOf(r), SheetOf(rules[1..], end));
    }
  }

  lemma RuleParts(r: RuleText, depth: nat, inKeyframes: bool)
    requires FineRule(r, depth, inKeyframes)
    ensures All(r.before, IsSpace) && All(r.after, IsSpace) && Lexed(OUTSIDE, HeadOf(r), BLOCK_STOPS, OUTSIDE)
  {
  }

  lemma BlankRead(end: string)
    requires All(end, IsSpace)
    ensures ParseBlocks(end) == []
  {
    TrimLeftAllSpace(end);
  }

  lemma RuledKept(r: RuleText, depth: nat, count: nat, inKeyframes: bool)
    requires r.Ruled? && FineRule(r, depth, inKeyframes) && depth <= MAX_MEDIA_DEPTH
    ensures CleanItem(HeadOf(r), InsideOf(r), depth, count, inKeyframes) == Cleaned([Meaning(r)], false, count)
  {
    hide Lexed, FinePieces, IsSelector, IsKeyframeSelector, Collapse, All, KeepDecls, SplitPieces, Stripped,
      DeclsOf, BodyOf;
    BodySpelled(r.pieces, 0);
    HeadNotAt(r.prelude, inKeyframes);
  }

  lemma HeadNotAt(prelude: string, inKeyframes: bool)
    requires prelude != "" && Stripped(prelude)
    requires var selector := Collapse(prelude);
             if inKeyframes then IsKeyframeSelector(selector) else IsSelector(selector)
    ensures !("@" <= prelude)
  {
    hide IsKeyframeSelector, IsSelector;
    SelectorNotAt(Collapse(prelude), inKeyframes);
    assert Collapse(prelude)[0] == prelude[0];
  }

  lemma MediaRead(gap: string, argument: string)
    requires gap != "" && All(gap, IsSpace) && argument != "" && Stripped(argument) && IsMediaCondition(argument)
    ensures MediaCondition("@media" + gap + argument) == Some(argument) && Strip(argument) == argument
  {
    hide All, IsMediaCondition;
    TrimLeftPast(gap, argument);
    StripStripped(argument);
    assert ("@media" + gap + argument)[6..] == gap + argument;
    assert "@media" <= "@media" + gap + argument;
  }

  lemma NameSpelled(gap: string, name: string)
    requires gap != "" && All(gap, IsSpace) && name != "" && Stripped(name) && IsKeyframesName(name)
    ensures NameAfterSpace(gap + name) == Some(name)
  {
    hide All, IsKeyframesName;
    TrimLeftPast(gap, name);
  }

  lemma KeyframesRead(keyword: string, gap: string, name: string)
    requires keyword == "@keyframes" || keyword == "@-webkit-keyframes"
    requires gap != "" && All(gap, IsSpace) && name != "" && Stripped(name) && IsKeyframesName(name)
    ensures MediaCondition(keyword + gap + name) == None && KeyframesName(keyword + gap + name) == Some(name)
  {
    hide All, IsKeyframesName, NameAfterSpace, Stripped;
    NameSpelled(gap, name);
    var head := keyword + gap + name;
    assert head[|keyword|..] == gap + name && keyword <= head;
    assert head[1] == keyword[1] && "@media"[1] == 'm' && "@keyframes"[1] == 'k';
  }

  lemma MediaSpelled(gap: string, argument: string, body: string, depth: nat, count: nat)
    requires gap != "" && All(gap, IsSpace) && argument != "" && Stripped(argument) && IsMediaCondition(argument)
    requires depth < MAX_MEDIA_DEPTH
    ensures var inner := CleanItems(ParseBlocks(body), depth + 1, count, false);
            CleanItem("@media" + gap + argument, body, depth, count, false) ==
            inner.(rules := if inner.rules == [] then [] else [Media(Collapse(argument), inner.rules)])
  {
    hide MediaCondition, KeyframesName, IsMediaCondition, ParseBlocks, CleanItems, Collapse, Strip, Stripped, All;
    MediaRead(gap, argument);
    assert ("@media" + gap + argument)[0] == '@';
  }

  lemma KeyframesSpelled(keyword: string, gap: string, name: string, body: string, count: nat)
    requires keyword == "@keyframes" || keyword == "@-webkit-keyframes"
    requires gap != "" && All(gap, IsSpace) && name != "" && Stripped(name) && IsKeyframesName(name)
    ensures var inner := CleanItems(ParseBlocks(body), 1, count, true);
            CleanItem(keyword + gap + name, body, 0, count, false) ==
            inner.(rules := if inner.rules == [] then [] else [Keyframes(name, inner.rules)])
  {
    hide MediaCondition, KeyframesName, IsKeyframesName, ParseBlocks, CleanItems, Stripped, All;
    KeyframesRead(keyword, gap, name);
    assert (keyword + gap + name)[0] == '@';
  }

  lemma {:induction false} RuleSpelled(r: RuleText, depth: nat, count: nat, inKeyframes: bool)
    requires depth <= MAX_MEDIA_DEPTH && FineRule(r, depth, inKeyframes)
    requires count + RuleCount([Meaning(r)]) <= MAX_RULES
    ensures CleanItem(HeadOf(r), InsideOf(r), depth, count + 1, inKeyframes)
         == Cleaned([Meaning(r)], false, count + RuleCount([Meaning(r)]))
    decreases r, 1
  {
    RuleCountOne(Meaning(r));
    hide CleanItem, CleanItems, ParseBlocks, Lexed, IsSelector, IsKeyframeSelector, Collapse, All, Stripped, FinePieces,
      IsMediaCondition, IsKeyframesName, DeclsOf, BodyOf, RuleCount, ItemsIn;
    match r
    case Ruled(_, _, _, _) => RuledKept(r, depth, count + 1, inKeyframes);
    case Grouped(_, keyword, gap, argument, _, rules, end) =>
      var inside := keyword != "@media";
      SheetRead(rules, end, depth + 1, inside);
      RulesSpelled(rules, depth + 1, count + 1, inside);
      assert Meanings(rules) != [];
      if inside {
        KeyframesSpelled(keyword, gap, argument, SheetOf(rules, end), count + 1);
      } else {
        MediaSpelled(gap, argument, SheetOf(rules, end), depth, count + 1);
      }
  }

  /** Every rule of the sheet is kept, and none is told as dropped. */
  lemma {:induction false} RulesSpelled(rules: seq<RuleText>, depth: nat, count: nat, inKeyframes: bool)
    requires depth <= MAX_MEDIA_DEPTH && FineRules(rules, depth, inKeyframes)
    requires count + RuleCount(Meanings(rules)) <= MAX_RULES
    ensures CleanItems(ItemsIn(rules), depth, count, inKeyframes)
         == Cleaned(Meanings(rules), false, count + RuleCount(Meanings(rules)))
    decreases rules, 2
  {
    hide FineRule, CleanItem, HeadOf, InsideOf, Meaning;
    if rules != [] {
      var m := Meaning(rules[0]);
      RuleCountAppend([m], Meanings(rules[1..]));
      RuleSpelled(rules[0], depth, count, inKeyframes);
      RulesSpelled(rules[1..], depth, count + RuleCount([m]), inKeyframes);
      assert ItemsIn(rules)[1..] == ItemsIn(rules[1..]);
    }
  }

  /** A sheet of well-formed rules within the caps is printed in full, in order, whatever its spaces, letter cases,
      empty declarations and comments are. */
  lemma SheetSpelled(rules: seq<RuleText>, end: string, parts: seq<Part>, last: string)
    requires FineRules(rules, 0, false) && All(end, IsSpace) && RuleCount(Meanings(rules)) <= MAX_RULES
    requires IsWritten(parts, last, None) && Uncommented(parts) + last == SheetOf(rules, end)
    requires All(SheetOf(rules, end), IsAllowedChar) && |Written(parts, last, None)| <= MAX_SHEET_CHARS
    ensures Stylesheet(Written(parts, last, None)) == (PrintRules(Meanings(rules), "\n"), false)
  {
    hide FineRules, IsWritten, Written, Uncommented, DeleteComments, ParseBlocks, CleanItems, All, Meanings, Strip,
      SheetOf, PrintRules;
    DeletionExactly(parts, last, None);
    SheetRead(rules, end, 0, false);
    RulesSpelled(rules, 0, 0, false);
    if Strip(Written(parts, last, None)) == "" {
      BlankHasNoRules(Written(parts, last, None), rules, end);
    }
  }

  lemma BlankHasNoRules(text: string, rules: seq<RuleText>, end: string)
    requires Strip(text) == "" && DeleteComments(text).0 == SheetOf(rules, end)
    requires ParseBlocks(SheetOf(rules, end)) == ItemsIn(rules)
    ensures rules == [] && PrintRules(Meanings(rules), "\n") == ""
  {
    hide DeleteComments, HasComment, SheetOf, HeadOf, InsideOf;
    BlankText(text);
    BlankClear(text);
    NoCommentFixed(text);
    BlankRead(text);
  }

  // ---- A style attribute ----

  /** Neither a quote nor a parenthesis. */
  predicate Neutral(c: char) { !IsQuote(c) && c != '(' && c != ')' }

  lemma NeutralKinds()
    ensures forall c :: IsSpace(c) || IsPlainChar(c) || IsWordChar(c) ==> Neutral(c)
  {
  }

  lemma NeutralMarks()
    ensures All("", Neutral) && All("!", Neutral) && All(":", Neutral) && All(";", Neutral)
  {
  }

  lemma NeutralAround(a: string, t: string, b: string, c: char)
    requires All(a, Neutral) && All(b, Neutral) && !Neutral(c)
    ensures Count(a + t + b, c) == Count(t, c)
  {
    hide All, Count;
    CountZero(a, Neutral, c);
    CountZero(b, Neutral, c);
    CountConcat(a, t, c);
    CountConcat(a + t, b, c);
  }

  lemma MarkNeutral(gap: string, inner: string, word: string, after: string)
    requires All(gap, IsSpace) && All(inner, IsSpace) && All(word, IsWordChar) && All(after, IsSpace)
    ensures All(gap + "!" + inner + word + after, Neutral)
  {
    hide All;
    NeutralKinds();
    NeutralMarks();
    AllWeaken(gap, IsSpace, Neutral);
    AllWeaken(inner, IsSpace, Neutral);
    AllWeaken(word, IsWordChar, Neutral);
    AllWeaken(after, IsSpace, Neutral);
    AllConcat(gap, "!", Neutral);
    AllConcat(gap + "!", inner, Neutral);
    AllConcat(gap + "!" + inner, word, Neutral);
    AllConcat(gap + "!" + inner + word, after, Neutral);
  }

  lemma SpacesNeutral(s: string)
    requires All(s, IsSpace)
    ensures All(s, Neutral)
  {
    NeutralKinds();
    AllWeaken(s, IsSpace, Neutral);
  }

  lemma RawCount(prop: string, v: ValueText, c: char)
    requires FineValue(prop, v) && !Neutral(c)
    ensures Count(Raw(v), c) == Count(v.text, c) == Count(ValueOf(v).text, c)
  {
    hide All, Count, Collapse, IsCleanValue, ImportantStart, StartsFold, Lexed, Stripped, Neutral;
    assert !IsSpace(c) by { NeutralKinds(); }
    CountCollapse(v.text, c);
    SpacesNeutral(v.before);
    SpacesNeutral(v.after);
    match v
    case Bare(before, text, after) => NeutralAround(before, text, after, c);
    case Marked(before, text, gap, inner, word, after) =>
      WordFacts(word);
      MarkNeutral(gap, inner, word, after);
      NeutralAround(before, text, gap + "!" + inner + word + after, c);
      assert before + text + (gap + "!" + inner + word + after) == Raw(v);
  }

  lemma SaidCount(p: PieceText, c: char)
    requires p.Said? && FinePiece(p) && !Neutral(c)
    ensures Count(PieceOf(p), c) == Count(ValueOf(p.value).text, c)
  {
    NameNotEmpty(p.name);
    hide All, Count, FineValue, Neutral, Raw, ValueOf, IsProperty;
    NeutralKinds();
    NeutralMarks();
    AllWeaken(p.name, IsPlainChar, Neutral);
    SpacesNeutral(p.before);
    SpacesNeutral(p.after);
    AllConcat(p.before, p.name, Neutral);
    AllConcat(p.before + p.name, p.after, Neutral);
    AllConcat(p.before + p.name + p.after, ":", Neutral);
    CountZero(p.before + p.name + p.after + ":", Neutral, c);
    CountConcat(p.before + p.name + p.after + ":", Raw(p.value), c);
    RawCount(Lower(p.name), p.value, c);
  }

  lemma GapCount(p: PieceText, c: char)
    requires p.Gap? && FinePiece(p) && !Neutral(c)
    ensures Count(PieceOf(p), c) == 0
  {
    hide All, Neutral;
    SpacesNeutral(p.spaces);
    CountZero(p.spaces, Neutral, c);
  }

  lemma PieceBalanced(p: PieceText)
    requires FinePiece(p)
    ensures Balanced(PieceOf(p))
  {
    hide FineValue, Count;
    if p.Said? {
      ValueBalanced(Lower(p.name), p.value);
      forall c | !Neutral(c) ensures Count(PieceOf(p), c) == Count(ValueOf(p.value).text, c) {
        SaidCount(p, c);
      }
    } else {
      forall c | !Neutral(c) ensures Count(PieceOf(p), c) == 0 {
        GapCount(p, c);
      }
    }
  }

  lemma ValueBalanced(prop: string, v: ValueText)
    requires FineValue(prop, v)
    ensures Balanced(ValueOf(v).text)
  {
  }

  lemma BalancedTwo(a: string, b: string)
    requires Balanced(a) && Balanced(b)
    ensures Balanced(a + ";" + b)
  {
    hide Count;
    NeutralMarks();
    forall c | !Neutral(c) ensures Count(a + ";" + b, c) == Count(a, c) + Count(b, c) {
      CountZero(";", Neutral, c);
      CountConcat(a, ";", c);
      CountConcat(a + ";", b, c);
    }
  }

  lemma {:induction false} BodyBalanced(pieces: seq<PieceText>)
    requires FinePieces(pieces)
    ensures Balanced(BodyOf(pieces))
    decreases |pieces|
  {
    hide Balanced, PieceOf, FinePiece;
    if pieces == [] {
      assert Balanced("") by { NothingBalanced(); }
    } else {
      PieceBalanced(pieces[0]);
      if |pieces| > 1 {
        BodyBalanced(pieces[1..]);
        BalancedTwo(PieceOf(pieces[0]), BodyOf(pieces[1..]));
        Regroup(PieceOf(pieces[0]), ";", BodyOf(pieces[1..]));
      }
    }
  }

  lemma NothingBalanced()
    ensures Balanced("")
  {
  }

  /** Where nothing is dropped, an attribute keeps what a rule keeps. */
  lemma {:induction false} KeptAlike(pieces: seq<string>, already: nat)
    requires !KeepDecls(pieces, already).1
    ensures KeepAttribute(pieces, already) == Some(KeepDecls(pieces, already))
  {
    hide ReadPiece;
    if pieces != [] {
      match ReadPiece(pieces[0]) {
        case Blank => KeptAlike(pieces[1..], already);
        case Good(_) => KeptAlike(pieces[1..], already + 1);
        case _ =>
      }
    }
  }

  lemma {:induction false} BlankHasNoDecls(pieces: seq<PieceText>)
    requires FinePieces(pieces) && All(BodyOf(pieces), IsSpace)
    ensures DeclsOf(pieces) == []
    decreases |pieces|
  {
    hide FinePiece;
    if pieces != [] {
      if |pieces| > 1 {
        hide PieceOf;
        AllConcat(PieceOf(pieces[0]), ";" + BodyOf(pieces[1..]), IsSpace);
        SemicolonNotSpace(BodyOf(pieces[1..]));
      } else if pieces[0].Said? {
        SaidNotBlank(pieces[0]);
      }
    }
  }

  lemma SemicolonNotSpace(rest: string)
    ensures !All(";" + rest, IsSpace)
  {
    assert (";" + rest)[0] == ';';
  }

  lemma SaidNotBlank(p: PieceText)
    requires p.Said? && FinePiece(p)
    ensures !All(PieceOf(p), IsSpace)
  {
    hide FinePiece;
    SaidRead(p);
    if All(PieceOf(p), IsSpace) {
      TrimLeftAllSpace(PieceOf(p));
    }
  }

  /** The declarations of an attribute are printed in full, in order, whatever its spaces, letter cases, empty
      declarations and comments are. */
  lemma AttributeSpelled(pieces: seq<PieceText>, parts: seq<Part>, last: string)
    requires FinePieces(pieces) && |DeclsOf(pieces)| <= MAX_DECLARATIONS_PER_RULE
    requires IsWritten(parts, last, None) && Uncommented(parts) + last == BodyOf(pieces)
    requires All(BodyOf(pieces), IsAllowedChar) && |Written(parts, last, None)| <= MAX_ATTRIBUTE_CHARS
    ensures StyleAttribute(Written(parts, last, None)) == (PrintDecls(DeclsOf(pieces)), false)
  {
    hide FinePieces, IsWritten, Written, Uncommented, DeleteComments, All, Strip, BodyOf, PrintDecls, DeclsOf,
      KeepDecls, KeepAttribute, SplitPieces, Balanced, HasComment;
    DeletionExactly(parts, last, None);
    BodySpelled(pieces, 0);
    KeptAlike(SplitPieces(BodyOf(pieces)), 0);
    BodyBalanced(pieces);
    var text := Written(parts, last, None);
    if Strip(text) == "" {
      BlankText(text);
      BlankClear(text);
      NoCommentFixed(text);
      BlankHasNoDecls(pieces);
    }
  }
}
