/** The hand-written lexer of the member stylesheet filter: `_scan`, `_matching_brace` and
    `_parse_blocks`. The loops are proved against small state machines over characters. */
module CssLexer {
  import opened Text

  predicate IsQuote(c: char) { c == '\"' || c == '\'' }

  type Quote = c: char | IsQuote(c) witness '\"'

  /** What `_scan` remembers between characters: the open quote, if any, and the open parentheses. */
  datatype Lex = Lex(quote: Option<Quote>, parens: nat)

  const OUTSIDE := Lex(None, 0)

  function Step(l: Lex, c: char): Lex {
    if l.quote.Some? then (if c == l.quote.value then Lex(None, l.parens) else l)
    else if IsQuote(c) then Lex(Some(c), l.parens)
    else if c == '(' then Lex(None, l.parens + 1)
    else if c == ')' then Lex(None, if l.parens > 0 then l.parens - 1 else 0)
    else l
  }

  function Run(l: Lex, s: string): Lex
    decreases |s|
  {
    if s == "" then l else Run(Step(l, s[0]), s[1..])
  }

  /** A character that the scanner may stop at stands outside strings and parentheses. */
  predicate Stops(l: Lex, c: char, stops: set<char>) {
    l == OUTSIDE && !IsQuote(c) && c != '(' && c != ')' && c in stops
  }

  /** How far `_scan` gets in `s` when it starts in state `l`. */
  function ScanLen(l: Lex, s: string, stops: set<char>): (n: nat)
    ensures n <= |s|
    decreases |s|
  {
    if s == "" || Stops(l, s[0], stops) then 0 else 1 + ScanLen(Step(l, s[0]), s[1..], stops)
  }

  method Scan(text: string, start: nat, stops: set<char>) returns (end: nat)
    requires start <= |text|
    ensures end == start + ScanLen(OUTSIDE, text[start..], stops)
    ensures start <= end <= |text|
  {
    var quote: Option<Quote> := None;
    var parens := 0;
    var i := start;
    while i < |text|
      invariant start <= i <= |text| && 0 <= parens
      invariant ScanLen(OUTSIDE, text[start..], stops)
             == (i - start) + ScanLen(Lex(quote, parens), text[i..], stops)
    {
      var c := text[i];
      assert text[i..][0] == c && text[i..][1..] == text[i + 1..];
      if quote.Some? {
        if c == quote.value {
          quote := None;
        }
      } else if IsQuote(c) {
        quote := Some(c);
      } else if c == '(' {
        parens := parens + 1;
      } else if c == ')' {
        parens := if parens > 0 then parens - 1 else 0;
      } else if parens == 0 && c in stops {
        return i;
      }
      i := i + 1;
    }
    return |text|;
  }

  /** What `_matching_brace` remembers: the open quote and the number of open braces. It does not
      look at parentheses. */
  datatype Braces = Braces(quote: Option<Quote>, depth: int)

  function BraceStep(b: Braces, c: char): Braces {
    if b.quote.Some? then (if c == b.quote.value then Braces(None, b.depth) else b)
    else if IsQuote(c) then Braces(Some(c), b.depth)
    else if c == '{' then Braces(None, b.depth + 1)
    else if c == '}' then Braces(None, b.depth - 1)
    else b
  }

  /** The offset in `s` of the `}` that brings the depth to zero, seen from state `b`. */
  function BraceLen(b: Braces, s: string): (k: Option<nat>)
    ensures k.Some? ==> k.value < |s| && (b.depth <= 0 ==> 0 < k.value)
    decreases |s|
  {
    if s == "" then None
    else if b.quote.None? && s[0] == '}' && b.depth == 1 then Some(0)
    else
      var k := BraceLen(BraceStep(b, s[0]), s[1..]);
      if k.None? then None else Some(k.value + 1)
  }

  lemma BraceNext(b: Braces, text: string, i: nat)
    requires i < |text|
    ensures BraceLen(b, text[i..]) ==
            if b.quote.None? && text[i] == '}' && b.depth == 1 then Some(0)
            else
              var k := BraceLen(BraceStep(b, text[i]), text[i + 1..]);
              if k.None? then None else Some(k.value + 1)
  {
    Rest(text, i);
  }

  method MatchingBrace(text: string, start: nat) returns (close: Option<nat>)
    requires start < |text|
    ensures var k := BraceLen(Braces(None, 0), text[start..]);
            close == if k.None? then None else Some(start + k.value)
  {
    hide BraceLen;
    var depth := 0;
    var quote: Option<Quote> := None;
    for i := start to |text|
      invariant var all := BraceLen(Braces(None, 0), text[start..]);
                var rest := BraceLen(Braces(quote, depth), text[i..]);
                all == if rest.None? then None else Some(i - start + rest.value)
    {
      var c := text[i];
      BraceNext(Braces(quote, depth), text, i);
      if quote.Some? {
        if c == quote.value {
          quote := None;
        }
      } else if IsQuote(c) {
        quote := Some(c);
      } else if c == '{' {
        depth := depth + 1;
      } else if c == '}' {
        depth := depth - 1;
        if depth == 0 {
          return Some(i);
        }
      }
    }
    assert text[|text|..] == "" && BraceLen(Braces(quote, depth), "") == None by { NoBrace(Braces(quote, depth)); }
    return None;
  }

  lemma NoBrace(b: Braces)
    ensures BraceLen(b, "") == None
  {
  }

  /** One block of a sheet: the text before `{` or `;`, and what is inside the braces, if any. */
  datatype Item = Item(prelude: string, body: Option<string>)

  const BLOCK_STOPS := {'{', ';'}

  /** The block at the start of `t`, and how many characters it takes. A fragment that no `;` or
      `}` ends takes everything. */
  function NextBlock(t: string): (r: (Item, nat))
    requires t != ""
    ensures 0 < r.1 <= |t|
  {
    var end := ScanLen(OUTSIDE, t, BLOCK_STOPS);
    var prelude := Strip(t[..end]);
    if end == |t| then (Item(prelude, None), |t|)
    else if t[end] == ';' then (Item(prelude, None), end + 1)
    else
      match BraceLen(Braces(None, 0), t[end..])
      case None => (Item(prelude, None), |t|)
      case Some(k) => (Item(prelude, Some(t[end + 1..end + k])), end + k + 1)
  }

  function ParseBlocks(s: string): seq<Item>
    decreases |s|
  {
    var t := TrimLeft(s);
    if t == "" then [] else [NextBlock(t).0] + ParseBlocks(t[NextBlock(t).1..])
  }

  method SkipSpaces(text: string, start: nat) returns (i: nat)
    requires start <= |text|
    ensures start <= i <= |text| && text[i..] == TrimLeft(text[start..])
  {
    i := start;
    while i < |text| && IsSpace(text[i])
      invariant start <= i <= |text| && TrimLeft(text[i..]) == TrimLeft(text[start..])
    {
      assert text[i..][1..] == text[i + 1..];
      i := i + 1;
    }
  }

  /** One turn of the loop of `_parse_blocks`, from a character that is not a space. */
  method ReadBlock(text: string, i: nat) returns (item: Item, next: nat)
    requires i < |text|
    ensures i < next <= |text| && (item, next - i) == NextBlock(text[i..])
  {
    hide ScanLen, BraceLen, Strip;
    var end := Scan(text, i, BLOCK_STOPS);
    Slice(text, i, 0, end - i);
    assert text[i..][..end - i] == text[i..][0..end - i];
    var prelude := Strip(text[i..end]);
    if end >= |text| {
      return Item(prelude, None), |text|;
    }
    if text[end] == ';' {
      return Item(prelude, None), end + 1;
    }
    var close := MatchingBrace(text, end);
    if close.None? {
      return Item(prelude, None), |text|;
    }
    Slice(text, i, end - i + 1, close.value - i);
    return Item(prelude, Some(text[end + 1..close.value])), close.value + 1;
  }

  lemma ParseBlocksStep(text: string, before: nat, i: nat, next: nat)
    requires before <= i < next <= |text|
    requires text[i..] == TrimLeft(text[before..])
    requires NextBlock(text[i..]).1 == next - i
    ensures ParseBlocks(text[before..]) == [NextBlock(text[i..]).0] + ParseBlocks(text[next..])
  {
    hide NextBlock, TrimLeft;
    Slice(text, i, next - i, next - i);
  }

  /** `_parse_blocks`. */
  method ParseText(text: string) returns (items: seq<Item>)
    ensures items == ParseBlocks(text)
  {
    items := [];
    var i := 0;
    while i < |text|
      invariant 0 <= i <= |text|
      invariant ParseBlocks(text) == items + ParseBlocks(text[i..])
    {
      ghost var before := i;
      i := SkipSpaces(text, i);
      if i >= |text| {
        break;
      }
      var item, next := ReadBlock(text, i);
      ParseBlocksStep(text, before, i, next);
      assert items + ([item] + ParseBlocks(text[next..])) == items + [item] + ParseBlocks(text[next..]);
      items := items + [item];
      i := next;
    }
  }

  // ---- What the scanner does with a concatenation ----

  /** The scanner reads all of `s` from state `l` without stopping, and ends in state `end`. */
  predicate Lexed(l: Lex, s: string, stops: set<char>, end: Lex) {
    ScanLen(l, s, stops) == |s| && Run(l, s) == end
  }

  lemma {:induction false} RunConcat(l: Lex, a: string, b: string)
    ensures Run(l, a + b) == Run(Run(l, a), b)
    decreases |a|
  {
    if a == "" {
      assert a + b == b;
    } else {
      assert (a + b)[1..] == a[1..] + b;
      RunConcat(Step(l, a[0]), a[1..], b);
    }
  }

  lemma {:induction false} ScanConcat(l: Lex, a: string, b: string, stops: set<char>)
    ensures ScanLen(l, a + b, stops)
         == if ScanLen(l, a, stops) < |a| then ScanLen(l, a, stops) else |a| + ScanLen(Run(l, a), b, stops)
    decreases |a|
  {
    if a == "" {
      assert a + b == b;
    } else {
      assert (a + b)[1..] == a[1..] + b;
      ScanConcat(Step(l, a[0]), a[1..], b, stops);
    }
  }

  lemma LexedConcat(l: Lex, a: string, b: string, stops: set<char>, end: Lex)
    ensures Lexed(l, a + b, stops, end)
       <==> Lexed(l, a, stops, Run(l, a)) && Lexed(Run(l, a), b, stops, end)
  {
    RunConcat(l, a, b);
    ScanConcat(l, a, b, stops);
  }

  /** The scanner returns the first character it may stop at. */
  lemma {:induction false} ScanStop(l: Lex, s: string, stops: set<char>)
    ensures var n := ScanLen(l, s, stops);
            && Lexed(l, s[..n], stops, Run(l, s[..n]))
            && (n < |s| ==> Stops(Run(l, s[..n]), s[n], stops))
    decreases |s|
  {
    var n := ScanLen(l, s, stops);
    if n > 0 {
      ScanStop(Step(l, s[0]), s[1..], stops);
      assert s[..n][1..] == s[1..][..n - 1];
    }
  }

  /** A character that leaves the state of the scanner alone. */
  predicate Inert(c: char) { !IsQuote(c) && c != '(' && c != ')' }

  predicate AllInert(s: string, stops: set<char>) {
    s != "" ==> Inert(s[0]) && s[0] !in stops && AllInert(s[1..], stops)
  }

  lemma {:induction false} LexedInert(l: Lex, s: string, stops: set<char>)
    requires AllInert(s, stops)
    ensures Lexed(l, s, stops, l)
  {
    if s != "" {
      LexedInert(l, s[1..], stops);
    }
  }

  lemma {:induction false} InertIfAll(s: string, p: char -> bool, stops: set<char>)
    requires All(s, p) && forall c :: p(c) ==> Inert(c) && c !in stops
    ensures AllInert(s, stops)
  {
    if s != "" {
      InertIfAll(s[1..], p, stops);
    }
  }

  predicate NoSpaceIn(stops: set<char>) { forall c | c in stops :: !IsSpace(c) }

  lemma LexedTrimLeft(l: Lex, s: string, stops: set<char>, end: Lex)
    requires Lexed(l, s, stops, end) && NoSpaceIn(stops)
    ensures Lexed(l, TrimLeft(s), stops, end)
  {
    TrimLeftSplit(s);
    var spaces := s[..|s| - |TrimLeft(s)|];
    InertIfAll(spaces, IsSpace, stops);
    LexedInert(l, spaces, stops);
    LexedConcat(l, spaces, TrimLeft(s), stops, end);
  }

  lemma LexedTrimRight(l: Lex, s: string, stops: set<char>, end: Lex)
    requires Lexed(l, s, stops, end) && NoSpaceIn(stops)
    ensures Lexed(l, TrimRight(s), stops, end)
  {
    TrimRightSplit(s);
    var spaces := s[|TrimRight(s)|..];
    InertIfAll(spaces, IsSpace, stops);
    LexedInert(Run(l, TrimRight(s)), spaces, stops);
    LexedConcat(l, TrimRight(s), spaces, stops, end);
  }

  lemma LexedStrip(l: Lex, s: string, stops: set<char>, end: Lex)
    requires Lexed(l, s, stops, end) && NoSpaceIn(stops)
    ensures Lexed(l, Strip(s), stops, end)
  {
    LexedTrimLeft(l, s, stops, end);
    LexedTrimRight(l, TrimLeft(s), stops, end);
  }

  lemma {:induction false} LexedCollapse(l: Lex, s: string, stops: set<char>, end: Lex)
    requires Lexed(l, s, stops, end) && NoSpaceIn(stops)
    ensures Lexed(l, Collapse(s), stops, end)
    decreases |s|
  {
    if s != "" {
      if IsSpace(s[0]) {
        LexedTrimLeft(l, s, stops, end);
        LexedCollapse(l, TrimLeft(s), stops, end);
        assert Collapse(s)[1..] == Collapse(TrimLeft(s));
        assert IsSpace(' ') && Step(l, ' ') == l;
      } else {
        LexedCollapse(Step(l, s[0]), s[1..], stops, end);
        assert Collapse(s)[1..] == Collapse(s[1..]);
      }
    }
  }

  // ---- What the brace matcher does with a concatenation ----

  function BraceRun(b: Braces, s: string): Braces
    decreases |s|
  {
    if s == "" then b else BraceRun(BraceStep(b, s[0]), s[1..])
  }

  /** The brace matcher reads all of `s` from state `b` without closing the block, and ends in `end`. */
  predicate Nested(b: Braces, s: string, end: Braces) {
    BraceLen(b, s) == None && BraceRun(b, s) == end
  }

  lemma {:induction false} NestedConcat(b: Braces, a: string, mid: Braces, c: string)
    requires Nested(b, a, mid)
    ensures BraceRun(b, a + c) == BraceRun(mid, c)
    ensures BraceLen(b, a + c) == match BraceLen(mid, c) case None => None case Some(k) => Some(|a| + k)
    decreases |a|
  {
    if a == "" {
      assert a + c == c;
    } else {
      assert (a + c)[1..] == a[1..] + c;
      NestedConcat(BraceStep(b, a[0]), a[1..], mid, c);
    }
  }

  predicate NotBrace(c: char) { c != '{' && c != '}' }

  /** Between braces the two state machines follow the same quotes, whatever the parentheses do. */
  lemma {:induction false} NestedFlat(q: Option<Quote>, depth: int, parens: nat, s: string)
    requires All(s, NotBrace)
    ensures Nested(Braces(q, depth), s, Braces(Run(Lex(q, parens), s).quote, depth))
    decreases |s|
  {
    if s != "" {
      var l := Step(Lex(q, parens), s[0]);
      assert BraceStep(Braces(q, depth), s[0]) == Braces(l.quote, depth);
      NestedFlat(l.quote, depth, l.parens, s[1..]);
    }
  }

  /** The closing brace stands outside strings. */
  lemma {:induction false} BraceLenQuote(b: Braces, parens: nat, s: string)
    requires BraceLen(b, s).Some?
    ensures Run(Lex(b.quote, parens), s[..BraceLen(b, s).value]).quote == None
    decreases |s|
  {
    var k := BraceLen(b, s).value;
    if k > 0 {
      var l := Step(Lex(b.quote, parens), s[0]);
      assert BraceStep(b, s[0]).quote == l.quote;
      BraceLenQuote(BraceStep(b, s[0]), l.parens, s[1..]);
      assert s[..k][1..] == s[1..][..k - 1];
    }
  }
}
