/** The few operations on Python `str` values that the modelled code relies on:
    stripping, whitespace collapsing, case mapping, splitting, joining and counting. */
module Text {

  datatype Option<+T> = None | Some(value: T)

  /** `str.isspace` of one character, which is also what `\s` matches and what `strip` removes. */
  predicate IsSpace(c: char) {
    || '\U{9}' <= c <= '\U{D}'
    || '\U{1C}' <= c <= ' '
    || c == '\U{85}' || c == '\U{A0}' || c == '\U{1680}'
    || '\U{2000}' <= c <= '\U{200A}'
    || c == '\U{2028}' || c == '\U{2029}' || c == '\U{202F}' || c == '\U{205F}' || c == '\U{3000}'
  }

  predicate IsLowerLetter(c: char) { 'a' <= c <= 'z' }

  predicate IsDigit(c: char) { '0' <= c <= '9' }

  predicate IsLetter(c: char) { 'a' <= c <= 'z' || 'A' <= c <= 'Z' }

  /** The code points of the decimal digits beyond ASCII (Unicode 14), which `\d` also matches. */
  predicate IsUnicodeDigit(n: int) {
    || 0x660 <= n <= 0x669 || 0x6F0 <= n <= 0x6F9 || 0x7C0 <= n <= 0x7C9 || 0x966 <= n <= 0x96F
    || 0x9E6 <= n <= 0x9EF || 0xA66 <= n <= 0xA6F || 0xAE6 <= n <= 0xAEF || 0xB66 <= n <= 0xB6F
    || 0xBE6 <= n <= 0xBEF || 0xC66 <= n <= 0xC6F || 0xCE6 <= n <= 0xCEF || 0xD66 <= n <= 0xD6F
    || 0xDE6 <= n <= 0xDEF || 0xE50 <= n <= 0xE59 || 0xED0 <= n <= 0xED9 || 0xF20 <= n <= 0xF29
    || 0x1040 <= n <= 0x1049 || 0x1090 <= n <= 0x1099 || 0x17E0 <= n <= 0x17E9 || 0x1810 <= n <= 0x1819
    || 0x1946 <= n <= 0x194F || 0x19D0 <= n <= 0x19D9 || 0x1A80 <= n <= 0x1A89 || 0x1A90 <= n <= 0x1A99
    || 0x1B50 <= n <= 0x1B59 || 0x1BB0 <= n <= 0x1BB9 || 0x1C40 <= n <= 0x1C49 || 0x1C50 <= n <= 0x1C59
    || 0xA620 <= n <= 0xA629 || 0xA8D0 <= n <= 0xA8D9 || 0xA900 <= n <= 0xA909 || 0xA9D0 <= n <= 0xA9D9
    || 0xA9F0 <= n <= 0xA9F9 || 0xAA50 <= n <= 0xAA59 || 0xABF0 <= n <= 0xABF9 || 0xFF10 <= n <= 0xFF19
    || 0x104A0 <= n <= 0x104A9 || 0x10D30 <= n <= 0x10D39 || 0x11066 <= n <= 0x1106F || 0x110F0 <= n <= 0x110F9
    || 0x11136 <= n <= 0x1113F || 0x111D0 <= n <= 0x111D9 || 0x112F0 <= n <= 0x112F9 || 0x11450 <= n <= 0x11459
    || 0x114D0 <= n <= 0x114D9 || 0x11650 <= n <= 0x11659 || 0x116C0 <= n <= 0x116C9 || 0x11730 <= n <= 0x11739
    || 0x118E0 <= n <= 0x118E9 || 0x11950 <= n <= 0x11959 || 0x11C50 <= n <= 0x11C59 || 0x11D50 <= n <= 0x11D59
    || 0x11DA0 <= n <= 0x11DA9 || 0x16A60 <= n <= 0x16A69 || 0x16AC0 <= n <= 0x16AC9 || 0x16B50 <= n <= 0x16B59
    || 0x1D7CE <= n <= 0x1D7D7 || 0x1D7D8 <= n <= 0x1D7E1 || 0x1D7E2 <= n <= 0x1D7EB || 0x1D7EC <= n <= 0x1D7F5
    || 0x1D7F6 <= n <= 0x1D7FF || 0x1E140 <= n <= 0x1E149 || 0x1E2F0 <= n <= 0x1E2F9 || 0x1E950 <= n <= 0x1E959
    || 0x1FBF0 <= n <= 0x1FBF9
  }

  predicate IsDecimal(c: char) { IsDigit(c) || IsUnicodeDigit(c as int) }

  function DigitRun(s: string): (n: nat)
    ensures n <= |s|
  {
    if s != "" && IsDecimal(s[0]) then 1 + DigitRun(s[1..]) else 0
  }

  function TrimLeft(s: string): (r: string)
    ensures |r| <= |s|
    ensures r != "" ==> !IsSpace(r[0])
  {
    if s != "" && IsSpace(s[0]) then TrimLeft(s[1..]) else s
  }

  function TrimRight(s: string): (r: string)
    ensures |r| <= |s|
    ensures r != "" ==> !IsSpace(r[|r| - 1])
  {
    if s != "" && IsSpace(s[|s| - 1]) then TrimRight(s[..|s| - 1]) else s
  }

  /** `str.strip()`. */
  function Strip(s: string): string {
    TrimRight(TrimLeft(s))
  }

  predicate Stripped(s: string) {
    s != "" ==> !IsSpace(s[0]) && !IsSpace(s[|s| - 1])
  }

  /** What `TrimLeft` removes is a run of spaces at the front. */
  lemma {:induction false} TrimLeftSplit(s: string)
    ensures s == s[..|s| - |TrimLeft(s)|] + TrimLeft(s)
    ensures All(s[..|s| - |TrimLeft(s)|], IsSpace)
  {
    if s != "" && IsSpace(s[0]) {
      TrimLeftSplit(s[1..]);
      assert s[..|s| - |TrimLeft(s)|] == [s[0]] + s[1..][..|s[1..]| - |TrimLeft(s[1..])|];
    }
  }

  /** What `TrimRight` removes is a run of spaces at the end. */
  lemma {:induction false} TrimRightSplit(s: string)
    ensures s == TrimRight(s) + s[|TrimRight(s)|..]
    ensures All(s[|TrimRight(s)|..], IsSpace)
  {
    if s != "" && IsSpace(s[|s| - 1]) {
      var t := s[..|s| - 1];
      TrimRightSplit(t);
      AllConcat(t[|TrimRight(t)|..], [s[|s| - 1]], IsSpace);
      assert s[|TrimRight(s)|..] == t[|TrimRight(t)|..] + [s[|s| - 1]];
    }
  }

  /** Every character of `s` satisfies `p`: `re.fullmatch("[...]*", s)`. */
  predicate All(s: string, p: char -> bool) {
    s != "" ==> p(s[0]) && All(s[1..], p)
  }

  lemma {:induction false} AllEach(s: string, p: char -> bool)
    ensures All(s, p) <==> forall i :: 0 <= i < |s| ==> p(s[i])
  {
    if s != "" {
      AllEach(s[1..], p);
      assert forall i :: 1 <= i < |s| ==> s[i] == s[1..][i - 1];
      assert forall i :: 0 <= i < |s| - 1 ==> s[1..][i] == s[i + 1];
    }
  }

  lemma {:induction false} AllConcat(a: string, b: string, p: char -> bool)
    ensures All(a + b, p) <==> All(a, p) && All(b, p)
  {
    if a == "" {
      assert a + b == b;
    } else {
      assert (a + b)[1..] == a[1..] + b;
      AllConcat(a[1..], b, p);
    }
  }

  lemma AllSlice(s: string, i: nat, j: nat, p: char -> bool)
    requires All(s, p) && i <= j <= |s|
    ensures All(s[i..j], p)
  {
    assert s == s[..i] + (s[i..j] + s[j..]);
    AllConcat(s[..i], s[i..j] + s[j..], p);
    AllConcat(s[i..j], s[j..], p);
  }

  lemma {:induction false} AllWeaken(s: string, p: char -> bool, q: char -> bool)
    requires All(s, p) && forall c :: p(c) ==> q(c)
    ensures All(s, q)
  {
    if s != "" {
      AllWeaken(s[1..], p, q);
    }
  }

  lemma AllStrip(s: string, p: char -> bool)
    requires All(s, p)
    ensures All(TrimLeft(s), p) && All(TrimRight(s), p) && All(Strip(s), p)
  {
    var t := TrimLeft(s);
    TrimLeftSplit(s);
    AllConcat(s[..|s| - |t|], t, p);
    TrimRightSplit(s);
    AllConcat(TrimRight(s), s[|TrimRight(s)|..], p);
    TrimRightSplit(t);
    AllConcat(TrimRight(t), t[|TrimRight(t)|..], p);
  }

  lemma {:induction false} AllCollapse(s: string, p: char -> bool)
    requires All(s, p) && p(' ')
    ensures All(Collapse(s), p)
    decreases |s|
  {
    if s != "" {
      AllStrip(s, p);
      AllCollapse(if IsSpace(s[0]) then TrimLeft(s) else s[1..], p);
      assert Collapse(s)[1..] == Collapse(if IsSpace(s[0]) then TrimLeft(s) else s[1..]);
    }
  }

  lemma StripStripped(s: string)
    ensures Stripped(Strip(s))
    ensures Stripped(s) ==> Strip(s) == s
  {
    TrimRightSplit(TrimLeft(s));
  }

  lemma StripShorter(s: string)
    ensures |Strip(s)| <= |s|
  {
  }

  // Whether a start-of-comment mark occurs in `s`.
  predicate HasComment(s: string) {
    "/*" <= s || (s != "" && HasComment(s[1..]))
  }

  /** `re.sub(r"\s+", " ", s)`. */
  function Collapse(s: string): (r: string)
    ensures |r| <= |s|
    decreases |s|
  {
    if s == "" then ""
    else if IsSpace(s[0]) then " " + Collapse(TrimLeft(s))
    else [s[0]] + Collapse(s[1..])
  }

  /** Every run of spaces is the single character `' '`. */
  predicate Collapsed(s: string) {
    s != "" ==>
      && (IsSpace(s[0]) ==> s[0] == ' ' && (|s| > 1 ==> !IsSpace(s[1])))
      && Collapsed(s[1..])
  }

  lemma {:induction false} CollapseCollapsed(s: string)
    ensures Collapsed(Collapse(s))
    ensures s != "" ==> Collapse(s) != "" && (IsSpace(Collapse(s)[0]) <==> IsSpace(s[0]))
    decreases |s|
  {
    if s != "" {
      var t := if IsSpace(s[0]) then TrimLeft(s) else s[1..];
      CollapseCollapsed(t);
      assert Collapse(s)[1..] == Collapse(t);
      assert IsSpace(' ');
    }
  }

  lemma {:induction false} CollapseFixed(s: string)
    requires Collapsed(s)
    ensures Collapse(s) == s
    decreases |s|
  {
    if s != "" {
      var t := s[1..];
      assert s == [s[0]] + t;
      CollapseFixed(t);
      if IsSpace(s[0]) {
        assert TrimLeft(s) == TrimLeft(t) == t;
      }
    }
  }

  lemma {:induction false} TrimLeftAppend(s: string, c: char)
    requires !IsSpace(c)
    ensures TrimLeft(s + [c]) == TrimLeft(s) + [c]
    decreases |s|
  {
    if s != "" && IsSpace(s[0]) {
      assert (s + [c])[1..] == s[1..] + [c];
      TrimLeftAppend(s[1..], c);
    }
  }

  /** Collapsing never touches a character that is not a space. */
  lemma {:induction false} CollapseAppend(s: string, c: char)
    requires !IsSpace(c)
    ensures Collapse(s + [c]) == Collapse(s) + [c]
    decreases |s|
  {
    if s == "" {
      assert s + [c] == [c];
      assert Collapse([c][1..]) == "";
    } else if IsSpace(s[0]) {
      TrimLeftAppend(s, c);
      CollapseAppend(TrimLeft(s), c);
      assert Collapse(s + [c]) == " " + (Collapse(TrimLeft(s)) + [c]);
    } else {
      assert (s + [c])[1..] == s[1..] + [c];
      CollapseAppend(s[1..], c);
    }
  }

  /** A run of spaces at the end collapses to one space at the end. */
  lemma {:induction false} CollapseTrimRight(s: string)
    ensures TrimRight(Collapse(s)) == Collapse(TrimRight(s))
    ensures s != "" ==> (IsSpace(s[|s| - 1]) <==> IsSpace(Collapse(s)[|Collapse(s)| - 1]))
    decreases |s|
  {
    CollapseCollapsed(s);
    if s != "" {
      var c := s[|s| - 1];
      if !IsSpace(c) {
        assert s == s[..|s| - 1] + [c];
        CollapseAppend(s[..|s| - 1], c);
      } else {
        CollapseTrailing(s);
      }
    }
  }

  /** `Collapse`, one step. */
  lemma CollapseSpace(s: string)
    requires s != "" && IsSpace(s[0])
    ensures Collapse(s) == " " + Collapse(TrimLeft(s))
  {
  }

  lemma CollapseOther(c: char, s: string)
    requires !IsSpace(c)
    ensures Collapse([c] + s) == [c] + Collapse(s)
  {
    assert ([c] + s)[1..] == s;
  }

  lemma CollapseEmpty()
    ensures Collapse("") == ""
  {
  }

  lemma TrimRightSpace(x: string)
    requires x != "" ==> !IsSpace(x[|x| - 1])
    ensures TrimRight(x + " ") == x
  {
    assert (x + " ")[..|x|] == x;
  }

  /** The last character of a collapsed text that ends in no space. */
  lemma CollapseSolid(t: string)
    requires t != "" ==> !IsSpace(t[|t| - 1])
    ensures Collapse(t) != "" ==> !IsSpace(Collapse(t)[|Collapse(t)| - 1])
  {
    CollapseEmpty();
    hide Collapse, IsSpace;
    if t != "" {
      var front, c := t[..|t| - 1], t[|t| - 1];
      CollapseAppend(front, c);
      assert t == front + [c];
    }
  }

  lemma CollapseTrailing(s: string)
    requires s != "" && IsSpace(s[|s| - 1])
    ensures Collapse(s) == Collapse(TrimRight(s)) + " "
    ensures TrimRight(Collapse(s)) == Collapse(TrimRight(s))
  {
    var t := TrimRight(s);
    assert |t| < |s|;
    hide Collapse, IsSpace, TrimRight, All;
    TrimRightSplit(s);
    CollapseSpacesAfter(t, s[|t|..]);
    CollapseSolid(t);
    TrimRightSpace(Collapse(t));
  }

  lemma {:induction false} CollapseSpacesAfter(t: string, u: string)
    requires t != "" ==> !IsSpace(t[|t| - 1])
    requires u != "" && All(u, IsSpace)
    ensures Collapse(t + u) == Collapse(t) + " "
    decreases |t|
  {
    assert IsSpace(u[0]);
    hide Collapse, IsSpace, All;
    if t == "" {
      assert t + u == u;
      TrimLeftAllSpace(u);
      CollapseSpace(u);
      CollapseEmpty();
    } else if IsSpace(t[0]) {
      var t' := TrimLeft(t);
      TrimLeftConcat(t, u);
      CollapseSpacesAfter(t', u);
      CollapseSpace(t);
      CollapseSpace(t + u);
      Regroup(" ", Collapse(t'), " ");
    } else {
      var r := t[1..];
      CollapseSpacesAfter(r, u);
      CollapseOther(t[0], r);
      CollapseOther(t[0], r + u);
      assert t == [t[0]] + r;
      Regroup([t[0]], r, u);
      Regroup([t[0]], Collapse(r), " ");
    }
  }

  lemma {:induction false} TrimLeftAllSpace(u: string)
    requires All(u, IsSpace)
    ensures TrimLeft(u) == ""
    decreases |u|
  {
    if u != "" {
      TrimLeftAllSpace(u[1..]);
    }
  }

  lemma {:induction false} TrimLeftConcat(t: string, u: string)
    requires t != "" && !IsSpace(t[|t| - 1])
    ensures TrimLeft(t) != "" && TrimLeft(t + u) == TrimLeft(t) + u
    ensures TrimLeft(t)[|TrimLeft(t)| - 1] == t[|t| - 1]
    decreases |t|
  {
    if IsSpace(t[0]) {
      assert (t + u)[1..] == t[1..] + u;
      TrimLeftConcat(t[1..], u);
    }
  }

  /** A stripped text stays stripped when collapsed. */
  lemma CollapseStripped(s: string)
    requires Stripped(s)
    ensures Stripped(Collapse(s)) && Collapsed(Collapse(s))
    ensures s == "" <==> Collapse(s) == ""
  {
    CollapseCollapsed(s);
    CollapseTrimRight(s);
  }

  /** `str.lower()`. Only the two characters outside ASCII whose lower case holds an ASCII letter
      are mapped; every other non-ASCII character stays a non-ASCII character, which is all that
      the callers, who compare with ASCII words, can observe. */
  function LowerChar(c: char): string {
    if 'A' <= c <= 'Z' then [c + ' ']
    else if c == '\U{212A}' then "k"
    else if c == '\U{130}' then "i\U{307}"
    else [c]
  }

  function Lower(s: string): string {
    if s == "" then "" else LowerChar(s[0]) + Lower(s[1..])
  }

  lemma {:induction false} LowerFixed(s: string, p: char -> bool)
    requires All(s, p) && forall c :: p(c) ==> LowerChar(c) == [c]
    ensures Lower(s) == s
  {
    if s != "" {
      LowerFixed(s[1..], p);
    }
  }

  /** The character that `re.IGNORECASE` compares when a pattern holds lower-case ASCII letters. */
  function Fold(c: char): char {
    if 'A' <= c <= 'Z' then c + ' '
    else if c == '\U{212A}' then 'k'
    else if c == '\U{130}' || c == '\U{131}' then 'i'
    else if c == '\U{17F}' then 's'
    else c
  }

  /** Whether `s` starts with the lower-case ASCII `word`, ignoring case. */
  predicate StartsFold(s: string, word: string): (r: bool)
    ensures r ==> |word| <= |s|
  {
    word != "" ==> s != "" && Fold(s[0]) == word[0] && StartsFold(s[1..], word[1..])
  }

  /** `s.count(c)`. */
  function Count(s: string, c: char): nat {
    if s == "" then 0 else (if s[0] == c then 1 else 0) + Count(s[1..], c)
  }

  lemma {:induction false} CountConcat(a: string, b: string, c: char)
    ensures Count(a + b, c) == Count(a, c) + Count(b, c)
  {
    if a == "" {
      assert a + b == b;
    } else {
      assert (a + b)[1..] == a[1..] + b;
      CountConcat(a[1..], b, c);
    }
  }

  /** The index of the first `c` in `s`, or `|s|`. */
  function IndexOf(s: string, c: char): (i: nat)
    ensures i <= |s|
    ensures i < |s| ==> s[i] == c
  {
    if s == "" || s[0] == c then 0 else 1 + IndexOf(s[1..], c)
  }

  lemma {:induction false} IndexOfFirst(s: string, c: char, rest: string)
    requires forall i :: 0 <= i < |s| ==> s[i] != c
    ensures IndexOf(s + [c] + rest, c) == |s|
    ensures IndexOf(s, c) == |s|
  {
    if s != "" {
      assert (s + [c] + rest)[1..] == s[1..] + [c] + rest;
      IndexOfFirst(s[1..], c, rest);
    }
  }

  lemma {:induction false} IndexOfNone(s: string, c: char)
    ensures forall i :: 0 <= i < IndexOf(s, c) ==> s[i] != c
  {
    if s != "" && s[0] != c {
      IndexOfNone(s[1..], c);
      assert forall i :: 1 <= i < |s| ==> s[i] == s[1..][i - 1];
    }
  }

  /** `s.split(c)`. */
  function Split(s: string, c: char): (parts: seq<string>)
    ensures parts != []
    decreases |s|
  {
    var i := IndexOf(s, c);
    if i == |s| then [s] else [s[..i]] + Split(s[i + 1..], c)
  }

  /** `sep.join(parts)`. */
  function Join(parts: seq<string>, sep: string): string {
    if |parts| == 0 then "" else if |parts| == 1 then parts[0] else parts[0] + sep + Join(parts[1..], sep)
  }

  lemma {:induction false} JoinAppend(parts: seq<string>, last: string, sep: string)
    requires parts != []
    ensures Join(parts + [last], sep) == Join(parts, sep) + sep + last
  {
    if |parts| == 1 {
      assert parts + [last] == [parts[0], last];
      assert Join([parts[0], last][1..], sep) == last;
    } else {
      assert (parts + [last])[1..] == parts[1..] + [last];
      JoinAppend(parts[1..], last, sep);
    }
  }

  predicate FreeOf(parts: seq<string>, c: char) {
    parts != [] ==> c !in parts[0] && FreeOf(parts[1..], c)
  }

  lemma JoinStep(first: string, rest: seq<string>, sep: string)
    requires rest != []
    ensures Join([first] + rest, sep) == first + sep + Join(rest, sep)
  {
    assert ([first] + rest)[1..] == rest;
  }

  lemma SplitStep(first: string, c: char, rest: string)
    requires c !in first
    ensures Split(first + [c] + rest, c) == [first] + Split(rest, c) && Split(first, c) == [first]
  {
    hide IndexOf;
    IndexOfFirst(first, c, rest);
    var text := first + [c] + rest;
    assert text[..|first|] == first && text[|first| + 1..] == rest;
  }

  /** Parts that do not hold the separator are joined and split again. */
  lemma {:induction false} SplitJoined(parts: seq<string>, c: char)
    requires parts != [] && FreeOf(parts, c)
    ensures Split(Join(parts, [c]), c) == parts
  {
    hide Split;
    var first, rest := parts[0], parts[1..];
    assert parts == [first] + rest;
    if rest == [] {
      SplitStep(first, c, "");
    } else {
      SplitJoined(rest, c);
      JoinStep(first, rest, [c]);
      hide Join;
      SplitStep(first, c, Join(rest, [c]));
    }
  }

  /** Every text is split into parts that do not hold the separator, and joined again. */
  lemma {:induction false} JoinedSplit(s: string, c: char)
    ensures Join(Split(s, c), [c]) == s && FreeOf(Split(s, c), c)
    decreases |s|
  {
    var i := IndexOf(s, c);
    IndexOfNone(s, c);
    if i < |s| {
      JoinedSplit(s[i + 1..], c);
      assert Split(s, c)[1..] == Split(s[i + 1..], c);
      assert s == s[..i] + [c] + s[i + 1..];
    } else {
      assert Split(s, c)[1..] == [];
    }
  }

  /** Spaces around a stripped text. */
  lemma StripAround(a: string, t: string, b: string)
    requires All(a, IsSpace) && All(b, IsSpace) && Stripped(t)
    ensures Strip(a + t + b) == t
  {
    hide All, TrimLeft, TrimRight, IsSpace;
    if t == "" {
      SpacesTrimmed(a, b);
    } else {
      Regroup(a, t, b);
      assert (t + b)[0] == t[0];
      TrimLeftPast(a, t + b);
      TrimRightPast(t, b);
    }
  }

  lemma SpacesTrimmed(a: string, b: string)
    requires All(a, IsSpace) && All(b, IsSpace)
    ensures TrimRight(TrimLeft(a + "" + b)) == ""
  {
    AllConcat(a, b, IsSpace);
    assert a + "" + b == a + b;
    TrimLeftAllSpace(a + b);
  }

  lemma {:induction false} TrimLeftPast(a: string, t: string)
    requires All(a, IsSpace) && t != "" && !IsSpace(t[0])
    ensures TrimLeft(a + t) == t
  {
    if a == "" {
      assert a + t == t;
    } else {
      assert (a + t)[1..] == a[1..] + t;
      TrimLeftPast(a[1..], t);
    }
  }

  lemma {:induction false} TrimRightPast(t: string, b: string)
    requires All(b, IsSpace) && t != "" && !IsSpace(t[|t| - 1])
    ensures TrimRight(t + b) == t
    decreases |b|
  {
    if b == "" {
      assert t + b == t;
    } else {
      AllEach(b, IsSpace);
      AllSlice(b, 0, |b| - 1, IsSpace);
      assert b[0..|b| - 1] == b[..|b| - 1];
      assert (t + b)[..|t + b| - 1] == t + b[..|b| - 1];
      TrimRightPast(t, b[..|b| - 1]);
    }
  }

  lemma {:induction false} NoColon(s: string, p: char -> bool)
    requires All(s, p) && !p(':')
    ensures forall i :: 0 <= i < |s| ==> s[i] != ':'
  {
    AllEach(s, p);
  }

  /** Regrouping of concatenations, kept out of the larger proofs. */
  lemma Regroup<T>(a: seq<T>, b: seq<T>, c: seq<T>)
    ensures a + (b + c) == a + b + c
    ensures a + [] == a && [] + a == a
  {
  }

  lemma Slice<T>(s: seq<T>, k: nat, a: nat, b: nat)
    requires a <= b && k + b <= |s|
    ensures s[k..][a..b] == s[k + a..k + b] && s[k..][b..] == s[k + b..]
  {
  }

  lemma Rest<T>(s: seq<T>, k: nat)
    requires k < |s|
    ensures s[k..] != [] && s[k..][0] == s[k] && s[k..][1..] == s[k + 1..]
  {
  }
}
