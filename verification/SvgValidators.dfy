/** Attribute validators that meet what the sanitizer relies on. */
module SvgValidators {
  import opened Text
  import opened SvgTree

  const SCALAR_LIMIT := 120

  /** `_check_regex`: `accepts` is the full match of the pattern. */
  function CheckRegex(accepts: string -> bool, limit: nat): Validator {
    (value: string) =>
      var stripped := Strip(value);
      if |stripped| > limit || !accepts(stripped) then None else Some(stripped)
  }

  /** `_check_enum`. */
  function CheckEnum(allowed: set<string>): Validator {
    (value: string) => if value in allowed then Some(value) else None
  }

  lemma CheckRegexSound(accepts: string -> bool, limit: nat)
    requires forall s :: accepts(s) ==> All(s, IsKeptChar)
    ensures Sound(CheckRegex(accepts, limit))
  {
    var f := CheckRegex(accepts, limit);
    forall v | f(v).Some? ensures SoundResult(f, v, f(v).value) {
      var w := Strip(v);
      StripStripped(v);
      StripStripped(w);
      StripShorter(v);
      assert f(w) == Some(w);
    }
  }

  lemma CheckEnumSound(allowed: set<string>)
    requires forall s :: s in allowed ==> Stripped(s) && All(s, IsKeptChar)
    ensures Sound(CheckEnum(allowed))
  {
    var f := CheckEnum(allowed);
    forall v | f(v).Some? ensures SoundResult(f, v, f(v).value) {
    }
  }

  // ---- viewBox ----

  predicate IsSeparator(c: char) { IsSpace(c) || c == ',' }

  /** How far the first part of `s` reaches before a separator. */
  function PartLen(s: string): (n: nat)
    ensures n <= |s|
  {
    if s == "" || IsSeparator(s[0]) then 0 else 1 + PartLen(s[1..])
  }

  function SkipSeparators(s: string): (r: string)
    ensures |r| <= |s|
    ensures s != "" && IsSeparator(s[0]) ==> |r| < |s|
  {
    if s != "" && IsSeparator(s[0]) then SkipSeparators(s[1..]) else s
  }

  /** `re.split(r"[\s,]+", s)`. */
  function SplitSeparators(s: string): seq<string>
    decreases |s|
  {
    var n := PartLen(s);
    if n == |s| then [s]
    else
      PartLenStops(s);
      [s[..n]] + SplitSeparators(SkipSeparators(s[n..]))
  }

  lemma {:induction false} PartLenStops(s: string)
    ensures PartLen(s) < |s| ==> IsSeparator(s[PartLen(s)])
  {
    if s != "" && !IsSeparator(s[0]) {
      PartLenStops(s[1..]);
    }
  }

  function DropSign(s: string): string {
    if s != "" && (s[0] == '+' || s[0] == '-') then s[1..] else s
  }

  /** `(?:[eE][+-]?\d+)?` up to the end. */
  predicate IsExponent(s: string) {
    s == "" || ((s[0] == 'e' || s[0] == 'E') && var t := DropSign(s[1..]); t != "" && DigitRun(t) == |t|)
  }

  predicate IsUnsigned(t: string) {
    var n := DigitRun(t);
    var rest := t[n..];
    if n > 0 then
      if "." <= rest then IsExponent(rest[1 + DigitRun(rest[1..])..]) else IsExponent(rest)
    else "." <= rest && DigitRun(rest[1..]) > 0 && IsExponent(rest[1 + DigitRun(rest[1..])..])
  }

  /** `_RE_NUMBER.fullmatch`. */
  predicate IsNumber(s: string) { IsUnsigned(DropSign(s)) }

  predicate IsNumberChar(c: char) { IsDecimal(c) || c in {'+', '-', '.', 'e', 'E'} }

  /** No space is a decimal digit. */
  lemma DecimalNotSpace(c: char)
    requires IsDecimal(c)
    ensures !IsSpace(c)
  {
  }

  lemma NumberCharOk(c: char)
    requires IsNumberChar(c)
    ensures !IsSeparator(c) && IsKeptChar(c)
  {
    hide IsDecimal, IsSpace;
    if IsDecimal(c) {
      DecimalNotSpace(c);
      assert c !in {',', ';', '@', '\\', '*'} by { DecimalNotMark(c); }
    } else {
      assert c in {'+', '-', '.', 'e', 'E'} && !IsSpace(c) by { MarkNotSpace(c); }
    }
  }

  lemma DecimalNotMark(c: char)
    requires IsDecimal(c)
    ensures c !in {',', ';', '@', '\\', '*'}
  {
  }

  lemma MarkNotSpace(c: char)
    requires c in {'+', '-', '.', 'e', 'E'}
    ensures !IsSpace(c)
  {
  }

  lemma {:induction false} DigitRunNumber(s: string)
    ensures All(s[..DigitRun(s)], IsNumberChar)
  {
    if DigitRun(s) > 0 {
      DigitRunNumber(s[1..]);
      assert s[..DigitRun(s)][1..] == s[1..][..DigitRun(s[1..])];
    }
  }

  lemma SignChars(s: string)
    requires All(DropSign(s), IsNumberChar)
    ensures All(s, IsNumberChar)
  {
  }

  lemma ExponentChars(s: string)
    requires IsExponent(s)
    ensures All(s, IsNumberChar)
  {
    if s != "" {
      var t := DropSign(s[1..]);
      DigitRunNumber(t);
      assert t[..|t|] == t;
      SignChars(s[1..]);
    }
  }

  lemma PointNumber()
    ensures All(".", IsNumberChar)
  {
    assert "."[1..] == "";
  }

  /** Digits and then an exponent. */
  lemma DigitsThenExponent(d: string)
    requires IsExponent(d[DigitRun(d)..])
    ensures All(d, IsNumberChar)
  {
    hide IsDecimal, IsExponent, All;
    var m := DigitRun(d);
    DigitRunNumber(d);
    ExponentChars(d[m..]);
    assert d == d[..m] + d[m..];
    AllConcat(d[..m], d[m..], IsNumberChar);
  }

  lemma FractionChars(rest: string)
    requires "." <= rest && IsExponent(rest[1 + DigitRun(rest[1..])..])
    ensures All(rest, IsNumberChar)
  {
    hide IsDecimal, IsExponent, All;
    var d := rest[1..];
    assert rest == "." + d && rest[1 + DigitRun(d)..] == d[DigitRun(d)..];
    DigitsThenExponent(d);
    PointNumber();
    AllConcat(".", d, IsNumberChar);
  }

  lemma UnsignedChars(t: string)
    requires IsUnsigned(t)
    ensures All(t, IsNumberChar) && t != ""
  {
    hide IsDecimal, IsExponent, All;
    var n := DigitRun(t);
    var rest := t[n..];
    DigitRunNumber(t);
    if "." <= rest {
      FractionChars(rest);
    } else {
      ExponentChars(rest);
    }
    assert t == t[..n] + rest;
    AllConcat(t[..n], rest, IsNumberChar);
  }

  lemma NumberChars(s: string)
    requires IsNumber(s)
    ensures All(s, IsNumberChar) && s != ""
  {
    hide IsUnsigned, All;
    UnsignedChars(DropSign(s));
    SignChars(s);
  }

  predicate AreNumbers(parts: seq<string>) {
    parts != [] ==> IsNumber(parts[0]) && AreNumbers(parts[1..])
  }

  /** `_viewbox`. */
  function ViewBox(value: string): Option<string> {
    if |value| > 2 * SCALAR_LIMIT then None
    else
      var parts := SplitSeparators(Strip(value));
      if |parts| != 4 || !AreNumbers(parts) then None else Some(Join(parts, " "))
  }

  lemma {:induction false} PartLenNumber(s: string, rest: string)
    requires All(s, IsNumberChar) && (rest != "" ==> IsSeparator(rest[0]))
    ensures PartLen(s + rest) == |s|
  {
    if s == "" {
      assert s + rest == rest;
    } else {
      assert (s + rest)[1..] == s[1..] + rest;
      NumberCharOk(s[0]);
      PartLenNumber(s[1..], rest);
    }
  }

  /** Numbers joined by single spaces are split into the same numbers. */
  lemma {:induction false} JoinSplit(parts: seq<string>)
    requires parts != [] && AreNumbers(parts)
    ensures var text := Join(parts, " ");
            && SplitSeparators(text) == parts && text != "" && Stripped(text) && All(text, IsKeptChar)
  {
    hide IsNumber, IsSeparator, IsSpace, IsNumberChar, IsKeptChar;
    var first := parts[0];
    NumberChars(first);
    NumberEnds(first);
    if |parts| == 1 {
      PartLenNumber(first, "");
      assert first + "" == first && parts == [first];
    } else {
      var rest := Join(parts[1..], " ");
      JoinSplit(parts[1..]);
      RestStarts(parts[1..]);
      JoinSplitStep(first, rest);
      assert parts == [first] + parts[1..];
      assert Join(parts, " ") == first + " " + rest;
    }
  }

  lemma JoinSplitStep(first: string, rest: string)
    requires first != "" && All(first, IsNumberChar)
    requires rest != "" && Stripped(rest) && All(rest, IsKeptChar) && SkipSeparators(rest) == rest
    ensures var text := first + " " + rest;
            && SplitSeparators(text) == [first] + SplitSeparators(rest) && Stripped(text) && All(text, IsKeptChar)
  {
    hide IsSeparator, IsSpace, IsNumberChar, IsKeptChar, All;
    var text := first + " " + rest;
    NumberEnds(first);
    SpaceSeparates();
    assert text == first + (" " + rest);
    PartLenNumber(first, " " + rest);
    assert text[|first|..] == " " + rest;
    assert text[..|first|] == first;
    assert (" " + rest)[1..] == rest;
    AllEach(" ", IsKeptChar);
    AllConcat(" ", rest, IsKeptChar);
    AllConcat(first, " " + rest, IsKeptChar);
  }

  lemma SpaceSeparates()
    ensures IsSeparator(' ') && IsKeptChar(' ')
  {
  }

  lemma NumberEnds(s: string)
    requires s != "" && All(s, IsNumberChar)
    ensures !IsSpace(s[0]) && !IsSpace(s[|s| - 1]) && !IsSeparator(s[0]) && All(s, IsKeptChar) && Stripped(s)
  {
    hide IsNumberChar, IsSeparator, IsSpace, IsKeptChar;
    AllEach(s, IsNumberChar);
    forall c | IsNumberChar(c) ensures !IsSeparator(c) && !IsSpace(c) && IsKeptChar(c) {
      NumberCharOk(c);
      SeparatorSpace(c);
    }
    AllWeaken(s, IsNumberChar, IsKeptChar);
  }

  lemma SeparatorSpace(c: char)
    requires !IsSeparator(c)
    ensures !IsSpace(c)
  {
  }

  lemma RestStarts(parts: seq<string>)
    requires parts != [] && AreNumbers(parts)
    ensures Join(parts, " ") != "" && !IsSeparator(Join(parts, " ")[0])
    ensures SkipSeparators(Join(parts, " ")) == Join(parts, " ")
  {
    hide IsNumber, IsSeparator;
    NumberChars(parts[0]);
    NumberEnds(parts[0]);
    assert Join(parts, " ")[0] == parts[0][0];
  }

  lemma {:induction false} SplitShorter(s: string)
    ensures |Join(SplitSeparators(s), " ")| <= |s|
    decreases |s|
  {
    hide IsSeparator;
    var n := PartLen(s);
    if n < |s| {
      PartLenStops(s);
      SplitShorter(SkipSeparators(s[n..]));
      assert SplitSeparators(s)[1..] == SplitSeparators(SkipSeparators(s[n..]));
    }
  }

  /** `_viewbox` meets what the sanitizer relies on. */
  lemma ViewBoxSound()
    ensures Sound(ViewBox)
  {
    forall v | ViewBox(v).Some? ensures SoundResult(ViewBox, v, ViewBox(v).value) {
      ViewBoxResult(v);
    }
  }

  lemma ViewBoxResult(v: string)
    requires ViewBox(v).Some?
    ensures SoundResult(ViewBox, v, ViewBox(v).value)
  {
    hide AreNumbers, SplitSeparators, Strip, Stripped, Join;
    var parts := SplitSeparators(Strip(v));
    JoinSplit(parts);
    SplitShorter(Strip(v));
    StripShorter(v);
    StripStripped(Join(parts, " "));
  }

  // ---- Every spelling of a view box ----

  /** The parts, with something between each two. */
  function Spread(parts: seq<string>, between: seq<string>): string
    requires |parts| == |between| + 1
  {
    if between == [] then parts[0] else parts[0] + (between[0] + Spread(parts[1..], between[1..]))
  }

  ghost predicate AreSeparators(between: seq<string>) {
    between != [] ==> between[0] != "" && All(between[0], IsSeparator) && AreSeparators(between[1..])
  }

  lemma {:induction false} SeparatorsSkipped(gap: string, rest: string)
    requires All(gap, IsSeparator) && rest != "" && !IsSeparator(rest[0])
    ensures SkipSeparators(gap + rest) == rest
  {
    hide IsSeparator;
    if gap == "" {
      assert gap + rest == rest;
    } else {
      assert (gap + rest)[1..] == gap[1..] + rest;
      SeparatorsSkipped(gap[1..], rest);
    }
  }

  lemma SpreadStep(first: string, gap: string, rest: string)
    requires first != "" && All(first, IsNumberChar) && gap != "" && All(gap, IsSeparator)
    requires rest != "" && Stripped(rest) && !IsSeparator(rest[0])
    ensures var text := first + (gap + rest);
            SplitSeparators(text) == [first] + SplitSeparators(rest) && Stripped(text)
  {
    hide IsSpace, IsNumberChar, IsKeptChar;
    NumberEnds(first);
    assert IsSeparator(gap[0]);
    hide All, IsSeparator;
    var text := first + (gap + rest);
    PartLenNumber(first, gap + rest);
    SeparatorsSkipped(gap, rest);
    assert text[|first|..] == gap + rest && text[..|first|] == first;
    assert text[0] == first[0] && text[|text| - 1] == rest[|rest| - 1];
  }

  lemma {:induction false} SpreadSplit(parts: seq<string>, between: seq<string>)
    requires |parts| == |between| + 1 && AreNumbers(parts) && AreSeparators(between)
    ensures var text := Spread(parts, between);
            SplitSeparators(text) == parts && text != "" && Stripped(text) && text[0] == parts[0][0]
    ensures !IsSeparator(parts[0][0])
    decreases |parts|
  {
    hide IsNumber, IsSeparator, IsSpace, IsNumberChar, IsKeptChar;
    var first := parts[0];
    NumberChars(first);
    NumberEnds(first);
    if between == [] {
      PartLenNumber(first, "");
      assert first + "" == first && parts == [first];
    } else {
      SpreadSplit(parts[1..], between[1..]);
      SpreadStep(first, between[0], Spread(parts[1..], between[1..]));
      assert parts == [first] + parts[1..];
    }
  }

  /** Four numbers with any separators between them, and any spaces around them, are given with single spaces. */
  lemma ViewBoxSpelled(a: string, parts: seq<string>, between: seq<string>, b: string)
    requires All(a, IsSpace) && All(b, IsSpace) && |parts| == 4 && |between| == 3
    requires AreNumbers(parts) && AreSeparators(between) && |a + Spread(parts, between) + b| <= 240
    ensures ViewBox(a + Spread(parts, between) + b)
         == Some(parts[0] + " " + parts[1] + " " + parts[2] + " " + parts[3])
  {
    hide All, AreNumbers, AreSeparators, SplitSeparators, Stripped, Spread, Strip, Join;
    SpreadSplit(parts, between);
    StripAround(a, Spread(parts, between), b);
    FourJoined(parts);
  }

  lemma FourJoined(parts: seq<string>)
    requires |parts| == 4
    ensures Join(parts, " ") == parts[0] + " " + parts[1] + " " + parts[2] + " " + parts[3]
  {
    var p, d := parts, " ";
    assert Join(p[3..], d) == p[3];
    assert Join(p[2..], d) == p[2] + d + p[3] by { assert p[2..][1..] == p[3..]; }
    assert Join(p[1..], d) == p[1] + d + Join(p[2..], d) by { assert p[1..][1..] == p[2..]; }
    assert Join(p, d) == p[0] + d + Join(p[1..], d);
    hide Join;
    assert p[0] + d + (p[1] + d + (p[2] + d + p[3])) == p[0] + d + p[1] + d + p[2] + d + p[3];
  }
}
