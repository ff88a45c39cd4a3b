/** What the stylesheet filter accepts (its regular expressions, as predicates over characters)
    and the sheets it prints, as syntax trees. */
module CssGrammar {
  import opened Text
  import opened CssLexer

  const MAX_RULES := 2000
  const MAX_DECLARATIONS_PER_RULE := 200
  const MAX_VALUE_CHARS := 500
  const MAX_MEDIA_DEPTH := 2

  // ---- Selectors, media conditions, keyframes ----

  predicate IsSelectorChar(c: char) {
    || IsLetter(c) || IsDigit(c) || IsSpace(c)
    || c in {'_', '-', '.', ',', '#', '>', '+', '~', '*', ':', '(', ')', '[', ']', '=', '^', '$', '|', '\"', '\'', '%'}
  }

  predicate IsSelector(s: string) {
    1 <= |s| <= 500 && All(s, IsSelectorChar)
  }

  predicate IsMediaChar(c: char) {
    IsLetter(c) || IsDigit(c) || IsSpace(c) || c in {':', ',', '(', ')', '.', '-', '/'}
  }

  predicate IsMediaCondition(s: string) {
    1 <= |s| <= 200 && All(s, IsMediaChar)
  }

  /** Group 1 of `_RE_MEDIA` on a stripped prelude, without the spaces around it. */
  function MediaCondition(prelude: string): Option<string> {
    if "@media" <= prelude then
      var rest := prelude[6..];
      var group := TrimLeft(rest);
      if |group| < |rest| && IsMediaCondition(group) then Some(group) else None
    else None
  }

  predicate IsNameChar(c: char) { IsLetter(c) || IsDigit(c) || c == '_' || c == '-' }

  predicate IsKeyframesName(s: string) {
    1 <= |s| <= 64 && (IsLetter(s[0]) || s[0] == '_') && All(s, IsNameChar)
  }

  /** Group 1 of `_RE_KEYFRAMES` on a stripped prelude. */
  function KeyframesName(prelude: string): Option<string> {
    if "@keyframes" <= prelude then NameAfterSpace(prelude[10..])
    else if "@-webkit-keyframes" <= prelude then NameAfterSpace(prelude[18..])
    else None
  }

  function NameAfterSpace(rest: string): Option<string> {
    var name := TrimLeft(rest);
    if |name| < |rest| && IsKeyframesName(name) then Some(name) else None
  }

  predicate IsPercentage(s: string) {
    var n := DigitRun(s);
    && 1 <= n <= 3
    && (s[n..] == "%" || (n < |s| && s[n] == '.' && IsPercentageTail(s[n + 1..])))
  }

  predicate IsPercentageTail(s: string) {
    1 <= DigitRun(s) <= 3 && s[DigitRun(s)..] == "%"
  }

  predicate IsKeyframeStop(s: string) {
    s == "from" || s == "to" || IsPercentage(s)
  }

  /** `_RE_KEYFRAME_SELECTOR.fullmatch` on a stripped selector: stops separated by commas. */
  predicate IsKeyframeSelector(s: string)
    decreases |s|
  {
    var i := IndexOf(s, ',');
    IsKeyframeStop(Strip(s[..i])) && (i < |s| ==> IsKeyframeSelector(s[i + 1..]))
  }

  // ---- Declarations ----

  predicate IsPropertyChar(c: char) { IsLowerLetter(c) || IsDigit(c) || c == '-' }

  predicate IsPlainProperty(s: string) {
    2 <= |s| <= 61 && IsLowerLetter(s[0]) && All(s, IsPropertyChar)
  }

  predicate IsProperty(s: string) {
    IsPlainProperty(s) || ("--" <= s && IsPlainProperty(s[2..]))
  }

  const BAD_PROPERTIES := {"behavior", "-moz-binding", "-ms-behavior"}
  const POSITIONS := {"static", "relative", "absolute"}

  predicate IsValueChar(c: char) {
    && c !in {'@', '<', '&', '{', '}', '\\', '\U{7F}'}
    && (c < ' ' ==> c == '\t' || c == '\n' || c == '\r')
  }

  /** Whether the pattern `word` occurs in `s`, ignoring case. */
  predicate Contains(s: string, word: string) {
    StartsFold(s, word) || (s != "" && Contains(s[1..], word))
  }

  /** Whether the pattern `word\s*mark` occurs in `s`, ignoring case. */
  predicate ContainsCall(s: string, word: string, mark: char) {
    StartsCall(s, word, mark) || (s != "" && ContainsCall(s[1..], word, mark))
  }

  predicate StartsCall(s: string, word: string, mark: char) {
    StartsFold(s, word) && [mark] <= TrimLeft(s[|word|..])
  }

  predicate IsBadValue(v: string) {
    || !All(v, IsValueChar)
    || Contains(v, "javascript") || Contains(v, "vbscript") || Contains(v, "expression")
    || Contains(v, "behavior") || Contains(v, "binding") || Contains(v, "image-set")
    || Contains(v, "cross-fade") || ContainsCall(v, "image", '(') || ContainsCall(v, "src", '(')
    || ContainsCall(v, "element", '(') || ContainsCall(v, "paint", '(') || ContainsCall(v, "attr", '(')
    || ContainsCall(v, "data", ':')
  }

  predicate IsFragmentChar(c: char) {
    var f := Fold(c);
    IsLowerLetter(f) || IsDigit(f) || f in {'_', '-', '.', ':'}
  }

  function FragmentRun(s: string): (n: nat)
    ensures n <= |s|
  {
    if s != "" && IsFragmentChar(s[0]) then 1 + FragmentRun(s[1..]) else 0
  }

  /** `_RE_URL_FRAGMENT.match`: `url(#name)`, with spaces allowed inside the parentheses only. */
  predicate IsUrlFragment(s: string) {
    && StartsFold(s, "url") && "(" <= s[3..]
    && var inside := TrimLeft(s[4..]);
    && "#" <= inside && |inside| > 1 && IsLowerLetter(Fold(inside[1]))
    && FragmentRun(inside[2..]) <= 127
    && ")" <= TrimLeft(inside[2 + FragmentRun(inside[2..])..])
  }

  /** Every `url(` call in `v` is a fragment reference. */
  predicate UrlsAreFragments(v: string) {
    v != "" ==> (StartsCall(v, "url", '(') ==> IsUrlFragment(v)) && UrlsAreFragments(v[1..])
  }

  /** The conditions a value must meet once spaces are collapsed and `!important` is split off. */
  predicate IsCleanValue(prop: string, v: string) {
    && v != "" && |v| <= MAX_VALUE_CHARS && !IsBadValue(v)
    && Count(v, '\"') % 2 == 0 && Count(v, '\'') % 2 == 0 && Count(v, '(') == Count(v, ')')
    && UrlsAreFragments(v)
    && (prop == "position" ==> Lower(v) in POSITIONS)
  }

  /** Where the match of `\s*!\s*important\s*$` starts in `v`. */
  function ImportantStart(v: string): (i: Option<nat>)
    ensures i.Some? ==> i.value <= |v|
  {
    var t := TrimRight(v);
    if |t| >= 9 && StartsFold(t[|t| - 9..], "important") then
      var u := TrimRight(t[..|t| - 9]);
      if u != "" && u[|u| - 1] == '!' then Some(|TrimRight(u[..|u| - 1])|) else None
    else None
  }

  datatype Value = Value(text: string, important: bool)

  const IMPORTANT := " !important"

  /** `_clean_value`, before the two parts are put together again. */
  function CleanValue(prop: string, raw: string): Option<Value> {
    var v := Strip(raw);
    var cut := ImportantStart(v);
    var text := Collapse(if cut.Some? then Strip(v[..cut.value]) else v);
    if IsCleanValue(prop, text) then Some(Value(text, cut.Some?)) else None
  }

  // ---- Sheets ----

  datatype Decl = Decl(prop: string, value: Value)

  datatype Rule =
    | Style(selector: string, decls: seq<Decl>)
    | Media(condition: string, rules: seq<Rule>)
    | Keyframes(name: string, rules: seq<Rule>)

  function PrintValue(v: Value): string {
    if v.important then v.text + IMPORTANT else v.text
  }

  function PrintDecl(d: Decl): string {
    d.prop + ":" + PrintValue(d.value)
  }

  function PrintDecls(decls: seq<Decl>): (r: string)
    ensures r == "" <==> decls == []
  {
    if |decls| == 0 then ""
    else if |decls| == 1 then PrintDecl(decls[0])
    else PrintDecl(decls[0]) + ";" + PrintDecls(decls[1..])
  }

  function Prelude(r: Rule): string {
    match r
    case Style(selector, _) => selector
    case Media(condition, _) => "@media " + condition
    case Keyframes(name, _) => "@keyframes " + name
  }

  function Body(r: Rule): string
    decreases r, 0
  {
    match r
    case Style(_, decls) => PrintDecls(decls)
    case Media(_, rules) => PrintRules(rules, "\n")
    case Keyframes(_, rules) => PrintRules(rules, "\n")
  }

  function PrintRule(r: Rule): string
    decreases r, 1
  {
    Prelude(r) + "{" + Body(r) + "}"
  }

  /** The rules, with `sep` between them. The filter prints a line feed between two rules. */
  function PrintRules(rules: seq<Rule>, sep: string): (r: string)
    ensures r == "" <==> rules == []
    decreases rules, 2
  {
    if |rules| == 0 then ""
    else if |rules| == 1 then PrintRule(rules[0])
    else PrintRule(rules[0]) + sep + PrintRules(rules[1..], sep)
  }

  /** The number of rules, at-rules included, at every depth. */
  function RuleCount(rules: seq<Rule>): nat
    decreases rules
  {
    if rules == [] then 0
    else 1 + (if rules[0].Style? then 0 else RuleCount(rules[0].rules)) + RuleCount(rules[1..])
  }

  /** The number of at-rules, at every depth. */
  function AtRuleCount(rules: seq<Rule>): nat
    decreases rules
  {
    if rules == [] then 0
    else (if rules[0].Style? then 0 else 1 + AtRuleCount(rules[0].rules)) + AtRuleCount(rules[1..])
  }

  /** The characters a printed sheet is made of, apart from two noncharacters that only a value could hold. */
  predicate IsSheetChar(c: char) {
    && c !in {'<', '&', '\\', '\U{7F}'}
    && (c < ' ' ==> c == '\t' || c == '\n' || c == '\r')
  }

  /** The characters printed between the braces of a style rule. */
  predicate IsDeclChar(c: char) { IsSheetChar(c) && NotBrace(c) && c != '@' }

  // ---- The accepted grammar ----

  /** A declaration the filter prints. `last` allows a parenthesis left open at the end. */
  predicate DeclOk(d: Decl, last: bool) {
    && IsProperty(d.prop) && d.prop !in BAD_PROPERTIES
    && IsCleanValue(d.prop, d.value.text)
    && Stripped(d.value.text) && Collapsed(d.value.text)
    && (!d.value.important ==> ImportantStart(d.value.text) == None)
    && ScanLen(OUTSIDE, d.value.text, {';'}) == |d.value.text|
    && (!last ==> Run(OUTSIDE, d.value.text) == OUTSIDE)
  }

  predicate DeclsOk(decls: seq<Decl>) {
    decls != [] ==> DeclOk(decls[0], |decls| == 1) && DeclsOk(decls[1..])
  }

  /** The text before a `{` is read back as it is printed. */
  predicate PreludeOk(p: string) {
    p != "" && Stripped(p) && Lexed(OUTSIDE, p, BLOCK_STOPS, OUTSIDE)
  }

  predicate RuleOk(r: Rule, depth: nat, inKeyframes: bool)
    decreases r, 0
  {
    && PreludeOk(Prelude(r))
    && match r
       case Style(selector, decls) =>
         && (if inKeyframes then IsKeyframeSelector(selector) else IsSelector(selector)) && Collapsed(selector)
         && 0 < |decls| <= MAX_DECLARATIONS_PER_RULE && DeclsOk(decls)
         && Run(OUTSIDE, PrintDecls(decls)).quote == None
       case Media(condition, rules) =>
         && !inKeyframes && depth < MAX_MEDIA_DEPTH && IsMediaCondition(condition)
         && Stripped(condition) && Collapsed(condition)
         && rules != [] && Accepted(rules, depth + 1, false)
       case Keyframes(name, rules) =>
         && !inKeyframes && depth == 0 && IsKeyframesName(name)
         && rules != [] && Accepted(rules, depth + 1, true)
  }

  /** The sheets the filter can print at `depth`. */
  predicate Accepted(rules: seq<Rule>, depth: nat, inKeyframes: bool)
    decreases rules, 1
  {
    rules != [] ==> RuleOk(rules[0], depth, inKeyframes) && Accepted(rules[1..], depth, inKeyframes)
  }
}
