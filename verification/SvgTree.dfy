/** The trees that the SVG sanitizer reads and builds, and its rules for one attribute. */
module SvgTree {
  import opened Text

  const SVG_NS := "http://www.w3.org/2000/svg"
  const XML_SPACE := "{http://www.w3.org/XML/1998/namespace}space"

  /** The tag of a node. Comments and processing instructions have no name; a comment may be one of the
      placeholders of the current document, `mark` being the number its text spells. */
  datatype Tag = Name(name: string) | Comment(mark: Option<nat>) | Instruction

  datatype Node = Node(tag: Tag, attrs: seq<(string, string)>, text: Option<string>,
                       children: seq<Node>, tail: Option<string>)

  // ---- Elements ----

  const PLAIN_ELEMENTS := {
    "svg", "g", "path", "rect", "circle", "ellipse", "line", "polyline", "polygon", "text", "tspan", "defs",
    "title", "desc", "stop", "marker", "symbol", "pattern"
  }

  const TEXT_ELEMENTS := {"text", "tspan", "title", "desc"}

  /** `ALLOWED_ELEMENTS.get(local)`: the canonical spelling of an allowlisted element. */
  function CanonicalElement(local: string): Option<string> {
    if local in PLAIN_ELEMENTS then Some(local)
    else if local == "lineargradient" then Some("linearGradient")
    else if local == "radialgradient" then Some("radialGradient")
    else if local == "clippath" then Some("clipPath")
    else None
  }

  /** `svg_local_name`. */
  function SvgLocalName(tag: Tag): Option<string> {
    match tag
    case Name(name) =>
      if "{" <= name then
        var i := IndexOf(name[1..], '}');
        if i < |name| - 1 && name[1..][..i] == SVG_NS then Some(Lower(name[1..][i + 1..])) else None
      else if IndexOf(name, ':') < |name| then None
      else Some(Lower(name))
    case _ => None
  }

  // ---- Attributes ----

  type Validator = string -> Option<string>

  /** A character that no accepted value holds. */
  predicate IsKeptChar(c: char) { c !in {';', '@', '\\', '*'} }

  /** What the sanitizer relies on in the validator of an attribute: the value it returns is stripped, not
      longer than the value it was given, free of `;`, `@`, `\` and `*`, and returned unchanged when it is
      validated again. */
  ghost predicate Sound(f: Validator) {
    forall v :: f(v).Some? ==> SoundResult(f, v, f(v).value)
  }

  predicate SoundResult(f: Validator, v: string, w: string) {
    f(w) == Some(w) && |w| <= |v| && Stripped(w) && All(w, IsKeptChar)
  }

  /** The tables of the sanitizer: `_VALIDATORS`, `ALLOWED_ATTRIBUTES`, `_STYLE_PROPS`,
      `_STYLE_ONLY_VALIDATORS`, `_BAD_VALUE_RE`, the pattern of ARIA values and the size bound of an `svg`. */
  datatype Policy = Policy(
    validators: map<string, Validator>,
    attributes: map<string, string>,
    styleProps: set<string>,
    styleOnly: map<string, Validator>,
    badValue: string -> bool,
    ariaValue: string -> bool,
    svgSize: string -> bool)

  /** `ALLOWED_ATTRIBUTES` is `{name.lower(): name for name in _VALIDATORS}`, and every validator is sound. */
  ghost predicate SoundPolicy(p: Policy) {
    && (forall l :: l in p.attributes ==> Lower(p.attributes[l]) == l && p.attributes[l] in p.validators)
    && XML_SPACE !in p.validators
    && (forall n :: n in p.validators ==> Sound(p.validators[n]))
    && (forall n :: n in p.styleOnly ==> Sound(p.styleOnly[n]))
  }

  const MAX_ATTR_VALUE := 20000
  const MAX_STYLE := 2000

  predicate IsStyleNameChar(c: char) { IsLowerLetter(c) || c == '-' }

  /** `_RE_STYLE_PROP.fullmatch`. */
  predicate IsStyleName(s: string) {
    3 <= |s| <= 40 && All(s, IsStyleNameChar)
  }

  /** One declaration of a `style` attribute, rewritten, or None to leave it out. */
  function StyleDeclaration(p: Policy, d: string): Option<string> {
    var i := IndexOf(d, ':');
    if i == |d| then None
    else
      var prop := Lower(Strip(d[..i]));
      var raw := Strip(d[i + 1..]);
      if prop !in p.styleProps || !IsStyleName(prop) then None
      else
        var cleaned :=
          if prop in p.styleOnly then p.styleOnly[prop](raw)
          else if prop in p.validators then p.validators[prop](raw)
          else None;
        if cleaned == None || p.badValue(cleaned.value) then None else Some(prop + ":" + cleaned.value)
  }

  function KeepStyle(p: Policy, parts: seq<string>): seq<string> {
    if parts == [] then []
    else
      var rest := KeepStyle(p, parts[1..]);
      match StyleDeclaration(p, parts[0])
      case None => rest
      case Some(d) => [d] + rest
  }

  /** `_clean_style`. */
  function CleanStyle(p: Policy, value: string): Option<string> {
    if |value| > MAX_STYLE || HasComment(value) || '@' in value || '\\' in value then None
    else
      var text := Join(KeepStyle(p, Split(value, ';')), ";");
      if text == "" then None else Some(text)
  }

  const ARIA_KEPT := {"aria-label", "aria-hidden", "aria-roledescription"}

  /** `_clean_attribute`: the canonical name and the cleaned value, or None. */
  function CleanAttribute(p: Policy, name: string, value: string): Option<(string, string)> {
    var lowered := Lower(name);
    if "aria-" <= lowered then
      if lowered in ARIA_KEPT && p.ariaValue(value) then Some((lowered, value)) else None
    else if lowered == "style" then
      match CleanStyle(p, value) case None => None case Some(s) => Some(("style", s))
    else if lowered !in p.attributes || |value| > MAX_ATTR_VALUE then None
    else
      var canonical := p.attributes[lowered];
      if canonical !in p.validators then None
      else
        match p.validators[canonical](value)
        case None => None
        case Some(w) => if p.badValue(w) then None else Some((canonical, w))
  }

  /** What `_build` keeps of one attribute of an element: it also bounds the size of an `svg`, never lets
      it be moved, and leaves out what the calling field refuses. */
  function KeepAttribute(p: Policy, element: string, dropped: set<string>, name: string, value: string)
    : Option<(string, string)>
  {
    match CleanAttribute(p, if name == XML_SPACE then "xml:space" else name, value)
    case None => None
    case Some(result) =>
      if result.0 in dropped then None
      else if element == "svg" && result.0 == "transform" then None
      else if element == "svg" && (result.0 == "width" || result.0 == "height") then
        var size := Strip(result.1);
        if p.svgSize(size) then Some((result.0, size)) else None
      else Some(result)
  }

  /** An XML tree spells `xml:space` as a Clark name. */
  function StoredName(name: string): string {
    if name == "xml:space" then XML_SPACE else name
  }

  // ---- A kept attribute is kept unchanged ----

  /** Lower-casing never shortens a text, and keeps the length of one that becomes ASCII. */
  lemma {:induction false} LowerLength(s: string)
    ensures |s| <= |Lower(s)|
    ensures All(Lower(s), IsStyleNameChar) ==> |Lower(s)| == |s|
  {
    if s != "" {
      LowerLength(s[1..]);
      AllConcat(LowerChar(s[0]), Lower(s[1..]), IsStyleNameChar);
    }
  }

  /** A printed declaration is taken apart again. */
  lemma JoinedStyle(prop: string, w: string)
    requires All(prop, IsStyleNameChar) && Stripped(w) && All(w, IsKeptChar)
    ensures var e := prop + ":" + w;
            && IndexOf(e, ':') == |prop| && |e| == |prop| + 1 + |w|
            && Lower(Strip(e[..|prop|])) == prop && Strip(e[|prop| + 1..]) == w && All(e, IsKeptChar)
  {
    hide Lower, Strip, IndexOf, Stripped, All;
    var e := prop + ":" + w;
    AllEach(prop, IsStyleNameChar);
    IndexOfFirst(prop, ':', w);
    assert e[..|prop|] == prop && e[|prop| + 1..] == w;
    StyleNameStripped(prop);
    LowerFixed(prop, IsStyleNameChar);
    StripStripped(w);
    AllWeaken(prop, IsStyleNameChar, IsKeptChar);
    AllEach(":", IsKeptChar);
    AllConcat(prop, ":", IsKeptChar);
    AllConcat(prop + ":", w, IsKeptChar);
  }

  /** A kept declaration holds no `;`, is not longer than the one it came from, and is kept unchanged. */
  lemma StyleDeclarationFixed(p: Policy, d: string)
    requires SoundPolicy(p) && StyleDeclaration(p, d).Some?
    ensures var e := StyleDeclaration(p, d).value;
            && StyleDeclaration(p, e) == Some(e) && |e| <= |d| && e != ""
            && All(e, IsKeptChar)
  {
    hide Lower, Strip, IndexOf, Stripped, All, Sound;
    var i := IndexOf(d, ':');
    var prop := Lower(Strip(d[..i]));
    var raw := Strip(d[i + 1..]);
    var f := if prop in p.styleOnly then p.styleOnly[prop] else p.validators[prop];
    assert Sound(f);
    hide SoundPolicy;
    SoundAt(f, raw);
    JoinedStyle(prop, f(raw).value);
    LowerLength(Strip(d[..i]));
    StripShorter(d[..i]);
    StripShorter(d[i + 1..]);
  }

  lemma SoundAt(f: Validator, v: string)
    requires Sound(f) && f(v).Some?
    ensures SoundResult(f, v, f(v).value)
  {
  }

  lemma StyleNameStripped(s: string)
    requires All(s, IsStyleNameChar)
    ensures Strip(s) == s
  {
    AllEach(s, IsStyleNameChar);
    StripStripped(s);
  }

  predicate StyleParts(p: Policy, parts: seq<string>) {
    parts != [] ==>
      && StyleDeclaration(p, parts[0]) == Some(parts[0]) && parts[0] != "" && All(parts[0], IsKeptChar)
      && StyleParts(p, parts[1..])
  }

  function TotalLength(parts: seq<string>): nat {
    if parts == [] then 0 else |parts[0]| + 1 + TotalLength(parts[1..])
  }

  lemma {:induction false} KeepStyleFixed(p: Policy, parts: seq<string>)
    requires SoundPolicy(p)
    ensures StyleParts(p, KeepStyle(p, parts)) && TotalLength(KeepStyle(p, parts)) <= TotalLength(parts)
  {
    hide StyleDeclaration;
    if parts != [] {
      KeepStyleFixed(p, parts[1..]);
      if StyleDeclaration(p, parts[0]).Some? {
        StyleDeclarationFixed(p, parts[0]);
        assert KeepStyle(p, parts)[1..] == KeepStyle(p, parts[1..]);
      }
    }
  }

  lemma {:induction false} SplitLength(s: string, c: char)
    ensures TotalLength(Split(s, c)) == |s| + 1
    decreases |s|
  {
    var i := IndexOf(s, c);
    if i < |s| {
      SplitLength(s[i + 1..], c);
      assert Split(s, c)[1..] == Split(s[i + 1..], c);
    } else {
      assert [s][1..] == [];
    }
  }

  lemma {:induction false} StylePartsText(p: Policy, parts: seq<string>)
    requires StyleParts(p, parts) && parts != []
    ensures var text := Join(parts, ";");
            && text != "" && |text| + 1 == TotalLength(parts)
            && Split(text, ';') == parts && KeepStyle(p, parts) == parts
            && '@' !in text && '\\' !in text && '*' !in text
  {
    hide StyleDeclaration, HasComment, Split, All;
    var first := parts[0];
    KeptPart(first);
    assert [first] + parts[1..] == parts;
    if |parts| == 1 {
      OnePart(first);
      assert parts[1..] == [];
    } else {
      var rest := Join(parts[1..], ";");
      StylePartsText(p, parts[1..]);
      SplitFirst(first, rest);
    }
  }

  lemma KeptPart(s: string)
    requires All(s, IsKeptChar)
    ensures ';' !in s && '@' !in s && '\\' !in s && '*' !in s
  {
    hide All;
    AllEach(s, IsKeptChar);
  }

  lemma OnePart(s: string)
    requires ';' !in s
    ensures Split(s, ';') == [s]
  {
    IndexOfFirst(s, ';', "");
  }

  lemma SplitFirst(first: string, rest: string)
    requires ';' !in first
    ensures Split(first + ";" + rest, ';') == [first] + Split(rest, ';')
  {
    var text := first + [';'] + rest;
    IndexOfFirst(first, ';', rest);
    assert text[..|first|] == first && text[|first| + 1..] == rest;
  }

  lemma {:induction false} NoStarNoMark(s: string)
    requires '*' !in s
    ensures !HasComment(s)
  {
    if s != "" {
      assert forall c :: c in s[1..] ==> c in s;
      NoStarNoMark(s[1..]);
      assert |s| > 1 ==> s[1] != '*';
    }
  }

  /** `_clean_style` returns its own result unchanged. */
  lemma CleanStyleIdempotent(p: Policy, value: string)
    requires SoundPolicy(p) && CleanStyle(p, value).Some?
    ensures CleanStyle(p, CleanStyle(p, value).value) == CleanStyle(p, value)
  {
    hide HasComment, KeepStyle, Split, Join;
    var parts := KeepStyle(p, Split(value, ';'));
    assert parts != [] by { JoinEmpty(); }
    KeepStyleFixed(p, Split(value, ';'));
    SplitLength(value, ';');
    StylePartsText(p, parts);
    NoStarNoMark(Join(parts, ";"));
  }

  lemma JoinEmpty()
    ensures Join([], ";") == ""
  {
  }

  lemma AriaChars()
    ensures All("aria-label", IsStyleNameChar) && All("aria-hidden", IsStyleNameChar)
    ensures All("aria-roledescription", IsStyleNameChar)
  {
    hide All;
    AllEach("aria-label", IsStyleNameChar);
    AllEach("aria-hidden", IsStyleNameChar);
    AllEach("aria-roledescription", IsStyleNameChar);
  }

  lemma AriaPrefix(name: string)
    requires name in ARIA_KEPT
    ensures "aria-" <= name && name != XML_SPACE
  {
    assert XML_SPACE[0] == '{';
  }

  lemma AriaLower(name: string)
    requires name in ARIA_KEPT
    ensures Lower(name) == name && "aria-" <= name && name != XML_SPACE
  {
    hide Lower, All;
    AriaPrefix(name);
    AriaChars();
    LowerFixed(name, IsStyleNameChar);
  }

  lemma StyleLower()
    ensures Lower("style") == "style"
  {
    hide Lower, All;
    AllEach("style", IsStyleNameChar);
    LowerFixed("style", IsStyleNameChar);
  }

  /** `_clean_attribute` returns its own result unchanged. */
  lemma CleanAttributeIdempotent(p: Policy, name: string, value: string)
    requires SoundPolicy(p) && CleanAttribute(p, name, value).Some?
    ensures var r := CleanAttribute(p, name, value).value;
            && CleanAttribute(p, r.0, r.1) == Some(r) && r.0 != XML_SPACE
            && (r.0 == "width" || r.0 == "height" ==> Stripped(r.1))
  {
    hide Lower, CleanStyle, Stripped, Sound;
    var lowered := Lower(name);
    if "aria-" <= lowered {
      AriaLower(lowered);
    } else if lowered == "style" {
      StyleLower();
      CleanStyleIdempotent(p, value);
    } else {
      SoundAt(p.validators[p.attributes[lowered]], value);
    }
  }

  /** An attribute that `_build` kept is kept unchanged when the result is rebuilt. */
  lemma KeepAttributeIdempotent(p: Policy, element: string, dropped: set<string>, name: string, value: string)
    requires SoundPolicy(p) && KeepAttribute(p, element, dropped, name, value).Some?
    ensures var r := KeepAttribute(p, element, dropped, name, value).value;
            KeepAttribute(p, element, dropped, StoredName(r.0), r.1) == Some(r) && r.0 != XML_SPACE
  {
    hide CleanAttribute, Strip, Stripped, SoundPolicy;
    var n := if name == XML_SPACE then "xml:space" else name;
    CleanAttributeIdempotent(p, n, value);
    StripStripped(CleanAttribute(p, n, value).value.1);
  }

  // ---- What a kept attribute is ----

  /** A kept declaration is a listed property and a value that its validator returns unchanged and that is not bad. */
  lemma StyleDeclarationMeans(p: Policy, d: string)
    requires SoundPolicy(p) && StyleDeclaration(p, d).Some?
    ensures var e := StyleDeclaration(p, d).value;
            var i := IndexOf(e, ':');
            && i < |e| && e[..i] in p.styleProps && IsStyleName(e[..i]) && !p.badValue(e[i + 1..])
            && (e[..i] in p.styleOnly || e[..i] in p.validators)
            && (if e[..i] in p.styleOnly then p.styleOnly[e[..i]] else p.validators[e[..i]])(e[i + 1..])
               == Some(e[i + 1..])
  {
    hide Lower, Strip, IndexOf, Stripped, All, Sound;
    var i := IndexOf(d, ':');
    var prop := Lower(Strip(d[..i]));
    var raw := Strip(d[i + 1..]);
    var f := if prop in p.styleOnly then p.styleOnly[prop] else p.validators[prop];
    assert SoundResult(f, raw, f(raw).value) by { SoundAt(f, raw); }
    var w := f(raw).value;
    AllEach(prop, IsStyleNameChar);
    IndexOfFirst(prop, ':', w);
    var e := prop + ":" + w;
    assert e == prop + [':'] + w && e[..|prop|] == prop && e[|prop| + 1..] == w;
  }

  /** A kept attribute is one that the calling field does not refuse, under a canonical name with a value that passes;
      and on an `svg` it never moves the drawing, and its size is bounded. */
  lemma KeepAttributeMeans(p: Policy, element: string, dropped: set<string>, name: string, value: string)
    requires SoundPolicy(p) && KeepAttribute(p, element, dropped, name, value).Some?
    ensures var (n, v) := KeepAttribute(p, element, dropped, name, value).value;
            && n !in dropped
            && (element == "svg" ==> n != "transform" && (n == "width" || n == "height" ==> p.svgSize(v)))
            && ((n in ARIA_KEPT && p.ariaValue(v) && v == value)
                || (n == "style" && CleanStyle(p, v) == Some(v))
                || (n in p.validators && p.validators[n](v) == Some(v) && !p.badValue(v) && |v| <= MAX_ATTR_VALUE))
  {
    hide CleanStyle, Strip, Stripped, Sound, Lower;
    var m := if name == XML_SPACE then "xml:space" else name;
    var r := CleanAttribute(p, m, value).value;
    var lowered := Lower(m);
    StripStripped(r.1);
    if "aria-" <= lowered {
      assert lowered != "width" && lowered != "height";
    } else if lowered == "style" {
      CleanStyleIdempotent(p, value);
    } else {
      SoundAt(p.validators[r.0], value);
    }
  }
}
