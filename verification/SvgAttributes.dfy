/** Which attributes and style declarations are kept: not only what a kept one may be, but what must be kept. */
module SvgAttributes {
  import opened Text
  import opened SvgTree
  import opened SvgIdempotence
  import opened SvgPolicy

  // ---- Attributes ----

  /** The table has an entry for every name it has a validator for. */
  ghost predicate FullTable(p: Policy) {
    forall n :: n in p.validators ==> Lower(n) in p.attributes && p.attributes[Lower(n)] == n
  }

  /** The value that an attribute of the canonical name `n` is given, if it may be kept at all. */
  ghost predicate Passes(p: Policy, n: string, value: string, w: string) {
    if n in ARIA_KEPT then p.ariaValue(value) && w == value
    else if n == "style" then CleanStyle(p, value) == Some(w)
    else n in p.validators && |value| <= MAX_ATTR_VALUE && p.validators[n](value) == Some(w) && !p.badValue(w)
  }

  /** No validator is for a name of the two other kinds. */
  ghost predicate KindsApart(p: Policy) {
    forall n :: n in p.validators ==> !("aria-" <= Lower(n)) && Lower(n) != "style"
  }

  /** An attribute is cleaned to a name and a value if and only if its own name is that name in any case, and the value
      passes. */
  lemma CleanAttributeExactly(p: Policy, name: string, value: string, n: string, w: string)
    requires SoundPolicy(p) && FullTable(p) && KindsApart(p)
    ensures CleanAttribute(p, name, value) == Some((n, w)) <==>
            && Lower(name) == Lower(n) && (n in ARIA_KEPT || n == "style" || n in p.validators)
            && Passes(p, n, value, w)
  {
    hide Lower, CleanStyle, Sound;
    forall m | m in ARIA_KEPT ensures Lower(m) == m && "aria-" <= m { AriaLower(m); }
    StyleLower();
    assert "style"[0] == 's';
  }

  /** The concrete tables are such. */
  lemma TablesFull(badValue: string -> bool, ariaValue: string -> bool, svgSize: string -> bool)
    ensures FullTable(Tables(badValue, ariaValue, svgSize)) && KindsApart(Tables(badValue, ariaValue, svgSize))
  {
    hide All, Lower, Namespace;
    LowerViewBox();
    PlainNames();
    LowerSame("xmlns");
    LowerSame("fill-rule");
    LowerSame("clip-rule");
    assert "viewbox"[0] == 'v' && "xmlns"[0] == 'x' && "fill-rule"[0] == 'f' && "clip-rule"[0] == 'c';
    assert "style"[0] == 's';
  }

  /** What an element refuses of it. */
  ghost predicate Refused(p: Policy, element: string, dropped: set<string>, n: string, w: string) {
    || n in dropped
    || (element == "svg" && n == "transform")
    || (element == "svg" && (n == "width" || n == "height") && !p.svgSize(Strip(w)))
  }

  /** An attribute of an element is kept, under a name and with a value, if and only if it is cleaned to that name and
      the element does not refuse it; only the width and height of an `svg` are stripped. */
  lemma KeepAttributeExactly(p: Policy, element: string, dropped: set<string>, name: string, value: string, n: string,
                             w: string)
    requires SoundPolicy(p) && FullTable(p) && KindsApart(p)
    ensures var own := if name == XML_SPACE then "xml:space" else name;
            KeepAttribute(p, element, dropped, name, value) == Some((n, w)) <==>
            exists v ::
              && Lower(own) == Lower(n) && (n in ARIA_KEPT || n == "style" || n in p.validators)
              && Passes(p, n, value, v)
              && !Refused(p, element, dropped, n, v)
              && w == if element == "svg" && (n == "width" || n == "height") then Strip(v) else v
  {
    hide Lower, Passes, CleanAttribute, Strip, SoundPolicy, FullTable, KindsApart;
    var own := if name == XML_SPACE then "xml:space" else name;
    var c := CleanAttribute(p, own, value);
    if c.Some? {
      CleanAttributeExactly(p, own, value, c.value.0, c.value.1);
    }
    forall v | Lower(own) == Lower(n) && (n in ARIA_KEPT || n == "style" || n in p.validators) && Passes(p, n, value, v)
      ensures c == Some((n, v))
    {
      CleanAttributeExactly(p, own, value, n, v);
    }
  }

  /** `xml:space` is the one attribute that a tree spells in another way. */
  lemma Stored(name: string)
    ensures StoredName(name) == if name == "xml:space" then "{http://www.w3.org/XML/1998/namespace}space" else name
  {
  }

  // ---- Style declarations ----

  function Validate(p: Policy, prop: string, raw: string): Option<string> {
    if prop in p.styleOnly then p.styleOnly[prop](raw)
    else if prop in p.validators then p.validators[prop](raw)
    else None
  }

  lemma {:induction false} LowerEach(name: string)
    requires All(Lower(name), IsStyleNameChar)
    ensures All(name, IsNameChar)
  {
    if name != "" {
      assert Lower(name)[0] == LowerChar(name[0])[0] && LowerChar(name[0])[0] == Lower(name)[0];
      var c := LowerChar(name[0]);
      assert Lower(name) == c + Lower(name[1..]);
      AllConcat(c, Lower(name[1..]), IsStyleNameChar);
      LowerEach(name[1..]);
    }
  }

  /** A character that is no space and no colon. */
  predicate IsNameChar(c: char) { !IsSpace(c) && c != ':' }

  lemma NameStripped(name: string)
    requires All(name, IsNameChar)
    ensures Stripped(name)
  {
    AllEach(name, IsNameChar);
  }

  /** A declaration of a listed property, its name in any case and with any spaces around its parts, is kept with the
      value that its validator gives for the stripped text, unless that value is bad. */
  lemma DeclarationSpelled(p: Policy, a: string, name: string, b: string, raw: string)
    requires All(a, IsSpace) && All(b, IsSpace)
    requires Lower(name) in p.styleProps && 3 <= |Lower(name)| <= 40 && All(Lower(name), IsStyleNameChar)
    ensures var v := Validate(p, Lower(name), Strip(raw));
            StyleDeclaration(p, a + name + b + ":" + raw) ==
            if v == None || p.badValue(v.value) then None else Some(Lower(name) + ":" + v.value)
  {
    hide All, Lower, Strip, IndexOf, Stripped;
    var head := a + name + b;
    LowerEach(name);
    NameStripped(name);
    StripAround(a, name, b);
    NoColon(a, IsSpace);
    NoColon(b, IsSpace);
    NoColon(name, IsNameChar);
    IndexOfFirst(head, ':', raw);
    var d := head + [':'] + raw;
    assert d == a + name + b + ":" + raw && d[..|head|] == head && d[|head| + 1..] == raw;
  }

  /** A piece that is no declaration, or one of another property, is left out. */
  lemma OtherLeftOut(p: Policy, d: string)
    ensures ':' !in d ==> StyleDeclaration(p, d) == None
    ensures ':' in d && Lower(Strip(d[..IndexOf(d, ':')])) !in p.styleProps ==> StyleDeclaration(p, d) == None
  {
    hide Lower, Strip, IndexOf;
    if ':' !in d {
      IndexOfFirst(d, ':', "");
    }
  }

  lemma {:induction false} KeepStyleConcat(p: Policy, a: seq<string>, b: seq<string>)
    ensures KeepStyle(p, a + b) == KeepStyle(p, a) + KeepStyle(p, b)
  {
    hide StyleDeclaration;
    if a == [] {
      assert a + b == b;
    } else {
      assert (a + b)[1..] == a[1..] + b;
      KeepStyleConcat(p, a[1..], b);
    }
  }

  /** A style that is not refused as a whole is cleaned to its kept declarations, in their order. */
  lemma StyleInOrder(p: Policy, a: seq<string>, d: string, b: seq<string>)
    requires FreeOf(a + [d] + b, ';')
    ensures var value := Join(a + [d] + b, ";");
            var one := StyleDeclaration(p, d);
            var kept := Join(KeepStyle(p, a) + (if one == None then [] else [one.value]) + KeepStyle(p, b), ";");
            CleanStyle(p, value) ==
            if |value| > MAX_STYLE || HasComment(value) || '@' in value || '\\' in value || kept == "" then None
            else Some(kept)
  {
    hide StyleDeclaration, HasComment, Split, Join, FreeOf;
    var parts := a + [d] + b;
    assert parts != [];
    SplitJoined(parts, ';');
    KeepStyleConcat(p, a + [d], b);
    KeepStyleConcat(p, a, [d]);
    KeepStyleOne(p, d);
  }

  lemma KeepStyleOne(p: Policy, d: string)
    ensures KeepStyle(p, [d]) == if StyleDeclaration(p, d) == None then [] else [StyleDeclaration(p, d).value]
  {
    hide StyleDeclaration;
    assert [d][1..] == [] && KeepStyle(p, []) == [];
  }
}
