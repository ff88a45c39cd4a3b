/** Tables that meet what the sanitizer relies on: the entries of `_VALIDATORS` that are modelled in full. */
module SvgPolicy {
  import opened Text
  import opened SvgTree
  import opened SvgValidators
  import opened SvgIdempotence
  import opened SvgBlocks

  /** The entry of `xmlns`. */
  function Namespace(value: string): Option<string> {
    if Strip(value) == SVG_NS then Some(SVG_NS) else None
  }

  const RULES := {"nonzero", "evenodd"}

  function Tables(badValue: string -> bool, ariaValue: string -> bool, svgSize: string -> bool): Policy {
    Policy(
      map["viewBox" := ViewBox, "xmlns" := Namespace, "fill-rule" := CheckEnum(RULES), "clip-rule" := CheckEnum(RULES)],
      map["viewbox" := "viewBox", "xmlns" := "xmlns", "fill-rule" := "fill-rule", "clip-rule" := "clip-rule"],
      {"fill-rule"}, map[], badValue, ariaValue, svgSize)
  }

  predicate IsUrlChar(c: char) { IsLetter(c) || IsDigit(c) || c in {'/', '.', ':'} }

  lemma NamespaceChars()
    ensures All(SVG_NS, IsUrlChar) && Stripped(SVG_NS)
  {
    hide All;
    AllEach(SVG_NS, IsUrlChar);
  }

  lemma NamespaceSound()
    ensures Sound(Namespace)
  {
    hide All, Strip, Stripped;
    NamespaceChars();
    AllWeaken(SVG_NS, IsUrlChar, IsKeptChar);
    StripStripped(SVG_NS);
    forall v | Namespace(v).Some? ensures SoundResult(Namespace, v, Namespace(v).value) {
      StripShorter(v);
    }
  }

  lemma RulesSound()
    ensures Sound(CheckEnum(RULES))
  {
    hide All;
    AllEach("nonzero", IsKeptChar);
    AllEach("evenodd", IsKeptChar);
    forall s | s in RULES ensures Stripped(s) && All(s, IsKeptChar) {
    }
    CheckEnumSound(RULES);
  }

  lemma LowerSame(name: string)
    requires All(name, IsStyleNameChar)
    ensures Lower(name) == name
  {
    LowerFixed(name, IsStyleNameChar);
  }

  lemma PlainNames()
    ensures All("xmlns", IsStyleNameChar) && All("fill-rule", IsStyleNameChar) && All("clip-rule", IsStyleNameChar)
  {
    hide All;
    AllEach("xmlns", IsStyleNameChar);
    AllEach("fill-rule", IsStyleNameChar);
    AllEach("clip-rule", IsStyleNameChar);
  }

  lemma LowerViewBox()
    ensures Lower("viewBox") == "viewbox"
  {
    hide All, Lower;
    AllEach("view", IsLowerLetter);
    AllEach("ox", IsLowerLetter);
    CamelName("view", 'B', 'b', "ox");
    assert "view" + (['B'] + "ox") == "viewBox" && "view" + (['b'] + "ox") == "viewbox";
  }

  lemma NamesSound(p: Policy)
    requires p.attributes == map["viewbox" := "viewBox", "xmlns" := "xmlns",
                 "fill-rule" := "fill-rule", "clip-rule" := "clip-rule"]
    ensures forall l :: l in p.attributes ==> Lower(p.attributes[l]) == l
  {
    hide All, Lower;
    LowerViewBox();
    PlainNames();
    LowerSame("xmlns");
    LowerSame("fill-rule");
    LowerSame("clip-rule");
  }

  /** These tables are sound, and they keep the namespace of a block unless the pattern of bad values matches it. */
  lemma TablesSound(badValue: string -> bool, ariaValue: string -> bool, svgSize: string -> bool, dropped: set<string>)
    requires !badValue(SVG_NS) && "xmlns" !in dropped
    ensures SoundPolicy(Tables(badValue, ariaValue, svgSize))
    ensures KeepsNamespace(Tables(badValue, ariaValue, svgSize), dropped)
  {
    hide All, Lower, Strip, ViewBox, CheckEnum, Sound, CleanStyle, KeepsNamespace;
    var p := Tables(badValue, ariaValue, svgSize);
    NamesSound(p);
    ViewBoxSound();
    NamespaceSound();
    RulesSound();
    assert "xmlns" != XML_SPACE;
    NamespaceKept(p, dropped);
  }

  lemma NamespaceKept(p: Policy, dropped: set<string>)
    requires "xmlns" !in dropped && !p.badValue(SVG_NS)
    requires "xmlns" in p.attributes && p.attributes["xmlns"] == "xmlns"
    requires "xmlns" in p.validators && p.validators["xmlns"] == Namespace
    ensures KeepsNamespace(p, dropped)
  {
    hide All, Lower, Strip, CleanStyle;
    PlainNames();
    LowerSame("xmlns");
    NamespaceChars();
    StripStripped(SVG_NS);
    assert "xmlns"[0] == 'x' && !("aria-" <= "xmlns");
    assert "xmlns" != XML_SPACE && "xmlns" != "style";
    assert |SVG_NS| <= MAX_ATTR_VALUE;
  }
}
