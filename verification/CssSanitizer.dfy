/** The two public filters, `sanitize_stylesheet` and `sanitize_style_attribute`. */
module CssSanitizer {
  import opened Text
  import opened CssLexer
  import opened CssGrammar
  import opened CssFilter

  const MAX_SHEET_CHARS := 64 * 1024
  const MAX_ATTRIBUTE_CHARS := 4000

  // ---- Comments ----

  // Where the first end-of-comment mark of `s` starts.
  function CloseLen(s: string): (k: Option<nat>)
    ensures k.Some? ==> k.value + 2 <= |s|
  {
    if s == "" then None
    else if "*/" <= s then Some(0)
    else
      var k := CloseLen(s[1..]);
      if k.None? then None else Some(k.value + 1)
  }

  /** `_RE_COMMENT.sub("", s)`, and whether the last comment runs to the end of the text. */
  function DeleteComments(s: string): (string, bool)
    decreases |s|
  {
    if s == "" then ("", false)
    else if "/*" <= s then
      match CloseLen(s[2..])
      case None => ("", true)
      case Some(k) => DeleteComments(s[k + 4..])
    else
      var rest := DeleteComments(s[1..]);
      ([s[0]] + rest.0, rest.1)
  }

  predicate IsAllowedChar(c: char) {
    && (c < ' ' ==> c == '\t' || c == '\n' || c == '\r')
    && c != '\U{7F}' && c != '\U{FFFE}' && c != '\U{FFFF}'
  }

  // ---- A style element ----

  function Stylesheet(text: string): (string, bool) {
    if Strip(text) == "" then ("", false)
    else if |text| > MAX_SHEET_CHARS then ("", true)
    else
      var clean := DeleteComments(text);
      if !All(clean.0, IsAllowedChar) then ("", true)
      else
        var c := CleanItems(ParseBlocks(clean.0), 0, 0, false);
        (PrintRules(c.rules, "\n"), c.dropped || clean.1)
  }

  method SanitizeStylesheet(text: string) returns (css: string, dropped: bool)
    ensures (css, dropped) == Stylesheet(text)
  {
    if Strip(text) == "" {
      return "", false;
    }
    if |text| > MAX_SHEET_CHARS {
      return "", true;
    }
    var clean := DeleteComments(text);
    if !All(clean.0, IsAllowedChar) {
      return "", true;
    }
    var counter := new Counter();
    css, dropped := CleanRules(clean.0, 0, counter, false);
    dropped := dropped || clean.1;
  }

  // ---- A style attribute ----

  /** The declarations kept from an attribute, or None when one piece is malformed. */
  function KeepAttribute(pieces: seq<string>, already: nat): Option<(seq<Decl>, bool)> {
    if pieces == [] then Some(([], false))
    else
      match ReadPiece(pieces[0])
      case Blank => KeepAttribute(pieces[1..], already)
      case Malformed => None
      case Good(d) =>
        if already < MAX_DECLARATIONS_PER_RULE then
          match KeepAttribute(pieces[1..], already + 1)
          case None => None
          case Some(rest) => Some(([d] + rest.0, rest.1))
        else Dropping(KeepAttribute(pieces[1..], already))
      case Unwanted => Dropping(KeepAttribute(pieces[1..], already))
  }

  function Dropping(r: Option<(seq<Decl>, bool)>): Option<(seq<Decl>, bool)> {
    match r
    case None => None
    case Some(kept) => Some((kept.0, true))
  }

  predicate Balanced(s: string) {
    Count(s, '\"') % 2 == 0 && Count(s, '\'') % 2 == 0 && Count(s, '(') == Count(s, ')')
  }

  function StyleAttribute(text: string): (string, bool) {
    if Strip(text) == "" then ("", false)
    else if |text| > MAX_ATTRIBUTE_CHARS then ("", true)
    else
      var clean := DeleteComments(text);
      if clean.1 || !All(clean.0, IsAllowedChar) || !All(clean.0, NotBrace) || !Balanced(clean.0) then ("", true)
      else
        match KeepAttribute(SplitPieces(clean.0), 0)
        case None => ("", true)
        case Some(kept) => (PrintDecls(kept.0), kept.1)
  }

  method SanitizeStyleAttribute(input: string) returns (css: string, dropped: bool)
    ensures (css, dropped) == StyleAttribute(input)
  {
    if Strip(input) == "" {
      return "", false;
    }
    if |input| > MAX_ATTRIBUTE_CHARS {
      return "", true;
    }
    var clean := DeleteComments(input);
    if clean.1 || !All(clean.0, IsAllowedChar) || !All(clean.0, NotBrace) || !Balanced(clean.0) {
      return "", true;
    }
    var ok;
    ok, css, dropped := KeepDeclarations(clean.0);
    if !ok {
      return "", true;
    }
  }

  /** The loop of `sanitize_style_attribute`; `ok` is false when it returns from a malformed piece. */
  method KeepDeclarations(text: string) returns (ok: bool, css: string, dropped: bool)
    ensures match KeepAttribute(SplitPieces(text), 0)
            case None => !ok
            case Some(kept) => ok && css == PrintDecls(kept.0) && dropped == kept.1
  {
    hide ReadPiece, PrintDecl, PrintDecls, Join, PrintEachDecl, ScanLen, SplitPieces, KeepAttribute;
    var kept: seq<string> := [];
    ghost var decls: seq<Decl> := [];
    dropped := false;
    Beginning(text);
    ghost var all := KeepAttribute(SplitPieces(text), 0);
    if all.Some? {
      Regroup(all.value.0, [], []);
    }
    var i := 0;
    while i < |text|
      invariant 0 <= i <= |text| + 1
      invariant kept == PrintEachDecl(decls) && |decls| <= MAX_DECLARATIONS_PER_RULE
      invariant KeepAttribute(SplitPieces(text), 0)
             == After(decls, dropped, KeepAttribute(if i <= |text| then SplitPieces(text[i..]) else [], |decls|))
    {
      var end := Scan(text, i, {';'});
      var piece := text[i..end];
      SplitPiecesStep(text, i, end);
      ghost var rest := if end + 1 <= |text| then SplitPieces(text[end + 1..]) else [];
      KeepAttributeStep(piece, rest, |decls|);
      i := end + 1;
      match ReadPiece(piece) {
        case Blank =>
        case Malformed => return false, "", true;
        case Unwanted => dropped := true;
        case Good(d) =>
          if |kept| < MAX_DECLARATIONS_PER_RULE {
            PrintEachDeclAppend(decls, d);
            kept := kept + [PrintDecl(d)];
            AfterAppend(decls, d, dropped, KeepAttribute(rest, |decls| + 1));
            decls := decls + [d];
          } else {
            dropped := true;
          }
      }
    }
    NothingLeft(text, |decls|);
    Regroup(decls, [], []);
    JoinEachDecl(decls);
    return true, Join(kept, ";"), dropped;
  }

  lemma Beginning(text: string)
    ensures PrintEachDecl([]) == [] && text[0..] == text
  {
  }

  lemma NothingLeft(text: string, already: nat)
    ensures text[|text|..] == "" && SplitPieces("") == [] && KeepAttribute([], already) == Some(([], false))
  {
  }

  /** One turn of the loop. */
  lemma KeepAttributeStep(piece: string, rest: seq<string>, already: nat)
    ensures KeepAttribute([piece] + rest, already) ==
            match ReadPiece(piece)
            case Blank => KeepAttribute(rest, already)
            case Malformed => None
            case Unwanted => Dropping(KeepAttribute(rest, already))
            case Good(d) =>
              if already >= MAX_DECLARATIONS_PER_RULE then Dropping(KeepAttribute(rest, already))
              else
                match KeepAttribute(rest, already + 1)
                case None => None
                case Some(kept) => Some(([d] + kept.0, kept.1))
  {
    hide ReadPiece;
    assert ([piece] + rest)[1..] == rest;
  }

  ghost function After(decls: seq<Decl>, dropped: bool, rest: Option<(seq<Decl>, bool)>): Option<(seq<Decl>, bool)> {
    match rest
    case None => None
    case Some(kept) => Some((decls + kept.0, dropped || kept.1))
  }

  lemma AfterAppend(decls: seq<Decl>, d: Decl, dropped: bool, rest: Option<(seq<Decl>, bool)>)
    ensures rest.Some? ==>
              After(decls, dropped, Some(([d] + rest.value.0, rest.value.1))) == After(decls + [d], dropped, rest)
  {
    if rest.Some? {
      Regroup(decls, [d], rest.value.0);
    }
  }
}
