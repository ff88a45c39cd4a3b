/** What no kept value holds, wherever in it and in whatever case. */
module CssSafety {
  import opened Text
  import opened CssLexer
  import opened CssGrammar
  import opened CssFilter
  import opened CssEmission
  import opened CssSanitizer

  /** `word` stands at offset `i` of `v`, in any case. */
  ghost predicate At(v: string, i: int, word: string) {
    0 <= i && i + |word| <= |v| && forall k :: 0 <= k < |word| ==> Fold(v[i + k]) == word[k]
  }

  /** `word` stands there with `mark` behind it, perhaps after spaces. */
  ghost predicate CallAt(v: string, i: int, word: string, mark: char) {
    At(v, i, word)
    && exists k :: i + |word| <= k < |v| && v[k] == mark && forall j :: i + |word| <= j < k ==> IsSpace(v[j])
  }

  const WORDS := ["javascript", "vbscript", "expression", "behavior", "binding", "image-set", "cross-fade"]
  const CALLS := ["image", "src", "element", "paint", "attr"]

  /** `url(#name)` stands at offset `i`, with a name of at most 128 characters. */
  ghost predicate FragmentAt(v: string, i: int) {
    0 <= i <= |v| && IsUrlFragment(v[i..])
  }

  ghost predicate Harmless(v: string) {
    && 1 <= |v| <= 500
    && (forall i :: 0 <= i < |v| ==> v[i] !in "@<&{}\\\U{7F}" && (v[i] < ' ' ==> v[i] in "\t\n\r"))
    && (forall i, k :: 0 <= k < |WORDS| ==> !At(v, i, WORDS[k]))
    && (forall i, k :: 0 <= k < |CALLS| ==> !CallAt(v, i, CALLS[k], '('))
    && (forall i :: !CallAt(v, i, "data", ':'))
    && (forall i :: CallAt(v, i, "url", '(') ==> FragmentAt(v, i))
  }

  lemma {:induction false} StartsExactly(s: string, word: string)
    ensures StartsFold(s, word) <==> At(s, 0, word)
  {
    if word != "" && s != "" {
      var t, w := s[1..], word[1..];
      StartsExactly(t, w);
      if At(s, 0, word) {
        forall k | 0 <= k < |w| ensures Fold(t[0 + k]) == w[k] {
          assert Fold(s[0 + (k + 1)]) == word[k + 1];
        }
      } else if StartsFold(s, word) {
        forall k | 0 <= k < |word| ensures Fold(s[0 + k]) == word[k] {
          if k > 0 {
            assert Fold(t[0 + (k - 1)]) == w[k - 1];
          }
        }
      }
    }
  }

  lemma AtShift(v: string, i: int, word: string)
    requires v != "" && i >= 1
    ensures At(v, i, word) <==> At(v[1..], i - 1, word)
  {
    var t := v[1..];
    if i + |word| <= |v| {
      forall k | 0 <= k < |word| ensures Fold(v[i + k]) == word[k] <==> Fold(t[i - 1 + k]) == word[k] {
        assert v[i + k] == t[i - 1 + k];
      }
    }
  }

  lemma {:induction false} ContainsAt(v: string, word: string, i: int)
    requires At(v, i, word)
    ensures Contains(v, word)
  {
    if i == 0 {
      StartsExactly(v, word);
    } else {
      AtShift(v, i, word);
      ContainsAt(v[1..], word, i - 1);
    }
  }

  lemma CallStarts(v: string, word: string, mark: char)
    requires CallAt(v, 0, word, mark) && !IsSpace(mark)
    ensures StartsCall(v, word, mark)
  {
    StartsExactly(v, word);
    var k :| |word| <= k < |v| && v[k] == mark && forall j :: |word| <= j < k ==> IsSpace(v[j]);
    var gap, rest := v[|word|..k], v[k..];
    AllEach(gap, IsSpace);
    TrimLeftPast(gap, rest);
    assert v[|word|..] == gap + rest;
  }

  lemma CallShift(v: string, i: int, word: string, mark: char)
    requires CallAt(v, i, word, mark) && i >= 1
    ensures v != "" && CallAt(v[1..], i - 1, word, mark)
  {
    AtShift(v, i, word);
    var t := v[1..];
    var k :| i + |word| <= k < |v| && v[k] == mark && forall j :: i + |word| <= j < k ==> IsSpace(v[j]);
    assert t[k - 1] == mark;
    forall j | i - 1 + |word| <= j < k - 1 ensures IsSpace(t[j]) {
      assert IsSpace(v[j + 1]);
    }
  }

  lemma {:induction false} ContainsCallAt(v: string, word: string, mark: char, i: int)
    requires CallAt(v, i, word, mark) && !IsSpace(mark)
    ensures ContainsCall(v, word, mark)
  {
    hide CallAt, StartsCall;
    assert i >= 0 by { CallWhere(v, i, word, mark); }
    if i == 0 {
      CallStarts(v, word, mark);
    } else {
      CallShift(v, i, word, mark);
      ContainsCallAt(v[1..], word, mark, i - 1);
    }
  }

  lemma CallWhere(v: string, i: int, word: string, mark: char)
    requires CallAt(v, i, word, mark)
    ensures 0 <= i < |v|
  {
  }

  lemma {:induction false} FragmentsAt(v: string, i: int)
    requires UrlsAreFragments(v) && CallAt(v, i, "url", '(')
    ensures FragmentAt(v, i)
  {
    hide CallAt, StartsCall, IsUrlFragment;
    CallWhere(v, i, "url", '(');
    if i == 0 {
      CallStarts(v, "url", '(');
      assert v[0..] == v;
    } else {
      CallShift(v, i, "url", '(');
      FragmentsAt(v[1..], i - 1);
      Slice(v, 1, i - 1, |v| - 1);
    }
  }

  lemma NoWords(v: string)
    requires !IsBadValue(v)
    ensures forall i, k :: 0 <= k < |WORDS| ==> !At(v, i, WORDS[k])
  {
    hide At, All, Contains, ContainsCall;
    forall i, k | 0 <= k < |WORDS| ensures !At(v, i, WORDS[k]) {
      assert !Contains(v, WORDS[k]);
      if At(v, i, WORDS[k]) {
        ContainsAt(v, WORDS[k], i);
      }
    }
  }

  lemma NoCalls(v: string)
    requires !IsBadValue(v)
    ensures forall i, k :: 0 <= k < |CALLS| ==> !CallAt(v, i, CALLS[k], '(')
    ensures forall i :: !CallAt(v, i, "data", ':')
  {
    hide CallAt, All, Contains, ContainsCall;
    forall i, k | 0 <= k < |CALLS| ensures !CallAt(v, i, CALLS[k], '(') {
      assert !ContainsCall(v, CALLS[k], '(');
      if CallAt(v, i, CALLS[k], '(') {
        ContainsCallAt(v, CALLS[k], '(', i);
      }
    }
    forall i ensures !CallAt(v, i, "data", ':') {
      if CallAt(v, i, "data", ':') {
        ContainsCallAt(v, "data", ':', i);
      }
    }
  }

  lemma CleanIsHarmless(prop: string, v: string)
    requires IsCleanValue(prop, v)
    ensures Harmless(v)
  {
    hide At, CallAt, FragmentAt, All, IsBadValue, UrlsAreFragments, Count;
    NoWords(v);
    NoCalls(v);
    assert All(v, IsValueChar) by { ValueChars(v); }
    AllEach(v, IsValueChar);
    forall i | CallAt(v, i, "url", '(') ensures FragmentAt(v, i) {
      FragmentsAt(v, i);
    }
  }

  lemma ValueChars(v: string)
    requires !IsBadValue(v)
    ensures All(v, IsValueChar)
  {
    hide Contains, ContainsCall, All;
  }

  // ---- The declarations of a sheet ----

  function DeclsIn(rules: seq<Rule>): seq<Decl>
    decreases rules
  {
    if rules == [] then []
    else (if rules[0].Style? then rules[0].decls else DeclsIn(rules[0].rules)) + DeclsIn(rules[1..])
  }

  ghost predicate HarmlessDecl(d: Decl) {
    && Harmless(d.value.text) && d.prop !in ["behavior", "-moz-binding", "-ms-behavior"]
    && (d.prop == "position" ==> Lower(d.value.text) in ["static", "relative", "absolute"])
  }

  lemma DeclHarmless(d: Decl, last: bool)
    requires DeclOk(d, last)
    ensures HarmlessDecl(d)
  {
    hide Harmless;
    CleanIsHarmless(d.prop, d.value.text);
    hide IsBadValue, UrlsAreFragments, Count, IsProperty, Stripped, Collapsed, ImportantStart, ScanLen, Run, All;
  }

  lemma {:induction false} DeclsHarmless(decls: seq<Decl>)
    requires DeclsOk(decls)
    ensures forall d :: d in decls ==> HarmlessDecl(d)
  {
    hide DeclOk, HarmlessDecl;
    if decls != [] {
      DeclHarmless(decls[0], |decls| == 1);
      DeclsHarmless(decls[1..]);
      assert forall d :: d in decls ==> d == decls[0] || d in decls[1..];
    }
  }

  lemma {:induction false} RulesHarmless(rules: seq<Rule>, depth: nat, inKeyframes: bool)
    requires Accepted(rules, depth, inKeyframes)
    ensures forall d :: d in DeclsIn(rules) ==> HarmlessDecl(d)
    decreases rules
  {
    hide DeclsOk, HarmlessDecl, PreludeOk, IsSelector, IsKeyframeSelector, Collapsed, Run, IsMediaCondition,
      IsKeyframesName, Prelude;
    if rules != [] {
      match rules[0] {
        case Style(_, decls) => DeclsHarmless(decls);
        case Media(_, inner) => RulesHarmless(inner, depth + 1, false);
        case Keyframes(_, inner) => RulesHarmless(inner, depth + 1, true);
      }
      RulesHarmless(rules[1..], depth, inKeyframes);
    }
  }

  /** Whatever the text is, no value kept from it, at any depth, holds one of the words or calls of the list, or a `url`
      that is no fragment. */
  lemma SheetHarmless(text: string)
    ensures forall d :: d in DeclsIn(CleanItems(ParseBlocks(text), 0, 0, false).rules) ==> HarmlessDecl(d)
  {
    hide HarmlessDecl;
    EmittedIsAccepted(text);
    RulesHarmless(CleanItems(ParseBlocks(text), 0, 0, false).rules, 0, false);
  }

  lemma {:induction false} KeptHarmless(pieces: seq<string>, already: nat)
    ensures var kept := KeepAttribute(pieces, already);
            kept.Some? ==> forall d :: d in kept.value.0 ==> HarmlessDecl(d)
  {
    hide ReadPiece, HarmlessDecl;
    if pieces != [] {
      KeptHarmless(pieces[1..], already);
      KeptHarmless(pieces[1..], already + 1);
      PieceHarmless(pieces[0]);
    }
  }

  lemma PieceHarmless(piece: string)
    ensures ReadPiece(piece).Good? ==> HarmlessDecl(ReadPiece(piece).decl)
  {
    hide Harmless, IsCleanValue, IsProperty, Collapse, ImportantStart;
    var i := IndexOf(piece, ':');
    if ReadPiece(piece).Good? {
      var d := ReadPiece(piece).decl;
      assert IsCleanValue(d.prop, d.value.text);
      CleanIsHarmless(d.prop, d.value.text);
      PositionKept(d.prop, d.value.text);
    }
  }

  lemma PositionKept(prop: string, v: string)
    requires IsCleanValue(prop, v)
    ensures prop == "position" ==> Lower(v) in ["static", "relative", "absolute"]
  {
    hide IsBadValue, UrlsAreFragments, Count, Lower;
  }

  /** Nor does one of a `style` attribute. */
  lemma AttributeHarmless(text: string)
    ensures match KeepAttribute(SplitPieces(text), 0)
            case None => true
            case Some(kept) => forall d :: d in kept.0 ==> HarmlessDecl(d)
  {
    hide HarmlessDecl;
    KeptHarmless(SplitPieces(text), 0);
  }
}
