/** Why a challenge or an answer is refused, and what a proof of work is bound to. */
module TokenChecks {
  import opened Text
  import opened Numbers
  import opened Tokens

  // ---- Challenges ----

  lemma {:induction false} JoinedParts(parts: seq<string>)
    requires parts != [] && FreeOf(parts, '.')
    ensures Split(Join(parts, "."), '.') == parts
  {
    SplitJoined(parts, '.');
  }

  /** A text of seven fields and a signature: it is refused for its format unless the first field is the version, then
      for its signature unless that is the one of its fields, then for its format unless its numbers can be read;
      otherwise it gives its fields, each in its place. */
  lemma FieldsParsed(mac: Mac, read: ReadInt, f: seq<string>, signature: string)
    requires HexMac(mac) && |f| == 7 && FreeOf(f, '.') && '.' !in signature
    ensures var token := Join(f, ".") + "." + signature;
            ParseChallenge(mac, read, token) ==
            if f[0] != "v1" then Unparsed(BadFormat)
            else if signature != mac(Join(f, "."))[..40] then Unparsed(BadSignature)
            else if read(f[2]) == None || read(f[3]) == None || read(f[4]) == None then Unparsed(BadFormat)
            else Parsed(Challenge(f[1], read(f[2]).value, read(f[3]).value, read(f[4]).value, f[5], f[6]))
  {
    hide Split, FreeOf;
    var parts := f + [signature];
    WithoutMore(f, signature, '.');
    JoinAppend(f, signature, ".");
    JoinedParts(parts);
    assert parts[..7] == f;
  }

  /** A text of any other number of fields is refused for its format. */
  lemma OtherCount(mac: Mac, read: ReadInt, parts: seq<string>)
    requires HexMac(mac) && parts != [] && |parts| != 8 && FreeOf(parts, '.')
    ensures ParseChallenge(mac, read, Join(parts, ".")) == Unparsed(BadFormat)
  {
    hide Split, FreeOf;
    JoinedParts(parts);
  }

  /** The format of a challenge, field by field. */
  lemma ChallengeFormat(mac: Mac, kind: string, now: int, ttl: int, difficulty: int, nonce: string, tag: string)
    requires HexMac(mac)
    ensures var body := "v1." + kind + "." + Signed(now) + "." + Signed(now + ttl) + "." + Signed(difficulty) + "."
                        + nonce + "." + tag;
            MakeChallenge(mac, kind, now, ttl, difficulty, nonce, tag) == body + "." + mac(body)[..40]
  {
    hide Signed;
    var f := Fields(Challenge(kind, now, now + ttl, difficulty, nonce, tag));
    SevenJoined(f);
    assert "v1" + "." == "v1.";
  }

  lemma SevenJoined(f: seq<string>)
    requires |f| == 7
    ensures Join(f, ".") == f[0] + "." + f[1] + "." + f[2] + "." + f[3] + "." + f[4] + "." + f[5] + "." + f[6]
  {
    var d := ".";
    JoinAppend(f[..6], f[6], d);
    JoinAppend(f[..5], f[5], d);
    JoinAppend(f[..4], f[4], d);
    JoinAppend(f[..3], f[3], d);
    JoinAppend(f[..2], f[2], d);
    JoinAppend(f[..1], f[1], d);
    assert f == f[..6] + [f[6]] && f[..6] == f[..5] + [f[5]] && f[..5] == f[..4] + [f[4]];
    assert f[..4] == f[..3] + [f[3]] && f[..3] == f[..2] + [f[2]] && f[..2] == f[..1] + [f[1]];
    assert Join(f[..1], d) == f[0];
  }

  // ---- Answers ----

  /** An answer is split exactly if, without the spaces around it, it has at most 400 characters and a first separator
      behind at least one character; the challenge is what stands before that, the solution what stands behind it,
      without the spaces around it. */
  lemma ResponseExactly(response: string, challenge: string, solution: string)
    ensures SplitResponse(response) == Some((challenge, solution)) <==>
            exists rest ::
              && Strip(response) == challenge + "~" + rest && challenge != "" && '~' !in challenge
              && |challenge + "~" + rest| <= 400 && solution == Strip(rest)
  {
    hide Strip, IndexOf;
    var text := Strip(response);
    var i := IndexOf(text, '~');
    if SplitResponse(response) == Some((challenge, solution)) {
      var rest := text[i + 1..];
      IndexOfNone(text, '~');
      assert text == challenge + "~" + rest;
      assert '~' !in challenge by {
        forall k | 0 <= k < |challenge| ensures challenge[k] != '~' { assert challenge[k] == text[k]; }
      }
    }
    if rest :| text == challenge + "~" + rest && challenge != "" && '~' !in challenge
               && |challenge + "~" + rest| <= 400 && solution == Strip(rest)
    {
      IndexOfFirst(challenge, '~', rest);
      assert text[..|challenge|] == challenge && text[|challenge| + 1..] == rest;
    }
  }

  // ---- What the work is for ----

  /** The text that `pow_digest` hashes. */
  function PowText(token: string, form: string, counter: string): string {
    token + ":" + form + ":" + counter
  }

  lemma FirstColon(a: string, b: string, x: string, y: string)
    requires a + ":" + x == b + ":" + y && ':' !in a && ':' !in b
    ensures a == b && x == y
  {
    hide IndexOf;
    var s, t := a + ":" + x, b + ":" + y;
    IndexOfFirst(a, ':', x);
    IndexOfFirst(b, ':', y);
    assert s == a + [':'] + x && t == b + [':'] + y;
    assert s[..|a|] == a && t[..|b|] == b && s[|a| + 1..] == x && t[|b| + 1..] == y;
  }

  /** The last colon of a text. */
  ghost predicate LastAt(s: string, i: nat) {
    i < |s| && s[i] == ':' && forall k :: i < k < |s| ==> s[k] != ':'
  }

  lemma OneLast(s: string, i: nat, j: nat)
    requires LastAt(s, i) && LastAt(s, j)
    ensures i == j
  {
  }

  lemma LastColon(a: string, b: string, x: string, y: string)
    requires a + ":" + x == b + ":" + y && ':' !in x && ':' !in y
    ensures a == b && x == y
  {
    var s, t := a + ":" + x, b + ":" + y;
    assert forall k :: |a| < k < |s| ==> s[k] == x[k - |a| - 1];
    assert forall k :: |b| < k < |t| ==> t[k] == y[k - |b| - 1];
    OneLast(s, |a|, |b|);
    assert s[..|a|] == a && t[..|b|] == b && s[|a| + 1..] == x && t[|b| + 1..] == y;
  }

  lemma Grouped(token: string, form: string, counter: string)
    ensures PowText(token, form, counter) == token + ":" + (form + ":" + counter)
  {
  }

  /** Work for one challenge, form and counter is work for no other, whatever the form is called. */
  lemma PowTextDecides(token: string, form: string, counter: nat, token': string, form': string, counter': nat)
    requires ':' !in token && ':' !in token'
    requires PowText(token, form, Decimal(counter)) == PowText(token', form', Decimal(counter'))
    ensures token == token' && form == form' && counter == counter'
  {
    var c, c' := Decimal(counter), Decimal(counter');
    ReadPrinted(counter);
    ReadPrinted(counter');
    assert ':' !in c && ':' !in c' by { assert !IsDigit(':'); }
    hide Decimal;
    Grouped(token, form, c);
    Grouped(token', form', c');
    FirstColon(token, token', form + ":" + c, form' + ":" + c');
    LastColon(form, form', c, c');
  }
}
