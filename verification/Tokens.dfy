/** The signed challenges of the form shield and its proof of work. */
module Tokens {
  import opened Text
  import opened Numbers

  const VERSION := "v1"
  const SIGNATURE_CHARS := 40
  const MAX_RESPONSE := 400

  predicate IsHex(c: char) { IsDigit(c) || 'a' <= c <= 'f' }

  // ---- Challenges ----

  /** `_mac` with the key of the site: the hexadecimal digest of HMAC-SHA-256. */
  type Mac = string -> string

  ghost predicate HexMac(mac: Mac) {
    forall text :: |mac(text)| == 64 && All(mac(text), IsHex)
  }

  /** `int(text)` of Python; None is a `ValueError`. All that is relied on is that it reads what `str` prints. */
  type ReadInt = string -> Option<int>

  ghost predicate ReadsPrinted(read: ReadInt) {
    forall n :: read(Signed(n)) == Some(n)
  }

  /** One such reading: canonical decimals, with a sign where they are negative. */
  function ReadDecimal(s: string): Option<int> {
    if Canonical(s) then Some(Value(s))
    else if s != "" && s[0] == '-' && Canonical(s[1..]) then
      var n: int := Value(s[1..]);
      Some(-n)
    else None
  }

  lemma DecimalsRead()
    ensures ReadsPrinted(ReadDecimal)
  {
    forall n ensures ReadDecimal(Signed(n)) == Some(n) {
      ReadPrinted(if n < 0 then -n else n);
      if n < 0 {
        assert Signed(n)[1..] == Decimal(-n) && !IsDigit(Signed(n)[0]);
      }
    }
  }

  datatype Challenge = Challenge(kind: string, issued: int, expires: int, difficulty: int, nonce: string, tag: string)

  datatype Failure = BadFormat | BadSignature

  datatype Parsed = Parsed(challenge: Challenge) | Unparsed(why: Failure)

  function Fields(c: Challenge): seq<string> {
    [VERSION, c.kind, Signed(c.issued), Signed(c.expires), Signed(c.difficulty), c.nonce, c.tag]
  }

  function Signature(mac: Mac, body: string): string
    requires |mac(body)| >= SIGNATURE_CHARS
  {
    mac(body)[..SIGNATURE_CHARS]
  }

  /** `make_challenge`; the random nonce and the tag of the address are given. */
  function MakeChallenge(mac: Mac, kind: string, now: int, ttl: int, difficulty: int, nonce: string,
                         tag: string): string
    requires forall text :: |mac(text)| == 64
  {
    var body := Join(Fields(Challenge(kind, now, now + ttl, difficulty, nonce, tag)), ".");
    body + "." + Signature(mac, body)
  }

  /** `parse_challenge`. */
  function ParseChallenge(mac: Mac, read: ReadInt, token: string): Parsed
    requires forall text :: |mac(text)| == 64
  {
    var parts := Split(token, '.');
    if |parts| != 8 || parts[0] != VERSION then Unparsed(BadFormat)
    else
      var body := Join(parts[..7], ".");
      if Signature(mac, body) != parts[7] then Unparsed(BadSignature)
      else
        var issued, expires, difficulty := read(parts[2]), read(parts[3]), read(parts[4]);
        if issued == None || expires == None || difficulty == None then Unparsed(BadFormat)
        else Parsed(Challenge(parts[1], issued.value, expires.value, difficulty.value, parts[5], parts[6]))
  }

  lemma {:induction false} NotIn(s: string, p: char -> bool, c: char)
    requires All(s, p) && !p(c)
    ensures c !in s
  {
    AllEach(s, p);
  }

  lemma SignedPlain(n: int)
    ensures '.' !in Signed(n) && '~' !in Signed(n) && !IsSpace(Signed(n)[0])
  {
    var d := Decimal(if n < 0 then -n else n);
    ReadPrinted(if n < 0 then -n else n);
    AllEach(d, IsDigit);
    NotIn(d, IsDigit, '.');
    NotIn(d, IsDigit, '~');
  }

  /** A challenge is parsed into exactly what it was made from, whatever the times, the difficulty and the key. */
  lemma ChallengeRoundTrip(mac: Mac, read: ReadInt, kind: string, now: int, ttl: int, difficulty: int, nonce: string,
                           tag: string)
    requires HexMac(mac) && ReadsPrinted(read)
    requires '.' !in kind && All(nonce, IsHex) && All(tag, IsHex)
    ensures ParseChallenge(mac, read, MakeChallenge(mac, kind, now, ttl, difficulty, nonce, tag)) ==
            Parsed(Challenge(kind, now, now + ttl, difficulty, nonce, tag))
  {
    hide Signed, Split, IsHex, All;
    var c := Challenge(kind, now, now + ttl, difficulty, nonce, tag);
    var fields := Fields(c);
    var body := Join(fields, ".");
    var signature := Signature(mac, body);
    var parts := fields + [signature];
    FieldsPlain(c);
    SignaturePlain(mac, body);
    WithoutMore(fields, signature, '.');
    JoinAppend(fields, signature, ".");
    SplitJoined(parts, '.');
    assert parts[..7] == fields;
  }

  lemma FieldsPlain(c: Challenge)
    requires '.' !in c.kind && All(c.nonce, IsHex) && All(c.tag, IsHex)
    ensures FreeOf(Fields(c), '.')
  {
    hide Signed, IsHex, All;
    SignedPlain(c.issued);
    SignedPlain(c.expires);
    SignedPlain(c.difficulty);
    assert !IsHex('.') by { HexDot(); }
    NotIn(c.nonce, IsHex, '.');
    NotIn(c.tag, IsHex, '.');
    assert FreeOf([], '.');
    var f := Fields(c);
    assert f[6..][1..] == [] && f[5..][1..] == f[6..] && f[4..][1..] == f[5..] && f[3..][1..] == f[4..];
    assert f[2..][1..] == f[3..] && f[1..][1..] == f[2..];
    assert FreeOf(f[6..], '.') && FreeOf(f[5..], '.') && FreeOf(f[4..], '.') && FreeOf(f[3..], '.');
    assert FreeOf(f[2..], '.') && FreeOf(f[1..], '.');
  }

  lemma HexDot()
    ensures !IsHex('.') && !IsHex('~')
  {
  }

  lemma SignaturePlain(mac: Mac, body: string)
    requires HexMac(mac)
    ensures '.' !in Signature(mac, body) && |Signature(mac, body)| == SIGNATURE_CHARS
    ensures All(Signature(mac, body), IsHex)
  {
    AllSlice(mac(body), 0, SIGNATURE_CHARS, IsHex);
    NotIn(Signature(mac, body), IsHex, '.');
  }

  lemma {:induction false} WithoutMore(parts: seq<string>, last: string, c: char)
    requires FreeOf(parts, c) && c !in last
    ensures FreeOf(parts + [last], c)
  {
    if parts == [] {
      assert parts + [last] == [last] && [last][1..] == [];
    } else {
      assert (parts + [last])[1..] == parts[1..] + [last];
      WithoutMore(parts[1..], last, c);
    }
  }

  /** A token is accepted only if it is its first seven fields and the signature of exactly those. */
  lemma AcceptedIsSigned(mac: Mac, read: ReadInt, token: string)
    requires HexMac(mac) && ParseChallenge(mac, read, token).Parsed?
    ensures var parts := Split(token, '.');
            && |parts| == 8 && token == Join(parts[..7], ".") + "." + Signature(mac, Join(parts[..7], "."))
            && parts[0] == VERSION && parts[1] == ParseChallenge(mac, read, token).challenge.kind
  {
    hide Split;
    var parts := Split(token, '.');
    JoinedSplit(token, '.');
    JoinAppend(parts[..7], parts[7], ".");
    assert parts[..7] + [parts[7]] == parts;
  }

  /** Two tokens with the same seven fields before the signature cannot both be accepted unless they are the same. */
  lemma SignatureDecides(mac: Mac, read: ReadInt, a: string, b: string)
    requires HexMac(mac) && ParseChallenge(mac, read, a).Parsed? && ParseChallenge(mac, read, b).Parsed?
    requires |Split(a, '.')| == |Split(b, '.')| == 8 && Split(a, '.')[..7] == Split(b, '.')[..7]
    ensures a == b
  {
    hide Split, ParseChallenge, HexMac;
    AcceptedIsSigned(mac, read, a);
    AcceptedIsSigned(mac, read, b);
  }

  // ---- Answers ----

  /** `split_response`; None is `(None, None)`. */
  function SplitResponse(response: string): Option<(string, string)> {
    var text := Strip(response);
    var i := IndexOf(text, '~');
    if i == |text| || i == 0 || |text| > MAX_RESPONSE then None else Some((text[..i], Strip(text[i + 1..])))
  }

  lemma {:induction false} TrimRightAfter(a: string, b: string)
    requires a != "" && !IsSpace(a[|a| - 1])
    ensures TrimRight(a + b) == a + TrimRight(b)
    decreases |b|
  {
    if b == "" {
      assert a + b == a;
    } else if IsSpace(b[|b| - 1]) {
      assert (a + b)[..|a + b| - 1] == a + b[..|b| - 1];
      TrimRightAfter(a, b[..|b| - 1]);
    }
  }

  lemma StripTwice(s: string)
    ensures Strip(TrimRight(s)) == Strip(s)
  {
    TrimRightSplit(s);
    var t := TrimRight(s);
    if t == "" {
      assert s[|t|..] == s;
      TrimLeftAllSpace(s);
    } else {
      TrimLeftConcat(t, s[|t|..]);
      var u := TrimLeft(t);
      assert TrimLeft(s) == u + s[|t|..];
      TrimRightAfter(u, s[|t|..]);
      assert TrimRight(s[|t|..]) == "" by { TrimRightAllSpace(s[|t|..]); }
      assert u + "" == u;
    }
  }

  lemma {:induction false} TrimRightAllSpace(s: string)
    requires All(s, IsSpace)
    ensures TrimRight(s) == ""
    decreases |s|
  {
    if s != "" {
      AllEach(s, IsSpace);
      AllSlice(s, 0, |s| - 1, IsSpace);
      assert s[0..|s| - 1] == s[..|s| - 1];
      TrimRightAllSpace(s[..|s| - 1]);
    }
  }

  /** An answer is split into its challenge and its solution if and only if it is not too long. */
  lemma ResponseRoundTrip(challenge: string, solution: string)
    requires challenge != "" && Stripped(challenge) && '~' !in challenge
    ensures SplitResponse(challenge + "~" + solution) ==
            (if |challenge| + 1 + |TrimRight(solution)| <= MAX_RESPONSE
             then Some((challenge, Strip(solution))) else None)
  {
    hide IsSpace, IndexOf, TrimRight;
    var head := challenge + "~";
    assert !IsSpace('~') by { TildeNotSpace(); }
    assert TrimLeft(head + solution) == head + solution;
    TrimRightAfter(head, solution);
    var rest := TrimRight(solution);
    var text := head + rest;
    IndexOfFirst(challenge, '~', rest);
    assert text == challenge + ['~'] + rest && text[..|challenge|] == challenge && text[|challenge| + 1..] == rest;
    StripTwice(solution);
  }

  lemma TildeNotSpace()
    ensures !IsSpace('~')
  {
  }

  lemma ChallengeLength(mac: Mac, kind: string, now: int, ttl: int, difficulty: int, nonce: string, tag: string)
    requires HexMac(mac)
    ensures |MakeChallenge(mac, kind, now, ttl, difficulty, nonce, tag)| ==
            49 + |kind| + |Signed(now)| + |Signed(now + ttl)| + |Signed(difficulty)| + |nonce| + |tag|
  {
    hide Signed;
    var f := Fields(Challenge(kind, now, now + ttl, difficulty, nonce, tag));
    JoinLengths(f);
  }

  lemma JoinLengths(f: seq<string>)
    requires |f| == 7
    ensures |Join(f, ".")| == |f[0]| + |f[1]| + |f[2]| + |f[3]| + |f[4]| + |f[5]| + |f[6]| + 6
  {
    assert |Join(f[6..], ".")| == |f[6]|;
    assert f[5..][1..] == f[6..] && f[4..][1..] == f[5..] && f[3..][1..] == f[4..];
    assert f[2..][1..] == f[3..] && f[1..][1..] == f[2..];
    assert |Join(f[5..], ".")| == |f[5]| + 1 + |f[6]|;
    assert |Join(f[4..], ".")| == |f[4]| + 1 + |Join(f[5..], ".")|;
    assert |Join(f[3..], ".")| == |f[3]| + 1 + |Join(f[4..], ".")|;
    assert |Join(f[2..], ".")| == |f[2]| + 1 + |Join(f[3..], ".")|;
    assert |Join(f[1..], ".")| == |f[1]| + 1 + |Join(f[2..], ".")|;
  }

  lemma SignedLength(n: int, k: nat)
    requires k > 0 && 0 <= n < Pow(10, k)
    ensures |Signed(n)| <= k
  {
    DecimalLength(n, k);
  }

  /** A whole exchange: with times of at most twelve digits, the challenge comes back from the answer together with a
      counter of at most twelve digits, and parses into what it was made from. */
  lemma ExchangeRoundTrip(mac: Mac, read: ReadInt, now: int, ttl: int, difficulty: int, nonce: string, tag: string,
                          counter: nat)
    requires HexMac(mac) && ReadsPrinted(read)
    requires |nonce| == 16 && All(nonce, IsHex) && |tag| == 16 && All(tag, IsHex)
    requires 0 <= now < Pow(10, 12) && 0 <= now + ttl < Pow(10, 12)
    requires 0 <= difficulty < Pow(10, 12) && counter < Pow(10, 12)
    ensures var challenge := MakeChallenge(mac, "pow", now, ttl, difficulty, nonce, tag);
            && SplitResponse(challenge + "~" + Decimal(counter)) == Some((challenge, Decimal(counter)))
            && ParseChallenge(mac, read, challenge) == Parsed(Challenge("pow", now, now + ttl, difficulty, nonce, tag))
  {
    MacLength(mac);
    hide Pow, Signed, HexMac, ReadsPrinted, MakeChallenge, ParseChallenge, SplitResponse, IsHex, All, TrimRight, Strip;
    var challenge := MakeChallenge(mac, "pow", now, ttl, difficulty, nonce, tag);
    ChallengeLength(mac, "pow", now, ttl, difficulty, nonce, tag);
    SignedLength(now, 12);
    SignedLength(now + ttl, 12);
    SignedLength(difficulty, 12);
    DecimalLength(counter, 12);
    ChallengePlain(mac, now, ttl, difficulty, nonce, tag);
    ResponseRoundTrip(challenge, Decimal(counter));
    DecimalStripped(counter);
    ChallengeRoundTrip(mac, read, "pow", now, ttl, difficulty, nonce, tag);
  }

  lemma DecimalStripped(n: nat)
    ensures Strip(Decimal(n)) == Decimal(n) && |TrimRight(Decimal(n))| <= |Decimal(n)|
  {
    ReadPrinted(n);
    StripStripped(Decimal(n));
  }

  lemma {:induction false} JoinPlain(parts: seq<string>, c: char)
    requires FreeOf(parts, c) && c != '.'
    ensures c !in Join(parts, ".")
  {
    if |parts| > 1 {
      JoinPlain(parts[1..], c);
    }
  }

  lemma FieldsNoTilde(c: Challenge)
    requires '~' !in c.kind && All(c.nonce, IsHex) && All(c.tag, IsHex)
    ensures FreeOf(Fields(c), '~')
  {
    hide Signed, IsHex, All;
    SignedPlain(c.issued);
    SignedPlain(c.expires);
    SignedPlain(c.difficulty);
    HexDot();
    NotIn(c.nonce, IsHex, '~');
    NotIn(c.tag, IsHex, '~');
    assert FreeOf([], '~');
    var f := Fields(c);
    assert f[6..][1..] == [] && f[5..][1..] == f[6..] && f[4..][1..] == f[5..] && f[3..][1..] == f[4..];
    assert f[2..][1..] == f[3..] && f[1..][1..] == f[2..];
    assert FreeOf(f[6..], '~') && FreeOf(f[5..], '~') && FreeOf(f[4..], '~') && FreeOf(f[3..], '~');
    assert FreeOf(f[2..], '~') && FreeOf(f[1..], '~');
  }

  lemma BodyStarts(c: Challenge)
    ensures Join(Fields(c), ".") != "" && Join(Fields(c), ".")[0] == 'v'
  {
    hide Signed;
  }

  lemma ChallengePlain(mac: Mac, now: int, ttl: int, difficulty: int, nonce: string, tag: string)
    requires HexMac(mac) && All(nonce, IsHex) && All(tag, IsHex)
    ensures var challenge := MakeChallenge(mac, "pow", now, ttl, difficulty, nonce, tag);
            challenge != "" && Stripped(challenge) && '~' !in challenge
  {
    MacLength(mac);
    hide Signed, IsHex, All, HexMac, Join, Fields, Signature;
    var c := Challenge("pow", now, now + ttl, difficulty, nonce, tag);
    var body := Join(Fields(c), ".");
    var signature := Signature(mac, body);
    SignaturePlain(mac, body);
    HexDot();
    NotIn(signature, IsHex, '~');
    FieldsNoTilde(c);
    JoinPlain(Fields(c), '~');
    BodyStarts(c);
    LastHex(signature);
  }

  lemma MacLength(mac: Mac)
    requires HexMac(mac)
    ensures forall text :: |mac(text)| == 64
  {
  }

  lemma LastHex(s: string)
    requires s != "" && All(s, IsHex)
    ensures !IsSpace(s[|s| - 1])
  {
    AllEach(s, IsHex);
  }
}
