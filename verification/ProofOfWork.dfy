/** The proof of work of the form shield: zero bits of a digest, and the counters that solve a challenge. */
module ProofOfWork {
  import opened Text
  import opened Numbers

  type Byte = b: nat | b < 256

  // ---- Zero bits ----

  /** `int.from_bytes(digest, "big")`. */
  function FromBytes(d: seq<Byte>): nat {
    if d == [] then 0 else 256 * FromBytes(d[..|d| - 1]) + d[|d| - 1]
  }

  /** `value.bit_length()`. */
  function BitLength(v: nat): nat {
    if v == 0 then 0 else 1 + BitLength(v / 2)
  }

  /** `leading_zero_bits`. */
  function LeadingZeroBits(d: seq<Byte>): int {
    8 * |d| - BitLength(FromBytes(d))
  }

  /** Whether the first `n` bits are zero, read byte by byte. */
  predicate StartsWithZeros(d: seq<Byte>, n: nat) {
    if n == 0 then true
    else if d == [] then false
    else if n < 8 then d[0] < Pow(2, 8 - n)
    else d[0] == 0 && StartsWithZeros(d[1..], n - 8)
  }

  lemma Associative(a: nat, b: nat, c: nat)
    ensures a * (b * c) == a * b * c
  {
  }

  lemma PowStep(base: nat, e: nat)
    requires e > 0
    ensures Pow(base, e) == base * Pow(base, e - 1)
  {
  }

  lemma PowZero(base: nat)
    ensures Pow(base, 0) == 1
  {
  }

  lemma {:induction false} PowAdd(base: nat, a: nat, b: nat)
    ensures Pow(base, a + b) == Pow(base, a) * Pow(base, b)
  {
    hide Pow;
    if a > 0 {
      PowAdd(base, a - 1, b);
      PowStep(base, a);
      PowStep(base, a + b);
      assert a + b - 1 == a - 1 + b;
      Associative(base, Pow(base, a - 1), Pow(base, b));
    } else {
      PowZero(base);
    }
  }

  lemma Pow256(n: nat)
    ensures Pow(2, 8) == 256 && Pow(2, 8 * (n + 1)) == 256 * Pow(2, 8 * n)
  {
    assert Pow(2, 4) == 2 * Pow(2, 3) && Pow(2, 3) == 2 * Pow(2, 2);
    assert Pow(2, 2) == 2 * Pow(2, 1) && Pow(2, 1) == 2 * Pow(2, 0);
    PowAdd(2, 4, 4);
    PowAdd(2, 8, 8 * n);
  }

  lemma {:induction false} BitLengthPow(v: nat, k: nat)
    ensures BitLength(v) <= k <==> v < Pow(2, k)
    decreases k
  {
    if k > 0 {
      BitLengthPow(v / 2, k - 1);
      assert Pow(2, k) == 2 * Pow(2, k - 1);
    }
  }

  lemma {:induction false} FromBytesBound(d: seq<Byte>)
    ensures FromBytes(d) < Pow(2, 8 * |d|)
  {
    if d != [] {
      FromBytesBound(d[..|d| - 1]);
      Pow256(|d| - 1);
    }
  }

  lemma FromBytesStep(d: seq<Byte>)
    requires d != []
    ensures FromBytes(d) == 256 * FromBytes(d[..|d| - 1]) + d[|d| - 1]
  {
  }

  lemma NoBytes()
    ensures FromBytes([]) == 0 && Pow(2, 0) == 1
  {
  }

  lemma Shifted(x: nat, p: nat, y: nat, z: nat)
    ensures 256 * (x * p + y) + z == x * (256 * p) + (256 * y + z)
  {
    Associative(256, x, p);
    Associative(x, 256, p);
  }

  /** The first byte counts most. */
  lemma {:induction false} FirstByte(d: seq<Byte>)
    requires d != []
    ensures FromBytes(d) == d[0] * Pow(2, 8 * (|d| - 1)) + FromBytes(d[1..])
    decreases |d|
  {
    hide FromBytes, Pow;
    var k := |d| - 1;
    FromBytesStep(d);
    NoBytes();
    if k == 0 {
      assert d[..0] == [] && d[1..] == [];
    } else {
      var front, rest := d[..k], d[1..];
      FirstByte(front);
      FromBytesStep(rest);
      assert rest[..k - 1] == front[1..] && rest[k - 1] == d[k] && front[0] == d[0];
      Pow256(k - 1);
      Shifted(d[0], Pow(2, 8 * (k - 1)), FromBytes(front[1..]), d[k]);
    }
  }

  /** `leading_zero_bits` reaches `n` exactly if the digest, as a number, is below 2 to the remaining bits; and no
      digest has more zero bits than bits. */
  lemma ZeroBitsBound(d: seq<Byte>, n: int)
    ensures 0 <= LeadingZeroBits(d) <= 8 * |d|
    ensures LeadingZeroBits(d) >= n <==> n <= 8 * |d| && FromBytes(d) < Pow(2, 8 * |d| - n)
  {
    var v := FromBytes(d);
    FromBytesBound(d);
    BitLengthPow(v, 8 * |d|);
    if n <= 8 * |d| {
      BitLengthPow(v, 8 * |d| - n);
    }
  }

  lemma MulLess(a: nat, b: nat, m: nat, low: nat)
    requires low < m
    ensures a * m + low < b * m <==> a < b
  {
    if a < b {
      assert (a + 1) * m <= b * m;
    } else {
      assert a * m >= b * m;
    }
  }

  /** Fewer than eight zero bits are in the first byte. */
  lemma FewZeroBits(d: seq<Byte>, n: nat)
    requires d != [] && n < 8
    ensures FromBytes(d) < Pow(2, 8 * |d| - n) <==> d[0] < Pow(2, 8 - n)
  {
    hide FromBytes, Pow;
    var k := 8 * (|d| - 1);
    FirstByte(d);
    FromBytesBound(d[1..]);
    PowAdd(2, 8 - n, k);
    MulLess(d[0], Pow(2, 8 - n), Pow(2, k), FromBytes(d[1..]));
  }

  /** Eight or more are the whole first byte and those of the rest. */
  lemma ManyZeroBits(d: seq<Byte>, n: nat)
    requires d != [] && 8 <= n <= 8 * |d|
    ensures FromBytes(d) < Pow(2, 8 * |d| - n) <==> d[0] == 0 && FromBytes(d[1..]) < Pow(2, 8 * |d| - n)
  {
    hide FromBytes, Pow;
    var k := 8 * (|d| - 1);
    FirstByte(d);
    PowSmaller(2, 8 * |d| - n, k);
    if d[0] > 0 {
      MulAtLeast(d[0], Pow(2, k));
    }
  }

  lemma MulAtLeast(a: nat, m: nat)
    requires a > 0
    ensures a * m >= m
  {
  }

  /** The arithmetic form says what the bits of the digest say. */
  lemma {:induction false} ZeroBitsAreBits(d: seq<Byte>, n: nat)
    ensures LeadingZeroBits(d) >= n <==> StartsWithZeros(d, n)
    decreases |d|
  {
    hide FromBytes, Pow, LeadingZeroBits;
    ZeroBitsBound(d, n);
    if n > 0 && d != [] {
      if n < 8 {
        FewZeroBits(d, n);
      } else {
        ZeroBitsAreBits(d[1..], n - 8);
        ZeroBitsBound(d[1..], n - 8);
        if n <= 8 * |d| {
          ManyZeroBits(d, n);
        }
      }
    }
  }

  lemma {:induction false} PowSmaller(base: nat, a: nat, b: nat)
    requires base > 0 && a <= b
    ensures Pow(base, a) <= Pow(base, b)
  {
    hide Pow;
    if a < b {
      PowSmaller(base, a, b - 1);
      PowStep(base, b);
      MulAtLeast(base, Pow(base, b - 1));
    }
  }

  // ---- Solutions ----

  /** `pow_digest` of one challenge and form: the digest for the text of a counter. */
  type Digest = string -> seq<Byte>

  predicate Solves(digest: Digest, counter: nat, difficulty: int) {
    LeadingZeroBits(digest(Decimal(counter))) >= difficulty
  }

  const MAX_COUNTER_CHARS := 12

  /** `pow_valid`, `text` being the text of the counter. */
  predicate PowValid(digest: Digest, text: string, difficulty: int) {
    if text == "" || !All(text, IsDigit) || |text| > MAX_COUNTER_CHARS then false
    else
      AllEach(text, IsDigit);
      if text != Decimal(Value(text)) then false
      else LeadingZeroBits(digest(text)) >= difficulty
  }

  /** The accepted texts are exactly the canonical decimals of the solving counters below 10 to the 12. */
  lemma PowValidExactly(digest: Digest, text: string, difficulty: int)
    ensures PowValid(digest, text, difficulty) <==>
            exists n: nat :: n < Pow(10, 12) && Decimal(n) == text && Solves(digest, n, difficulty)
  {
    hide LeadingZeroBits, Pow;
    AllEach(text, IsDigit);
    if PowValid(digest, text, difficulty) {
      var n := Value(text);
      DecimalLength(n, 12);
      assert Decimal(n) == text && Solves(digest, n, difficulty);
    }
    if n: nat :| n < Pow(10, 12) && Decimal(n) == text && Solves(digest, n, difficulty) {
      ReadPrinted(n);
      DecimalLength(n, 12);
      DecimalDigits(n);
    }
  }

  /** `solve_pow`. It ends only where some counter from `start` on solves; `solution` is one. */
  method SolvePow(digest: Digest, difficulty: int, start: nat, ghost solution: nat) returns (counter: nat)
    requires start <= solution && Solves(digest, solution, difficulty)
    ensures start <= counter && Solves(digest, counter, difficulty)
    ensures forall n :: start <= n < counter ==> !Solves(digest, n, difficulty)
  {
    counter := start;
    while LeadingZeroBits(digest(Decimal(counter))) < difficulty
      invariant start <= counter <= solution
      invariant forall n :: start <= n < counter ==> !Solves(digest, n, difficulty)
      decreases solution - counter
    {
      counter := counter + 1;
    }
  }

  /** The answer of the solver is accepted exactly if it has at most twelve digits. */
  lemma SolverAccepted(digest: Digest, difficulty: int, counter: nat)
    requires Solves(digest, counter, difficulty)
    ensures PowValid(digest, Decimal(counter), difficulty) <==> counter < Pow(10, 12)
  {
    hide LeadingZeroBits, Pow;
    ReadPrinted(counter);
    DecimalLength(counter, 12);
    DecimalDigits(counter);
  }
}
