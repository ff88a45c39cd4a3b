/** Decimal numerals and powers. */
module Numbers {
  import opened Text

  function Pow(base: nat, e: nat): nat {
    if e == 0 then 1 else base * Pow(base, e - 1)
  }

  lemma {:induction false} PowPositive(base: nat, e: nat)
    requires base > 0
    ensures Pow(base, e) > 0
  {
    if e > 0 {
      PowPositive(base, e - 1);
    }
  }

  function Digit(d: nat): char
    requires d < 10
  {
    '0' + d as char
  }

  function DigitValue(c: char): nat
    requires IsDigit(c)
  {
    (c - '0') as nat
  }

  /** `str(n)` of a number that is not negative. */
  function Decimal(n: nat): (s: string)
    ensures s != ""
  {
    if n < 10 then [Digit(n)] else Decimal(n / 10) + [Digit(n % 10)]
  }

  /** `str(n)`. */
  function Signed(n: int): string {
    if n < 0 then "-" + Decimal(-n) else Decimal(n)
  }

  /** The number that a row of ASCII digits spells. */
  function Value(s: string): nat
    requires forall i :: 0 <= i < |s| ==> IsDigit(s[i])
  {
    if s == "" then 0 else 10 * Value(s[..|s| - 1]) + DigitValue(s[|s| - 1])
  }

  /** The digits of a number without superfluous zeros. */
  predicate Canonical(s: string) {
    s != "" && (forall i :: 0 <= i < |s| ==> IsDigit(s[i])) && (|s| > 1 ==> s[0] != '0')
  }

  /** Printing and reading are inverse: every number is printed canonically and read back, */
  lemma {:induction false} ReadPrinted(n: nat)
    ensures Canonical(Decimal(n)) && Value(Decimal(n)) == n && (n > 0 ==> Decimal(n)[0] != '0')
  {
    var s := Decimal(n);
    if n >= 10 {
      ReadPrinted(n / 10);
      var front := Decimal(n / 10);
      assert s[..|s| - 1] == front && s[|s| - 1] == Digit(n % 10);
    } else {
      assert s[..0] == "";
    }
  }

  /** and every canonical numeral is what its number is printed as. */
  lemma {:induction false} PrintRead(s: string)
    requires Canonical(s)
    ensures Decimal(Value(s)) == s && (s[0] != '0' ==> Value(s) > 0)
    decreases |s|
  {
    var front := s[..|s| - 1];
    var d := DigitValue(s[|s| - 1]);
    assert s == front + [s[|s| - 1]] && Digit(d) == s[|s| - 1];
    if |s| > 1 {
      assert front[0] == s[0];
      PrintRead(front);
      assert (10 * Value(front) + d) / 10 == Value(front) && (10 * Value(front) + d) % 10 == d;
    } else {
      assert front == "";
    }
  }

  /** A number has at most `k` digits exactly if it is below the `k`-th power of ten. */
  lemma {:induction false} DecimalLength(n: nat, k: nat)
    requires k > 0
    ensures |Decimal(n)| <= k <==> n < Pow(10, k)
    decreases k
  {
    if k == 1 {
      assert Pow(10, 1) == 10 * Pow(10, 0) == 10;
      if n >= 10 {
        assert |Decimal(n)| == |Decimal(n / 10)| + 1 >= 2;
      }
    } else if n >= 10 {
      DecimalLength(n / 10, k - 1);
      assert Pow(10, k) == 10 * Pow(10, k - 1);
    } else {
      DecimalLength(n, k - 1);
      PowPositive(10, k - 1);
    }
  }

  lemma DecimalDigits(n: nat)
    ensures All(Decimal(n), IsDigit)
  {
    ReadPrinted(n);
    AllEach(Decimal(n), IsDigit);
  }
}
