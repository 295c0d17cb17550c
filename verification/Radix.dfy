/** Positional notation: what the digits printed and parsed by src/x-lib.c mean. */
module Radix {

  type Byte = x: int | 0 <= x < 256

  const MINUS: Byte := '-' as int
  const PLUS: Byte := '+' as int
  const ZERO: Byte := '0' as int
  const UPPER_X: Byte := 'X' as int

  predicate IsSpace(c: Byte) {
    c == ' ' as int || 9 <= c <= 13
  }

  predicate IsNumber(c: Byte) {
    '0' as int <= c <= '9' as int
  }

  /** toupper of the C locale. */
  function Upper(c: Byte): Byte {
    if 'a' as int <= c <= 'z' as int then c - 32 else c
  }

  predicate IsLetter(c: Byte) {
    'A' as int <= Upper(c) <= 'Z' as int
  }

  /** The value of a number or a letter as a digit. */
  function Worth(c: Byte): nat {
    if IsNumber(c) then c - '0' as int else if IsLetter(c) then Upper(c) - 'A' as int + 10 else 0
  }

  predicate IsDigit(c: Byte, b: nat) {
    (IsNumber(c) || IsLetter(c)) && Worth(c) < b
  }

  predicate AllDigits(ds: seq<Byte>, b: nat) {
    forall c | c in ds :: IsDigit(c, b)
  }

  /** The positional value of a digit string, most significant digit first. */
  function Value(ds: seq<Byte>, b: nat): nat {
    if ds == [] then 0 else Value(ds[..|ds| - 1], b) * b + Worth(ds[|ds| - 1])
  }

  predicate Radixable(b: nat) {
    2 <= b <= 36
  }

  function DigitByte(d: nat): Byte
    requires d < 36
  {
    if d >= 10 then d + 'a' as int - 10 else d + '0' as int
  }

  /** The digits of "n", most significant first. */
  function Digits(n: nat, b: nat): seq<Byte>
    requires Radixable(b)
    decreases n
  {
    if n < b then [DigitByte(n)] else Digits(Quotient(n, b), b) + [DigitByte(n % b)]
  }

  function Quotient(n: nat, b: nat): (q: nat)
    requires b >= 2
    ensures n > 0 ==> q < n
    ensures n < b ==> q == 0
    ensures n >= b ==> q > 0
    ensures q * b + n % b == n
  {
    QuotientFacts(n, b);
    n / b
  }

  lemma QuotientFacts(n: nat, b: nat)
    requires b >= 2
    ensures n > 0 ==> n / b < n
    ensures n < b ==> n / b == 0
    ensures n >= b ==> n / b > 0
    ensures n / b * b + n % b == n && n / b >= 0
  {
    Times(n, n / b, b);
  }

  lemma Times(x: nat, y: nat, b: nat)
    ensures x <= y ==> x * b <= y * b
    ensures x < y ==> x * b + b <= y * b
    ensures x > 0 ==> x * b >= b
  {
    if x < y {
      assert (x + 1) * b <= y * b;
    }
  }

  /** Quotient and remainder are the only way to write a number so. */
  lemma DivisionUnique(n: nat, b: nat, q: nat, d: nat)
    requires b >= 2 && n == q * b + d && d < b
    ensures Quotient(n, b) == q && n % b == d
  {
    var p := Quotient(n, b);
    Times(p, q, b);
    Times(q, p, b);
  }

  // ---- Canonical numerals ----

  /** At least one digit, all lower case, and no leading zero but in "0" itself. */
  predicate Canonical(ds: seq<Byte>, b: nat) {
    && ds != []
    && (forall c {:trigger c in ds} | c in ds :: IsDigit(c, b) && DigitByteOf(c) == c)
    && (|ds| > 1 ==> ds[0] != ZERO)
  }

  /** The spelling the printer uses for a digit. */
  function DigitByteOf(c: Byte): Byte {
    if 'A' as int <= c <= 'Z' as int then c + 32 else c
  }

  lemma SpellDigit(d: nat, b: nat)
    requires d < b <= 36
    ensures IsDigit(DigitByte(d), b) && Worth(DigitByte(d)) == d && DigitByteOf(DigitByte(d)) == DigitByte(d)
    ensures DigitByte(d) == ZERO <==> d == 0
  {
  }

  lemma SpellWorth(c: Byte, b: nat)
    requires IsDigit(c, b) && b <= 36
    ensures DigitByte(Worth(c)) == DigitByteOf(c)
  {
  }

  /** The printed digits are canonical, and their positional value is the number printed. */
  lemma {:induction false} DigitsMean(n: nat, b: nat)
    requires Radixable(b)
    ensures Canonical(Digits(n, b), b) && AllDigits(Digits(n, b), b)
    ensures Value(Digits(n, b), b) == n
    ensures Digits(n, b)[0] == ZERO <==> n == 0
    decreases n
  {
    SpellDigit(n % b, b);
    if n < b {
      SpellDigit(n, b);
      assert Digits(n, b)[..0] == [];
    } else {
      var q := Quotient(n, b);
      DigitsMean(q, b);
      var ds := Digits(n, b);
      assert ds[..|ds| - 1] == Digits(q, b) && ds[0] == Digits(q, b)[0];
    }
  }

  lemma FrontCanonical(ds: seq<Byte>, b: nat)
    requires Canonical(ds, b) && |ds| > 1
    ensures var front := ds[..|ds| - 1]; Canonical(front, b) && front[0] == ds[0] != ZERO
  {
    var front := ds[..|ds| - 1];
    forall c {:trigger c in front} | c in front
      ensures IsDigit(c, b) && DigitByteOf(c) == c
    {
      assert c in ds;
    }
  }

  lemma {:induction false} CanonicalPositive(ds: seq<Byte>, b: nat)
    requires Radixable(b) && Canonical(ds, b) && ds[0] != ZERO
    ensures Value(ds, b) > 0
  {
    if |ds| == 1 {
      assert ds[..0] == [];
      assert ds[0] in ds;
    } else {
      FrontCanonical(ds, b);
      CanonicalPositive(ds[..|ds| - 1], b);
      Times(Value(ds[..|ds| - 1], b), 0, b);
    }
  }

  /** Two canonical numerals of the same value are the same: the one the printer writes. */
  lemma {:induction false} CanonicalUnique(ds: seq<Byte>, b: nat)
    requires Radixable(b) && Canonical(ds, b)
    ensures Digits(Value(ds, b), b) == ds
  {
    var k := |ds| - 1;
    var front, d := ds[..k], Worth(ds[k]);
    assert ds == front + [ds[k]] && ds[k] in ds;
    SpellWorth(ds[k], b);
    if k > 0 {
      FrontCanonical(ds, b);
      CanonicalUnique(front, b);
      CanonicalPositive(front, b);
      Times(Value(front, b), 0, b);
      DivisionUnique(Value(ds, b), b, Value(front, b), d);
    }
  }

  function Pow(b: nat, k: nat): nat {
    if k == 0 then 1 else Pow(b, k - 1) * b
  }

  /** How many digits a number takes: k digits exactly from b^(k-1) up to b^k. */
  lemma {:induction false} DigitsLength(n: nat, b: nat)
    requires Radixable(b)
    ensures var k := |Digits(n, b)|; k > 0 && n < Pow(b, k) && (k > 1 ==> Pow(b, k - 1) <= n)
    decreases n
  {
    assert Pow(b, 1) == b by { assert Pow(b, 0) == 1; }
    if n >= b {
      var q := Quotient(n, b);
      DigitsLength(q, b);
      var j := |Digits(q, b)|;
      Times(q, Pow(b, j), b);
      if j > 1 {
        Times(Pow(b, j - 1), q, b);
      }
    }
  }

  lemma {:induction false} PowGrows(b: nat, c: nat, j: nat, k: nat)
    requires 1 <= b <= c && j <= k
    ensures 1 <= Pow(b, j) <= Pow(c, k)
    decreases k
  {
    if j > 0 {
      PowGrows(b, c, j - 1, k - 1);
      Times(Pow(b, j - 1), Pow(c, k - 1), b);
      Factors(Pow(c, k - 1), b, c);
    } else if k > 0 {
      PowGrows(b, c, 0, k - 1);
      Factors(Pow(c, k - 1), 1, c);
    }
  }

  lemma Factors(y: nat, b: nat, c: nat)
    requires b <= c
    ensures y * b <= y * c
  {
  }

  // ---- Other spellings of the same number ----

  /** One zero in front does not change the value. */
  lemma {:induction false} LeadingZero(ds: seq<Byte>, b: nat)
    requires b > 0 && AllDigits(ds, b)
    ensures AllDigits([ZERO] + ds, b) && Value([ZERO] + ds, b) == Value(ds, b)
  {
    var zs := [ZERO] + ds;
    if ds == [] {
      assert zs[..0] == [];
    } else {
      LeadingZero(ds[..|ds| - 1], b);
      assert zs[..|zs| - 1] == [ZERO] + ds[..|ds| - 1];
    }
  }

  function Lower(ds: seq<Byte>): (r: seq<Byte>)
    ensures |r| == |ds| && forall i | 0 <= i < |ds| :: r[i] == DigitByteOf(ds[i])
  {
    seq(|ds|, i requires 0 <= i < |ds| => DigitByteOf(ds[i]))
  }

  lemma {:induction false} CaseIrrelevant(ds: seq<Byte>, b: nat)
    requires AllDigits(ds, b)
    ensures AllDigits(Lower(ds), b) && Value(Lower(ds), b) == Value(ds, b)
  {
    if ds != [] {
      var k := |ds| - 1;
      CaseIrrelevant(ds[..k], b);
      assert Lower(ds)[..k] == Lower(ds[..k]);
      assert IsDigit(ds[k], b);
    }
  }

  /** Lower case, without leading zeros. */
  function Tidy(ds: seq<Byte>): seq<Byte> {
    if ds == [] then [ZERO]
    else if |ds| > 1 && ds[0] == ZERO then Tidy(ds[1..])
    else Lower(ds)
  }

  /** However a number is spelled, printing it gives the same tidy digits. */
  lemma {:induction false} TidyDigits(ds: seq<Byte>, b: nat)
    requires Radixable(b) && AllDigits(ds, b)
    ensures Digits(Value(ds, b), b) == Tidy(ds)
  {
    if ds == [] {
      assert DigitByte(0) == ZERO;
    } else if |ds| > 1 && ds[0] == ZERO {
      LeadingZero(ds[1..], b);
      assert ds == [ZERO] + ds[1..];
      TidyDigits(ds[1..], b);
    } else {
      CaseIrrelevant(ds, b);
      var low := Lower(ds);
      assert forall c | c in low :: IsDigit(c, b) && DigitByteOf(c) == c;
      CanonicalUnique(low, b);
    }
  }

  // ---- The same by bytes ----

  /** What a byte stands for as a digit: 0 to 9 for a number, 10 to 35 for a letter of either case, -1 for any other byte. */
  function Figure(c: Byte): int {
    if 48 <= c <= 57 then c - 48
    else if 65 <= c <= 90 then c - 55
    else if 97 <= c <= 122 then c - 87
    else -1
  }

  lemma FigureDigit(c: Byte, b: nat)
    ensures IsDigit(c, b) <==> 0 <= Figure(c) < b
    ensures IsDigit(c, b) ==> Worth(c) == Figure(c)
  {
  }

  /** Every digit times its power of the base, added up. */
  function Sum(ds: seq<Byte>, b: nat): int {
    if ds == [] then 0 else Figure(ds[0]) * Pow(b, |ds| - 1) + Sum(ds[1..], b)
  }

  lemma {:induction false} SumLast(ds: seq<Byte>, c: Byte, b: nat)
    ensures Sum(ds + [c], b) == Sum(ds, b) * b + Figure(c)
  {
    var all := ds + [c];
    if ds == [] {
      assert Sum(all[1..], b) == 0 && Pow(b, 0) == 1;
    } else {
      var d, p, r := Figure(ds[0]), Pow(b, |ds| - 1), Sum(ds[1..], b);
      assert all[1..] == ds[1..] + [c] && Pow(b, |ds|) == p * b;
      SumLast(ds[1..], c, b);
      Distribute(d, p, r, b);
    }
  }

  lemma Distribute(d: int, p: int, r: int, b: int)
    ensures d * (p * b) + r * b == (d * p + r) * b
  {
  }

  /** The positional value of a digit string is the sum of its digits times powers of the base. */
  lemma {:induction false} ValueIsSum(ds: seq<Byte>, b: nat)
    requires AllDigits(ds, b)
    ensures Value(ds, b) == Sum(ds, b)
  {
    if ds != [] {
      var k := |ds| - 1;
      assert ds == ds[..k] + [ds[k]] && ds[k] in ds;
      ValueIsSum(ds[..k], b);
      SumLast(ds[..k], ds[k], b);
      FigureDigit(ds[k], b);
    }
  }

  lemma QuotientIs(n: nat, d: nat, q: nat, r: nat)
    requires n == q * d + r && r < d
    ensures n / d == q
  {
    Times(q, n / d, d);
    Times(n / d, q, d);
  }

  /** Dividing twice is dividing by the product. */
  lemma DivideTwice(n: nat, b: nat, p: nat)
    requires b > 0 && p > 0
    ensures p * b > 0 && n / b / p == n / (p * b)
  {
    var q := n / b;
    var x, y := q / p, q % p;
    Times(y, p, b);
    assert n == x * (p * b) + (y * b + n % b) by {
      assert n == q * b + n % b && q == x * p + y;
      Distribute(x, p, y, b);
    }
    QuotientIs(n, p * b, x, y * b + n % b);
  }

  /** Digit "k" of a number, counted from the least significant. */
  function Place(n: nat, b: nat, k: nat): nat
    requires b >= 2
  {
    PowGrows(b, b, k, k);
    n / Pow(b, k) % b
  }

  lemma PlaceNext(n: nat, b: nat, k: nat)
    requires b >= 2
    ensures Place(n, b, 0) == n % b
    ensures Place(n, b, k + 1) == Place(Quotient(n, b), b, k)
  {
    PowGrows(b, b, k, k);
    DivideTwice(n, b, Pow(b, k));
    assert Pow(b, 0) == 1 && Pow(b, k + 1) == Pow(b, k) * b;
  }

  /** The printed digit "k" from the right is that digit of the number: '0' to '9', then 'a' to 'z'. */
  lemma {:induction false} PrintedDigit(n: nat, b: nat, k: nat)
    requires 2 <= b <= 36 && k < |Digits(n, b)|
    ensures var d := Place(n, b, k); Digits(n, b)[|Digits(n, b)| - 1 - k] == if d < 10 then 48 + d else 87 + d
    decreases n
  {
    if k == 0 {
      PlaceNext(n, b, 0);
    } else {
      PlaceNext(n, b, k - 1);
      PrintedDigit(Quotient(n, b), b, k - 1);
    }
  }
}
