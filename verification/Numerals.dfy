// Big-endian positional numerals over an arbitrary base: the arithmetic that
// math/big's SetBytes, Bytes, Mul and Add give the address and target code.

module Numerals {
  type Byte = x: int | 0 <= x < 256
  type U32 = x: int | 0 <= x < 0x1_0000_0000

  /** Every digit is below the base. */
  predicate Digits(base: nat, ds: seq<nat>)
  {
    forall i :: 0 <= i < |ds| ==> ds[i] < base
  }

  /** Value of a big-endian digit string (Horner, most significant digit first). */
  function Value(base: nat, ds: seq<nat>): nat
  {
    if |ds| == 0 then 0 else Value(base, ds[..|ds| - 1]) * base + ds[|ds| - 1]
  }

  /** The shortest big-endian digit string of n; zero is the empty string. */
  function ToDigits(base: nat, n: nat): (ds: seq<nat>)
    requires base >= 2
    ensures Digits(base, ds)
    ensures |ds| > 0 ==> ds[0] != 0
    ensures |ds| == 0 <==> n == 0
  {
    if n == 0 then [] else
    QuotientSmaller(n, base);
    ToDigits(base, n / base) + [n % base]
  }

  lemma MulMonotone(k: nat, a: int, b: int)
    requires a <= b
    ensures k * a <= k * b
  {
  }

  lemma OneMore(n: nat, w: nat)
    ensures (n + 1) * w == n * w + w
  {
  }

  lemma QuotientSmaller(n: nat, base: nat)
    requires base >= 2 && n > 0
    ensures 0 <= n / base < n
  {
    var q := n / base;
    assert n == base * q + n % base;
    MulMonotone(q, 2, base);
  }

  function Zeros(k: nat): (z: seq<nat>)
    ensures |z| == k
    ensures forall i :: 0 <= i < k ==> z[i] == 0
  {
    seq(k, _ => 0)
  }

  /** Number of leading zero digits. */
  function LeadingZeros(ds: seq<nat>): (k: nat)
    ensures k <= |ds|
    ensures forall i :: 0 <= i < k ==> ds[i] == 0
    ensures k < |ds| ==> ds[k] != 0
  {
    if |ds| == 0 || ds[0] != 0 then 0 else 1 + LeadingZeros(ds[1..])
  }

  function Pow(base: nat, k: nat): (p: nat)
    ensures base > 0 ==> p > 0
  {
    if k == 0 then 1 else base * Pow(base, k - 1)
  }

  lemma {:induction false} PowAdd(base: nat, a: nat, b: nat)
    ensures Pow(base, a + b) == Pow(base, a) * Pow(base, b)
  {
    if a > 0 {
      PowAdd(base, a - 1, b);
      assert Pow(base, a + b) == base * (Pow(base, a - 1) * Pow(base, b));
    }
  }

  lemma DivModUnique(q: int, r: int, d: int)
    requires 0 <= r < d
    ensures (q * d + r) / d == q
    ensures (q * d + r) % d == r
  {
    var n := q * d + r;
    var q', r' := n / d, n % d;
    QuotientUnique(q, r, q', r', d);
  }

  lemma QuotientUnique(q: int, r: int, q': int, r': int, d: int)
    requires 0 <= r < d && 0 <= r' < d
    requires q * d + r == d * q' + r'
    ensures q == q' && r == r'
  {
    var e := q - q';
    assert e * d == r' - r;
    if e >= 1 {
      MulMonotone(d, 1, e);
    } else if e <= -1 {
      MulMonotone(d, e, -1);
    }
  }

  lemma {:induction false} ValueOfToDigits(base: nat, n: nat)
    requires base >= 2
    ensures Value(base, ToDigits(base, n)) == n
    decreases n
  {
    if n > 0 {
      QuotientSmaller(n, base);
      var q, r := n / base, n % base;
      ValueOfToDigits(base, q);
      var hi := ToDigits(base, q);
      assert ToDigits(base, n) == hi + [r];
      ValueSnoc(base, hi, r);
      DivMod(n, base);
    }
  }

  lemma DivMod(n: int, d: int)
    requires d > 0
    ensures n == n / d * d + n % d
  {
  }

  lemma ValueSnoc(base: nat, ds: seq<nat>, d: nat)
    ensures Value(base, ds + [d]) == Value(base, ds) * base + d
  {
    assert (ds + [d])[..|ds|] == ds;
  }

  lemma ShiftDistributes(x: nat, p: nat, y: nat, base: nat, d: nat)
    ensures (x * p + y) * base + d == x * (base * p) + (y * base + d)
  {
  }

  lemma {:induction false} ValueAppend(base: nat, a: seq<nat>, b: seq<nat>)
    ensures Value(base, a + b) == Value(base, a) * Pow(base, |b|) + Value(base, b)
  {
    if |b| == 0 {
      assert a + b == a;
    } else {
      var init, d := b[..|b| - 1], b[|b| - 1];
      assert (a + b)[..|a + b| - 1] == a + init;
      ValueAppend(base, a, init);
      var x, p, y := Value(base, a), Pow(base, |init|), Value(base, init);
      ShiftDistributes(x, p, y, base, d);
    }
  }

  lemma {:induction false} ValueZeros(base: nat, k: nat)
    ensures Value(base, Zeros(k)) == 0
  {
    if k > 0 {
      ValueZeros(base, k - 1);
      assert Zeros(k)[..k - 1] == Zeros(k - 1);
    }
  }

  /** Leading zeros do not change the value. */
  lemma ValueIgnoresLeadingZeros(base: nat, k: nat, ds: seq<nat>)
    ensures Value(base, Zeros(k) + ds) == Value(base, ds)
  {
    ValueAppend(base, Zeros(k), ds);
    ValueZeros(base, k);
  }

  lemma HornerBound(v: nat, d: nat, p: nat, base: nat)
    requires v < p && d < base
    ensures v * base + d < base * p
  {
    MulMonotone(base, v, p - 1);
  }

  lemma {:induction false} ValueBound(base: nat, ds: seq<nat>)
    requires base >= 1 && Digits(base, ds)
    ensures Value(base, ds) < Pow(base, |ds|)
  {
    if |ds| > 0 {
      var init, p := ds[..|ds| - 1], Pow(base, |ds| - 1);
      ValueBound(base, init);
      HornerBound(Value(base, init), ds[|ds| - 1], p, base);
    }
  }

  /** A positive leading digit makes the value positive, so the numeral is canonical. */
  lemma {:induction false} CanonicalDigits(base: nat, ds: seq<nat>)
    requires base >= 2 && Digits(base, ds)
    requires |ds| > 0 ==> ds[0] != 0
    ensures ToDigits(base, Value(base, ds)) == ds
  {
    if |ds| > 0 {
      var init, d := ds[..|ds| - 1], ds[|ds| - 1];
      CanonicalDigits(base, init);
      var v := Value(base, init);
      if |init| > 0 {
        assert v > 0;
        assert v * base > 0;
      }
      DivModUnique(v, d, base);
      assert ds == init + [d];
    }
  }

  /** Equal-length digit strings with the same value are equal. */
  lemma {:induction false} FixedWidthUnique(base: nat, a: seq<nat>, b: seq<nat>)
    requires base >= 1 && Digits(base, a) && Digits(base, b)
    requires |a| == |b| && Value(base, a) == Value(base, b)
    ensures a == b
  {
    if |a| > 0 {
      var k := |a| - 1;
      DivModUnique(Value(base, a[..k]), a[k], base);
      DivModUnique(Value(base, b[..k]), b[k], base);
      FixedWidthUnique(base, a[..k], b[..k]);
      assert a == a[..k] + [a[k]] && b == b[..k] + [b[k]];
    }
  }

  /** Number of digits determines the range of the value, and conversely. */
  lemma ToDigitsRange(base: nat, n: nat)
    requires base >= 2 && n > 0
    ensures Pow(base, |ToDigits(base, n)| - 1) <= n < Pow(base, |ToDigits(base, n)|)
  {
    var ds := ToDigits(base, n);
    ValueOfToDigits(base, n);
    ValueBound(base, ds);
    assert ds == [ds[0]] + ds[1..];
    LeadingDigitBound(base, ds[0], ds[1..]);
  }

  lemma LeadingDigitBound(base: nat, d: nat, rest: seq<nat>)
    requires d >= 1
    ensures Value(base, [d] + rest) >= Pow(base, |rest|)
  {
    ValueAppend(base, [d], rest);
    ValueSnoc(base, [], d);
    assert [] + [d] == [d];
    MulMonotone(Pow(base, |rest|), 1, d);
  }

  lemma {:induction false} PowMonotone(base: nat, a: nat, b: nat)
    requires base >= 1 && a <= b
    ensures Pow(base, a) <= Pow(base, b)
    decreases b
  {
    if a < b {
      PowMonotone(base, a, b - 1);
      MulMonotone(Pow(base, b - 1), 1, base);
    }
  }

  /** A number below base^k has at most k digits. */
  lemma ToDigitsLength(base: nat, n: nat, k: nat)
    requires base >= 2 && n < Pow(base, k)
    ensures |ToDigits(base, n)| <= k
  {
    if n > 0 {
      ToDigitsRange(base, n);
      if |ToDigits(base, n)| > k {
        PowMonotone(base, k, |ToDigits(base, n)| - 1);
      }
    }
  }
}
