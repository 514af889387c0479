// The miner's 256-bit targets: little-endian hashes, their comparison, and the
// nBits compact form.

module CompactTarget {
  import opened Numerals

  /** A 32-byte hash or target, least significant byte first. */
  type Hash = h: seq<Byte> | |h| == 32 witness seq(32, _ => 0)

  function ZeroHash(): (h: Hash)
    ensures forall i :: 0 <= i < 32 ==> h[i] == 0
  {
    seq(32, _ => 0)
  }

  datatype NBitsError = NegativeMantissa | ExponentBelowThree | ZeroMantissa | Overflow
  datatype TargetResult = Target(hash: Hash) | Malformed(error: NBitsError)

  function Reversed(s: seq<Byte>): (r: seq<Byte>)
    ensures |r| == |s|
    ensures forall i :: 0 <= i < |s| ==> r[i] == s[|s| - 1 - i]
  {
    seq(|s|, i requires 0 <= i < |s| => s[|s| - 1 - i])
  }

  /** The number a little-endian byte string stands for. */
  function Number(h: seq<Byte>): nat
  {
    Value(256, Reversed(h))
  }

  /** The little-endian hash of a number below 2^256. */
  function HashOf(v: nat): (h: Hash)
    requires |ToDigits(256, v)| <= 32
    ensures Number(h) == v
  {
    var b := ToDigits(256, v);
    var be: seq<Byte> := Zeros(32 - |b|) + b;
    assert Reversed(Reversed(be)) == be;
    ValueIgnoresLeadingZeros(256, 32 - |b|, b);
    ValueOfToDigits(256, v);
    Reversed(be)
  }

  lemma NumberInjective(a: Hash, b: Hash)
    requires Number(a) == Number(b)
    ensures a == b
  {
    FixedWidthUnique(256, Reversed(a), Reversed(b));
    assert a == Reversed(Reversed(a)) && b == Reversed(Reversed(b));
  }

  // ----- nBits fields -----

  function Exponent(nBits: U32): nat { nBits / 0x100_0000 }
  function Mantissa(nBits: U32): nat { nBits % 0x80_0000 }
  predicate SignBit(nBits: U32) { nBits / 0x80_0000 % 2 == 1 }

  /** mantissa * 256^(exponent - 3). */
  function Expanded(nBits: U32): nat
    requires Exponent(nBits) >= 3
  {
    Mantissa(nBits) * Pow(256, Exponent(nBits) - 3)
  }

  function TargetFromNBits(nBits: U32): TargetResult
  {
    if SignBit(nBits) then Malformed(NegativeMantissa)
    else if Exponent(nBits) < 3 then Malformed(ExponentBelowThree)
    else if Mantissa(nBits) == 0 then Malformed(ZeroMantissa)
    else if |ToDigits(256, Expanded(nBits))| > 32 then Malformed(Overflow)
    else Target(HashOf(Expanded(nBits)))
  }

  /** Magnitude bytes, padded so that the leading byte's top bit is clear. */
  function SignedBytes(v: nat): (b: seq<nat>)
    ensures Digits(256, b) && Value(256, b) == v
    ensures |b| > 0 ==> b[0] < 0x80
  {
    var d := ToDigits(256, v);
    ValueOfToDigits(256, v);
    ValueIgnoresLeadingZeros(256, 1, d);
    if |d| > 0 && d[0] >= 0x80 then Zeros(1) + d else d
  }

  function NBitsFromTarget(target: Hash): (n: U32)
  {
    var v := Number(target);
    NumberRange(target);
    ToDigitsLength(256, v, 32);
    var b := SignedBytes(v);
    if v == 0 then 0
    else if |b| == 1 then 0x100_0000 + b[0]
    else if |b| == 2 then 0x200_0000 + b[0] * 0x100 + b[1]
    else |b| * 0x100_0000 + b[0] * 0x1_0000 + b[1] * 0x100 + b[2]
  }

  lemma NumberRange(h: Hash)
    ensures Number(h) < Pow(256, 32)
  {
    ValueBound(256, Reversed(h));
  }

  // ----- the code's own loops -----

  /** Comparison walks from the most significant byte, index 31, down to 0. */
  method LessOrEqual(h: Hash, other: Hash) returns (r: bool)
    ensures r <==> Number(h) <= Number(other)
  {
    var i := 31;
    while i >= 0
      invariant -1 <= i <= 31
      invariant h[i + 1..] == other[i + 1..]
      decreases i
    {
      if h[i] < other[i] {
        FirstDifferenceDecides(h, other, i);
        return true;
      }
      if h[i] > other[i] {
        FirstDifferenceDecides(other, h, i);
        return false;
      }
      i := i - 1;
    }
    assert h == other;
    return true;
  }

  lemma FirstDifferenceDecides(a: Hash, b: Hash, i: nat)
    requires i < 32 && a[i] < b[i] && a[i + 1..] == b[i + 1..]
    ensures Number(a) < Number(b)
  {
    var ra, rb := Reversed(a), Reversed(b);
    var k := 31 - i;
    assert ra[..k] == rb[..k] by {
      forall j | 0 <= j < k ensures ra[j] == rb[j] {
        assert a[31 - j] == a[i + 1..][31 - j - (i + 1)];
        assert b[31 - j] == b[i + 1..][31 - j - (i + 1)];
      }
    }
    LexicographicOrder(ra, rb, k);
  }

  lemma LexicographicOrder(a: seq<nat>, b: seq<nat>, k: nat)
    requires |a| == |b| && k < |a| && Digits(256, a) && Digits(256, b)
    requires a[..k] == b[..k] && a[k] < b[k]
    ensures Value(256, a) < Value(256, b)
  {
    hide Value, Pow;
    KeptPart(a, k + 1);
    KeptPart(b, k + 1);
    assert a[..k + 1] == a[..k] + [a[k]] && b[..k + 1] == a[..k] + [b[k]];
    ValueSnoc(256, a[..k], a[k]);
    ValueSnoc(256, a[..k], b[k]);
    MulMonotone(Pow(256, |a| - k - 1), Value(256, a[..k + 1]) + 1, Value(256, b[..k + 1]));
  }

  /** Keeping the leading k digits brackets the number. */
  lemma KeptPart(b: seq<nat>, k: nat)
    requires Digits(256, b) && k <= |b|
    ensures Pow(256, |b| - k) * Value(256, b[..k]) <= Value(256, b) < Pow(256, |b| - k) * (Value(256, b[..k]) + 1)
  {
    assert b == b[..k] + b[k..];
    ValueAppend(256, b[..k], b[k..]);
    ValueBound(256, b[k..]);
    Distribute(Value(256, b[..k]), Pow(256, |b| - k));
  }

  /** TargetFromNBits as written: shift, pad big-endian, then reverse byte by byte. */
  method ComputeTargetFromNBits(nBits: U32) returns (r: TargetResult)
    ensures r == TargetFromNBits(nBits)
  {
    var exp, mant := nBits / 0x100_0000, nBits % 0x80_0000;
    if nBits / 0x80_0000 % 2 == 1 {
      return Malformed(NegativeMantissa);
    }
    if exp < 3 {
      return Malformed(ExponentBelowThree);
    }
    if mant == 0 {
      return Malformed(ZeroMantissa);
    }
    var b: seq<Byte> := ToDigits(256, mant * Pow(256, exp - 3));
    if |b| > 32 {
      return Malformed(Overflow);
    }
    var be: seq<Byte> := Zeros(32 - |b|) + b;
    var target: seq<Byte> := [];
    for i := 0 to 32
      invariant |target| == i
      invariant forall j :: 0 <= j < i ==> target[j] == be[31 - j]
    {
      target := target + [be[31 - i]];
    }
    assert target == Reversed(be);
    return Target(target);
  }

  /** NBitsFromTarget as written: reverse, take the magnitude, pad, keep three bytes. */
  method ComputeNBitsFromTarget(target: Hash) returns (n: U32)
    ensures n == NBitsFromTarget(target)
  {
    var be: seq<Byte> := [];
    for i := 0 to 32
      invariant |be| == i
      invariant forall j :: 0 <= j < i ==> be[j] == target[31 - j]
    {
      be := be + [target[31 - i]];
    }
    assert be == Reversed(target);
    var v := Value(256, be);
    if v == 0 {
      return 0;
    }
    var b := ToDigits(256, v);
    NumberRange(target);
    ToDigitsLength(256, v, 32);
    if b[0] >= 0x80 {
      b := Zeros(1) + b;
    }
    var mant := if |b| == 1 then b[0] else if |b| == 2 then b[0] * 0x100 + b[1]
                else b[0] * 0x1_0000 + b[1] * 0x100 + b[2];
    n := |b| * 0x100_0000 + mant;
  }

  // ----- rounding -----

  /** Value of the three bytes the compact form keeps. */
  lemma LeadingThree(b: seq<nat>)
    requires |b| >= 3
    ensures Value(256, b[..3]) == b[0] * 0x1_0000 + b[1] * 0x100 + b[2]
  {
    assert b[..3] == (([] + [b[0]]) + [b[1]]) + [b[2]];
    ValueSnoc(256, [], b[0]);
    ValueSnoc(256, [] + [b[0]], b[1]);
    ValueSnoc(256, ([] + [b[0]]) + [b[1]], b[2]);
  }

  /** Below 0x8000 the compact form has exponent 1 or 2, or is zero. */
  lemma SmallTargets(target: Hash)
    requires Number(target) < 0x8000
    ensures !TargetFromNBits(NBitsFromTarget(target)).Target?
  {
    var v := Number(target);
    if v > 0 {
      var b := SignedBytes(v);
      FewDigits(v);
      hide ToDigits, Number, Value;
    }
  }

  lemma FewDigits(v: nat)
    requires 0 < v < 0x8000
    ensures 1 <= |ToDigits(256, v)| <= 2
    ensures |ToDigits(256, v)| == 2 ==> ToDigits(256, v)[0] < 0x80
  {
    assert Pow(256, 1) == 256 && Pow(256, 2) == 256 * Pow(256, 1);
    ToDigitsLength(256, v, 2);
    var d := ToDigits(256, v);
    hide ToDigits, Pow;
    ValueOfToDigits(256, v);
    if |d| == 2 {
      ValueSnoc(256, [], d[0]);
      ValueSnoc(256, [] + [d[0]], d[1]);
      assert d == ([] + [d[0]]) + [d[1]];
    }
  }

  /**
   * For a target of at least 0x8000 the compact form is normalised: its
   * mantissa m lies in 0x8000..0x7fffff and the target lies in
   * [m * 256^(e-3), (m+1) * 256^(e-3)).
   */
  lemma CompactBracket(target: Hash)
    requires Number(target) >= 0x8000
    ensures
      var n := NBitsFromTarget(target);
      var m, e := Mantissa(n), Exponent(n);
      && !SignBit(n) && 3 <= e <= 33 && 0x8000 <= m
      && m * Pow(256, e - 3) <= Number(target) < (m + 1) * Pow(256, e - 3)
  {
    var b := SignedBytes(Number(target));
    CompactKeepsThree(target);
    KeptPart(b, 3);
    Commute(Value(256, b[..3]), Pow(256, |b| - 3));
  }

  lemma Commute(m: nat, p: nat)
    ensures p * m == m * p && p * (m + 1) == (m + 1) * p
  {
  }

  lemma CompactKeepsThree(target: Hash)
    requires Number(target) >= 0x8000
    ensures
      var n, b := NBitsFromTarget(target), SignedBytes(Number(target));
      && 3 <= |b| <= 33 && Exponent(n) == |b| && !SignBit(n)
      && Mantissa(n) == Value(256, b[..3]) >= 0x8000
  {
    var v := Number(target);
    var b := SignedBytes(v);
    NumberRange(target);
    ToDigitsLength(256, v, 32);
    SignedBytesLong(v);
    LeadingThree(b);
    CompactFields(NBitsFromTarget(target), |b|, Value(256, b[..3]));
  }

  lemma CompactFields(n: U32, e: nat, m: nat)
    requires n == e * 0x100_0000 + m && m < 0x80_0000
    ensures Exponent(n) == e && Mantissa(n) == m && !SignBit(n)
  {
  }

  lemma Distribute(m: nat, p: nat)
    ensures (m + 1) * p == m * p + p == p * (m + 1)
  {
  }

  lemma SignedBytesLong(v: nat)
    requires v >= 0x8000
    ensures var b := SignedBytes(v); |b| >= 3 && b[0] * 0x100 + b[1] >= 0x80
  {
    var d, b := ToDigits(256, v), SignedBytes(v);
    ValueOfToDigits(256, v);
    ValueBound(256, d);
    assert Pow(256, 1) == 256 && Pow(256, 2) == 256 * Pow(256, 1) && Pow(256, 0) == 1;
    if |d| == 2 {
      assert d == ([] + [d[0]]) + [d[1]];
      ValueSnoc(256, [], d[0]);
      ValueSnoc(256, [] + [d[0]], d[1]);
    }
  }

  /** No compact value fits strictly between the kept part and the target. */
  lemma NoCompactBetween(m: nat, e: nat, v: nat, m': nat, e': nat)
    requires e >= 3 && e' >= 3 && 0x8000 <= m && m' < 0x80_0000
    requires v < (m + 1) * Pow(256, e - 3)
    requires m' * Pow(256, e' - 3) <= v
    ensures m' * Pow(256, e' - 3) <= m * Pow(256, e - 3)
  {
    var p := Pow(256, e - 3);
    if e' >= e {
      PowAdd(256, e' - e, e - 3);
      var q := m' * Pow(256, e' - e);
      MulAssoc(m', Pow(256, e' - e), p);
      if q >= m + 1 {
        MulMonotone(p, m + 1, q);
      }
      MulMonotone(p, q, m);
    } else {
      var p' := Pow(256, e' - 3);
      PowMonotone(256, e' - 3, e - 4);
      MulMonotone(m', p', Pow(256, e - 4));
      MulMonotone(Pow(256, e - 4), m', 0x80_0000);
      assert p == 256 * Pow(256, e - 4);
      MulMonotone(p, 0x8000, m);
    }
  }

  lemma MulAssoc(a: nat, b: nat, c: nat)
    ensures a * (b * c) == (a * b) * c
  {
  }

  /**
   * Main result: converting a target to nBits and back succeeds exactly from
   * 0x8000 up, and then gives the largest representable target not above it.
   */
  lemma RoundTripIsFloor(target: Hash)
    ensures TargetFromNBits(NBitsFromTarget(target)).Target? <==> Number(target) >= 0x8000
    ensures Number(target) >= 0x8000 ==>
              var t := TargetFromNBits(NBitsFromTarget(target)).hash;
              && Number(t) <= Number(target)
              && forall n: U32 :: TargetFromNBits(n).Target? && Number(TargetFromNBits(n).hash) <= Number(target)
                                  ==> Number(TargetFromNBits(n).hash) <= Number(t)
  {
    if Number(target) < 0x8000 {
      SmallTargets(target);
    } else {
      CompactRoundTrip(target);
      forall n: U32 | TargetFromNBits(n).Target? && Number(TargetFromNBits(n).hash) <= Number(target)
        ensures Number(TargetFromNBits(n).hash) <= Expanded(NBitsFromTarget(target))
      {
        TargetNumber(n);
        CompactBelow(target, n);
      }
    }
  }

  lemma CompactRoundTrip(target: Hash)
    requires Number(target) >= 0x8000
    ensures Exponent(NBitsFromTarget(target)) >= 3
    ensures TargetFromNBits(NBitsFromTarget(target)).Target?
    ensures Number(TargetFromNBits(NBitsFromTarget(target)).hash) == Expanded(NBitsFromTarget(target)) <= Number(target)
  {
    CompactBracket(target);
    NumberRange(target);
    var n := NBitsFromTarget(target);
    hide NBitsFromTarget, Number, Pow, ToDigits;
    ToDigitsLength(256, Expanded(n), 32);
    assert Pow(256, Exponent(n) - 3) > 0;
  }

  lemma TargetNumber(n: U32)
    requires TargetFromNBits(n).Target?
    ensures Exponent(n) >= 3 && Number(TargetFromNBits(n).hash) == Expanded(n)
  {
  }

  /**
   * Exactly which nBits give a target: sign bit clear, mantissa not zero, exponent at least three, and a number
   * below 2^256, which is then the target.
   */
  lemma TargetIff(n: U32)
    ensures TargetFromNBits(n).Target?
       <==> n / 0x80_0000 % 2 == 0 && n % 0x80_0000 != 0 && n / 0x100_0000 >= 3
            && n % 0x80_0000 * Pow(256, n / 0x100_0000 - 3) < Pow(256, 32)
    ensures TargetFromNBits(n).Target? ==>
              n / 0x100_0000 >= 3
              && Number(TargetFromNBits(n).hash) == n % 0x80_0000 * Pow(256, n / 0x100_0000 - 3)
  {
    hide ToDigits, Pow, Number;
    if n / 0x100_0000 >= 3 {
      var v := Expanded(n);
      if v < Pow(256, 32) {
        ToDigitsLength(256, v, 32);
      } else if |ToDigits(256, v)| <= 32 {
        ValueOfToDigits(256, v);
        ValueBound(256, ToDigits(256, v));
        PowMonotone(256, |ToDigits(256, v)|, 32);
      }
    }
  }

  lemma CompactBelow(target: Hash, n: U32)
    requires Number(target) >= 0x8000
    requires Exponent(n) >= 3 && Expanded(n) <= Number(target)
    ensures Exponent(NBitsFromTarget(target)) >= 3
    ensures Expanded(n) <= Expanded(NBitsFromTarget(target))
  {
    hide NBitsFromTarget, Number, Pow;
    CompactBracket(target);
    var n0 := NBitsFromTarget(target);
    NoCompactBetween(Mantissa(n0), Exponent(n0), Number(target), Mantissa(n), Exponent(n));
  }

  /** A representable target of at least 0x8000 survives unchanged. */
  lemma RoundTripExact(n: U32)
    requires TargetFromNBits(n).Target?
    requires Number(TargetFromNBits(n).hash) >= 0x8000
    ensures TargetFromNBits(NBitsFromTarget(TargetFromNBits(n).hash)) == TargetFromNBits(n)
  {
    var t := TargetFromNBits(n).hash;
    RoundTripIsFloor(t);
    NumberInjective(t, TargetFromNBits(NBitsFromTarget(t)).hash);
  }

  /** Rounding to the compact form never reverses the order of two targets. */
  lemma RoundTripMonotone(a: Hash, b: Hash)
    requires 0x8000 <= Number(a) <= Number(b)
    ensures TargetFromNBits(NBitsFromTarget(a)).Target? && TargetFromNBits(NBitsFromTarget(b)).Target?
    ensures Number(TargetFromNBits(NBitsFromTarget(a)).hash) <= Number(TargetFromNBits(NBitsFromTarget(b)).hash)
  {
    RoundTripIsFloor(a);
    RoundTripIsFloor(b);
  }
}
