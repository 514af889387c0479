// convertBits: regrouping a stream of from-bit groups into to-bit groups.

module Regroup {
  import opened Numerals
  import opened Results

  datatype RegroupError = OutOfRange(value: nat) | BadPadding

  /** The base-digits of v, zero-filled on the left to len digits. */
  function FixedDigits(base: nat, v: nat, len: nat): (ds: seq<nat>)
    requires base >= 2 && v < Pow(base, len)
    ensures |ds| == len && Digits(base, ds) && Value(base, ds) == v
  {
    var d := ToDigits(base, v);
    ToDigitsLength(base, v, len);
    ValueIgnoresLeadingZeros(base, len - |d|, d);
    ValueOfToDigits(base, v);
    Zeros(len - |d|) + d
  }

  lemma QuotientBelow(v: nat, base: nat, p: nat)
    requires base >= 1 && v < base * p
    ensures 0 <= v / base < p
  {
    DivMod(v, base);
    if v / base >= p {
      MulMonotone(base, p, v / base);
    }
  }

  lemma {:induction false} PowPow(b: nat, m: nat, n: nat)
    ensures Pow(Pow(b, m), n) == Pow(b, m * n)
  {
    if n > 0 {
      PowPow(b, m, n - 1);
      assert m * n == m + m * (n - 1);
      PowAdd(b, m, m * (n - 1));
    } else {
      assert m * n == 0;
    }
  }

  /** All groups as one number, most significant group first. */
  function Accumulated(data: seq<nat>, from: nat): nat
  {
    Value(Pow(2, from), data)
  }

  predicate InRange(data: seq<nat>, from: nat)
  {
    Digits(Pow(2, from), data)
  }

  function FirstOutOfRange(data: seq<nat>, from: nat): (v: nat)
    requires !InRange(data, from)
    ensures v in data && v >= Pow(2, from)
  {
    if data[0] >= Pow(2, from) then data[0] else FirstOutOfRange(data[1..], from)
  }

  /** The complete to-bit groups of the stream. */
  function WholeGroups(data: seq<nat>, from: nat, to: nat): (out: seq<nat>)
    requires from >= 1 && to >= 1 && InRange(data, from)
    ensures Digits(Pow(2, to), out) && |out| == |data| * from / to
    ensures Value(Pow(2, to), out) == Accumulated(data, from) / Pow(2, |data| * from % to)
  {
    AccumulatedBound(data, from);
    Chunks(Accumulated(data, from), |data| * from, to)
  }

  /** The top n - n % to bits of an n-bit number, as to-bit groups. */
  function Chunks(acc: nat, n: nat, to: nat): (out: seq<nat>)
    requires to >= 1 && acc < Pow(2, n)
    ensures Digits(Pow(2, to), out) && |out| == n / to
    ensures Value(Pow(2, to), out) == acc / Pow(2, n % to)
  {
    QuotientFits(acc, n, to);
    assert Pow(2, to) == 2 * Pow(2, to - 1);
    FixedDigits(Pow(2, to), acc / Pow(2, n % to), n / to)
  }

  /** What convertBits returns. */
  function Converted(data: seq<nat>, from: nat, to: nat, pad: bool): Result<seq<nat>, RegroupError>
    requires from >= 1 && to >= 1
  {
    var bits, acc := |data| * from % to, Accumulated(data, from);
    if !InRange(data, from) then Err(OutOfRange(FirstOutOfRange(data, from)))
    else if pad then
      Ok(WholeGroups(data, from, to) + if bits > 0 then [acc * Pow(2, to - bits) % Pow(2, to)] else [])
    else if bits >= from || acc % Pow(2, bits) != 0 then Err(BadPadding)
    else Ok(WholeGroups(data, from, to))
  }

  lemma AccumulatedBound(data: seq<nat>, from: nat)
    requires InRange(data, from)
    ensures Accumulated(data, from) < Pow(2, |data| * from)
  {
    ValueBound(Pow(2, from), data);
    PowPow(2, from, |data|);
    assert from * |data| == |data| * from;
  }

  lemma QuotientFits(acc: nat, n: nat, to: nat)
    requires to >= 1 && acc < Pow(2, n)
    ensures 0 <= acc / Pow(2, n % to) < Pow(Pow(2, to), n / to)
  {
    var len, bits := n / to, n % to;
    DivMod(n, to);
    assert n == bits + to * len;
    PowAdd(2, bits, to * len);
    PowPow(2, to, len);
    QuotientBelow(acc, Pow(2, bits), Pow(2, to * len));
  }

  // ----- the loop -----

  lemma ShiftOut(acc: nat, v: nat, f: nat, b: nat)
    requires f > 0 && b > 0 && v < f
    ensures (acc * f + v) / (f * b) == acc / b
  {
    var q, r := acc / b, acc % b;
    DivMod(acc, b);
    var low := r * f + v;
    MulMonotone(f, r, b - 1);
    assert acc * f + v == q * (f * b) + low by {
      assert (q * b + r) * f == q * (f * b) + r * f;
    }
    assert low < f * b;
    assert low >= 0;
    DivModUnique(q, low, f * b);
  }

  lemma TakeGroup(acc: nat, b: nat, t: nat)
    requires b > 0 && t > 0
    ensures acc / (t * b) * t + acc / b % t == acc / b
  {
    var q := acc / b;
    DivMod(q, t);
    var q', r' := q / t, q % t;
    DivMod(acc, b);
    var low := r' * b + acc % b;
    MulMonotone(b, r', t - 1);
    assert acc == q' * (t * b) + low by {
      assert (q' * t + r') * b == q' * (t * b) + r' * b;
    }
    DivModUnique(q', low, t * b);
  }

  lemma PaddingTest(acc: nat, b: nat, c: nat)
    requires b > 0 && c > 0
    ensures acc * c % (b * c) == acc % b * c
  {
    var q, r := acc / b, acc % b;
    DivMod(acc, b);
    Scaled(q, b, r, c);
    MulMonotone(c, r + 1, b);
    OneMore(r, c);
    DivModUnique(q, r * c, b * c);
  }

  lemma Scaled(q: nat, b: nat, r: nat, c: nat)
    ensures (q * b + r) * c == q * (b * c) + r * c
  {
  }

  /** After total input bits, out holds all of them but the low `bits` of acc. */
  ghost predicate Carried(total: nat, to: nat, acc: nat, bits: nat, out: seq<nat>)
  {
    && total == |out| * to + bits
    && Digits(Pow(2, to), out)
    && Value(Pow(2, to), out) == acc / Pow(2, bits)
  }

  lemma Absorb(total: nat, from: nat, to: nat, acc: nat, bits: nat, out: seq<nat>, v: nat)
    requires Carried(total, to, acc, bits, out) && v < Pow(2, from)
    ensures Carried(total + from, to, acc * Pow(2, from) + v, bits + from, out)
  {
    PowAdd(2, from, bits);
    ShiftOut(acc, v, Pow(2, from), Pow(2, bits));
  }

  lemma Emit(total: nat, to: nat, acc: nat, bits: nat, out: seq<nat>)
    requires Carried(total, to, acc, bits, out) && bits >= to
    ensures Carried(total, to, acc, bits - to, out + [acc / Pow(2, bits - to) % Pow(2, to)])
  {
    var b := bits - to;
    PowAdd(2, to, b);
    TakeGroup(acc, Pow(2, b), Pow(2, to));
    ValueSnoc(Pow(2, to), out, acc / Pow(2, b) % Pow(2, to));
    OneMore(|out|, to);
  }

  /** convertBits as written: an accumulator, a bit count, and an output list. */
  method ConvertBits(data: seq<nat>, from: nat, to: nat, pad: bool) returns (r: Result<seq<nat>, RegroupError>)
    requires from >= 1 && to >= 1
    ensures r == Converted(data, from, to, pad)
  {
    var acc, bits := 0, 0;
    var out: seq<nat> := [];
    var k := 0;
    while k < |data|
      invariant 0 <= k <= |data| && 0 <= bits < to
      invariant InRange(data[..k], from) && acc == Accumulated(data[..k], from)
      invariant Carried(k * from, to, acc, bits, out)
    {
      var v := data[k];
      if v >= Pow(2, from) {
        FirstOutOfRangeAt(data, from, k);
        return Err(OutOfRange(v));
      }
      assert data[..k + 1] == data[..k] + [v];
      ValueSnoc(Pow(2, from), data[..k], v);
      Absorb(k * from, from, to, acc, bits, out, v);
      OneMore(k, from);
      acc := acc * Pow(2, from) + v;
      bits := bits + from;
      k := k + 1;
      while bits >= to
        invariant 0 <= bits
        invariant Carried(k * from, to, acc, bits, out)
        decreases bits
      {
        Emit(k * from, to, acc, bits, out);
        bits := bits - to;
        out := out + [acc / Pow(2, bits) % Pow(2, to)];
      }
    }
    assert data[..k] == data;
    WholeGroupsAre(data, from, to, out, bits);
    if pad {
      return Ok(out + if bits > 0 then [acc * Pow(2, to - bits) % Pow(2, to)] else []);
    }
    StrictTest(acc, bits, to);
    if bits >= from || acc * Pow(2, to - bits) % Pow(2, to) != 0 {
      return Err(BadPadding);
    }
    return Ok(out);
  }

  lemma StrictTest(acc: nat, bits: nat, to: nat)
    requires bits < to
    ensures acc * Pow(2, to - bits) % Pow(2, to) == 0 <==> acc % Pow(2, bits) == 0
  {
    PowAdd(2, bits, to - bits);
    PaddingTest(acc, Pow(2, bits), Pow(2, to - bits));
    NonZeroProduct(acc % Pow(2, bits), Pow(2, to - bits));
  }

  lemma NonZeroProduct(a: nat, b: nat)
    requires b > 0
    ensures a * b == 0 <==> a == 0
  {
  }

  lemma {:induction false} FirstOutOfRangeAt(data: seq<nat>, from: nat, k: nat)
    requires k < |data| && data[k] >= Pow(2, from) && InRange(data[..k], from)
    ensures !InRange(data, from) && FirstOutOfRange(data, from) == data[k]
  {
    if k > 0 {
      assert data[0] == data[..k][0];
      assert data[1..][..k - 1] == data[..k][1..];
      FirstOutOfRangeAt(data[1..], from, k - 1);
    }
  }

  lemma WholeGroupsAre(data: seq<nat>, from: nat, to: nat, out: seq<nat>, bits: nat)
    requires from >= 1 && to >= 1 && InRange(data, from) && bits < to
    requires Carried(|data| * from, to, Accumulated(data, from), bits, out)
    ensures |data| * from % to == bits && out == WholeGroups(data, from, to)
  {
    DivModUnique(|out|, bits, to);
    FixedWidthUnique(Pow(2, to), out, WholeGroups(data, from, to));
  }

  // ----- injectivity and round trip -----

  /** Strict regrouping loses nothing: equal outputs come from equal inputs. */
  lemma StrictInjective(a: seq<nat>, b: seq<nat>, from: nat, to: nat)
    requires from >= 1 && to >= 1
    requires Converted(a, from, to, false).Ok? && Converted(a, from, to, false) == Converted(b, from, to, false)
    ensures a == b
  {
    var n, m := |a| * from, |b| * from;
    DivMod(n, to);
    DivMod(m, to);
    SameCount(|a|, |b|, from, n % to, m % to);
    DivMod(Accumulated(a, from), Pow(2, n % to));
    DivMod(Accumulated(b, from), Pow(2, m % to));
    FixedWidthUnique(Pow(2, from), a, b);
  }

  lemma SameCount(x: nat, y: nat, from: nat, r: nat, s: nat)
    requires r < from && s < from && x * from - r == y * from - s
    ensures x == y
  {
    if x > y {
      MulMonotone(from, 1, x - y);
    } else if y > x {
      MulMonotone(from, 1, y - x);
    }
  }

  /** Padded regrouping to narrower groups is undone by strict regrouping back. */
  lemma PadThenStrip(data: seq<nat>, from: nat, to: nat)
    requires 1 <= to <= from && InRange(data, from)
    ensures Converted(data, from, to, true).Ok?
    ensures Converted(Converted(data, from, to, true).value, to, from, false) == Ok(data)
  {
    var n, acc := |data| * from, Accumulated(data, from);
    var len, bits := n / to, n % to;
    var whole, out := WholeGroups(data, from, to), Converted(data, from, to, true).value;
    DivMod(n, to);
    assert acc >= 0 && Pow(2, 0) == 1;
    var p := if bits > 0 then to - bits else 0;
    PaddedValue(data, from, to);
    assert |out| * to == |data| * from + p by { OneMore(len, to); }
    DivModUnique(|data|, p, from);
    DivModUnique(acc, 0, Pow(2, p));
    assert acc * Pow(2, p) + 0 == Accumulated(out, to);
    FixedWidthUnique(Pow(2, from), WholeGroups(out, to, from), data);
  }

  lemma PaddedValue(data: seq<nat>, from: nat, to: nat)
    requires from >= 1 && to >= 1 && InRange(data, from)
    ensures
      var bits := |data| * from % to;
      var out := Converted(data, from, to, true).value;
      && InRange(out, to)
      && Accumulated(out, to) == Accumulated(data, from) * Pow(2, if bits > 0 then to - bits else 0)
  {
    var bits, acc := |data| * from % to, Accumulated(data, from);
    var whole := WholeGroups(data, from, to);
    if bits > 0 {
      var b, c := Pow(2, bits), Pow(2, to - bits);
      PowAdd(2, bits, to - bits);
      PaddingTest(acc, b, c);
      ValueSnoc(Pow(2, to), whole, acc * c % Pow(2, to));
      DivMod(acc, b);
      Recombine(acc, acc / b, acc % b, b, c);
    } else {
      assert Pow(2, 0) == 1;
      assert whole + [] == whole;
    }
  }

  lemma Recombine(acc: nat, q: nat, r: nat, b: nat, c: nat)
    requires acc == q * b + r
    ensures q * (b * c) + r * c == acc * c
  {
  }

  /** Every byte string survives the 8-to-5 encoding used by addresses. */
  lemma BytesSurvive(b: seq<Byte>)
    ensures Converted(b, 8, 5, true).Ok?
    ensures Converted(Converted(b, 8, 5, true).value, 5, 8, false) == Ok(b)
  {
    PowerOfEight();
    PadThenStrip(b, 8, 5);
  }

  lemma PowerOfEight()
    ensures Pow(2, 5) == 32 && Pow(2, 8) == 256
  {
    assert Pow(2, 2) == 4 && Pow(2, 4) == 16;
    assert Pow(2, 6) == 64;
  }
}
