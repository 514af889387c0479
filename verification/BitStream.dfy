// Numbers spread into bit streams, most significant bit first, and gathered
// back in groups of another width.

module BitStream {
  import opened Numerals

  /** The w low bits of x. */
  function Bits(x: nat, w: nat): (b: seq<nat>)
    ensures |b| == w && Digits(2, b)
  {
    if w == 0 then [] else Bits(x / 2, w - 1) + [x % 2]
  }

  lemma {:induction false} ValueOfBits(x: nat, w: nat)
    requires x < Pow(2, w)
    ensures Value(2, Bits(x, w)) == x
    decreases w
  {
    if w > 0 {
      ValueOfBits(x / 2, w - 1);
      ValueSnoc(2, Bits(x / 2, w - 1), x % 2);
    }
  }

  lemma BitsOfValue(b: seq<nat>)
    requires Digits(2, b)
    ensures Bits(Value(2, b), |b|) == b
  {
    ValueBound(2, b);
    ValueOfBits(Value(2, b), |b|);
    FixedWidthUnique(2, Bits(Value(2, b), |b|), b);
  }

  /** Bit k is what shifting right and masking yields. */
  lemma {:induction false} BitAt(x: nat, w: nat, k: nat)
    requires k < w
    ensures Bits(x, w)[k] == x / Pow(2, w - 1 - k) % 2
    decreases w
  {
    if k < w - 1 {
      BitAt(x / 2, w - 1, k);
      HalveTwice(x, Pow(2, w - 2 - k));
    } else {
      assert Pow(2, 0) == 1;
    }
  }

  lemma HalveTwice(x: nat, p: nat)
    requires p >= 1
    ensures x / 2 / p == x / (2 * p)
  {
    var q, r := x / 2 / p, x / 2 % p;
    DivMod(x, 2);
    DivMod(x / 2, p);
    assert x == q * (2 * p) + (2 * r + x % 2) by {
      Unfold(q, p, r, x % 2);
    }
    DivModUnique(q, 2 * r + x % 2, 2 * p);
  }

  lemma Unfold(q: nat, p: nat, r: nat, c: nat)
    ensures (q * p + r) * 2 + c == q * (2 * p) + (2 * r + c)
  {
  }

  /** Every number written in w bits, one after the other. */
  function Spread(xs: seq<nat>, w: nat): (b: seq<nat>)
    ensures Digits(2, b)
  {
    if |xs| == 0 then [] else Spread(xs[..|xs| - 1], w) + Bits(xs[|xs| - 1], w)
  }

  lemma {:induction false} SpreadLength(xs: seq<nat>, w: nat)
    ensures |Spread(xs, w)| == |xs| * w
  {
    if |xs| > 0 {
      SpreadLength(xs[..|xs| - 1], w);
      OneMore(|xs| - 1, w);
    }
  }

  lemma SpreadSnoc(xs: seq<nat>, x: nat, w: nat)
    ensures Spread(xs + [x], w) == Spread(xs, w) + Bits(x, w)
  {
    assert (xs + [x])[..|xs|] == xs;
  }

  /** The stream is the number that the numbers spell in base 2^w. */
  lemma {:induction false} SpreadValue(xs: seq<nat>, w: nat)
    requires Digits(Pow(2, w), xs)
    ensures Value(2, Spread(xs, w)) == Value(Pow(2, w), xs)
  {
    if |xs| > 0 {
      var init, x := xs[..|xs| - 1], xs[|xs| - 1];
      SpreadValue(init, w);
      ValueOfBits(x, w);
      ValueAppend(2, Spread(init, w), Bits(x, w));
    }
  }

  /** The first k of w bits are the number shifted right by the others. */
  lemma TopBits(x: nat, w: nat, k: nat)
    requires x < Pow(2, w) && k <= w
    ensures Pow(2, w - k) >= 1 && Value(2, Bits(x, w)[..k]) == x / Pow(2, w - k)
  {
    ValueOfBits(x, w);
    hide Bits, Value;
    var b := Bits(x, w);
    TopValue(b, k);
  }

  lemma TopValue(b: seq<nat>, k: nat)
    requires Digits(2, b) && k <= |b|
    ensures Pow(2, |b| - k) >= 1 && Value(2, b[..k]) == Value(2, b) / Pow(2, |b| - k)
  {
    hide Value, Pow;
    var front, back := b[..k], b[k..];
    assert b == front + back;
    ValueAppend(2, front, back);
    ValueBound(2, back);
    DivModUnique(Value(2, front), Value(2, back), Pow(2, |b| - k));
  }

  lemma SliceFits(i: nat, n: nat, w: nat)
    requires i < n
    ensures 0 <= i * w <= (i + 1) * w <= n * w
  {
    MulMonotone(w, i, i + 1);
    MulMonotone(w, i + 1, n);
  }

  /** The numbers of the whole w-bit groups. */
  function Gather(b: seq<nat>, n: nat, w: nat): (xs: seq<nat>)
    requires |b| >= n * w
    ensures |xs| == n
  {
    if n == 0 then [] else
    OneMore(n - 1, w);
    Gather(b, n - 1, w) + [Value(2, b[(n - 1) * w..n * w])]
  }

  lemma {:induction false} GatherPrefix(b: seq<nat>, c: seq<nat>, n: nat, w: nat)
    requires |b| >= n * w
    ensures Gather(b + c, n, w) == Gather(b, n, w)
    decreases n
  {
    if n > 0 {
      OneMore(n - 1, w);
      SliceFits(n - 1, n, w);
      GatherPrefix(b, c, n - 1, w);
      assert (b + c)[(n - 1) * w..n * w] == b[(n - 1) * w..n * w];
    }
  }

  lemma GatherSnoc(b: seq<nat>, last: seq<nat>, n: nat, w: nat)
    requires |b| == n * w && |last| == w
    ensures |b + last| == (n + 1) * w
    ensures Gather(b + last, n + 1, w) == Gather(b, n, w) + [Value(2, last)]
  {
    OneMore(n, w);
    hide Value;
    GatherPrefix(b, last, n, w);
    assert (b + last)[n * w..(n + 1) * w] == last;
  }

  /** Spreading, then gathering by the same width, gives the numbers back. */
  lemma {:induction false} GatherOfSpread(xs: seq<nat>, w: nat)
    requires Digits(Pow(2, w), xs)
    ensures |Spread(xs, w)| == |xs| * w && Gather(Spread(xs, w), |xs|, w) == xs
  {
    SpreadLength(xs, w);
    if |xs| > 0 {
      var n := |xs| - 1;
      var init, x := xs[..n], xs[n];
      assert x < Pow(2, w) && xs == init + [x];
      GatherOfSpread(init, w);
      hide Gather, Value, Bits, Pow;
      GatherSnoc(Spread(init, w), Bits(x, w), n, w);
      ValueOfBits(x, w);
    }
  }

  lemma SplitLast(b: seq<nat>, n: nat, w: nat) returns (head: seq<nat>, last: seq<nat>)
    requires n > 0 && Digits(2, b) && |b| == n * w
    ensures b == head + last && |head| == (n - 1) * w && |last| == w && Digits(2, head) && Digits(2, last)
  {
    OneMore(n - 1, w);
    head, last := b[..(n - 1) * w], b[(n - 1) * w..];
  }

  lemma GroupSpread(xs: seq<nat>, last: seq<nat>, w: nat)
    requires Digits(2, last) && |last| == w && Digits(Pow(2, w), xs)
    ensures Digits(Pow(2, w), xs + [Value(2, last)])
    ensures Spread(xs + [Value(2, last)], w) == Spread(xs, w) + last
  {
    hide Value, Bits, Pow, Spread;
    BitsOfValue(last);
    ValueBound(2, last);
    SpreadSnoc(xs, Value(2, last), w);
  }

  /** Gathering a stream of whole groups loses nothing. */
  lemma {:induction false} SpreadOfGather(b: seq<nat>, n: nat, w: nat)
    requires Digits(2, b) && |b| == n * w
    ensures Digits(Pow(2, w), Gather(b, n, w)) && Spread(Gather(b, n, w), w) == b
    decreases n
  {
    if n > 0 {
      var head, last := SplitLast(b, n, w);
      SpreadOfGather(head, n - 1, w);
      hide Gather, Value, Pow, Spread, Digits;
      GatherSnoc(head, last, n - 1, w);
      GroupSpread(Gather(head, n - 1, w), last, w);
    }
  }

  lemma {:induction false} GatherAt(b: seq<nat>, n: nat, w: nat, i: nat)
    requires |b| >= n * w && i < n
    ensures 0 <= i * w <= (i + 1) * w <= |b| && Gather(b, n, w)[i] == Value(2, b[i * w..(i + 1) * w])
    decreases n
  {
    SliceFits(i, n, w);
    OneMore(n - 1, w);
    if i < n - 1 {
      GatherAt(b, n - 1, w, i);
    }
  }
}
