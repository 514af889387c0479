// A job issued twice: a target change hands the active job out again, and every
// thread starts over at its first nonce.

module Reissue {
  import opened Numerals
  import opened NonceSpace
  import M = MiningState

  /** Time and nonce counted together: where a header lies on the absolute scale. */
  function Absolute(base: nat, p: nat): nat
  {
    base * N + p
  }

  /** As long as the timestamp does not wrap, a header is its absolute position. */
  lemma ProbeIsAbsolute(base: U32, p: nat)
    requires Absolute(base, p) < N * N
    ensures ProbeAt(base, p) == ProbeAt(0, Absolute(base, p))
  {
    DivMod(p, N);
    var q, r := p / N, p % N;
    Regroup(base, q, r);
    DivModUnique(base + q, r, N);
    SumBelow(base, q, r);
    SmallMod(q);
    SmallMod(base + q);
  }

  lemma Regroup(b: nat, q: nat, r: nat)
    ensures b * N + (q * N + r) == (b + q) * N + r
  {
  }

  lemma SumBelow(b: nat, q: nat, r: nat)
    requires b * N + (q * N + r) < N * N
    ensures b + q < N
  {
    Regroup(b, q, r);
  }

  /** How many headers of an issue each thread of each worker has hashed. */
  type Counts = (nat, nat) -> nat

  /** Some header was hashed in both issues; they start at base times b and c. */
  ghost predicate Overlap(threads: nat, workers: nat, b: U32, steps: Counts, c: U32, more: Counts)
    requires threads >= 1
  {
    exists i: nat, t: nat, m: nat, i': nat, t': nat, m': nat ::
      Repeated(threads, workers, b, steps, c, more, i, t, m, i', t', m')
  }

  /** The same header in the first issue (base b) and in the second (base c). */
  predicate Repeated(threads: nat, workers: nat, b: U32, steps: Counts, c: U32, more: Counts,
                     i: nat, t: nat, m: nat, i': nat, t': nat, m': nat)
    requires threads >= 1
  {
    && i < workers && i' < workers && t < threads && t' < threads && m < steps(i, t) && m' < more(i', t')
    && ProbeAt(b, Position(threads, workers, i, t, m)) == ProbeAt(c, Position(threads, workers, i', t', m'))
  }

  /** All positions of an issue stay below the wrap of the timestamp. */
  ghost predicate InTime(threads: nat, workers: nat, base: U32, steps: Counts)
    requires threads >= 1
  {
    forall i: nat, t: nat, m: nat :: i < workers && t < threads && m < steps(i, t) ==>
      Absolute(base, Position(threads, workers, i, t, m)) < N * N
  }

  /** The stride all threads share. */
  function Step(threads: nat, workers: nat): nat
    requires threads >= 1 && workers >= 1
  {
    Layout(threads, workers, 0).step
  }

  lemma PositionIs(threads: nat, workers: nat, i: nat, t: nat, m: nat)
    requires threads >= 1 && i < workers && t < threads
    ensures Step(threads, workers) >= 1
    ensures Position(threads, workers, i, t, m) == First(threads, workers, i, t) + m * Step(threads, workers)
    ensures First(threads, workers, i, t) < Step(threads, workers)
  {
    if workers > 1 && threads * workers <= 0x8000_0000 {
      TotalPositive(threads, workers);
      StartBelow(threads, workers, i, t);
      DoubleFromCovers(1, threads * workers);
    }
  }

  /** A thread's first position. */
  function First(threads: nat, workers: nat, i: nat, t: nat): nat
    requires threads >= 1 && i < workers
  {
    Layout(threads, workers, i).offset + t
  }

  lemma AbsoluteGap(b: nat, c: nat, p: nat, q: nat)
    requires b <= c && Absolute(b, p) == Absolute(c, q)
    ensures p == q + (c - b) * N
  {
  }

  lemma Shift(b: nat, c: nat)
    requires b <= c
    ensures b * N + (c - b) * N == c * N + 0
  {
  }

  /** Thread t of worker i has hashed position x. */
  predicate Hashed(threads: nat, workers: nat, steps: Counts, i: nat, t: nat, x: nat)
    requires threads >= 1 && i < workers && t < threads
  {
    PositionIs(threads, workers, i, t, 0);
    var s := Step(threads, workers);
    x % s == First(threads, workers, i, t) && x / s < steps(i, t)
  }

  /** The position at base b that is position p at the later base c. */
  function Moved(b: U32, c: U32, p: nat): nat
    requires b <= c
  {
    p + (c - b) * N
  }

  /** The first header of thread t' of worker i' in the second issue is one that thread t of worker i had hashed. */
  predicate Catches(threads: nat, workers: nat, b: U32, steps: Counts, c: U32, more: Counts,
                    i: nat, t: nat, i': nat, t': nat)
    requires threads >= 1 && b <= c
  {
    && i < workers && i' < workers && t < threads && t' < threads && more(i', t') > 0
    && Hashed(threads, workers, steps, i, t, Moved(b, c, First(threads, workers, i', t')))
  }

  /** Some thread starts the second issue on a header of the first. */
  ghost predicate Caught(threads: nat, workers: nat, b: U32, steps: Counts, c: U32, more: Counts)
    requires threads >= 1 && b <= c
  {
    exists i: nat, t: nat, i': nat, t': nat :: Catches(threads, workers, b, steps, c, more, i, t, i', t')
  }

  lemma BackToFirst(f: nat, m: nat, s: nat, f': nat, m': nat, d: nat)
    requires f < s && f + m * s == f' + m' * s + d
    ensures (f' + d) % s == f && (f' + d) / s <= m
  {
    if m < m' {
      MulMonotone(s, m + 1, m');
      OneMore(m, s);
      assert false;
    }
    Difference(m, m', s);
    DivModUnique(m - m', f, s);
  }

  lemma Difference(m: nat, m': nat, s: nat)
    requires m' <= m
    ensures (m - m') * s == m * s - m' * s
  {
  }

  /** A repeated header leads back to a first one: the thread that repeats it began on the first issue's ground. */
  lemma RepeatedCatches(threads: nat, workers: nat, b: U32, steps: Counts, c: U32, more: Counts,
                        i: nat, t: nat, m: nat, i': nat, t': nat, m': nat)
    requires threads >= 1 && workers >= 1 && b <= c
    requires InTime(threads, workers, b, steps) && InTime(threads, workers, c, more)
    requires Repeated(threads, workers, b, steps, c, more, i, t, m, i', t', m')
    ensures Catches(threads, workers, b, steps, c, more, i, t, i', t')
  {
    var p, q := Position(threads, workers, i, t, m), Position(threads, workers, i', t', m');
    PositionIs(threads, workers, i, t, m);
    PositionIs(threads, workers, i', t', m');
    assert Absolute(b, p) < N * N && Absolute(c, q) < N * N;
    hide Position, ProbeAt, Absolute, Layout, Step, First;
    ProbeIsAbsolute(b, p);
    ProbeIsAbsolute(c, q);
    ProbeInjective(0, Absolute(b, p), Absolute(c, q));
    AbsoluteGap(b, c, p, q);
    BackToFirst(First(threads, workers, i, t), m, Step(threads, workers), First(threads, workers, i', t'), m',
                (c - b) * N);
  }

  lemma HashedAt(threads: nat, workers: nat, steps: Counts, i: nat, t: nat, x: nat) returns (m: nat)
    requires threads >= 1 && i < workers && t < threads && Hashed(threads, workers, steps, i, t, x)
    ensures m < steps(i, t) && Position(threads, workers, i, t, m) == x
  {
    PositionIs(threads, workers, i, t, 0);
    hide Position, First, Step;
    DivMod(x, Step(threads, workers));
    m := x / Step(threads, workers);
    PositionIs(threads, workers, i, t, m);
  }

  lemma MovedProbe(b: U32, c: U32, q: nat)
    requires b <= c && Absolute(b, Moved(b, c, q)) < N * N && Absolute(c, q) < N * N
    ensures ProbeAt(b, Moved(b, c, q)) == ProbeAt(c, q)
  {
    hide ProbeAt;
    Shift(b, c);
    ProbeIsAbsolute(b, Moved(b, c, q));
    ProbeIsAbsolute(c, q);
  }

  lemma CatchesRepeats(threads: nat, workers: nat, b: U32, steps: Counts, c: U32, more: Counts,
                       i: nat, t: nat, i': nat, t': nat)
    requires threads >= 1 && workers >= 1 && b <= c
    requires InTime(threads, workers, b, steps) && InTime(threads, workers, c, more)
    requires Catches(threads, workers, b, steps, c, more, i, t, i', t')
    ensures Overlap(threads, workers, b, steps, c, more)
  {
    var q := First(threads, workers, i', t');
    var x := Moved(b, c, q);
    var m := HashedAt(threads, workers, steps, i, t, x);
    PositionIs(threads, workers, i', t', 0);
    assert Absolute(b, x) < N * N && Absolute(c, q) < N * N;
    MovedProbe(b, c, q);
    hide Position, ProbeAt, Layout, Step, First, Absolute, Moved, Hashed, InTime;
    assert Repeated(threads, workers, b, steps, c, more, i, t, m, i', t', 0);
  }

  lemma ForwardRepeatsIff(threads: nat, workers: nat, b: U32, steps: Counts, c: U32, more: Counts)
    requires threads >= 1 && workers >= 1 && b <= c
    requires InTime(threads, workers, b, steps) && InTime(threads, workers, c, more)
    ensures Overlap(threads, workers, b, steps, c, more) <==> Caught(threads, workers, b, steps, c, more)
  {
    hide Repeated, Catches, InTime;
    if Overlap(threads, workers, b, steps, c, more) {
      var i: nat, t: nat, m: nat, i': nat, t': nat, m': nat :|
        Repeated(threads, workers, b, steps, c, more, i, t, m, i', t', m');
      RepeatedCatches(threads, workers, b, steps, c, more, i, t, m, i', t', m');
    }
    if Caught(threads, workers, b, steps, c, more) {
      var i: nat, t: nat, i': nat, t': nat :| Catches(threads, workers, b, steps, c, more, i, t, i', t');
      CatchesRepeats(threads, workers, b, steps, c, more, i, t, i', t');
    }
  }

  lemma OverlapSymmetric(threads: nat, workers: nat, b: U32, steps: Counts, c: U32, more: Counts)
    requires threads >= 1 && Overlap(threads, workers, b, steps, c, more)
    ensures Overlap(threads, workers, c, more, b, steps)
  {
    var i: nat, t: nat, m: nat, i': nat, t': nat, m': nat :|
      Repeated(threads, workers, b, steps, c, more, i, t, m, i', t', m');
    assert Repeated(threads, workers, c, more, b, steps, i', t', m', i, t, m);
  }

  /**
   * Two issues of one job share a header if and only if some thread starts the later-stamped one on a header
   * that the other had hashed. The clock may have moved either way, and each thread has its own count.
   */
  lemma ReissueRepeatsIff(threads: nat, workers: nat, b: U32, steps: Counts, c: U32, more: Counts)
    requires threads >= 1 && workers >= 1
    requires InTime(threads, workers, b, steps) && InTime(threads, workers, c, more)
    ensures Overlap(threads, workers, b, steps, c, more)
       <==> if b <= c then Caught(threads, workers, b, steps, c, more) else Caught(threads, workers, c, more, b, steps)
  {
    hide Overlap, Caught, InTime;
    if b <= c {
      ForwardRepeatsIff(threads, workers, b, steps, c, more);
    } else {
      ForwardRepeatsIff(threads, workers, c, more, b, steps);
      if Overlap(threads, workers, b, steps, c, more) {
        OverlapSymmetric(threads, workers, b, steps, c, more);
      } else if Overlap(threads, workers, c, more, b, steps) {
        OverlapSymmetric(threads, workers, c, more, b, steps);
      }
    }
  }

  /** The stride of a partitioned layout divides a sweep. */
  lemma StrideDivides(threads: nat, workers: nat, k: nat)
    requires threads >= 1 && workers > 1 && threads * workers <= 0x8000_0000
    ensures Step(threads, workers) >= 1 && k * N % Step(threads, workers) == 0
  {
    TotalPositive(threads, workers);
    var s := NextPow2(threads * workers);
    DoubleFromCovers(1, threads * workers);
    assert Pow(2, 0) == 1;
    var q := DoubleFromDivides(0, threads * workers);
    Multiple(k, q, s);
  }

  lemma Multiple(k: nat, q: nat, s: nat)
    requires s >= 1 && q * s == N
    ensures k * N % s == 0
  {
    Rearrange(k, q, s);
    DivModUnique(k * q, 0, s);
  }

  lemma Rearrange(k: nat, q: nat, s: nat)
    ensures k * (q * s) == k * q * s + 0
  {
  }

  lemma QuotientBelow(d: nat, steps: nat, s: nat)
    requires s >= 1 && d < steps * s
    ensures d / s < steps
  {
    DivMod(d, s);
    if d / s >= steps {
      MulMonotone(s, steps, d / s);
    }
  }

  /** With several workers in separate classes a thread can only meet its own headers again. */
  lemma CatchesItself(threads: nat, workers: nat, b: U32, steps: Counts, c: U32, more: Counts,
                      i: nat, t: nat, i': nat, t': nat)
    requires threads >= 1 && workers > 1 && threads * workers <= 0x8000_0000 && b <= c
    requires i < workers && i' < workers && t < threads && t' < threads
    ensures Catches(threads, workers, b, steps, c, more, i, t, i', t')
       <==> i == i' && t == t' && more(i, t) > 0 && (c - b) * N < steps(i, t) * Step(threads, workers)
  {
    PositionIs(threads, workers, i, t, 0);
    PositionIs(threads, workers, i', t', 0);
    var s, d := Step(threads, workers), (c - b) * N;
    var f, f' := First(threads, workers, i, t), First(threads, workers, i', t');
    StrideDivides(threads, workers, c - b);
    DivMod(d, s);
    DivModUnique(d / s, f', s);
    assert (f' + d) % s == f' && (f' + d) / s == d / s;
    BelowProduct(d, steps(i, t), s);
    if f == f' {
      StartsDistinct(threads, i, t, i', t');
    }
  }

  lemma BelowProduct(d: nat, n: nat, s: nat)
    requires s >= 1 && d % s == 0
    ensures d / s < n <==> d < n * s
  {
    DivMod(d, s);
    if d / s < n {
      MulMonotone(s, d / s + 1, n);
      OneMore(d / s, s);
    } else {
      MulMonotone(s, n, d / s);
    }
  }

  /** Then they overlap if and only if one thread with work in both had swept past the gap. */
  lemma PartitionedRepeatsIff(threads: nat, workers: nat, b: U32, steps: Counts, c: U32, more: Counts)
    requires threads >= 1 && workers > 1 && threads * workers <= 0x8000_0000 && b <= c
    requires InTime(threads, workers, b, steps) && InTime(threads, workers, c, more)
    ensures Overlap(threads, workers, b, steps, c, more)
       <==> exists i: nat, t: nat :: i < workers && t < threads && more(i, t) > 0
                                     && (c - b) * N < steps(i, t) * Step(threads, workers)
  {
    ForwardRepeatsIff(threads, workers, b, steps, c, more);
    hide Overlap, InTime, Step;
    if Caught(threads, workers, b, steps, c, more) {
      var i: nat, t: nat, i': nat, t': nat :| Catches(threads, workers, b, steps, c, more, i, t, i', t');
      CatchesItself(threads, workers, b, steps, c, more, i, t, i', t');
    }
    if i: nat, t: nat :| i < workers && t < threads && more(i, t) > 0
                         && (c - b) * N < steps(i, t) * Step(threads, workers) {
      CatchesItself(threads, workers, b, steps, c, more, i, t, i, t);
    }
  }

  lemma SweptPast(f: nat, d: nat, n: nat, s: nat)
    requires s >= 1 && (f + d) / s < n
    ensures d < n * s
  {
    DivMod(f + d, s);
    MulMonotone(s, (f + d) / s + 1, n);
    OneMore((f + d) / s, s);
  }

  /** In any layout, threads that took equally many headers overlap if and only if the clock moved on by less. */
  lemma EvenRepeatsIff(threads: nat, workers: nat, b: U32, steps: Counts, c: U32, more: Counts, n: nat)
    requires threads >= 1 && workers >= 1 && b <= c
    requires forall i: nat, t: nat :: i < workers && t < threads ==> steps(i, t) == n && more(i, t) > 0
    requires InTime(threads, workers, b, steps) && InTime(threads, workers, c, more)
    ensures Overlap(threads, workers, b, steps, c, more) <==> (c - b) * N < n * Step(threads, workers)
  {
    ForwardRepeatsIff(threads, workers, b, steps, c, more);
    hide Overlap, InTime;
    var d, s := (c - b) * N, Step(threads, workers);
    PositionIs(threads, workers, 0, 0, 0);
    if Caught(threads, workers, b, steps, c, more) {
      var i: nat, t: nat, i': nat, t': nat :| Catches(threads, workers, b, steps, c, more, i, t, i', t');
      SweptPast(First(threads, workers, i', t'), d, n, s);
    }
    if d < n * s {
      QuotientBelow(d, n, s);
      DivMod(d, s);
      if workers > 1 && threads * workers <= 0x8000_0000 {
        StrideDivides(threads, workers, c - b);
      }
      assert First(threads, workers, 0, d % s) == d % s && First(threads, workers, 0, 0) == 0;
      assert Catches(threads, workers, b, steps, c, more, 0, d % s, 0, 0);
    }
  }

  /** The session stamps both issues from the clock: the same stamp exactly until the clock passes the first. */
  lemma SameStamp(declared: U32, first: U32, second: U32)
    requires first <= second
    ensures M.RollNTime(declared, first) <= M.RollNTime(declared, second)
    ensures M.RollNTime(declared, first) == M.RollNTime(declared, second)
       <==> second <= declared || second == first
  {
  }

  /** A target change within one second of the issue, or before the job's ntime, repeats work of a thread in both. */
  lemma SameSecondRepeats(threads: nat, workers: nat, declared: U32, first: U32, second: U32,
                          steps: Counts, more: Counts, i: nat, t: nat)
    requires i < workers && t < threads && steps(i, t) >= 1 && more(i, t) >= 1
    requires first <= second && (second <= declared || second == first)
    requires InTime(threads, workers, M.RollNTime(declared, first), steps)
    requires InTime(threads, workers, M.RollNTime(declared, second), more)
    ensures Overlap(threads, workers, M.RollNTime(declared, first), steps, M.RollNTime(declared, second), more)
  {
    SameStamp(declared, first, second);
    var b := M.RollNTime(declared, first);
    PositionIs(threads, workers, i, t, 0);
    hide Step, InTime, Overlap, First, M.RollNTime;
    DivModUnique(0, First(threads, workers, i, t), Step(threads, workers));
    assert Catches(threads, workers, b, steps, b, more, i, t, i, t);
    CatchesRepeats(threads, workers, b, steps, b, more, i, t, i, t);
  }
}
