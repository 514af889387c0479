// How workers and threads share out the (ntime roll, nonce) space of one job,
// through every 32-bit wrap-around.

module NonceSpace {
  import opened Numerals

  const N := 0x1_0000_0000
  const BATCH := 1024

  // Positions count the headers of a job: nonce first, then timestamp rolls.

  function Nonce(p: nat): U32
  {
    p % N
  }

  function Roll(p: nat): U32
  {
    p / N % N
  }

  /** What is hashed: the header's time and nonce. */
  datatype Probe = Probe(time: U32, nonce: U32)

  function ProbeAt(base: U32, p: nat): Probe
  {
    Probe((base + Roll(p)) % N, Nonce(p))
  }

  lemma AddSmall(p: nat, step: nat, q: nat, r: nat)
    requires p == q * N + r && r < N && step < N
    ensures r + step < N ==> (p + step) / N == q && (p + step) % N == r + step
    ensures r + step >= N ==> (p + step) / N == q + 1 && (p + step) % N == r + step - N
  {
    if r + step < N {
      DivModUnique(q, r + step, N);
    } else {
      DivModUnique(q + 1, r + step - N, N);
    }
  }

  lemma SmallMod(r: nat)
    ensures r < N ==> r % N == r
    ensures N <= r < 2 * N ==> r % N == r - N
  {
  }

  /** The code's wrap test: the sum fell below the old nonce exactly when the position crossed a sweep. */
  lemma Advance(p: nat, step: nat)
    requires 1 <= step < N
    ensures Nonce(p + step) == (Nonce(p) + step) % N
    ensures Roll(p + step) == if Nonce(p + step) < Nonce(p) then (Roll(p) + 1) % N else Roll(p)
  {
    var q, r := p / N, p % N;
    DivMod(p, N);
    AddSmall(p, step, q, r);
    SmallMod(r + step);
    if r + step >= N {
      NextMod(q);
    }
  }

  lemma NextMod(q: nat)
    ensures (q + 1) % N == (q % N + 1) % N
  {
    var k, r := q / N, q % N;
    DivMod(q, N);
    AddSmall(q, 1, k, r);
    SmallMod(r + 1);
  }

  /** Position of a thread's k-th header. */
  function Place(start: nat, step: nat, k: nat): nat
  {
    start + k * step
  }

  /** The registers at the k-th header advance to those at the next one. */
  lemma PlaceNext(start: U32, step: U32, k: nat)
    requires step >= 1
    ensures var p, n := Place(start, step, k), Place(start, step, k + 1);
            && Nonce(n) == (Nonce(p) + step) % N
            && Roll(n) == if Nonce(n) < Nonce(p) then (Roll(p) + 1) % N else Roll(p)
  {
    hide Nonce, Roll;
    OneMore(k, step);
    Advance(Place(start, step, k), step);
  }

  lemma PlaceFirst(start: U32, step: U32)
    ensures Place(start, step, 0) == start && Nonce(start) == start && Roll(start) == 0
  {
  }

  /** The hot loop on one job: batch after batch, each thread walks its own arithmetic progression. */
  method Grind(base: U32, start: U32, step: U32, batches: nat) returns (log: seq<Probe>)
    requires step >= 1
    ensures |log| == batches * BATCH
    ensures forall k :: 0 <= k < |log| ==> log[k] == ProbeAt(base, Place(start, step, k))
  {
    var nonce, ntimeRoll := start, 0;
    log := [];
    PlaceFirst(start, step);
    hide Nonce, Roll, Place;
    for b := 0 to batches
      invariant |log| == b * BATCH
      invariant nonce == Nonce(Place(start, step, |log|)) && ntimeRoll == Roll(Place(start, step, |log|))
      invariant forall k :: 0 <= k < |log| ==> log[k] == ProbeAt(base, Place(start, step, k))
    {
      var time := (base + ntimeRoll) % N;
      for i := 0 to BATCH
        invariant |log| == b * BATCH + i
        invariant nonce == Nonce(Place(start, step, |log|)) && ntimeRoll == Roll(Place(start, step, |log|))
        invariant time == (base + ntimeRoll) % N
        invariant forall k :: 0 <= k < |log| ==> log[k] == ProbeAt(base, Place(start, step, k))
      {
        PlaceNext(start, step, |log|);
        log := log + [Probe(time, nonce)];
        var prev := nonce;
        nonce := (nonce + step) % N;
        if nonce < prev {
          ntimeRoll := (ntimeRoll + 1) % N;
          time := (base + ntimeRoll) % N;
        }
      }
    }
  }

  /** Within 2^32 sweeps, different positions are different headers. */
  lemma ProbeInjective(base: U32, p: nat, q: nat)
    requires p < N * N && q < N * N && ProbeAt(base, p) == ProbeAt(base, q)
    ensures p == q
  {
    DivMod(p, N);
    DivMod(q, N);
    RollSmall(p);
    RollSmall(q);
    TimeInjective(base, Roll(p), Roll(q));
  }

  lemma RollSmall(p: nat)
    requires p < N * N
    ensures Roll(p) == p / N
  {
    DivMod(p, N);
    SmallMod(p / N);
  }

  lemma TimeInjective(base: U32, a: U32, b: U32)
    requires (base + a) % N == (base + b) % N
    ensures a == b
  {
    SmallMod(base + a);
    SmallMod(base + b);
  }

  // ---------------------------------------------------------------- the layout

  /** Smallest power of two not below total. */
  function NextPow2(total: nat): nat
    requires total >= 1
  {
    DoubleFrom(1, total)
  }

  function DoubleFrom(s: nat, total: nat): nat
    requires s >= 1
    decreases total - s
  {
    if s < total then DoubleFrom(2 * s, total) else s
  }

  /** The stride loop, in 32 bits. */
  method Stride(total: nat) returns (stride: U32)
    requires 1 <= total <= 0x8000_0000
    ensures stride == NextPow2(total)
    ensures total <= stride < 2 * total
    ensures exists k :: 0 <= k <= 31 && stride == Pow(2, k)
  {
    stride := 1;
    var k := 0;
    assert Pow(2, 31) == 0x8000_0000 by { PowersOfTwo(); }
    while stride < total
      invariant 1 <= stride < 2 * total && 0 <= k <= 31 && stride == Pow(2, k)
      invariant DoubleFrom(stride, total) == NextPow2(total)
      decreases total - stride
    {
      if k == 31 {
        assert false;
      }
      stride := (stride * 2) % N;
      k := k + 1;
    }
  }

  lemma PowersOfTwo()
    ensures Pow(2, 31) == 0x8000_0000 && Pow(2, 32) == N
  {
    PowAdd(2, 8, 8);
    PowAdd(2, 16, 8);
    PowAdd(2, 24, 7);
    assert Pow(2, 8) == 256;
    assert Pow(2, 7) == 128;
    assert Pow(2, 32) == 2 * Pow(2, 31);
  }

  datatype Share = Share(offset: nat, step: nat)

  /** Are the workers' residue classes kept apart? One worker needs nothing; more need the stride to fit. */
  predicate Partitioned(threads: nat, workers: nat)
  {
    workers == 1 || threads * workers <= 0x8000_0000
  }

  function Layout(threads: nat, workers: nat, i: nat): Share
    requires threads >= 1 && i < workers
  {
    if workers > 1 && threads * workers <= 0x8000_0000 then
      TotalPositive(threads, workers);
      Share(i * threads, NextPow2(threads * workers))
    else Share(0, threads)
  }

  lemma TotalPositive(threads: nat, workers: nat)
    requires threads >= 1 && workers >= 1
    ensures threads * workers >= 1
  {
    MulMonotone(threads, 1, workers);
  }

  /** The offset and step of one worker; a step is a 32-bit number. */
  method WorkerShare(threads: nat, workers: nat, i: nat) returns (share: Share)
    requires 1 <= threads < N && i < workers
    ensures share == Layout(threads, workers, i)
  {
    TotalPositive(threads, workers);
    var offset, step := 0, threads;
    var total := threads * workers;
    if workers > 1 && total > 0 && total <= 0x8000_0000 {
      step := Stride(total);
      offset := i * threads;
    }
    share := Share(offset, step);
  }

  /** startMinerWorkers: the offset and step of every worker. */
  method StartWorkers(threads: nat, workers: nat) returns (shares: seq<Share>)
    requires 1 <= threads < N
    ensures |shares| == workers
    ensures forall i :: 0 <= i < workers ==> shares[i] == Layout(threads, workers, i)
  {
    hide Layout;
    shares := [];
    for i := 0 to workers
      invariant |shares| == i
      invariant forall k :: 0 <= k < i ==> shares[k] == Layout(threads, workers, k)
    {
      var share := WorkerShare(threads, workers, i);
      shares := shares + [share];
    }
  }

  function Position(threads: nat, workers: nat, i: nat, t: nat, m: nat): nat
    requires threads >= 1 && i < workers && t < threads
  {
    var l := Layout(threads, workers, i);
    Place(l.offset + t, l.step, m)
  }

  /** Threads take the first positions in order, worker by worker; without room for that every worker takes the same. */
  lemma FirstPositions(threads: nat, workers: nat, i: nat, t: nat)
    requires threads >= 1 && i < workers && t < threads
    ensures Position(threads, workers, i, t, 0) == if Partitioned(threads, workers) then i * threads + t else t
  {
    if workers == 1 {
      assert i * threads == 0;
    }
  }

  lemma {:induction false} DoubleFromCovers(s: nat, total: nat)
    requires s >= 1
    ensures DoubleFrom(s, total) >= total && DoubleFrom(s, total) >= 1
    decreases total - s
  {
    if s < total {
      DoubleFromCovers(2 * s, total);
    }
  }

  lemma StartsDistinct(threads: nat, i: nat, t: nat, i': nat, t': nat)
    requires t < threads && t' < threads && i * threads + t == i' * threads + t'
    ensures i == i' && t == t'
  {
    DivModUnique(i, t, threads);
    DivModUnique(i', t', threads);
  }

  lemma StartBelow(threads: nat, workers: nat, i: nat, t: nat)
    requires i < workers && t < threads
    ensures i * threads + t < threads * workers
  {
    MulMonotone(threads, i + 1, workers);
    OneMore(i, threads);
  }

  lemma ProgressionsDistinct(a: nat, m: nat, b: nat, n: nat, step: nat)
    requires a < step && b < step && a + m * step == b + n * step
    ensures a == b && m == n
  {
    DivModUnique(m, a, step);
    DivModUnique(n, b, step);
  }

  /** Different (worker, thread, step) triples are at different positions. */
  lemma PositionsDistinct(threads: nat, workers: nat, i: nat, t: nat, m: nat, i': nat, t': nat, m': nat)
    requires threads >= 1 && i < workers && t < threads && i' < workers && t' < threads
    requires Partitioned(threads, workers)
    requires Position(threads, workers, i, t, m) == Position(threads, workers, i', t', m')
    ensures i == i' && t == t' && m == m'
  {
    if workers == 1 {
      ProgressionsDistinct(t, m, t', m', threads);
    } else {
      TotalPositive(threads, workers);
      var stride := NextPow2(threads * workers);
      DoubleFromCovers(1, threads * workers);
      StartBelow(threads, workers, i, t);
      StartBelow(threads, workers, i', t');
      ProgressionsDistinct(i * threads + t, m, i' * threads + t', m', stride);
      StartsDistinct(threads, i, t, i', t');
    }
  }

  /** Some header of the job is hashed twice. */
  ghost predicate Repeats(threads: nat, workers: nat, base: U32)
    requires threads >= 1
  {
    exists i: nat, t: nat, m: nat, i': nat, t': nat, m': nat ::
      Clash(threads, workers, base, i, t, m, i', t', m')
  }

  predicate Clash(threads: nat, workers: nat, base: U32, i: nat, t: nat, m: nat, i': nat, t': nat, m': nat)
    requires threads >= 1
  {
    && i < workers && i' < workers && t < threads && t' < threads && (i, t, m) != (i', t', m')
    && Position(threads, workers, i, t, m) < N * N && Position(threads, workers, i', t', m') < N * N
    && ProbeAt(base, Position(threads, workers, i, t, m)) == ProbeAt(base, Position(threads, workers, i', t', m'))
  }

  /** Main result: no header is ever hashed twice, exactly when the worker classes were kept apart. */
  lemma NoDuplicateWork(threads: nat, workers: nat, base: U32)
    requires 1 <= threads < N && workers >= 1
    ensures !Repeats(threads, workers, base) <==> Partitioned(threads, workers)
  {
    if Partitioned(threads, workers) {
      forall i: nat, t: nat, m: nat, i': nat, t': nat, m': nat
        ensures !Clash(threads, workers, base, i, t, m, i', t', m')
      {
        if Clash(threads, workers, base, i, t, m, i', t', m') {
          ProbeInjective(base, Position(threads, workers, i, t, m), Position(threads, workers, i', t', m'));
          PositionsDistinct(threads, workers, i, t, m, i', t', m');
        }
      }
    } else {
      assert Position(threads, workers, 0, 0, 0) == Position(threads, workers, 1, 0, 0) == 0;
      assert Clash(threads, workers, base, 0, 0, 0, 1, 0, 0);
    }
  }

  /** The stride divides 2^32, so a nonce keeps its class through every wrap. */
  lemma ClassForever(p: nat, stride: nat, q: nat)
    requires stride >= 1 && N == q * stride
    ensures Nonce(p) % stride == p % stride
  {
    DivMod(p, N);
    var a, r := p / N, p % N;
    DivMod(r, stride);
    var b, s := r / stride, r % stride;
    Combine(a, q, b, stride, s);
    DivModUnique(a * q + b, s, stride);
  }

  lemma Combine(a: nat, q: nat, b: nat, stride: nat, s: nat)
    ensures a * (q * stride) + (b * stride + s) == (a * q + b) * stride + s
  {
  }

  lemma {:induction false} DoubleFromDivides(k: nat, total: nat) returns (q: nat)
    requires k <= 31 && total <= 0x8000_0000
    ensures q * DoubleFrom(Pow(2, k), total) == N
    decreases 31 - k
  {
    PowersOfTwo();
    var s := Pow(2, k);
    if s < total {
      if k == 31 {
        assert false;
      } else {
        assert Pow(2, k + 1) == 2 * s;
        q := DoubleFromDivides(k + 1, total);
      }
    } else {
      PowAdd(2, 32 - k, k);
      q := Pow(2, 32 - k);
    }
  }

  lemma ClassesApart(a: nat, m: nat, b: nat, n: nat, stride: nat, q: nat)
    requires a < stride && b < stride && a != b && N == q * stride
    ensures Nonce(a + m * stride) != Nonce(b + n * stride)
  {
    hide Nonce;
    ClassForever(a + m * stride, stride, q);
    ClassForever(b + n * stride, stride, q);
    DivModUnique(m, a, stride);
    DivModUnique(n, b, stride);
  }

  /** Two threads of a partitioned multi-worker layout never meet on a nonce, however long the job runs. */
  lemma NoncesNeverMeet(threads: nat, workers: nat, i: nat, t: nat, m: nat, i': nat, t': nat, m': nat)
    requires threads >= 1 && workers > 1 && threads * workers <= 0x8000_0000
    requires i < workers && t < threads && i' < workers && t' < threads && (i, t) != (i', t')
    ensures Nonce(Position(threads, workers, i, t, m)) != Nonce(Position(threads, workers, i', t', m'))
  {
    TotalPositive(threads, workers);
    StartBelow(threads, workers, i, t);
    StartBelow(threads, workers, i', t');
    assert Pow(2, 0) == 1;
    var q := DoubleFromDivides(0, threads * workers);
    DoubleFromCovers(1, threads * workers);
    hide Nonce, DoubleFrom, Pow;
    var a, b := i * threads + t, i' * threads + t';
    if a == b {
      StartsDistinct(threads, i, t, i', t');
    }
    ClassesApart(a, m, b, m', NextPow2(threads * workers), q);
  }

  // ---------------------------------------------------------------- coverage

  ghost predicate Reached(threads: nat, workers: nat, p: nat)
    requires threads >= 1
  {
    exists i: nat, t: nat, m: nat :: i < workers && t < threads && Position(threads, workers, i, t, m) == p
  }

  lemma ReachedBy(threads: nat, workers: nat, p: nat, i: nat, t: nat, m: nat)
    requires threads >= 1 && i < workers && t < threads && Position(threads, workers, i, t, m) == p
    ensures Reached(threads, workers, p)
  {
  }

  /** One worker reaches every position, and by PositionsDistinct exactly once. */
  lemma SingleWorkerCovers(threads: nat, p: nat)
    requires 1 <= threads < N
    ensures Reached(threads, 1, p)
  {
    DivMod(p, threads);
    ReachedBy(threads, 1, p, 0, p % threads, p / threads);
  }

  lemma ReachedResidue(threads: nat, workers: nat, p: nat)
    requires threads >= 1 && workers > 1 && 1 <= threads * workers <= 0x8000_0000
    requires Reached(threads, workers, p)
    ensures NextPow2(threads * workers) >= 1 && p % NextPow2(threads * workers) < threads * workers
  {
    DoubleFromCovers(1, threads * workers);
    var i: nat, t: nat, m: nat :| i < workers && t < threads && Position(threads, workers, i, t, m) == p;
    StartBelow(threads, workers, i, t);
    DivModUnique(m, i * threads + t, NextPow2(threads * workers));
  }

  lemma ResidueReached(threads: nat, workers: nat, p: nat, m: nat, r: nat)
    requires threads >= 1 && workers > 1 && 1 <= threads * workers <= 0x8000_0000
    requires r < threads * workers && p == m * NextPow2(threads * workers) + r
    ensures Reached(threads, workers, p)
  {
    DivMod(r, threads);
    WorkerInRange(r, threads, workers);
    var i, t := r / threads, r % threads;
    assert Position(threads, workers, i, t, m) == i * threads + t + m * NextPow2(threads * workers);
    ReachedBy(threads, workers, p, i, t, m);
  }

  /** Several workers reach exactly the residues below threads times workers. */
  lemma SeveralWorkersCover(threads: nat, workers: nat, p: nat)
    requires threads >= 1 && workers > 1 && threads * workers <= 0x8000_0000
    ensures threads * workers >= 1 && NextPow2(threads * workers) >= 1
    ensures Reached(threads, workers, p) <==> p % NextPow2(threads * workers) < threads * workers
  {
    TotalPositive(threads, workers);
    DoubleFromCovers(1, threads * workers);
    if Reached(threads, workers, p) {
      ReachedResidue(threads, workers, p);
    } else {
      var m, r := SplitBy(p, NextPow2(threads * workers));
      if r < threads * workers {
        ResidueReached(threads, workers, p, m, r);
      }
    }
  }

  lemma SplitBy(p: nat, d: nat) returns (m: nat, r: nat)
    requires d >= 1
    ensures p == m * d + r && r == p % d
  {
    DivMod(p, d);
    m, r := p / d, p % d;
  }

  lemma WorkerInRange(r: nat, threads: nat, workers: nat)
    requires threads >= 1 && r < threads * workers
    ensures r / threads < workers
  {
    DivMod(r, threads);
    if r / threads >= workers {
      MulMonotone(threads, workers, r / threads);
    }
  }

  /** Several workers leave no header out exactly when threads times workers is a power of two. */
  lemma FullCoverage(threads: nat, workers: nat)
    requires threads >= 1 && workers > 1 && threads * workers <= 0x8000_0000
    ensures threads * workers >= 1
    ensures (forall p: nat :: Reached(threads, workers, p)) <==> NextPow2(threads * workers) == threads * workers
  {
    TotalPositive(threads, workers);
    var total, stride := threads * workers, NextPow2(threads * workers);
    DoubleFromCovers(1, total);
    if stride == total {
      forall p: nat ensures Reached(threads, workers, p) {
        SeveralWorkersCover(threads, workers, p);
      }
    } else {
      SeveralWorkersCover(threads, workers, total);
      DivModUnique(0, total, stride);
    }
  }
}
