// Bounds on whole runs of the reconnect loop: dials per burst, the full sweep
// of a client that never connects, and the sleep schedule.

module ReconnectRuns {
  import opened Numerals
  import opened Reconnect

  /** Position of a dial in the address-by-address, pool-by-pool order. */
  function Rank(c: Config, addr: nat, pool: nat): nat
  {
    addr * c.pools + pool
  }

  lemma RankBelow(c: Config, addr: nat, pool: nat)
    requires addr < c.addrs && pool < c.pools
    ensures Rank(c, addr, pool) < c.addrs * c.pools
  {
    MulMonotone(c.pools, addr, c.addrs - 1);
  }

  /** A redial without a sleep always moves forward in that order. */
  lemma RedialAdvances(c: Config, s: Sched, o: Outcome)
    requires Usable(c) && Valid(c, s) && Possible(c, o) && After(c, s, o).Redial?
    ensures var n := After(c, s, o).next; Rank(c, n.addrIdx, n.poolIdx) > Rank(c, s.addrIdx, s.poolIdx)
  {
    var n := After(c, s, o).next;
    if n.addrIdx != s.addrIdx {
      AddressAdvances(c, s, n);
    }
  }

  lemma AddressAdvances(c: Config, s: Sched, n: Sched)
    requires s.poolIdx < c.pools && s.addrIdx < c.addrs && n.addrIdx == (s.addrIdx + 1) % c.addrs && n.addrIdx != 0
    ensures Rank(c, n.addrIdx, n.poolIdx) > Rank(c, s.addrIdx, s.poolIdx)
  {
    assert s.addrIdx + 1 <= c.addrs;
    assert n.addrIdx == s.addrIdx + 1;
    MulMonotone(c.pools, s.addrIdx + 1, n.addrIdx);
  }

  predicate Forward(c: Config, a: Action, b: Action)
  {
    a.Dial? && b.Dial? ==> Rank(c, b.addr, b.pool) > Rank(c, a.addr, a.pool)
  }

  predicate InBounds(c: Config, a: Action)
  {
    a.Dial? ==> a.addr < c.addrs && a.pool < c.pools
  }

  lemma FirstDial(c: Config, s: Sched, os: seq<Outcome>)
    requires Usable(c) && Valid(c, s) && AllPossible(c, os)
    ensures |Trace(c, s, os)| > 0 ==> Trace(c, s, os)[0] == Dial(s.addrIdx, s.poolIdx, s.marks)
  {
  }

  /** Two dials in a row always move forward. */
  lemma {:induction false} DialsAdvance(c: Config, s: Sched, os: seq<Outcome>)
    requires Usable(c) && Valid(c, s) && AllPossible(c, os)
    ensures forall i :: 0 <= i < |Trace(c, s, os)| - 1 ==> Forward(c, Trace(c, s, os)[i], Trace(c, s, os)[i + 1])
    ensures forall i :: 0 <= i < |Trace(c, s, os)| ==> InBounds(c, Trace(c, s, os)[i])
    decreases |os|
  {
    hide After, Doubled, Jittered, Rank, Trace;
    if |os| == 0 || Spent(c, s) {
      TraceEnd(c, s, os);
    } else {
      TraceStep(c, s, os);
      var d := s.(attempt := s.attempt + 1);
      var move := After(c, d, os[0]);
      if move.Redial? {
        RedialAdvances(c, d, os[0]);
        FirstDial(c, move.next, os[1..]);
        DialsAdvance(c, move.next, os[1..]);
      } else if move.Sleep? && !os[0].sleepCut {
        DialsAdvance(c, Doubled(move.next), os[1..]);
      }
    }
  }

  lemma {:induction false} RanksClimb(c: Config, t: seq<Action>, i: nat, j: nat)
    requires i <= j < |t| && forall k :: i <= k <= j ==> t[k].Dial?
    requires forall k :: 0 <= k < |t| - 1 ==> Forward(c, t[k], t[k + 1])
    ensures Rank(c, t[j].addr, t[j].pool) >= Rank(c, t[i].addr, t[i].pool) + (j - i)
    decreases j
  {
    if i < j {
      RanksClimb(c, t, i, j - 1);
      assert Forward(c, t[j - 1], t[j - 1 + 1]);
    }
  }

  /** Between two sleeps at most pools times addresses dials happen. */
  lemma BurstBound(c: Config, s: Sched, os: seq<Outcome>, i: nat, j: nat)
    requires Usable(c) && Valid(c, s) && AllPossible(c, os)
    requires i <= j <= |Trace(c, s, os)| && forall k :: i <= k < j ==> Trace(c, s, os)[k].Dial?
    ensures j - i <= c.addrs * c.pools
  {
    var t := Trace(c, s, os);
    if i < j {
      DialsAdvance(c, s, os);
      RanksClimb(c, t, i, j - 1);
      assert InBounds(c, t[j - 1]);
      RankBelow(c, t[j - 1].addr, t[j - 1].pool);
    } else {
      MulMonotone(c.pools, 0, c.addrs);
    }
  }

  // ---------------------------------------------------------------- a client that never connects

  predicate Failing(o: Outcome)
  {
    !o.connected && !o.degraded && !o.canceled && !o.fatal
  }

  /** One failed dial without a connection: the next pair, or after the last one a sleep and the first again. */
  lemma FailedDial(c: Config, s: Sched, o: Outcome)
    requires Usable(c) && Valid(c, s) && !s.addrConnected && Failing(o)
    ensures var m, r := After(c, s, o), Rank(c, s.addrIdx, s.poolIdx);
            && !m.Stop? && !m.next.addrConnected && m.next.backoff == s.backoff && m.next.attempt == s.attempt
            && if r + 1 < c.addrs * c.pools
               then m.Redial? && Rank(c, m.next.addrIdx, m.next.poolIdx) == r + 1
               else m.Sleep? && m.next.addrIdx == 0 && m.next.poolIdx == 0
  {
    SuccCases(s.poolIdx, c.pools);
    var a, p := s.addrIdx, s.poolIdx;
    LastPair(a, p, c.addrs, c.pools);
    if p + 1 == c.pools && c.addrs > 1 {
      SuccCases(a, c.addrs);
    }
  }

  lemma LastPair(a: nat, p: nat, addrs: nat, pools: nat)
    requires a < addrs && p < pools
    ensures a * pools + p + 1 < addrs * pools <==> !(a + 1 == addrs && p + 1 == pools)
    ensures p + 1 == pools ==> (a + 1) * pools == a * pools + p + 1
  {
    if a + 1 < addrs {
      MulMonotone(pools, a + 2, addrs);
    }
  }

  /** Until a session is established, a sweep dials every address on every pool, in order, before it sleeps. */
  lemma {:induction false} FullSweep(c: Config, s: Sched, os: seq<Outcome>)
    requires Usable(c) && Valid(c, s) && AllPossible(c, os) && c.limit == 0 && !s.addrConnected
    requires |os| >= c.addrs * c.pools - Rank(c, s.addrIdx, s.poolIdx)
    requires forall i :: 0 <= i < |os| ==> Failing(os[i])
    ensures var t, left := Trace(c, s, os), c.addrs * c.pools - Rank(c, s.addrIdx, s.poolIdx);
            && 0 < left < |t| && t[left] == Wait(s.backoff, Jittered(s.backoff, os[left - 1].draw))
            && forall i :: 0 <= i < left ==>
                 t[i].Dial? && t[i].addr < c.addrs && t[i].pool < c.pools
                 && Rank(c, t[i].addr, t[i].pool) == Rank(c, s.addrIdx, s.poolIdx) + i
    decreases |os|
  {
    hide After, Doubled, Jittered, Rank, Trace;
    RankBelow(c, s.addrIdx, s.poolIdx);
    TraceStep(c, s, os);
    var d := s.(attempt := s.attempt + 1);
    FailedDial(c, d, os[0]);
    var move := After(c, d, os[0]);
    if move.Redial? {
      FullSweep(c, move.next, os[1..]);
    }
  }

  // ---------------------------------------------------------------- sleeps

  /** Every sleep lies within a quarter of its base, and the base is a power of two from 1 s to 64 s. */
  lemma JitterRange(d: nat, draw: nat)
    requires Base(d)
    ensures 3 * d <= 4 * Jittered(d, draw) < 5 * d
  {
  }

  /** The draws spread the sleep evenly over that range, from its lower end to its upper; a failed draw is the base. */
  lemma JitterSpread(d: nat, draw: nat)
    requires Base(d)
    ensures if 2 * draw < d then 4 * Jittered(d, draw) == 3 * d + 4 * draw else Jittered(d, draw) == d
  {
  }

  lemma {:induction false} SleepsInRange(c: Config, s: Sched, os: seq<Outcome>)
    requires Usable(c) && Valid(c, s) && AllPossible(c, os)
    ensures forall i :: 0 <= i < |Trace(c, s, os)| && Trace(c, s, os)[i].Wait? ==>
              var w := Trace(c, s, os)[i]; Base(w.base) && 3 * w.base <= 4 * w.slept < 5 * w.base
    decreases |os|
  {
    hide After, Doubled, Jittered, Trace;
    if |os| == 0 || Spent(c, s) {
      TraceEnd(c, s, os);
    } else {
      TraceStep(c, s, os);
      var d := s.(attempt := s.attempt + 1);
      StepValid(c, d, os[0]);
      var move := After(c, d, os[0]);
      if move.Redial? {
        SleepsInRange(c, move.next, os[1..]);
      } else if move.Sleep? {
        JitterRange(move.next.backoff, os[0].draw);
        if !os[0].sleepCut {
          SleepsInRange(c, Doubled(move.next), os[1..]);
        }
      }
    }
  }

  function Bases(t: seq<Action>): seq<nat>
  {
    if |t| == 0 then [] else (if t[0].Wait? then [t[0].base] else []) + Bases(t[1..])
  }

  lemma {:induction false} BasesAppend(a: seq<Action>, b: seq<Action>)
    ensures Bases(a + b) == Bases(a) + Bases(b)
  {
    if |a| == 0 {
      assert a + b == b;
    } else {
      assert (a + b)[0] == a[0] && (a + b)[1..] == a[1..] + b;
      var first := if a[0].Wait? then [a[0].base] else [];
      assert Bases(a) == first + Bases(a[1..]) && Bases(a + b) == first + Bases(a[1..] + b);
      hide Bases;
      BasesAppend(a[1..], b);
      assert first + (Bases(a[1..]) + Bases(b)) == first + Bases(a[1..]) + Bases(b);
    }
  }

  function Scheduled(base: nat, k: nat): nat
  {
    if base * Pow(2, k) < MAX then base * Pow(2, k) else MAX
  }

  lemma DoublingSchedule(s: Sched, k: nat)
    requires Base(s.backoff)
    ensures Scheduled(Doubled(s).backoff, k) == Scheduled(s.backoff, k + 1)
    ensures Scheduled(s.backoff, 0) == s.backoff
  {
  }

  lemma StepBackoff(c: Config, s: Sched, o: Outcome)
    requires Usable(c) && Valid(c, s) && !o.connected && !After(c, s, o).Stop?
    ensures After(c, s, o).next.backoff == s.backoff
  {
  }

  /** Without a connection the k-th sleep's base is the initial base doubled k times, capped at 64 s. */
  lemma {:induction false} BackoffDoubles(c: Config, s: Sched, os: seq<Outcome>, k: nat)
    requires Usable(c) && Valid(c, s) && AllPossible(c, os)
    requires forall i :: 0 <= i < |os| ==> !os[i].connected
    requires k < |Bases(Trace(c, s, os))|
    ensures Bases(Trace(c, s, os))[k] == Scheduled(s.backoff, k)
    decreases |os|
  {
    hide After, Doubled, Jittered, Trace, Scheduled;
    if |os| == 0 || Spent(c, s) {
      TraceEnd(c, s, os);
    } else {
      TraceStep(c, s, os);
      var d := s.(attempt := s.attempt + 1);
      var move := After(c, d, os[0]);
      var dial := [Dial(s.addrIdx, s.poolIdx, s.marks)];
      if move.Redial? {
        StepBackoff(c, d, os[0]);
        BasesAppend(dial, Trace(c, move.next, os[1..]));
        BackoffDoubles(c, move.next, os[1..], k);
      } else if move.Sleep? {
        StepBackoff(c, d, os[0]);
        StepValid(c, d, os[0]);
        var wait := [Wait(move.next.backoff, Jittered(move.next.backoff, os[0].draw))];
        assert Bases(dial + wait) == [move.next.backoff] by { BasesAppend(dial, wait); }
        DoublingSchedule(move.next, if k > 0 then k - 1 else 0);
        if !os[0].sleepCut {
          BasesAppend(dial + wait, Trace(c, Doubled(move.next), os[1..]));
          if k > 0 {
            BackoffDoubles(c, Doubled(move.next), os[1..], k - 1);
          }
        }
      }
    }
  }

  function Dials(t: seq<Action>): nat
  {
    if |t| == 0 then 0 else (if t[0].Dial? then 1 else 0) + Dials(t[1..])
  }

  lemma {:induction false} DialsAppend(a: seq<Action>, b: seq<Action>)
    ensures Dials(a + b) == Dials(a) + Dials(b)
  {
    if |a| == 0 {
      assert a + b == b;
    } else {
      assert (a + b)[1..] == a[1..] + b;
      DialsAppend(a[1..], b);
    }
  }

  lemma StepAttempt(c: Config, s: Sched, o: Outcome)
    requires Usable(c) && Valid(c, s) && !After(c, s, o).Stop?
    ensures After(c, s, o).next.attempt == s.attempt && Doubled(After(c, s, o).next).attempt == s.attempt
  {
  }

  /** A positive attempt limit caps the dials of the whole run. */
  lemma {:induction false} DialLimit(c: Config, s: Sched, os: seq<Outcome>)
    requires Usable(c) && Valid(c, s) && AllPossible(c, os) && c.limit > 0 && s.attempt <= c.limit
    ensures Dials(Trace(c, s, os)) + s.attempt <= c.limit
    decreases |os|
  {
    hide After, Doubled, Jittered, Trace;
    if |os| == 0 || Spent(c, s) {
      TraceEnd(c, s, os);
    } else {
      TraceStep(c, s, os);
      var d := s.(attempt := s.attempt + 1);
      var move := After(c, d, os[0]);
      var dial := [Dial(s.addrIdx, s.poolIdx, s.marks)];
      assert Dials(dial) == 1;
      if !move.Stop? {
        StepAttempt(c, d, os[0]);
      }
      if move.Redial? {
        DialsAppend(dial, Trace(c, move.next, os[1..]));
        DialLimit(c, move.next, os[1..]);
      } else if move.Sleep? {
        var wait := [Wait(move.next.backoff, Jittered(move.next.backoff, os[0].draw))];
        assert Dials(dial + wait) == 1 by { DialsAppend(dial, wait); }
        if !os[0].sleepCut {
          DialsAppend(dial + wait, Trace(c, Doubled(move.next), os[1..]));
          DialLimit(c, Doubled(move.next), os[1..]);
        }
      }
    }
  }
}
