// The reconnect scheduler: pool rotation with yield-degradation marks, payout
// address failover and exponential backoff, over arbitrary session outcomes.

module Reconnect {
  const SECOND := 1_000_000_000
  const INITIAL := SECOND
  const MAX := 64 * SECOND
  const JITTER := 25

  /** pools and addresses are never empty; limit 0 means no limit on dials. */
  datatype Config = Config(pools: nat, addrs: nat, limit: nat)

  /**
   * How one session ended, the random draw for the sleep that may follow, and whether the shutdown arrives
   * during that sleep.
   */
  datatype Outcome =
    Outcome(connected: bool, degraded: bool, canceled: bool, fatal: bool, draw: nat, sleepCut: bool)

  datatype Sched = Sched(poolIdx: nat, addrIdx: nat, addrConnected: bool, attempt: nat, backoff: nat, marks: set<nat>)

  datatype Move = Stop | Redial(next: Sched) | Sleep(next: Sched)

  predicate Usable(c: Config)
  {
    c.pools >= 1 && c.addrs >= 1
  }

  /** Only an established session of a multi-pool client is ever judged degraded. */
  predicate Possible(c: Config, o: Outcome)
  {
    o.degraded ==> o.connected && c.pools > 1
  }

  function Begin(): Sched
  {
    Sched(0, 0, false, 0, INITIAL, {})
  }

  /** The pool after next in the ring of n. */
  function Succ(next: nat, n: nat): nat
    requires next < n
  {
    (next + 1) % n
  }

  lemma SuccCases(next: nat, n: nat)
    requires next < n
    ensures Succ(next, n) == if next + 1 < n then next + 1 else 0
  {
  }

  /** Steps from next forward round the ring to start; a full turn when already there. */
  function Gap(start: nat, next: nat, n: nat): nat
    requires start < n && next < n
  {
    if next < start then start - next else start + n - next
  }

  /** The walk from next: the first unmarked pool, or start once every other pool is marked. */
  function Walk(start: nat, next: nat, n: nat, marks: set<nat>): (r: nat)
    requires start < n && next < n
    ensures r < n
    decreases Gap(start, next, n)
  {
    SuccCases(next, n);
    var k := Succ(next, n);
    if k !in marks || k == start then k else Walk(start, k, n, marks)
  }

  /** Steps forward from start to k, from 1 to a full turn. */
  function Distance(start: nat, k: nat, n: nat): nat
    requires start < n && k < n
  {
    if k > start then k - start else k + n - start
  }

  /** The walk stops at the nearest unmarked pool ahead, or back at start. */
  lemma {:induction false} WalkFinds(start: nat, next: nat, n: nat, marks: set<nat>)
    requires start < n && next < n
    ensures var r := Walk(start, next, n, marks);
            && (r in marks ==> r == start)
            && n - Gap(start, next, n) < Distance(start, r, n)
            && forall k: nat :: k < n && n - Gap(start, next, n) < Distance(start, k, n) < Distance(start, r, n)
                 ==> k in marks
    decreases Gap(start, next, n)
  {
    SuccCases(next, n);
    var k := Succ(next, n);
    if k in marks && k != start {
      WalkFinds(start, k, n, marks);
    }
  }

  /** nextFailoverPool, as the source's loop. */
  method NextFailoverPool(start: nat, n: nat, marks: set<nat>) returns (next: nat)
    requires start < n
    ensures next == Walk(start, start, n, marks)
    ensures next < n && (next in marks ==> next == start)
    ensures forall k: nat :: k < n && Distance(start, k, n) < Distance(start, next, n) ==> k in marks
  {
    WalkFinds(start, start, n, marks);
    next := start;
    while true
      invariant next < n && Walk(start, next, n, marks) == Walk(start, start, n, marks)
      decreases Gap(start, next, n)
    {
      SuccCases(next, n);
      next := (next + 1) % n;
      if next !in marks || next == start {
        return;
      }
    }
  }

  /** What a session's end changes before any failover decision. */
  function Closed(s: Sched, o: Outcome): Sched
  {
    s.(addrConnected := s.addrConnected || o.connected,
       marks := if o.degraded && !o.canceled then s.marks + {s.poolIdx} else s.marks,
       backoff := if o.connected then INITIAL else s.backoff)
  }

  /** Address failover, or back off: reached when pool failover found nowhere further to go. */
  function NextAddress(c: Config, s: Sched): Move
    requires Usable(c)
  {
    if !s.addrConnected && c.addrs > 1 then
      var n := s.(addrIdx := (s.addrIdx + 1) % c.addrs, poolIdx := 0);
      if n.addrIdx != 0 then Redial(n) else Sleep(n)
    else Sleep(s)
  }

  function After(c: Config, s: Sched, o: Outcome): Move
    requires Usable(c) && s.poolIdx < c.pools
  {
    var t := Closed(s, o);
    if o.canceled || o.fatal then Stop
    else if c.pools == 1 then NextAddress(c, t)
    else
      var next := Walk(t.poolIdx, t.poolIdx, c.pools, t.marks);
      if next == t.poolIdx && t.poolIdx in t.marks then NextAddress(c, t.(marks := {}, poolIdx := 0))
      else if next > t.poolIdx then Redial(t.(poolIdx := next))
      else NextAddress(c, t.(poolIdx := next))
  }

  /** After the sleep the base doubles, up to the maximum. */
  function Doubled(s: Sched): Sched
  {
    if s.backoff < MAX then s.(backoff := 2 * s.backoff) else s
  }

  /** A quarter either way round the base; a draw outside the span stands for a failed random source. */
  function Jittered(d: nat, draw: nat): int
  {
    var span := d * 2 * JITTER / 100;
    if span <= 0 || draw >= span then d else d - d * JITTER / 100 + draw
  }

  datatype Action =
    | Dial(addr: nat, pool: nat, marks: set<nat>)
    | Wait(base: nat, slept: int)

  predicate Spent(c: Config, s: Sched)
  {
    c.limit > 0 && s.attempt + 1 > c.limit
  }

  /** Everything the loop does, dial by dial and sleep by sleep. */
  function Trace(c: Config, s: Sched, os: seq<Outcome>): seq<Action>
    requires Usable(c) && Valid(c, s) && AllPossible(c, os)
    decreases |os|
  {
    if |os| == 0 || Spent(c, s) then [] else
    var d := s.(attempt := s.attempt + 1);
    StepValid(c, d, os[0]);
    var dial := [Dial(s.addrIdx, s.poolIdx, s.marks)];
    match After(c, d, os[0])
    case Stop => dial
    case Redial(n) => dial + Trace(c, n, os[1..])
    case Sleep(n) =>
      var wait := [Wait(n.backoff, Jittered(n.backoff, os[0].draw))];
      if os[0].sleepCut then dial + wait else dial + wait + Trace(c, Doubled(n), os[1..])
  }

  predicate Base(b: nat)
  {
    b in [SECOND, 2 * SECOND, 4 * SECOND, 8 * SECOND, 16 * SECOND, 32 * SECOND, 64 * SECOND]
  }

  /**
   * What holds at every dial: the pool dialed is unmarked, and a mark exists only once some session has been
   * established, which is what keeps address failover from resetting onto a marked pool.
   */
  predicate Valid(c: Config, s: Sched)
  {
    && s.poolIdx < c.pools && s.addrIdx < c.addrs
    && s.poolIdx !in s.marks
    && (s.marks != {} ==> s.addrConnected && c.pools > 1)
    && (forall k :: k in s.marks ==> k < c.pools)
    && Base(s.backoff)
  }

  lemma NextAddressValid(c: Config, s: Sched)
    requires Usable(c) && Valid(c, s)
    ensures NextAddress(c, s).Redial? ==> Valid(c, NextAddress(c, s).next)
    ensures NextAddress(c, s).Sleep? ==> Valid(c, NextAddress(c, s).next) && Valid(c, Doubled(NextAddress(c, s).next))
  {
  }

  /** Every step keeps it, whatever the outcome. */
  lemma StepValid(c: Config, s: Sched, o: Outcome)
    requires Usable(c) && Valid(c, s) && Possible(c, o)
    ensures var m := After(c, s, o);
            && (m.Redial? ==> Valid(c, m.next))
            && (m.Sleep? ==> Valid(c, m.next) && Valid(c, Doubled(m.next)))
  {
    var t := Closed(s, o);
    if !o.canceled && !o.fatal {
      if c.pools == 1 {
        NextAddressValid(c, t);
      } else {
        WalkFinds(t.poolIdx, t.poolIdx, c.pools, t.marks);
        var next := Walk(t.poolIdx, t.poolIdx, c.pools, t.marks);
        if next == t.poolIdx && t.poolIdx in t.marks {
          NextAddressValid(c, t.(marks := {}, poolIdx := 0));
        } else if next <= t.poolIdx {
          NextAddressValid(c, t.(poolIdx := next));
        }
      }
    }
  }

  // ---------------------------------------------------------------- whole runs

  predicate AllPossible(c: Config, os: seq<Outcome>)
  {
    forall i :: 0 <= i < |os| ==> Possible(c, os[i])
  }

  /** The failover half of the loop body, from a session's end to the next dial or sleep. */
  method FailOver(c: Config, s: Sched, o: Outcome) returns (move: Move)
    requires Usable(c) && Valid(c, s)
    ensures move == After(c, s, o)
    ensures !move.Stop? && o.degraded ==>
              s.poolIdx in move.next.marks || (move.next.marks == {} && move.next.poolIdx == 0)
  {
    var poolIdx, addrIdx, addrConnected, backoff, marks := s.poolIdx, s.addrIdx, s.addrConnected, s.backoff, s.marks;
    addrConnected := addrConnected || o.connected;
    if !o.canceled && o.degraded {
      marks := marks + {poolIdx};
    }
    if o.canceled || o.fatal {
      return Stop;
    }
    if o.connected {
      backoff := INITIAL;
    }
    if c.pools > 1 {
      var prev := poolIdx;
      poolIdx := NextFailoverPool(poolIdx, c.pools, marks);
      if poolIdx == prev && prev in marks {
        marks, poolIdx := {}, 0;
      } else if poolIdx > prev {
        return Redial(Sched(poolIdx, addrIdx, addrConnected, s.attempt, backoff, marks));
      }
    }
    if !addrConnected && c.addrs > 1 {
      addrIdx := (addrIdx + 1) % c.addrs;
      poolIdx := 0;
      if addrIdx != 0 {
        return Redial(Sched(poolIdx, addrIdx, addrConnected, s.attempt, backoff, marks));
      }
    }
    return Sleep(Sched(poolIdx, addrIdx, addrConnected, s.attempt, backoff, marks));
  }

  lemma BeginValid(c: Config)
    requires Usable(c)
    ensures Valid(c, Begin())
  {
  }

  lemma TraceStep(c: Config, s: Sched, os: seq<Outcome>)
    requires Usable(c) && Valid(c, s) && AllPossible(c, os) && |os| > 0 && !Spent(c, s)
    ensures var d := s.(attempt := s.attempt + 1);
            var dial, move := [Dial(s.addrIdx, s.poolIdx, s.marks)], After(c, d, os[0]);
            && Valid(c, d)
            && (move.Stop? ==> Trace(c, s, os) == dial)
            && (move.Redial? ==> Valid(c, move.next) && Trace(c, s, os) == dial + Trace(c, move.next, os[1..]))
            && (move.Sleep? ==>
                  && Valid(c, Doubled(move.next))
                  && var wait := [Wait(move.next.backoff, Jittered(move.next.backoff, os[0].draw))];
                     Trace(c, s, os)
                       == if os[0].sleepCut then dial + wait else dial + wait + Trace(c, Doubled(move.next), os[1..]))
  {
    var d := s.(attempt := s.attempt + 1);
    StepValid(c, d, os[0]);
    hide Valid, After, Jittered, Doubled, Possible;
  }

  /** The reconnect loop: dial, wait for the session to end, fail over or sleep, until something stops it. */
  method RunReconnectLoop(c: Config, os: seq<Outcome>) returns (log: seq<Action>)
    requires Usable(c) && AllPossible(c, os)
    ensures log == Trace(c, Begin(), os)
  {
    hide After, Doubled, Jittered, Valid, Trace, Possible;
    var s, todo := Begin(), os;
    BeginValid(c);
    log := [];
    while |todo| > 0
      invariant AllPossible(c, todo) && Valid(c, s) && Trace(c, Begin(), os) == log + Trace(c, s, todo)
      decreases |todo|
    {
      if c.limit > 0 && s.attempt + 1 > c.limit {
        break;
      }
      TraceStep(c, s, todo);
      var o, entry := todo[0], [Dial(s.addrIdx, s.poolIdx, s.marks)];
      var move := FailOver(c, s.(attempt := s.attempt + 1), o);
      if move.Sleep? {
        entry := entry + [Wait(move.next.backoff, Jittered(move.next.backoff, o.draw))];
      }
      ghost var before := log;
      log := log + entry;
      if move.Stop? || (move.Sleep? && o.sleepCut) {
        return;
      }
      s, todo := if move.Sleep? then Doubled(move.next) else move.next, todo[1..];
      Regroup(before, entry, Trace(c, s, todo));
    }
    TraceEnd(c, s, todo);
  }

  lemma Regroup(a: seq<Action>, b: seq<Action>, rest: seq<Action>)
    ensures a + (b + rest) == a + b + rest
  {
  }

  lemma TraceEnd(c: Config, s: Sched, os: seq<Outcome>)
    requires Usable(c) && Valid(c, s) && AllPossible(c, os) && (|os| == 0 || Spent(c, s))
    ensures Trace(c, s, os) == []
  {
  }

  // ---------------------------------------------------------------- properties of every run

  /** A pool carrying a degradation mark is never the pool dialed. */
  lemma {:induction false} NeverDialMarked(c: Config, s: Sched, os: seq<Outcome>)
    requires Usable(c) && Valid(c, s) && AllPossible(c, os)
    ensures forall i :: 0 <= i < |Trace(c, s, os)| && Trace(c, s, os)[i].Dial?
              ==> Trace(c, s, os)[i].pool !in Trace(c, s, os)[i].marks
    decreases |os|
  {
    hide After, Doubled, Jittered;
    if |os| > 0 && !Spent(c, s) {
      var d := s.(attempt := s.attempt + 1);
      StepValid(c, d, os[0]);
      match After(c, d, os[0])
      case Stop =>
      case Redial(n) => NeverDialMarked(c, n, os[1..]);
      case Sleep(n) => if !os[0].sleepCut { NeverDialMarked(c, Doubled(n), os[1..]); }
    }
  }

  /** Marks go only all at once, when every pool carries one, and the primary is next after a sleep. */
  lemma MarksClearedTogether(c: Config, s: Sched, o: Outcome)
    requires Usable(c) && Valid(c, s) && Possible(c, o)
    requires !After(c, s, o).Stop? && After(c, s, o).next.marks != Closed(s, o).marks
    ensures forall k: nat :: k < c.pools ==> k in Closed(s, o).marks
    ensures After(c, s, o).Sleep? && After(c, s, o).next.marks == {} && After(c, s, o).next.poolIdx == 0
  {
    var t := Closed(s, o);
    WalkFinds(t.poolIdx, t.poolIdx, c.pools, t.marks);
    forall k: nat | k < c.pools ensures k in t.marks {
      assert k == t.poolIdx || Distance(t.poolIdx, k, c.pools) < c.pools;
    }
  }

  lemma StepAddress(c: Config, s: Sched, o: Outcome)
    requires Usable(c) && Valid(c, s) && Possible(c, o) && !After(c, s, o).Stop?
    requires s.addrConnected || o.connected
    ensures After(c, s, o).next.addrConnected && After(c, s, o).next.addrIdx == s.addrIdx
  {
  }

  /** Once a session has been established, every later dial uses the same payout address. */
  lemma {:induction false} AddressFrozen(c: Config, s: Sched, os: seq<Outcome>)
    requires Usable(c) && Valid(c, s) && AllPossible(c, os) && s.addrConnected
    ensures forall i :: 0 <= i < |Trace(c, s, os)| && Trace(c, s, os)[i].Dial? ==> Trace(c, s, os)[i].addr == s.addrIdx
    decreases |os|
  {
    hide After, Jittered;
    if |os| > 0 && !Spent(c, s) {
      var d := s.(attempt := s.attempt + 1);
      StepValid(c, d, os[0]);
      match After(c, d, os[0])
      case Stop =>
      case Redial(n) =>
        StepAddress(c, d, os[0]);
        AddressFrozen(c, n, os[1..]);
      case Sleep(n) =>
        StepAddress(c, d, os[0]);
        if !os[0].sleepCut { AddressFrozen(c, Doubled(n), os[1..]); }
    }
  }

  /** The dial that establishes a session already uses the address every later dial uses. */
  lemma ConnectedAddressKept(c: Config, s: Sched, os: seq<Outcome>)
    requires Usable(c) && Valid(c, s) && AllPossible(c, os) && |os| > 0 && os[0].connected
    ensures forall i :: 0 <= i < |Trace(c, s, os)| && Trace(c, s, os)[i].Dial? ==> Trace(c, s, os)[i].addr == s.addrIdx
  {
    hide After, Jittered;
    if !Spent(c, s) {
      var d := s.(attempt := s.attempt + 1);
      StepValid(c, d, os[0]);
      match After(c, d, os[0])
      case Stop =>
      case Redial(n) =>
        StepAddress(c, d, os[0]);
        AddressFrozen(c, n, os[1..]);
      case Sleep(n) =>
        StepAddress(c, d, os[0]);
        if !os[0].sleepCut { AddressFrozen(c, Doubled(n), os[1..]); }
    }
  }
}
