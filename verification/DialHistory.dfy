// The reconnect loop judged from outside: each dial and each sleep follows from
// the dials and the session outcomes before it.

module DialHistory {
  import opened Reconnect

  /** What an observer remembers: pools degraded since the last amnesty, any session yet, the next sleep, dials. */
  datatype History = History(bad: set<nat>, connected: bool, base: nat, dials: nat)

  const FIRST := History({}, false, 1_000_000_000, 0)

  /** The pools found degraded, counting this outcome. */
  function Found(h: History, pool: nat, o: Outcome): set<nat>
  {
    if o.degraded && !o.canceled then h.bad + {pool} else h.bad
  }

  /** Every pool has been found degraded: all are forgiven. */
  predicate Amnesty(c: Config, found: set<nat>)
  {
    forall k: nat :: k < c.pools ==> k in found
  }

  function Noted(c: Config, h: History, pool: nat, o: Outcome): History
  {
    var found := Found(h, pool, o);
    History(if Amnesty(c, found) then {} else found, h.connected || o.connected,
            if o.connected then 1_000_000_000 else h.base, h.dials + 1)
  }

  /** After a sleep the next one is twice as long, up to 64 seconds. */
  function Slept(h: History): History
  {
    h.(base := if h.base < 64_000_000_000 then 2 * h.base else h.base)
  }

  /** The next pool: the nearest one ahead in the ring that is not degraded; after an amnesty the primary. */
  predicate NextPool(c: Config, found: set<nat>, from: nat, to: nat)
  {
    && from < c.pools && to < c.pools
    && if Amnesty(c, found) then to == 0
       else to !in found && forall k: nat :: k < c.pools && Distance(from, k, c.pools) < Distance(from, to, c.pools) ==>
              k in found
  }

  /** No session so far, the ring is done, and there are other addresses: the next address is due. */
  predicate AddressDue(c: Config, h: History, from: nat, to: nat, o: Outcome)
  {
    to <= from && !h.connected && !o.connected && c.addrs > 1
  }

  /** The dial that follows, if any does: to pool q, at the same address or the next one. */
  predicate NextDial(c: Config, h: History, a: Action, o: Outcome, q: nat, rest: seq<Action>)
    requires a.Dial? && c.addrs >= 1
  {
    |rest| > 0 ==>
      && rest[0].Dial? && rest[0].pool == q
      && rest[0].addr == if AddressDue(c, h, a.pool, q, o) then (a.addr + 1) % c.addrs else a.addr
  }

  /** The loop goes on as long as sessions come and the limit allows. */
  predicate GoesOn(c: Config, h: History, rest: seq<Action>, os: seq<Outcome>)
  {
    |rest| > 0 <==> |os| > 0 && (c.limit == 0 || h.dials < c.limit)
  }

  /** Dial by dial: t is what the loop does on these outcomes, given this history. */
  ghost predicate Follows(c: Config, h: History, t: seq<Action>, os: seq<Outcome>)
    requires c.addrs >= 1
    decreases |os|
  {
    if |t| == 0 then true else
    && |os| > 0 && t[0].Dial? && t[0].pool !in h.bad
    && var a, o := t[0], os[0];
       if o.canceled || o.fatal then |t| == 1
       else exists q: nat :: NextPool(c, Found(h, a.pool, o), a.pool, q) && Leads(c, h, t, os, q)
  }

  /**
   * The loop sleeps before the next dial unless that goes to a later pool, or to a later address; a shutdown during
   * the sleep is the end.
   */
  ghost predicate Leads(c: Config, h: History, t: seq<Action>, os: seq<Outcome>, q: nat)
    requires c.addrs >= 1 && |t| > 0 && |os| > 0 && t[0].Dial?
    decreases |os|, 0
  {
    var a, o := t[0], os[0];
    var n := Noted(c, h, a.pool, o);
    if q > a.pool || (AddressDue(c, h, a.pool, q, o) && a.addr + 1 < c.addrs)
    then NextDial(c, h, a, o, q, t[1..]) && GoesOn(c, n, t[1..], os[1..]) && Follows(c, n, t[1..], os[1..])
    else
      && |t| > 1 && t[1].Wait? && t[1].base == n.base
      && if o.sleepCut then |t| == 2
         else
           && NextDial(c, h, a, o, q, t[2..]) && GoesOn(c, n, t[2..], os[1..])
           && Follows(c, Slept(n), t[2..], os[1..])
  }

  /** The scheduler's state and the observer's memory agree. */
  predicate Agrees(s: Sched, h: History)
  {
    s.marks == h.bad && s.addrConnected == h.connected && s.backoff == h.base && s.attempt == h.dials
  }

  /** One session's end, seen from outside. */
  lemma MoveFollows(c: Config, s: Sched, h: History, o: Outcome) returns (q: nat)
    requires Usable(c) && Valid(c, s) && Possible(c, o) && !o.canceled && !o.fatal
    requires Agrees(s.(attempt := h.dials), h) && s.attempt == h.dials + 1
    ensures NextPool(c, Found(h, s.poolIdx, o), s.poolIdx, q)
    ensures var m, n := After(c, s, o), Noted(c, h, s.poolIdx, o);
            && !m.Stop? && Agrees(m.next, n) && Agrees(Doubled(m.next), Slept(n)) && m.next.poolIdx == q
            && m.next.addrIdx == (if AddressDue(c, h, s.poolIdx, q, o) then (s.addrIdx + 1) % c.addrs else s.addrIdx)
            && (m.Redial? <==> q > s.poolIdx || (AddressDue(c, h, s.poolIdx, q, o) && s.addrIdx + 1 < c.addrs))
  {
    var t := Closed(s, o);
    var next := Walk(t.poolIdx, t.poolIdx, c.pools, t.marks);
    WalkFinds(t.poolIdx, t.poolIdx, c.pools, t.marks);
    assert t.marks == Found(h, s.poolIdx, o);
    RingFull(c, t.poolIdx, next, t.marks);
    hide Walk, Amnesty, Distance, Gap, Base;
    SuccCases(s.addrIdx, c.addrs);
    if c.pools == 1 {
      OnePool(c, t.marks);
    }
    q := After(c, s, o).next.poolIdx;
  }

  /** With a single pool there is no degraded verdict, so no amnesty. */
  lemma OnePool(c: Config, marks: set<nat>)
    requires c.pools == 1 && marks == {}
    ensures !Amnesty(c, marks)
  {
    assert 0 !in marks;
  }

  /** The walk comes back to a marked start exactly when every pool is marked. */
  lemma RingFull(c: Config, start: nat, next: nat, marks: set<nat>)
    requires start < c.pools && next < c.pools && (next in marks ==> next == start)
    requires forall k: nat :: k < c.pools && Distance(start, k, c.pools) < Distance(start, next, c.pools) ==> k in marks
    ensures next == start && start in marks <==> Amnesty(c, marks)
  {
    if next == start && start in marks {
      forall k: nat | k < c.pools ensures k in marks {
        assert k == start || Distance(start, k, c.pools) < c.pools;
      }
    }
  }

  lemma TraceGoesOn(c: Config, s: Sched, h: History, os: seq<Outcome>)
    requires Usable(c) && Valid(c, s) && AllPossible(c, os) && s.attempt == h.dials
    ensures GoesOn(c, h, Trace(c, s, os), os)
    ensures |Trace(c, s, os)| > 0 ==> Trace(c, s, os)[0] == Dial(s.addrIdx, s.poolIdx, s.marks)
  {
  }

  /** Main result: every run of the loop is the one the history calls for. */
  lemma {:induction false} LoopFollows(c: Config, s: Sched, os: seq<Outcome>, h: History)
    requires Usable(c) && Valid(c, s) && AllPossible(c, os) && Agrees(s, h)
    ensures Follows(c, h, Trace(c, s, os), os)
    decreases |os|
  {
    hide After, Doubled, Jittered, Trace, NextPool, Slept, Noted;
    if |os| == 0 || Spent(c, s) {
      TraceEnd(c, s, os);
    } else {
      TraceStep(c, s, os);
      var d, o := s.(attempt := s.attempt + 1), os[0];
      if o.canceled || o.fatal {
        StopsNow(c, d, o);
      } else {
        var q := MoveFollows(c, d, h, o);
        var move, n := After(c, d, o), Noted(c, h, s.poolIdx, o);
        var t := Trace(c, s, os);
        if move.Redial? {
          TraceGoesOn(c, move.next, n, os[1..]);
          LoopFollows(c, move.next, os[1..], n);
          assert t[1..] == Trace(c, move.next, os[1..]);
        } else if !o.sleepCut {
          var after := Doubled(move.next);
          DoubledPlace(move.next);
          TraceGoesOn(c, after, n, os[1..]);
          LoopFollows(c, after, os[1..], Slept(n));
          assert t[2..] == Trace(c, after, os[1..]);
        }
        assert Leads(c, h, t, os, q);
      }
    }
  }

  lemma StopsNow(c: Config, s: Sched, o: Outcome)
    requires Usable(c) && Valid(c, s) && (o.canceled || o.fatal)
    ensures After(c, s, o).Stop?
  {
  }

  lemma DoubledPlace(s: Sched)
    ensures var d := Doubled(s); d.poolIdx == s.poolIdx && d.addrIdx == s.addrIdx && d.attempt == s.attempt
  {
  }

  // ---------------------------------------------------------------- by index

  /** The pools dialed, in order; the i-th dial is the one whose session has the i-th outcome. */
  function Pools(t: seq<Action>): seq<nat>
  {
    if |t| == 0 then [] else (if t[0].Dial? then [t[0].pool] else []) + Pools(t[1..])
  }

  predicate Degraded(o: Outcome)
  {
    o.degraded && !o.canceled
  }

  /** Degraded pools not yet forgiven before the m-th dial. */
  function BadBefore(c: Config, ps: seq<nat>, os: seq<Outcome>, m: nat): set<nat>
    requires m <= |ps| <= |os|
    decreases m, 0
  {
    if m == 0 || Forgiven(c, ps, os, m - 1) then {} else FoundAt(c, ps, os, m - 1)
  }

  function FoundAt(c: Config, ps: seq<nat>, os: seq<Outcome>, m: nat): set<nat>
    requires m < |ps| <= |os|
    decreases m, 1
  {
    BadBefore(c, ps, os, m) + if Degraded(os[m]) then {ps[m]} else {}
  }

  /** With the m-th outcome every pool has been found degraded since the amnesty before. */
  predicate Forgiven(c: Config, ps: seq<nat>, os: seq<Outcome>, m: nat)
    requires m < |ps| <= |os|
    decreases m, 2
  {
    Amnesty(c, FoundAt(c, ps, os, m))
  }

  /** The g-th session found pool k degraded, and no amnesty came from then up to the m-th. */
  predicate FoundBy(c: Config, ps: seq<nat>, os: seq<Outcome>, m: nat, k: nat, g: nat)
    requires m < |ps| <= |os|
  {
    g <= m && ps[g] == k && Degraded(os[g]) && forall a: nat :: g <= a < m ==> !Forgiven(c, ps, os, a)
  }

  ghost predicate FoundSince(c: Config, ps: seq<nat>, os: seq<Outcome>, m: nat, k: nat)
    requires m < |ps| <= |os|
  {
    exists g: nat :: FoundBy(c, ps, os, m, k, g)
  }

  /** What that set is: pools with a degraded outcome since the last amnesty. */
  lemma {:induction false} FoundMeans(c: Config, ps: seq<nat>, os: seq<Outcome>, m: nat, k: nat)
    requires m < |ps| <= |os|
    ensures k in FoundAt(c, ps, os, m) <==> FoundSince(c, ps, os, m, k)
  {
    hide Amnesty, Degraded;
    if ps[m] == k && Degraded(os[m]) {
      assert FoundBy(c, ps, os, m, k, m);
    }
    if m > 0 {
      FoundMeans(c, ps, os, m - 1, k);
      hide Forgiven;
      var last := m - 1;
      if FoundSince(c, ps, os, last, k) && !Forgiven(c, ps, os, last) {
        var g: nat :| FoundBy(c, ps, os, last, k, g);
        assert FoundBy(c, ps, os, m, k, g);
      }
      if g: nat :| FoundBy(c, ps, os, m, k, g) && g < m {
        assert FoundBy(c, ps, os, last, k, g);
      }
    }
  }

  lemma PoolsStep(t: seq<Action>)
    requires |t| > 0 && t[0].Dial?
    ensures Pools(t) == [t[0].pool] + Pools(t[1..])
    ensures |t| > 1 && t[1].Wait? ==> Pools(t[1..]) == Pools(t[2..])
  {
    if |t| > 1 && t[1].Wait? {
      assert t[1..][1..] == t[2..];
    }
  }

  lemma {:induction false} FollowsCounts(c: Config, h: History, t: seq<Action>, os: seq<Outcome>)
    requires c.addrs >= 1 && Follows(c, h, t, os)
    ensures |Pools(t)| <= |os|
    decreases |os|
  {
    hide NextPool, NextDial, GoesOn, Noted, Slept, AddressDue, Found;
    if |t| > 0 {
      PoolsStep(t);
      if !os[0].canceled && !os[0].fatal {
        var q: nat :| NextPool(c, Found(h, t[0].pool, os[0]), t[0].pool, q) && Leads(c, h, t, os, q);
        var n := Noted(c, h, t[0].pool, os[0]);
        if Follows(c, n, t[1..], os[1..]) {
          FollowsCounts(c, n, t[1..], os[1..]);
        } else if |t| > 2 {
          FollowsCounts(c, Slept(n), t[2..], os[1..]);
        }
      }
    }
  }

  lemma {:induction false} FollowsAvoids(c: Config, h: History, t: seq<Action>, os: seq<Outcome>, done: seq<nat>,
                                         past: seq<Outcome>)
    requires c.addrs >= 1 && Follows(c, h, t, os) && |done| == |past|
    requires |done| + |Pools(t)| <= |past + os| && h.bad == BadBefore(c, done + Pools(t), past + os, |done|)
    ensures forall i :: |done| <= i < |done| + |Pools(t)| ==>
              (done + Pools(t))[i] !in BadBefore(c, done + Pools(t), past + os, i)
    decreases |os|
  {
    hide NextPool, NextDial, GoesOn, BadBefore, Pools, AddressDue;
    if |t| == 0 {
      NoPools(t);
    } else {
      PoolsStep(t);
      var ps, o := done + Pools(t), os[0];
      assert ps[|done|] == t[0].pool && (past + os)[|done|] == o;
      if o.canceled || o.fatal {
        NoPools(t[1..]);
      } else {
        var q: nat :| NextPool(c, Found(h, t[0].pool, o), t[0].pool, q) && Leads(c, h, t, os, q);
        var n := Noted(c, h, t[0].pool, o);
        NotedIs(c, h, ps, past + os, |done|);
        assert done + [t[0].pool] + Pools(t[1..]) == ps && past + [o] + os[1..] == past + os;
        if Follows(c, n, t[1..], os[1..]) {
          FollowsAvoids(c, n, t[1..], os[1..], done + [t[0].pool], past + [o]);
        } else if |t| > 2 {
          SleptBad(n);
          FollowsAvoids(c, Slept(n), t[2..], os[1..], done + [t[0].pool], past + [o]);
        } else {
          NoPools(t[2..]);
        }
      }
    }
  }

  lemma NoPools(t: seq<Action>)
    requires |t| == 0
    ensures Pools(t) == []
  {
  }

  lemma SleptBad(h: History)
    ensures Slept(h).bad == h.bad
  {
  }

  lemma NotedIs(c: Config, h: History, ps: seq<nat>, os: seq<Outcome>, m: nat)
    requires m < |ps| <= |os| && h.bad == BadBefore(c, ps, os, m)
    ensures Noted(c, h, ps[m], os[m]).bad == BadBefore(c, ps, os, m + 1)
  {
    hide Amnesty;
    assert Found(h, ps[m], os[m]) == FoundAt(c, ps, os, m);
  }

  lemma {:induction false} BadStays(c: Config, ps: seq<nat>, os: seq<Outcome>, i: nat, j: nat)
    requires i < j <= |ps| <= |os| && Degraded(os[i])
    requires forall m: nat :: i <= m < j ==> !Forgiven(c, ps, os, m)
    ensures ps[i] in BadBefore(c, ps, os, j)
    decreases j
  {
    hide Amnesty, Degraded, Forgiven;
    if i < j - 1 {
      BadStays(c, ps, os, i, j - 1);
    }
  }

  /** The i-th dial and the j-th go to one pool, and the i-th session was found degraded. */
  predicate Returns(ps: seq<nat>, os: seq<Outcome>, i: nat, j: nat)
  {
    i < j < |ps| <= |os| && Degraded(os[i]) && ps[j] == ps[i]
  }

  lemma RunAvoids(c: Config, os: seq<Outcome>)
    requires Usable(c) && AllPossible(c, os) && Valid(c, Begin())
    ensures var ps := Pools(Trace(c, Begin(), os));
            |ps| <= |os| && forall i :: 0 <= i < |ps| ==> ps[i] !in BadBefore(c, ps, os, i)
  {
    var t := Trace(c, Begin(), os);
    LoopFollows(c, Begin(), os, FIRST);
    hide Follows, Trace, Pools;
    FollowsCounts(c, FIRST, t, os);
    assert [] + Pools(t) == Pools(t) && [] + os == os;
    FollowsAvoids(c, FIRST, t, os, [], []);
  }

  /** At the m-th session the last pool has been found degraded since the amnesty before. */
  ghost predicate AllFound(c: Config, ps: seq<nat>, os: seq<Outcome>, m: nat)
    requires m < |ps| <= |os|
  {
    forall k: nat :: k < c.pools ==> FoundSince(c, ps, os, m, k)
  }

  /**
   * A pool whose session was found degraded is not dialed again until, in between, every pool has had a degraded
   * session since the amnesty before. Dials and outcomes alone say so.
   */
  lemma DegradedNotRedialed(c: Config, os: seq<Outcome>, i: nat, j: nat)
    requires Usable(c) && AllPossible(c, os) && Valid(c, Begin())
    requires Returns(Pools(Trace(c, Begin(), os)), os, i, j)
    ensures var ps := Pools(Trace(c, Begin(), os));
            exists m: nat :: i <= m < j && AllFound(c, ps, os, m)
  {
    RunAvoids(c, os);
    var ps := Pools(Trace(c, Begin(), os));
    hide Trace, Pools, FoundSince;
    if forall m: nat :: i <= m < j ==> !Forgiven(c, ps, os, m) {
      BadStays(c, ps, os, i, j);
      assert false;
    }
    var m: nat :| i <= m < j && Forgiven(c, ps, os, m);
    forall k: nat | k < c.pools ensures FoundSince(c, ps, os, m, k) {
      FoundMeans(c, ps, os, m, k);
    }
    assert AllFound(c, ps, os, m);
  }
}
