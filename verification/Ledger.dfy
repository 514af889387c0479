// The submit ledger of a Stratum V2 session: sequence numbers, outstanding
// submits, batch acknowledgements, rejects and the reaper.

module Ledger {
  import opened Numerals
  import opened CompactTarget

  const CAP := 1024
  const WRAP := 0x1_0000_0000

  datatype Ledger = Ledger(
    seqNum: U32, sentAt: map<U32, nat>, sentTarget: map<U32, Hash>,
    found: nat, dropped: nat, submitted: nat, accepted: nat, rejected: nat, retargeted: nat)

  function Fresh(): Ledger
  {
    Ledger(0, map[], map[], 0, 0, 0, 0, 0, 0)
  }

  /** uint32 addition and subtraction wrap. */
  function Plus(a: U32, b: int): U32
  {
    (a + b) % WRAP
  }

  function Count(l: Ledger): Ledger
  {
    l.(seqNum := Plus(l.seqNum, 1), found := l.found + 1)
  }

  function Drop(l: Ledger): Ledger
  {
    Count(l).(dropped := l.dropped + 1)
  }

  function Below(l: Ledger, bound: int): set<U32>
  {
    set n | n in l.sentAt && n < bound
  }

  function Forget(l: Ledger, seqs: set<U32>): Ledger
  {
    l.(sentAt := l.sentAt - seqs, sentTarget := l.sentTarget - seqs)
  }

  function Record(l: Ledger, target: Hash, now: nat): Ledger
  {
    l.(submitted := l.submitted + 1,
       sentAt := l.sentAt[l.seqNum := now], sentTarget := l.sentTarget[l.seqNum := target])
  }

  /** What the reaper drops: above the cap, everything older than half a cap of sequence numbers. */
  function Reaped(l: Ledger): set<U32>
  {
    if |l.sentAt| > CAP then Below(l, Plus(l.seqNum, -(CAP / 2))) else {}
  }

  function Submit(l: Ledger, target: Hash, now: nat): Ledger
  {
    var r := Record(Count(l), target, now);
    Forget(r, Reaped(r))
  }

  /** A batch acknowledgement settles every outstanding submit up to its last sequence number. */
  function Acked(l: Ledger, last: U32): set<U32>
  {
    if last > l.seqNum then {} else Below(l, last + 1)
  }

  /** The pool's count is believed only within what was settled locally. */
  function Credit(settled: nat, claimed: U32): nat
  {
    if claimed == 0 || claimed > settled then settled else claimed
  }

  function Accept(l: Ledger, last: U32, claimed: U32): Ledger
  {
    if last > l.seqNum then l else
    var gone := Acked(l, last);
    Forget(l, gone).(accepted := l.accepted + Credit(|gone|, claimed))
  }

  /** A reject issued under a target the pool has since replaced is not held against it. */
  predicate TransitionReject(difficulty: bool, issued: Hash, current: Hash)
  {
    difficulty && issued != ZeroHash() && issued != current
  }

  function Reject(l: Ledger, n: U32, difficulty: bool, current: Hash): Ledger
  {
    if n > l.seqNum || n !in l.sentAt then l else
    var f := Forget(l, {n});
    if n in l.sentTarget && TransitionReject(difficulty, l.sentTarget[n], current)
    then f.(retargeted := l.retargeted + 1)
    else f.(rejected := l.rejected + 1)
  }

  predicate InRange(keys: set<U32>, top: int)
  {
    forall n :: n in keys ==> 1 <= n <= top
  }

  /** Outstanding sequence numbers were issued, both maps agree, and the maps are bounded. */
  ghost predicate Valid(l: Ledger)
  {
    && l.sentAt.Keys == l.sentTarget.Keys
    && InRange(l.sentAt.Keys, l.seqNum)
    && |l.sentAt| <= CAP
  }

  /** Pigeonhole: a set of integers in [lo, hi) has at most hi - lo elements. */
  lemma {:induction false} RangeSize(s: set<U32>, lo: int, hi: int)
    requires lo <= hi
    requires forall x :: x in s ==> lo <= x < hi
    ensures |s| <= hi - lo
    decreases hi - lo
  {
    if lo == hi {
      assert s == {};
    } else {
      var r := s - {hi - 1};
      RangeSize(r, lo, hi - 1);
      if hi - 1 in s {
        assert s == r + {hi - 1};
      } else {
        assert s == r;
      }
    }
  }

  lemma ForgetSize(l: Ledger, seqs: set<U32>)
    requires seqs <= l.sentAt.Keys
    ensures |Forget(l, seqs).sentAt| == |l.sentAt| - |seqs|
    ensures Forget(l, seqs).sentAt.Keys == l.sentAt.Keys - seqs
  {
    var f := Forget(l, seqs);
    assert f.sentAt.Keys == l.sentAt.Keys - seqs;
    assert |f.sentAt| == |f.sentAt.Keys| && |l.sentAt| == |l.sentAt.Keys|;
  }

  lemma ForgetValid(l: Ledger, seqs: set<U32>)
    requires Valid(l) && seqs <= l.sentAt.Keys
    ensures Valid(Forget(l, seqs))
  {
    ForgetSize(l, seqs);
    var f := Forget(l, seqs);
    assert f.sentTarget.Keys == l.sentTarget.Keys - seqs;
  }

  lemma Issued(l: Ledger, n: U32)
    requires Valid(l) && n in l.sentAt.Keys
    ensures 1 <= n <= l.seqNum
  {
  }

  /** What an acknowledgement removes, and that the rest of the accounts stay. */
  lemma AcceptKeys(l: Ledger, last: U32, claimed: U32)
    ensures Accept(l, last, claimed).sentAt.Keys == l.sentAt.Keys - Acked(l, last)
    ensures Acked(l, last) <= l.sentAt.Keys
    ensures Valid(l) ==> Valid(Accept(l, last, claimed))
  {
    ForgetSize(l, Acked(l, last));
    if last <= l.seqNum && Valid(l) {
      ForgetValid(l, Acked(l, last));
    }
  }

  function Refused(l: Ledger, n: U32): set<U32>
  {
    if n <= l.seqNum && n in l.sentAt then {n} else {}
  }

  lemma RejectKeys(l: Ledger, n: U32, difficulty: bool, current: Hash)
    ensures Reject(l, n, difficulty, current).sentAt.Keys == l.sentAt.Keys - Refused(l, n)
    ensures Refused(l, n) <= l.sentAt.Keys
    ensures Valid(l) ==> Valid(Reject(l, n, difficulty, current))
  {
    ForgetSize(l, Refused(l, n));
    if Valid(l) {
      ForgetValid(l, Refused(l, n));
    }
  }

  lemma RecordSize(l: Ledger, target: Hash, now: nat)
    requires l.seqNum !in l.sentAt
    ensures Record(l, target, now).sentAt.Keys == l.sentAt.Keys + {l.seqNum}
    ensures |Record(l, target, now).sentAt| == |l.sentAt| + 1
  {
    var r := Record(l, target, now);
    assert r.sentAt.Keys == l.sentAt.Keys + {l.seqNum};
    assert |r.sentAt| == |r.sentAt.Keys| && |l.sentAt| == |l.sentAt.Keys|;
  }

  lemma CutoffAboveHalf(n: U32)
    requires n >= CAP / 2
    ensures Plus(n, -(CAP / 2)) == n - CAP / 2
  {
  }

  /** After reaping, only the last CAP/2 + 1 sequence numbers can remain. */
  lemma ReapBounds(r: Ledger)
    requires InRange(r.sentAt.Keys, r.seqNum)
    requires |r.sentAt| == CAP + 1
    ensures |Forget(r, Reaped(r)).sentAt| <= CAP / 2 + 1
  {
    hide Plus;
    assert |r.sentAt| == |r.sentAt.Keys|;
    RangeSize(r.sentAt.Keys, 1, r.seqNum + 1);
    CutoffAboveHalf(r.seqNum);
    assert Reaped(r) == Below(r, r.seqNum - CAP / 2);
    hide Reaped;
    var f := Forget(r, Reaped(r));
    RangeSize(f.sentAt.Keys, r.seqNum - CAP / 2, r.seqNum + 1);
    assert |f.sentAt| == |f.sentAt.Keys|;
  }

  /** The reaper spares the newest half a cap of numbers. */
  lemma NewestStays(r: Ledger)
    requires InRange(r.sentAt.Keys, r.seqNum) && |r.sentAt| > CAP
    ensures r.seqNum !in Reaped(r)
    ensures forall n :: n in Reaped(r) <==> n in r.sentAt && n < r.seqNum - 512
  {
    assert |r.sentAt| == |r.sentAt.Keys|;
    RangeSize(r.sentAt.Keys, 1, r.seqNum + 1);
    CutoffAboveHalf(r.seqNum);
    hide Plus;
  }

  lemma RecordKeysAgree(l: Ledger, target: Hash, now: nat)
    requires l.sentAt.Keys == l.sentTarget.Keys
    ensures var r := Record(l, target, now); r.sentAt.Keys == r.sentTarget.Keys
  {
  }

  lemma ForgetKeysAgree(l: Ledger, seqs: set<U32>)
    requires l.sentAt.Keys == l.sentTarget.Keys
    ensures Forget(l, seqs).sentAt.Keys == Forget(l, seqs).sentTarget.Keys == l.sentAt.Keys - seqs
  {
    var f := Forget(l, seqs);
    assert f.sentAt.Keys == l.sentAt.Keys - seqs;
    assert f.sentTarget.Keys == l.sentTarget.Keys - seqs;
  }

  /** The keys after a submit: the old ones, the new number, minus what was reaped. */
  lemma SubmitKeys(l: Ledger, target: Hash, now: nat)
    requires l.sentAt.Keys == l.sentTarget.Keys && Plus(l.seqNum, 1) !in l.sentAt.Keys
    ensures var r := Record(Count(l), target, now);
            var f := Submit(l, target, now);
            && r.sentAt.Keys == l.sentAt.Keys + {r.seqNum} && r.seqNum == Plus(l.seqNum, 1) == f.seqNum
            && |r.sentAt| == |l.sentAt| + 1
            && f == Forget(r, Reaped(r))
            && f.sentAt.Keys == f.sentTarget.Keys == r.sentAt.Keys - Reaped(r)
            && |f.sentAt| == |r.sentAt| - |Reaped(r)|
  {
    hide Plus;
    var c := Count(l);
    RecordSize(c, target, now);
    RecordKeysAgree(c, target, now);
    var r := Record(c, target, now);
    assert Reaped(r) <= r.sentAt.Keys;
    ForgetSize(r, Reaped(r));
    ForgetKeysAgree(r, Reaped(r));
  }

  lemma RangeAfterSubmit(keys: set<U32>, gone: set<U32>, top: U32)
    requires top >= 1 && InRange(keys, top - 1)
    ensures InRange(keys + {top}, top) && InRange(keys + {top} - gone, top)
  {
  }

  lemma PlusOne(n: U32)
    requires n < WRAP - 1
    ensures Plus(n, 1) == n + 1
  {
  }

  lemma NextIsFresh(l: Ledger)
    requires InRange(l.sentAt.Keys, l.seqNum) && l.seqNum < WRAP - 1
    ensures Plus(l.seqNum, 1) == l.seqNum + 1 && l.seqNum + 1 !in l.sentAt.Keys
  {
    PlusOne(l.seqNum);
  }

  /** Recording at a fresh sequence number keeps the ledger valid; the reaper makes it fit. */
  lemma SubmitValid(l: Ledger, target: Hash, now: nat)
    requires Valid(l) && l.seqNum < WRAP - 1
    ensures Valid(Submit(l, target, now))
  {
    NextIsFresh(l);
    hide Plus, Submit, Record, Count, Forget, Reaped, InRange;
    SubmitKeys(l, target, now);
    var r := Record(Count(l), target, now);
    RangeAfterSubmit(l.sentAt.Keys, Reaped(r), r.seqNum);
    if |r.sentAt| > CAP {
      ReapBounds(r);
    }
  }

  lemma SubmitFields(l: Ledger, target: Hash, now: nat)
    ensures var f := Submit(l, target, now);
            && f.seqNum == Plus(l.seqNum, 1) && f.found == l.found + 1 && f.submitted == l.submitted + 1
            && f.dropped == l.dropped && f.accepted == l.accepted && f.rejected == l.rejected
            && f.retargeted == l.retargeted
            && (forall n :: n in f.sentTarget ==>
                  if n == f.seqNum then f.sentTarget[n] == target
                  else n in l.sentTarget && f.sentTarget[n] == l.sentTarget[n])
            && forall n :: n in f.sentAt ==>
                 if n == f.seqNum then f.sentAt[n] == now else n in l.sentAt && f.sentAt[n] == l.sentAt[n]
  {
    hide Plus, Reaped;
  }

  lemma SubmitLeaves(l: Ledger, target: Hash, now: nat)
    requires Valid(l) && l.seqNum < 0xFFFF_FFFF
    ensures var r := Record(Count(l), target, now);
            && r.seqNum == l.seqNum + 1 && |r.sentAt| == |l.sentAt| + 1
            && forall n :: n in Reaped(r) <==> |l.sentAt| == 1024 && n in l.sentAt && n < r.seqNum - 512
  {
    NextIsFresh(l);
    SubmitKeys(l, target, now);
    var r := Record(Count(l), target, now);
    hide Plus, Record, Count, Submit;
    RangeAfterSubmit(l.sentAt.Keys, {}, r.seqNum);
    if |r.sentAt| > CAP {
      NewestStays(r);
      forall n ensures n in Reaped(r) <==> n in l.sentAt && n < r.seqNum - 512 {
        assert n in r.sentAt <==> n in r.sentAt.Keys;
      }
    }
  }

  /**
   * What a submit leaves outstanding: itself, and the rest of the ledger; once 1024 were outstanding before it, of
   * those only the last 512 numbers issued. What stays keeps the target it was filed under.
   */
  lemma SubmitExact(l: Ledger, target: Hash, now: nat)
    requires Valid(l) && l.seqNum < 0xFFFF_FFFF
    ensures var f := Submit(l, target, now);
            && f.seqNum == l.seqNum + 1 && f.found == l.found + 1 && f.submitted == l.submitted + 1
            && f.dropped == l.dropped && f.accepted == l.accepted && f.rejected == l.rejected
            && f.retargeted == l.retargeted
            && (forall n :: n in f.sentAt
                  <==> n == f.seqNum || (n in l.sentAt && (|l.sentAt| < 1024 || n >= f.seqNum - 512)))
            && f.sentTarget.Keys == f.sentAt.Keys && f.sentTarget[f.seqNum] == target
            && f.sentAt[f.seqNum] == now
            && forall n :: n in f.sentTarget && n != f.seqNum ==>
                 n in l.sentTarget && f.sentTarget[n] == l.sentTarget[n] && f.sentAt[n] == l.sentAt[n]
  {
    NextIsFresh(l);
    SubmitKeys(l, target, now);
    SubmitLeaves(l, target, now);
    SubmitFields(l, target, now);
    hide Plus, Reaped, Submit, Record, Count;
    var f := Submit(l, target, now);
    forall n ensures n in f.sentAt
      <==> n == f.seqNum || (n in l.sentAt && (|l.sentAt| < 1024 || n >= f.seqNum - 512))
    {
      assert n in f.sentAt <==> n in f.sentAt.Keys;
    }
    assert f.seqNum in f.sentTarget.Keys;
  }

  // ---------------------------------------------------------------- verdicts

  /** The outstanding numbers up to last. */
  function UpTo(l: Ledger, last: U32): set<U32>
  {
    set n | n in l.sentAt && n <= last
  }

  /**
   * A batch acknowledgement: ignored when it names a number never issued; otherwise every outstanding number up
   * to it is settled, no other, and the pool's own count is credited as far as it is positive and not above that.
   */
  lemma AcceptExact(l: Ledger, last: U32, count: U32)
    ensures var a, settled := Accept(l, last, count), |UpTo(l, last)|;
            && (forall n :: n in a.sentAt <==> n in l.sentAt && (last > l.seqNum || n > last))
            && (forall n :: n in a.sentTarget <==> n in l.sentTarget && (last > l.seqNum || n > last || n !in l.sentAt))
            && (forall n :: n in a.sentAt ==> a.sentAt[n] == l.sentAt[n])
            && (forall n :: n in a.sentTarget ==> a.sentTarget[n] == l.sentTarget[n])
            && a.accepted == l.accepted
                 + (if last > l.seqNum then 0 else if 1 <= count <= settled then count else settled)
            && a == l.(sentAt := a.sentAt, sentTarget := a.sentTarget, accepted := a.accepted)
  {
    if last <= l.seqNum {
      assert Acked(l, last) == UpTo(l, last);
    }
  }

  /**
   * A reject: ignored unless it names an outstanding number; otherwise that one is settled, and it is excused if it
   * is a difficulty reject of a share ground under a known target other than the one in force.
   */
  lemma RejectExact(l: Ledger, n: U32, difficulty: bool, current: Hash)
    requires Valid(l)
    ensures var a := Reject(l, n, difficulty, current);
            && (forall k :: k in a.sentAt <==> k in l.sentAt && k != n)
            && (forall k :: k in a.sentTarget <==> k in l.sentTarget && k != n)
            && (forall k :: k in a.sentTarget ==> a.sentTarget[k] == l.sentTarget[k])
            && var excused := n in l.sentTarget && difficulty && l.sentTarget[n] !in {ZeroHash(), current};
               && a.rejected == l.rejected + (if n in l.sentAt && !excused then 1 else 0)
               && a.retargeted == l.retargeted + (if n in l.sentAt && excused then 1 else 0)
               && a == l.(sentAt := a.sentAt, sentTarget := a.sentTarget, rejected := a.rejected,
                          retargeted := a.retargeted)
  {
    if n in l.sentAt {
      Issued(l, n);
    } else {
      assert n !in l.sentTarget.Keys;
    }
  }

  /** The wrap: at the last sequence number the range survives exactly when nothing is or becomes outstanding. */
  lemma CountAtWrap(l: Ledger)
    requires Valid(l) && l.seqNum == WRAP - 1
    ensures Valid(Drop(l)) <==> |l.sentAt| == 0
  {
    assert Drop(l).seqNum == 0;
    if |l.sentAt| != 0 {
      assert |l.sentAt| == |l.sentAt.Keys|;
      var n :| n in l.sentAt.Keys;
      assert n in Drop(l).sentAt;
    }
  }

  /** A submit there survives only when the reaper happens to clear the whole ledger with it. */
  lemma SubmitAtWrap(l: Ledger, target: Hash, now: nat)
    requires Valid(l) && l.seqNum == WRAP - 1
    ensures Valid(Submit(l, target, now))
       <==> |l.sentAt| == CAP && forall n :: n in l.sentAt ==> n < WRAP - CAP / 2
  {
    assert Plus(l.seqNum, 1) == 0;
    assert Plus(0, -(CAP / 2)) == WRAP - CAP / 2;
    hide Plus;
    SubmitKeys(l, target, now);
    var r := Record(Count(l), target, now);
    var f := Submit(l, target, now);
    assert Reaped(r) == if |l.sentAt| < CAP then {} else Below(r, WRAP - CAP / 2);
    hide Submit, Record, Count, Reaped;
    if |l.sentAt| < CAP {
      assert 0 in f.sentAt.Keys;
    } else if n :| n in l.sentAt && n >= WRAP - CAP / 2 {
      assert n in f.sentAt.Keys;
    } else {
      assert f.sentAt.Keys == {};
      assert |f.sentAt| == |f.sentAt.Keys|;
    }
  }
}
