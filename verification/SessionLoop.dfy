// The session's select loop in its own form: fields updated in place, worker
// and map loops, each arm proved to be the corresponding step.

module SessionLoop {
  import opened Numerals
  import opened CompactTarget
  import opened Results
  import opened Messages
  import opened MiningState
  import opened Session
  import JobBook
  import L = Ledger

  class PoolSession {
    const cfg: Config
    const workers: array<Option<Work>>
    var jobs: map<U32, NewMiningJob>
    var jobOrder: seq<U32>
    var active: Option<NewMiningJob>
    var prevHash: Hash
    var prevNBits: U32
    var activeNTime: U32
    var havePrev: bool
    var shareTarget: Hash
    var curtailed: bool
    var seqNum: U32
    var submitTimes: map<U32, nat>
    var submitTargets: map<U32, Hash>
    var sharesFound: nat
    var sharesDropped: nat
    var sharesSubmitted: nat
    var sharesAccepted: nat
    var sharesRejected: nat
    var difficultyTransitions: nat
    var end: Option<End>

    ghost function Jobs(): JobBook.Book
      reads this
    {
      JobBook.Book(jobs, jobOrder)
    }

    ghost function MiningView(): Mining
      reads this, workers
    {
      Mining(Jobs(), active, prevHash, prevNBits, activeNTime, havePrev, shareTarget, curtailed, workers[..])
    }

    ghost function LedgerView(): L.Ledger
      reads this
    {
      L.Ledger(seqNum, submitTimes, submitTargets, sharesFound, sharesDropped, sharesSubmitted,
               sharesAccepted, sharesRejected, difficultyTransitions)
    }

    ghost function View(): State
      reads this, workers
    {
      State(MiningView(), LedgerView(), end)
    }

    constructor (cfg: Config, target: Hash, curtailed: bool, n: nat)
      ensures this.cfg == cfg && fresh(workers)
      ensures View() == Start(target, curtailed, n)
    {
      this.cfg := cfg;
      workers := new Option<Work>[n](_ => None);
      jobs, jobOrder, active := map[], [], None;
      prevHash, prevNBits, activeNTime, havePrev := ZeroHash(), 0, 0, false;
      shareTarget, this.curtailed := target, curtailed;
      seqNum, submitTimes, submitTargets := 0, map[], map[];
      sharesFound, sharesDropped, sharesSubmitted := 0, 0, 0;
      sharesAccepted, sharesRejected, difficultyTransitions, end := 0, 0, 0, None;
      new;
      assert workers[..] == All(n, None);
    }

    method StoreBoundedJob(j: NewMiningJob)
      modifies this`jobs, this`jobOrder
      ensures Jobs() == JobBook.Store(old(Jobs()), j)
    {
      if j.jobId !in jobs {
        jobOrder := jobOrder + [j.jobId];
      }
      jobs := jobs[j.jobId := j];
      while |jobOrder| > JobBook.CAP
        invariant JobBook.Evict(Jobs()) == JobBook.Store(old(Jobs()), j)
        decreases |jobOrder|
      {
        jobs := jobs - {jobOrder[0]};
        jobOrder := jobOrder[1..];
      }
    }

    method SetAll(w: Option<Work>)
      modifies workers
      ensures workers[..] == All(workers.Length, w)
    {
      for i := 0 to workers.Length
        invariant forall k :: 0 <= k < i ==> workers[k] == w
      {
        workers[i] := w;
      }
    }

    method UpdateWork(j: NewMiningJob, ntime: U32, now: U32)
      modifies workers
      ensures workers[..] == Rearmed(old(MiningView()), cfg.channel, j, ntime, now)
    {
      var target := shareTarget;
      if target == ZeroHash() {
        var t := ComputeTargetFromNBits(prevNBits);
        if t.Malformed? {
          return;
        }
        target := t.hash;
      }
      SetAll(Some(Work(j.jobId, cfg.channel, j.version, prevHash, j.merkleRoot, RollNTime(ntime, now),
                       prevNBits, target)));
    }

    method StartJob(j: NewMiningJob, ntime: U32, now: U32)
      modifies this`active, this`activeNTime, workers
      ensures MiningView() == MiningState.StartJob(old(MiningView()), cfg.channel, j, ntime, now)
      ensures LedgerView() == old(LedgerView())
    {
      active := Some(j);
      activeNTime := ntime;
      if curtailed {
        return;
      }
      UpdateWork(j, ntime, now);
    }

    method OnNewMiningJob(j: NewMiningJob, now: U32)
      modifies this`jobs, this`jobOrder, this`active, this`activeNTime, workers
      ensures MiningView() == OnJob(old(MiningView()), cfg.channel, j, now)
      ensures LedgerView() == old(LedgerView())
    {
      StoreBoundedJob(j);
      if j.hasNtimeStart && havePrev {
        StartJob(j, j.ntimeStart, now);
      }
    }

    /** Move to the new tip and forget every job but the one it names. */
    method AdoptTip(p: SetNewPrevHash) returns (named: Option<NewMiningJob>)
      modifies this`jobs, this`jobOrder, this`prevHash, this`prevNBits, this`havePrev
      ensures MiningView() == old(MiningView()).(prevHash := p.prevHash, nBits := p.nBits, havePrev := true,
                                                 book := JobBook.Keep(old(Jobs()), p.jobId))
      ensures named == if p.jobId in old(jobs) then Some(old(jobs)[p.jobId]) else None
    {
      prevHash := p.prevHash;
      prevNBits := p.nBits;
      havePrev := true;
      named := if p.jobId in jobs then Some(jobs[p.jobId]) else None;
      jobs := map[];
      jobOrder := [];
      if named.Some? {
        jobs := jobs[p.jobId := named.value];
        jobOrder := jobOrder + [p.jobId];
      }
    }

    method OnSetNewPrevHash(p: SetNewPrevHash, now: U32)
      modifies this`jobs, this`jobOrder, this`active, this`activeNTime
      modifies this`prevHash, this`prevNBits, this`havePrev, workers
      ensures MiningView() == OnTip(old(MiningView()), cfg.channel, p, now)
      ensures LedgerView() == old(LedgerView())
    {
      hide MiningState.StartJob, JobBook.Keep;
      var named := AdoptTip(p);
      if named.Some? {
        var ntime := p.ntimeStart;
        if named.value.hasNtimeStart && named.value.ntimeStart > ntime {
          ntime := named.value.ntimeStart;
        }
        StartJob(named.value, ntime, now);
      } else {
        active := None;
        SetAll(None);
      }
    }

    method OnSetTarget(target: Hash, now: U32)
      modifies this`shareTarget, this`active, this`activeNTime, workers
      ensures MiningView() == OnTarget(old(MiningView()), cfg.channel, target, now)
      ensures LedgerView() == old(LedgerView())
    {
      shareTarget := target;
      if active.Some? && havePrev {
        StartJob(active.value, activeNTime, now);
      }
    }

    method OnPriceTick(rate: real, trusted: bool, threshold: real)
      modifies this`curtailed, workers
      ensures View() == Step(cfg, old(View()), PriceTick(rate, trusted, threshold))
    {
      var next := CurtailDecision(curtailed, rate, trusted, threshold);
      if next == curtailed {
        return;
      }
      curtailed := next;
      if next {
        SetAll(None);
      }
    }

    method Settle(bound: int) returns (settled: nat)
      modifies this`submitTimes, this`submitTargets
      ensures LedgerView() == L.Forget(old(LedgerView()), L.Below(old(LedgerView()), bound))
      ensures settled == |L.Below(old(LedgerView()), bound)|
    {
      submitTimes, submitTargets, settled := DeleteBelow(submitTimes, submitTargets, bound);
      assert L.Below(old(LedgerView()), bound) == Under(old(submitTimes).Keys, bound);
    }

    method OnSubmitSharesSuccess(last: U32, claimed: U32)
      modifies this`submitTimes, this`submitTargets, this`sharesAccepted
      ensures LedgerView() == L.Accept(old(LedgerView()), last, claimed)
      ensures forall n :: n in submitTimes <==> n in old(submitTimes) && (last > seqNum || n > last)
    {
      L.AcceptExact(LedgerView(), last, claimed);
      if last <= seqNum {
        var settled := Settle(last + 1);
        var n := claimed as nat;
        if n == 0 || n > settled {
          n := settled;
        }
        sharesAccepted := sharesAccepted + n;
      }
    }

    method OnSubmitSharesError(n: U32, text: Bytes)
      modifies this`submitTimes, this`submitTargets, this`sharesRejected, this`difficultyTransitions
      ensures LedgerView() == L.Reject(old(LedgerView()), n, cfg.difficulty(text), shareTarget)
    {
      if n > seqNum || n !in submitTimes {
        return;
      }
      submitTimes := submitTimes - {n};
      var issued := if n in submitTargets then Some(submitTargets[n]) else None;
      submitTargets := submitTargets - {n};
      if issued.Some? && L.TransitionReject(cfg.difficulty(text), issued.value, shareTarget) {
        difficultyTransitions := difficultyTransitions + 1;
      } else {
        sharesRejected := sharesRejected + 1;
      }
    }

    method HandleJobs(msg: Message, clock: U32)
      modifies this`jobs, this`jobOrder, this`active, this`activeNTime, this`shareTarget
      modifies this`prevHash, this`prevNBits, this`havePrev, workers
      ensures MiningView() == MiningFrame(cfg, old(MiningView()), msg, clock)
      ensures LedgerView() == old(LedgerView())
    {
      hide OnJob, OnTip, OnTarget;
      match msg
      case JobMessage(j) => OnNewMiningJob(j, clock);
      case TipMessage(p) => OnSetNewPrevHash(p, clock);
      case SetTarget(_, t) => OnSetTarget(t, clock);
      case _ =>
    }

    method HandleVerdict(msg: Message)
      modifies this`submitTimes, this`submitTargets, this`sharesAccepted, this`sharesRejected
      modifies this`difficultyTransitions
      ensures LedgerView() == LedgerFrame(cfg, old(LedgerView()), old(shareTarget), msg)
      ensures MiningView() == old(MiningView())
    {
      hide L.Accept, L.Reject;
      match msg
      case SubmitSharesSuccess(_, last, claimed, _) => OnSubmitSharesSuccess(last, claimed);
      case SubmitSharesError(_, n, text) => OnSubmitSharesError(n, text);
      case _ =>
    }

    method HandleClose(msg: Message)
      modifies this`end
      ensures MiningView() == old(MiningView()) && LedgerView() == old(LedgerView())
      ensures end == (if msg.CloseChannel? then Some(PoolClosed) else old(end)) && shareTarget == old(shareTarget)
    {
      if msg.CloseChannel? {
        end := Some(PoolClosed);
      }
    }

    method HandleFrame(msg: Message, clock: U32)
      modifies this, workers
      ensures View() == OnFrame(cfg, old(View()), msg, clock)
    {
      assert MiningView().shareTarget == shareTarget;
      hide Foreign, MiningFrame, LedgerFrame, MiningView, LedgerView;
      if Foreign(cfg, msg) {
        return;
      }
      HandleClose(msg);
      HandleVerdict(msg);
      HandleJobs(msg, clock);
    }

    /** Record a submit under the current sequence number and reap when the ledger overflows. */
    method FileSubmit(target: Hash, now: nat)
      modifies this`submitTimes, this`submitTargets, this`sharesSubmitted
      ensures var r := L.Record(old(LedgerView()), target, now); LedgerView() == L.Forget(r, L.Reaped(r))
    {
      sharesSubmitted := sharesSubmitted + 1;
      submitTimes := submitTimes[seqNum := now];
      submitTargets := submitTargets[seqNum := target];
      ghost var r := LedgerView();
      assert r == L.Record(old(LedgerView()), target, now);
      hide L.Plus, L.Below, L.Record;
      if |submitTimes| > L.CAP {
        var _ := Settle(L.Plus(seqNum, -(L.CAP / 2)));
      } else {
        NothingForgotten(r);
      }
    }

    method HandleShare(share: Share, token: bool, sent: bool, now: nat) returns (m: Option<Message>)
      modifies this`seqNum, this`sharesFound, this`sharesDropped, this`sharesSubmitted
      modifies this`submitTimes, this`submitTargets, this`end
      ensures LedgerView() == OnShare(old(View()), share, token, sent, now).ledger
      ensures end == OnShare(old(View()), share, token, sent, now).end
      ensures m == Sent(cfg, old(View()), Found(share, token, sent, now))
      ensures m.Some? <==> token && active.Some? && active.value.jobId == share.jobId
      ensures m.Some? ==> m.value.SubmitSharesStandard? && m.value.sequence == seqNum && m.value.nonce == share.nonce
                          && m.value.ntime == share.ntime && m.value.version == share.version
    {
      hide L.Plus, L.Reaped, L.Forget, L.Record;
      seqNum, sharesFound := L.Plus(seqNum, 1), sharesFound + 1;
      if active.None? || share.jobId != active.value.jobId || !token {
        sharesDropped := sharesDropped + 1;
        return None;
      }
      m := Some(SubmitSharesStandard(cfg.channel, seqNum, share.jobId, share.nonce, share.ntime, share.version));
      if sent {
        FileSubmit(share.target, now);
      } else {
        end := Some(SendFailed);
      }
    }

    method HandleStatsTick()
      modifies this`end
      ensures View() == OnStats(cfg, old(View()))
    {
      if cfg.yieldFailover && YieldDegraded(sharesAccepted, sharesRejected) {
        end := Some(Degraded);
      }
    }
  }

  lemma NothingForgotten(l: L.Ledger)
    ensures L.Forget(l, {}) == l
  {
    ForgetNone(l.sentAt);
    ForgetNone(l.sentTarget);
  }

  function Under(keys: set<U32>, bound: int): set<U32>
  {
    set n | n in keys && n < bound
  }

  /** Range over the submits and delete those below the bound from both maps, counting them. */
  method DeleteBelow(sentAt: map<U32, nat>, sentTarget: map<U32, Hash>, bound: int)
    returns (times: map<U32, nat>, targets: map<U32, Hash>, settled: nat)
    ensures var gone := Under(sentAt.Keys, bound);
            times == sentAt - gone && targets == sentTarget - gone && settled == |gone|
  {
    hide Under;
    ghost var all, gone: set<U32> := Under(sentAt.Keys, bound), {};
    times, targets, settled := sentAt, sentTarget, 0;
    ForgetNone(sentAt);
    ForgetNone(sentTarget);
    var todo := sentAt.Keys;
    AllUnder(todo, bound);
    while todo != {}
      invariant todo <= sentAt.Keys
      invariant gone == all - todo && settled == |gone| && times == sentAt - gone && targets == sentTarget - gone
      decreases todo
    {
      var n :| n in todo;
      OneLess(sentAt.Keys, bound, todo, n);
      todo := todo - {n};
      if n < bound {
        ForgetOne(sentAt, gone, n);
        ForgetOne(sentTarget, gone, n);
        times, targets, settled, gone := times - {n}, targets - {n}, settled + 1, gone + {n};
      }
    }
  }

  lemma AllUnder(keys: set<U32>, bound: int)
    ensures Under(keys, bound) - keys == {}
  {
  }

  lemma OneLess(keys: set<U32>, bound: int, todo: set<U32>, n: U32)
    requires n in todo && todo <= keys
    ensures var all := Under(keys, bound);
            n !in all - todo && all - (todo - {n}) == if n < bound then all - todo + {n} else all - todo
  {
  }

  lemma ForgetNone<T>(m: map<U32, T>)
    ensures m - {} == m
  {
  }

  lemma ForgetOne<T>(m: map<U32, T>, gone: set<U32>, n: U32)
    ensures m - gone - {n} == m - (gone + {n})
  {
  }
}
