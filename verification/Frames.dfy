// What each frame and tick does to a session, said in the terms of the
// protocol: which frames count, which job they start and who hashes it.

module Frames {
  import opened Numerals
  import opened CompactTarget
  import opened Results
  import opened Messages
  import opened MiningState
  import opened Session
  import JobBook
  import L = Ledger

  // ---------------------------------------------------------------- which frames count

  /** Jobs, targets and verdicts of our channel, every tip, and the closing of our channel or group. */
  predicate Counts(cfg: Config, e: Event)
  {
    e.Frame? ==>
      match e.msg {
        case TipMessage(_) => true
        case JobMessage(j) => j.channelId == cfg.channel
        case SetTarget(c, _) => c == cfg.channel
        case SubmitSharesSuccess(c, _, _, _) => c == cfg.channel
        case SubmitSharesError(c, _, _) => c == cfg.channel
        case CloseChannel(c, _) => c == cfg.channel || c == cfg.group
        case _ => false
      }
  }

  function Counting(cfg: Config, events: seq<Event>): seq<Event>
  {
    if |events| == 0 then []
    else (if Counts(cfg, events[0]) then [events[0]] else []) + Counting(cfg, events[1..])
  }

  lemma IgnoredFrame(cfg: Config, s: State, e: Event)
    requires !Counts(cfg, e)
    ensures Step(cfg, s, e) == s
  {
    hide OnJob, OnTip, OnTarget, L.Accept, L.Reject;
  }

  /** A session is its own frames: leaving out all others changes nothing. */
  lemma {:induction false} OnlyOwnFrames(cfg: Config, s: State, events: seq<Event>)
    ensures Run(cfg, s, events) == Run(cfg, s, Counting(cfg, events))
    decreases |events|
  {
    hide Step, Counts;
    if |events| > 0 && s.end.None? {
      var e, rest := events[0], events[1..];
      if Counts(cfg, e) {
        OnlyOwnFrames(cfg, Step(cfg, s, e), rest);
        assert Counting(cfg, events)[1..] == Counting(cfg, rest);
      } else {
        IgnoredFrame(cfg, s, e);
        OnlyOwnFrames(cfg, s, rest);
        assert Counting(cfg, events) == Counting(cfg, rest);
      }
    }
  }

  /** The pool ends a session if and only if it closes our channel or our group. */
  lemma ClosedByPool(cfg: Config, s: State, e: Event)
    requires s.end.None?
    ensures Step(cfg, s, e).end == Some(PoolClosed)
       <==> e.Frame? && e.msg.CloseChannel? && (e.msg.channelId == cfg.channel || e.msg.channelId == cfg.group)
  {
    hide OnJob, OnTip, OnTarget, L.Accept, L.Reject, L.Submit;
  }

  // ---------------------------------------------------------------- which job, and who hashes it

  /** A target can be had: the pool assigned one, or nBits gives one. */
  predicate Workable(m: Mining)
  {
    m.shareTarget != ZeroHash() || TargetFromNBits(m.nBits).Target?
  }

  /**
   * n is on job j since now. All workers hash it, stamped no earlier than the clock and the job's time allow; or,
   * curtailed or without a target, they go on as they were.
   */
  ghost predicate Started(n: Mining, before: seq<Option<Work>>, channel: U32, j: NewMiningJob, ntime: U32, now: U32)
  {
    && n.active == Some(j) && n.activeNTime == ntime
    && if n.curtailed || !Workable(n) then n.workers == before
       else
         && |n.workers| == |before|
         && forall i :: 0 <= i < |n.workers| ==> ArmedWith(n, channel, n.workers[i], ntime, now)
  }

  predicate ArmedWith(n: Mining, channel: U32, w: Option<Work>, ntime: U32, now: U32)
  {
    w.Some? && Current(n, channel, w.value) && (w.value.time == ntime || w.value.time == now)
    && w.value.time >= ntime && w.value.time >= now
  }

  lemma StartStarts(m: Mining, channel: U32, j: NewMiningJob, ntime: U32, now: U32)
    ensures Started(StartJob(m, channel, j, ntime, now), m.workers, channel, j, ntime, now)
  {
    hide TargetFromNBits;
  }

  /** A job with a time starts at once under a known tip; otherwise it only waits in the table. */
  lemma JobStarts(m: Mining, channel: U32, j: NewMiningJob, now: U32)
    requires JobBook.Valid(m.book)
    ensures var n := OnJob(m, channel, j, now);
            && j.jobId in n.book.pending && n.book.pending[j.jobId] == j
            && n.prevHash == m.prevHash && n.nBits == m.nBits && n.havePrev == m.havePrev
            && n.shareTarget == m.shareTarget && n.curtailed == m.curtailed
            && if j.hasNtimeStart && m.havePrev then Started(n, m.workers, channel, j, j.ntimeStart, now)
               else n.active == m.active && n.activeNTime == m.activeNTime && n.workers == m.workers
  {
    JobBook.StoreKeepsNewest(m.book, j);
    hide JobBook.Store, Started, StartJob;
    StartStarts(m.(book := JobBook.Store(m.book, j)), channel, j, j.ntimeStart, now);
    StartKeeps(m.(book := JobBook.Store(m.book, j)), channel, j, j.ntimeStart, now);
  }

  lemma StartKeeps(m: Mining, channel: U32, j: NewMiningJob, ntime: U32, now: U32)
    ensures var n := StartJob(m, channel, j, ntime, now);
            && n.book == m.book && n.prevHash == m.prevHash && n.nBits == m.nBits && n.havePrev == m.havePrev
            && n.shareTarget == m.shareTarget && n.curtailed == m.curtailed
  {
  }

  /** A tip is adopted, only its own job stays in the table, and that job starts; without it all workers rest. */
  lemma TipStarts(m: Mining, channel: U32, p: SetNewPrevHash, now: U32)
    ensures var n := OnTip(m, channel, p, now);
            && n.prevHash == p.prevHash && n.nBits == p.nBits && n.havePrev
            && n.shareTarget == m.shareTarget && n.curtailed == m.curtailed
            && n.book.pending.Keys == (if p.jobId in m.book.pending then {p.jobId} else {})
            && if p.jobId in m.book.pending
               then var j := m.book.pending[p.jobId];
                    n.book.pending[p.jobId] == j && Started(n, m.workers, channel, j, TipNTime(p, j), now)
               else n.active.None? && |n.workers| == |m.workers| && !SomeArmed(n)
  {
    hide Started, StartJob;
    if p.jobId in m.book.pending {
      var n := m.(prevHash := p.prevHash, nBits := p.nBits, havePrev := true, book := JobBook.Keep(m.book, p.jobId));
      var j := m.book.pending[p.jobId];
      StartStarts(n, channel, j, TipNTime(p, j), now);
      StartKeeps(n, channel, j, TipNTime(p, j), now);
    }
  }

  /** A new share target is adopted and the active job starts again under it. */
  lemma TargetStarts(m: Mining, channel: U32, target: Hash, now: U32)
    requires Sound(m, channel)
    ensures var n := OnTarget(m, channel, target, now);
            && n.shareTarget == target && n.prevHash == m.prevHash && n.nBits == m.nBits && n.book == m.book
            && n.curtailed == m.curtailed
            && if m.active.Some? then Started(n, m.workers, channel, m.active.value, m.activeNTime, now)
               else n.active.None? && n.workers == m.workers
  {
    hide Started, StartJob;
    if m.active.Some? {
      StartStarts(m.(shareTarget := target), channel, m.active.value, m.activeNTime, now);
      StartKeeps(m.(shareTarget := target), channel, m.active.value, m.activeNTime, now);
    }
  }

  // ---------------------------------------------------------------- the price gate

  /**
   * A trusted positive price under a positive threshold pauses mining and rests all workers; one at or above it
   * ends the pause; any other price, or no threshold, changes nothing.
   */
  lemma PriceGate(m: Mining, rate: real, trusted: bool, threshold: real)
    requires m.curtailed ==> !SomeArmed(m)
    ensures var n := OnPrice(m, rate, trusted, threshold);
            && (trusted && 0.0 < rate < threshold ==> n.curtailed && !SomeArmed(n))
            && (trusted && rate >= threshold > 0.0 ==> !n.curtailed && n.workers == m.workers)
            && (!trusted || rate <= 0.0 || threshold <= 0.0 ==> n == m)
            && n == m.(curtailed := n.curtailed, workers := n.workers) && |n.workers| == |m.workers|
  {
  }

  /** Whatever happens between two ticks, only a trusted price moves the gate. */
  lemma OnlyPriceMoves(cfg: Config, s: State, e: Event)
    ensures Step(cfg, s, e).mining.curtailed != s.mining.curtailed ==>
              e.PriceTick? && e.trusted && e.rate > 0.0 && e.threshold > 0.0
              && (Step(cfg, s, e).mining.curtailed <==> e.rate < e.threshold)
  {
    hide JobBook.Store, JobBook.Keep, Rearmed, L.Accept, L.Reject, L.Submit;
  }

  // ---------------------------------------------------------------- found shares

  /** Every share found is dropped, submitted, or the one whose sending failed and ended the session. */
  predicate Accounted(s: State)
  {
    s.ledger.found == s.ledger.dropped + s.ledger.submitted + if s.end == Some(SendFailed) then 1 else 0
  }

  lemma StepAccounted(cfg: Config, s: State, e: Event)
    requires Accounted(s) && s.end.None?
    ensures Accounted(Step(cfg, s, e))
    ensures Step(cfg, s, e).ledger.found == s.ledger.found + if e.Found? then 1 else 0
  {
    hide MiningFrame, OnPrice, L.Plus, L.Reaped, L.Acked, L.Credit, Foreign;
  }

  lemma {:induction false} FoundBalances(cfg: Config, s: State, events: seq<Event>)
    requires Accounted(s)
    ensures Accounted(Run(cfg, s, events))
    decreases |events|
  {
    hide Step, Accounted;
    if |events| > 0 && s.end.None? {
      StepAccounted(cfg, s, events[0]);
      FoundBalances(cfg, Step(cfg, s, events[0]), events[1..]);
    }
  }

  /** A share is submitted, and filed under the next number with its own target, exactly when it may be and is sent. */
  lemma ShareFate(cfg: Config, s: State, share: Share, token: bool, sent: bool, now: nat)
    requires L.Valid(s.ledger) && s.ledger.seqNum < 0xFFFF_FFFF
    ensures var n := Step(cfg, s, Found(share, token, sent, now));
            var wanted := token && s.mining.active.Some? && s.mining.active.value.jobId == share.jobId;
            && n.mining == s.mining && n.ledger.seqNum == s.ledger.seqNum + 1
            && (n.ledger.submitted == s.ledger.submitted + 1 <==> wanted && sent)
            && (n.ledger.dropped == s.ledger.dropped + 1 <==> !wanted)
            && (n.end == Some(SendFailed) <==> s.end == Some(SendFailed) || (wanted && !sent))
            && (wanted && sent ==> n.ledger.seqNum in n.ledger.sentTarget
                                   && n.ledger.sentTarget[n.ledger.seqNum] == share.target)
  {
    L.SubmitExact(s.ledger, share.target, now);
    L.PlusOne(s.ledger.seqNum);
    hide L.Plus, L.Submit, L.Valid;
  }
}
