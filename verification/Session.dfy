// One Stratum V2 session as a state machine: pool frames, found shares, price
// ticks and statistics ticks are its atomic steps, in any order.

module Session {
  import opened Numerals
  import opened CompactTarget
  import opened Results
  import opened Messages
  import opened MiningState
  import JobBook
  import L = Ledger

  /** difficulty: does this reject text fall into the "difficulty" class? */
  datatype Config = Config(channel: U32, group: U32, yieldFailover: bool, difficulty: Bytes -> bool)

  datatype Share = Share(jobId: U32, nonce: U32, ntime: U32, version: U32, target: Hash)

  /** A found share meets a submit limiter (token) and a connection (sent), both outside the model. */
  datatype Event =
    | Frame(msg: Message, clock: U32)
    | Found(share: Share, token: bool, sent: bool, now: nat)
    | PriceTick(rate: real, trusted: bool, threshold: real)
    | StatsTick

  /** Why a session is over: the pool closed the channel, a submit could not be sent, or its yield is too low. */
  datatype End = PoolClosed | SendFailed | Degraded

  datatype State = State(mining: Mining, ledger: L.Ledger, end: Option<End>)

  function Start(target: Hash, curtailed: bool, workers: nat): State
  {
    State(Fresh(target, curtailed, workers), L.Fresh(), None)
  }

  function ChannelOf(msg: Message): Option<U32>
  {
    match msg
    case JobMessage(j) => Some(j.channelId)
    case TipMessage(p) => Some(p.channelId)
    case SetTarget(c, _) => Some(c)
    case SubmitSharesSuccess(c, _, _, _) => Some(c)
    case SubmitSharesError(c, _, _) => Some(c)
    case CloseChannel(c, _) => Some(c)
    case _ => None
  }

  /** Frames for another channel are dropped, except a new tip and the closing of our group. */
  predicate Foreign(cfg: Config, msg: Message)
  {
    && ChannelOf(msg).Some?
    && ChannelOf(msg).value != cfg.channel
    && !msg.TipMessage?
    && !(msg.CloseChannel? && msg.channelId == cfg.group)
  }

  function MiningFrame(cfg: Config, m: Mining, msg: Message, clock: U32): Mining
  {
    match msg
    case JobMessage(j) => OnJob(m, cfg.channel, j, clock)
    case TipMessage(p) => OnTip(m, cfg.channel, p, clock)
    case SetTarget(_, t) => OnTarget(m, cfg.channel, t, clock)
    case _ => m
  }

  function LedgerFrame(cfg: Config, l: L.Ledger, current: Hash, msg: Message): L.Ledger
  {
    match msg
    case SubmitSharesSuccess(_, last, n, _) => L.Accept(l, last, n)
    case SubmitSharesError(_, n, text) => L.Reject(l, n, cfg.difficulty(text), current)
    case _ => l
  }

  function OnFrame(cfg: Config, s: State, msg: Message, clock: U32): State
  {
    if Foreign(cfg, msg) then s
    else State(MiningFrame(cfg, s.mining, msg, clock), LedgerFrame(cfg, s.ledger, s.mining.shareTarget, msg),
               if msg.CloseChannel? then Some(PoolClosed) else s.end)
  }

  /** Only a share of the job being hashed, within the rate cap, is submitted. */
  predicate Submits(s: State, share: Share, token: bool)
  {
    s.mining.active.Some? && share.jobId == s.mining.active.value.jobId && token
  }

  function OnShare(s: State, share: Share, token: bool, sent: bool, now: nat): State
  {
    if !Submits(s, share, token) then s.(ledger := L.Drop(s.ledger))
    else if !sent then s.(ledger := L.Count(s.ledger), end := Some(SendFailed))
    else s.(ledger := L.Submit(s.ledger, share.target, now))
  }

  /** At least 32 verdicts, fewer than nine in ten accepted. */
  predicate YieldDegraded(accepted: nat, rejected: nat)
  {
    accepted + rejected >= 32 && 10 * accepted < 9 * (accepted + rejected)
  }

  function OnStats(cfg: Config, s: State): State
  {
    if cfg.yieldFailover && YieldDegraded(s.ledger.accepted, s.ledger.rejected)
    then s.(end := Some(Degraded)) else s
  }

  function Step(cfg: Config, s: State, e: Event): State
  {
    match e
    case Frame(msg, clock) => OnFrame(cfg, s, msg, clock)
    case Found(share, token, sent, now) => OnShare(s, share, token, sent, now)
    case PriceTick(rate, trusted, threshold) => s.(mining := OnPrice(s.mining, rate, trusted, threshold))
    case StatsTick => OnStats(cfg, s)
  }

  /** A run stops at the step that ends the session. */
  function Run(cfg: Config, s: State, events: seq<Event>): State
    decreases |events|
  {
    if |events| == 0 || s.end.Some? then s else Run(cfg, Step(cfg, s, events[0]), events[1..])
  }

  /** The message a step puts on the wire. */
  function Sent(cfg: Config, s: State, e: Event): Option<Message>
  {
    if e.Found? && Submits(s, e.share, e.token) then
      Some(SubmitSharesStandard(cfg.channel, L.Plus(s.ledger.seqNum, 1), e.share.jobId, e.share.nonce,
                                e.share.ntime, e.share.version))
    else None
  }

  // ---------------------------------------------------------------- jobs and work

  lemma StepSound(cfg: Config, s: State, e: Event)
    requires Sound(s.mining, cfg.channel)
    ensures Sound(Step(cfg, s, e).mining, cfg.channel)
  {
    hide Sound, OnJob, OnTip, OnTarget, OnPrice;
    match e
    case Frame(msg, clock) =>
      if !Foreign(cfg, msg) {
        match msg
        case JobMessage(j) => OnJobSound(s.mining, cfg.channel, j, clock);
        case TipMessage(p) => OnTipSound(s.mining, cfg.channel, p, clock);
        case SetTarget(_, t) => OnTargetSound(s.mining, cfg.channel, t, clock);
        case _ =>
      }
    case PriceTick(rate, trusted, threshold) => OnPriceKeeps(s.mining, cfg.channel, rate, trusted, threshold);
    case _ =>
  }

  /** The frames that leave workers on stale work: no usable target remains, yet hashing goes on. */
  predicate Strands(cfg: Config, m: Mining, e: Event)
  {
    && e.Frame?
    && SomeArmed(m)
    && match e.msg {
         case TipMessage(p) => p.jobId in m.book.pending && EffectiveTarget(m.shareTarget, p.nBits).None?
         case SetTarget(c, t) => c == cfg.channel && EffectiveTarget(t, m.nBits).None?
         case _ => false
       }
  }

  /** Every step keeps the workers on current work, exactly unless it strands them. */
  lemma StepCoherent(cfg: Config, s: State, e: Event)
    requires Sound(s.mining, cfg.channel) && Coherent(s.mining, cfg.channel)
    ensures Coherent(Step(cfg, s, e).mining, cfg.channel) <==> !Strands(cfg, s.mining, e)
  {
    hide Sound, Coherent, OnJob, OnTip, OnTarget, OnPrice, EffectiveTarget, SomeArmed;
    match e
    case Frame(msg, clock) =>
      if !Foreign(cfg, msg) {
        match msg
        case JobMessage(j) => OnJobCoherent(s.mining, cfg.channel, j, clock);
        case TipMessage(p) => OnTipCoherent(s.mining, cfg.channel, p, clock);
        case SetTarget(_, t) => OnTargetCoherent(s.mining, cfg.channel, t, clock);
        case _ =>
      }
    case PriceTick(rate, trusted, threshold) => OnPriceKeeps(s.mining, cfg.channel, rate, trusted, threshold);
    case _ =>
  }

  /** Whatever the pool sends: bounded duplicate-free job table, idle workers while curtailed or without a tip. */
  lemma {:induction false} RunSound(cfg: Config, s: State, events: seq<Event>)
    requires Sound(s.mining, cfg.channel)
    ensures Sound(Run(cfg, s, events).mining, cfg.channel)
    decreases |events|
  {
    hide Sound, Step;
    if |events| > 0 && s.end.None? {
      StepSound(cfg, s, events[0]);
      RunSound(cfg, Step(cfg, s, events[0]), events[1..]);
    }
  }

  /** No step of the run strands a worker, each judged in the state it is taken in. */
  predicate NeverStrands(cfg: Config, s: State, events: seq<Event>)
    decreases |events|
  {
    |events| == 0 || s.end.Some? ||
    (!Strands(cfg, s.mining, events[0]) && NeverStrands(cfg, Step(cfg, s, events[0]), events[1..]))
  }

  /** At every moment of the run each armed worker holds exactly the current work. */
  ghost predicate AlwaysCoherent(cfg: Config, s: State, events: seq<Event>)
  {
    forall k :: 0 <= k <= |events| ==> Coherent(Run(cfg, s, events[..k]).mining, cfg.channel)
  }

  lemma RunStep(cfg: Config, s: State, events: seq<Event>)
    requires |events| > 0 && s.end.None?
    ensures Run(cfg, s, events) == Run(cfg, Step(cfg, s, events[0]), events[1..])
  {
  }

  lemma RunTwo(cfg: Config, s: State, a: Event, b: Event)
    requires s.end.None? && Step(cfg, s, a).end.None?
    ensures Run(cfg, s, [a, b]) == Step(cfg, Step(cfg, s, a), b)
  {
    hide Step;
    RunStep(cfg, s, [a, b]);
    assert [a, b][1..] == [b];
    RunStep(cfg, Step(cfg, s, a), [b]);
    assert [b][1..] == [];
  }

  lemma {:induction false} RunAppend(cfg: Config, s: State, a: seq<Event>, b: seq<Event>)
    ensures Run(cfg, s, a + b) == Run(cfg, Run(cfg, s, a), b)
    decreases |a|
  {
    hide Step;
    if |a| == 0 {
      assert a + b == b;
    } else if s.end.None? {
      assert (a + b)[1..] == a[1..] + b;
      RunAppend(cfg, Step(cfg, s, a[0]), a[1..], b);
    }
  }

  lemma RunPrefix(cfg: Config, s: State, events: seq<Event>, k: nat)
    requires 1 <= k <= |events| && s.end.None?
    ensures Run(cfg, s, events[..k]) == Run(cfg, Step(cfg, s, events[0]), events[1..][..k - 1])
  {
    hide Step;
    assert events[..k][1..] == events[1..][..k - 1];
  }

  lemma AlwaysCoherentStep(cfg: Config, s: State, events: seq<Event>)
    requires |events| > 0 && s.end.None? && Coherent(s.mining, cfg.channel)
    ensures AlwaysCoherent(cfg, s, events) <==> AlwaysCoherent(cfg, Step(cfg, s, events[0]), events[1..])
  {
    hide Step, Coherent;
    var n, rest := Step(cfg, s, events[0]), events[1..];
    assert Run(cfg, s, events[..0]) == s;
    forall k | 1 <= k <= |events| ensures Run(cfg, s, events[..k]) == Run(cfg, n, rest[..k - 1]) {
      RunPrefix(cfg, s, events, k);
    }
    if AlwaysCoherent(cfg, s, events) {
      forall k | 0 <= k <= |rest| ensures Coherent(Run(cfg, n, rest[..k]).mining, cfg.channel) {
        assert Run(cfg, s, events[..k + 1]) == Run(cfg, n, rest[..k + 1 - 1]);
      }
    }
  }

  /** Over every run: the workers are on current work at every moment, if and only if no step strands them. */
  lemma {:induction false} RunCoherent(cfg: Config, s: State, events: seq<Event>)
    requires Sound(s.mining, cfg.channel) && Coherent(s.mining, cfg.channel)
    ensures AlwaysCoherent(cfg, s, events) <==> NeverStrands(cfg, s, events)
    decreases |events|
  {
    hide Sound, Coherent, Strands, Step;
    if |events| > 0 && s.end.None? {
      var e, n := events[0], Step(cfg, s, events[0]);
      StepSound(cfg, s, e);
      StepCoherent(cfg, s, e);
      if Coherent(n.mining, cfg.channel) {
        RunCoherent(cfg, n, events[1..]);
        AlwaysCoherentStep(cfg, s, events);
      } else {
        assert events[..1][1..] == [];
        assert Run(cfg, s, events[..1]) == n;
      }
    }
  }

  /** A tip is known only together with a usable target. */
  predicate Usable(m: Mining)
  {
    m.havePrev ==> EffectiveTarget(m.shareTarget, m.nBits).Some?
  }

  /** At every moment the share target is non-zero or the tip's nBits are valid. */
  predicate StaysUsable(cfg: Config, s: State, events: seq<Event>)
    decreases |events|
  {
    |events| == 0 || s.end.Some? ||
    (Usable(Step(cfg, s, events[0]).mining) && StaysUsable(cfg, Step(cfg, s, events[0]), events[1..]))
  }

  /** A stranding step always leaves the session without a usable target. */
  lemma StepUsable(cfg: Config, s: State, e: Event)
    requires Sound(s.mining, cfg.channel) && Strands(cfg, s.mining, e)
    ensures !Usable(Step(cfg, s, e).mining)
  {
    hide EffectiveTarget, JobBook.Keep, Rearmed, JobBook.Valid, All;
  }

  /** So a run with a usable target at every moment strands no worker, whichever of the two is usable when. */
  lemma {:induction false} UsableNeverStrands(cfg: Config, s: State, events: seq<Event>)
    requires Sound(s.mining, cfg.channel) && StaysUsable(cfg, s, events)
    ensures NeverStrands(cfg, s, events)
    decreases |events|
  {
    hide Sound, Strands, Step, Usable;
    if |events| > 0 && s.end.None? {
      StepSound(cfg, s, events[0]);
      if Strands(cfg, s.mining, events[0]) {
        StepUsable(cfg, s, events[0]);
      }
      UsableNeverStrands(cfg, Step(cfg, s, events[0]), events[1..]);
    }
  }

  lemma StartSound(cfg: Config, target: Hash, curtailed: bool, workers: nat)
    ensures Sound(Start(target, curtailed, workers).mining, cfg.channel)
    ensures Coherent(Start(target, curtailed, workers).mining, cfg.channel)
    ensures L.Valid(L.Fresh())
  {
  }

  predicate IsTip(e: Event)
  {
    e.Frame? && e.msg.TipMessage?
  }

  lemma {:induction false} NoTipNoPrev(cfg: Config, s: State, events: seq<Event>)
    requires !s.mining.havePrev && forall i :: 0 <= i < |events| ==> !IsTip(events[i])
    ensures !Run(cfg, s, events).mining.havePrev
    decreases |events|
  {
    if |events| > 0 && s.end.None? {
      assert !IsTip(events[0]);
      NoTipNoPrev(cfg, Step(cfg, s, events[0]), events[1..]);
    }
  }

  /** Nothing is hashed before the first SetNewPrevHash, in any run. */
  lemma NothingArmedBeforeTip(cfg: Config, target: Hash, curtailed: bool, workers: nat, events: seq<Event>)
    requires forall i :: 0 <= i < |events| ==> !IsTip(events[i])
    ensures !SomeArmed(Run(cfg, Start(target, curtailed, workers), events).mining)
  {
    var s := Start(target, curtailed, workers);
    StartSound(cfg, target, curtailed, workers);
    RunSound(cfg, s, events);
    NoTipNoPrev(cfg, s, events);
  }

  /** The header is not stamped before the job's own ntime_start. */
  predicate InWindow(m: Mining, w: Work)
  {
    m.active.Some? && (m.active.value.hasNtimeStart ==> w.time >= m.active.value.ntimeStart)
  }

  predicate AllInWindow(m: Mining)
  {
    forall i :: 0 <= i < |m.workers| && m.workers[i].Some? ==> InWindow(m, m.workers[i].value)
  }

  /** A session from its start: the whole job-and-work guarantee in one place. */
  lemma SessionMinesCurrentWork(cfg: Config, target: Hash, curtailed: bool, workers: nat, events: seq<Event>)
    ensures var s := Start(target, curtailed, workers);
            var m := Run(cfg, s, events).mining;
            && (AlwaysCoherent(cfg, s, events) <==> NeverStrands(cfg, s, events))
            && (StaysUsable(cfg, s, events) ==> AlwaysCoherent(cfg, s, events))
            && JobBook.Valid(m.book)
            && (m.curtailed || !m.havePrev ==> !SomeArmed(m))
            && (Coherent(m, cfg.channel) ==> AllInWindow(m))
  {
    var s := Start(target, curtailed, workers);
    StartSound(cfg, target, curtailed, workers);
    RunSound(cfg, s, events);
    RunCoherent(cfg, s, events);
    hide Run, EffectiveTarget, JobBook.Valid, StaysUsable, NeverStrands, AlwaysCoherent;
    if StaysUsable(cfg, s, events) {
      UsableNeverStrands(cfg, s, events);
    }
    var m := Run(cfg, s, events).mining;
    if Coherent(m, cfg.channel) {
      forall i | 0 <= i < |m.workers| && m.workers[i].Some? ensures InWindow(m, m.workers[i].value) {
        assert Current(m, cfg.channel, m.workers[i].value);
      }
    }
  }

  // ---------------------------------------------------------------- how a session ends

  /**
   * A session ends as degraded only with a second pool to go to, after at least 32 verdicts of which more
   * than one in ten, so at least four, were rejects.
   */
  lemma {:induction false} DegradedEnd(cfg: Config, s: State, events: seq<Event>)
    requires s.end != Some(Degraded) && Run(cfg, s, events).end == Some(Degraded)
    ensures cfg.yieldFailover
    ensures var l := Run(cfg, s, events).ledger;
            l.accepted + l.rejected >= 32 && l.accepted < 9 * l.rejected && l.rejected >= 4
    decreases |events|
  {
    hide MiningFrame, LedgerFrame, OnPrice, Foreign, Submits;
    if |events| > 0 && s.end.None? {
      var n := Step(cfg, s, events[0]);
      if n.end == Some(Degraded) {
        assert Run(cfg, n, events[1..]) == n;
      } else {
        DegradedEnd(cfg, n, events[1..]);
      }
    }
  }

  /** The yield floor trips: a second pool to go to, enough verdicts, too few of them accepted. */
  predicate Degrading(cfg: Config, l: L.Ledger)
  {
    cfg.yieldFailover && l.accepted + l.rejected >= 32 && l.accepted < 9 * l.rejected
  }

  /** At the k-th event the session is still open, the floor trips and a statistics tick looks. */
  predicate NoticedAt(cfg: Config, s: State, events: seq<Event>, k: nat)
    requires k < |events|
  {
    var before := Run(cfg, s, events[..k]);
    events[k] == StatsTick && before.end.None? && Degrading(cfg, before.ledger)
  }

  lemma StepDegrades(cfg: Config, s: State, e: Event)
    requires s.end.None?
    ensures Step(cfg, s, e).end == Some(Degraded) <==> e == StatsTick && Degrading(cfg, s.ledger)
  {
    hide MiningFrame, LedgerFrame, OnPrice, Foreign, Submits;
  }

  lemma NoticedLater(cfg: Config, s: State, events: seq<Event>, k: nat)
    requires 1 <= k < |events| && s.end.None?
    ensures NoticedAt(cfg, s, events, k) <==> NoticedAt(cfg, Step(cfg, s, events[0]), events[1..], k - 1)
  {
    hide Step, Degrading, Run;
    RunPrefix(cfg, s, events, k);
  }

  lemma EndedStays(cfg: Config, s: State, events: seq<Event>)
    requires s.end.Some?
    ensures Run(cfg, s, events) == s
  {
  }

  /** Over every run: a session ends as degraded if and only if some tick finds it below the floor while it is open. */
  lemma {:induction false} DegradedIsNoticed(cfg: Config, s: State, events: seq<Event>)
    requires s.end.None?
    ensures Run(cfg, s, events).end == Some(Degraded) <==> exists k: nat :: k < |events| && NoticedAt(cfg, s, events, k)
    decreases |events|
  {
    if |events| > 0 {
      var e, n, rest := events[0], Step(cfg, s, events[0]), events[1..];
      StepDegrades(cfg, s, e);
      assert events[..0] == [] && Run(cfg, s, []) == s;
      assert Run(cfg, s, events) == Run(cfg, n, rest);
      assert NoticedAt(cfg, s, events, 0) <==> n.end == Some(Degraded);
      hide Step, Degrading, NoticedAt, Run;
      forall k: nat | 1 <= k < |events|
        ensures NoticedAt(cfg, s, events, k) <==> NoticedAt(cfg, n, rest, k - 1)
      {
        NoticedLater(cfg, s, events, k);
      }
      if n.end.Some? {
        EndedStays(cfg, n, rest);
        forall k: nat | k < |rest| ensures !NoticedAt(cfg, n, rest, k) {
          NeverNoticed(cfg, n, rest, k);
        }
      } else {
        DegradedIsNoticed(cfg, n, rest);
        if j: nat :| j < |rest| && NoticedAt(cfg, n, rest, j) {
          assert NoticedAt(cfg, s, events, j + 1);
        }
      }
    }
  }

  lemma NeverNoticed(cfg: Config, s: State, events: seq<Event>, k: nat)
    requires s.end.Some? && k < |events|
    ensures !NoticedAt(cfg, s, events, k)
  {
    EndedStays(cfg, s, events[..k]);
  }
}
