// What a whole session does to its submit ledger: bounds, single settlement
// and conservation of shares.

module Settlement {
  import opened Numerals
  import opened CompactTarget
  import opened Messages
  import opened MiningState
  import opened Session
  import L = Ledger

  /** The sequence number wraps onto a ledger that still holds, or is left holding, a submit. */
  predicate Wraps(s: State, e: Event)
  {
    && e.Found?
    && s.ledger.seqNum == L.WRAP - 1
    && if Submits(s, e.share, e.token) && e.sent
       then !(|s.ledger.sentAt| == L.CAP && forall n :: n in s.ledger.sentAt ==> n < L.WRAP - L.CAP / 2)
       else |s.ledger.sentAt| != 0
  }

  /** Every step keeps the ledger's bounds, exactly unless the sequence number wraps on it. */
  lemma StepLedger(cfg: Config, s: State, e: Event)
    requires L.Valid(s.ledger)
    ensures L.Valid(Step(cfg, s, e).ledger) <==> !Wraps(s, e)
  {
    var l := s.ledger;
    match e
    case Frame(msg, clock) => FrameLedger(cfg, s, msg, clock);
    case Found(share, token, sent, now) =>
      if Submits(s, share, token) && sent {
        if l.seqNum < L.WRAP - 1 { L.SubmitValid(l, share.target, now); } else { L.SubmitAtWrap(l, share.target, now); }
      } else {
        CountLedger(l);
      }
    case _ =>
  }

  lemma CountLedger(l: L.Ledger)
    requires L.Valid(l)
    ensures L.Valid(L.Drop(l)) <==> (l.seqNum < L.WRAP - 1 || |l.sentAt| == 0)
    ensures L.Valid(L.Count(l)) <==> L.Valid(L.Drop(l))
  {
    if l.seqNum < L.WRAP - 1 { L.NextIsFresh(l); } else { L.CountAtWrap(l); }
  }

  lemma FrameLedger(cfg: Config, s: State, msg: Message, clock: U32)
    requires L.Valid(s.ledger)
    ensures L.Valid(OnFrame(cfg, s, msg, clock).ledger)
  {
    hide OnJob, OnTip, OnTarget, L.Accept, L.Reject, L.Valid;
    match msg
    case SubmitSharesSuccess(_, last, claimed, _) => L.AcceptKeys(s.ledger, last, claimed);
    case SubmitSharesError(_, n, text) => L.RejectKeys(s.ledger, n, cfg.difficulty(text), s.mining.shareTarget);
    case _ =>
  }

  function FoundCount(events: seq<Event>): nat
  {
    if |events| == 0 then 0 else (if events[0].Found? then 1 else 0) + FoundCount(events[1..])
  }

  lemma StepSeqNum(cfg: Config, s: State, e: Event)
    requires s.ledger.seqNum < L.WRAP - 1 || !e.Found?
    ensures Step(cfg, s, e).ledger.seqNum == s.ledger.seqNum + if e.Found? then 1 else 0
  {
    hide OnJob, OnTip, OnTarget, OnPrice, L.Plus, L.Below, L.Acked, L.Reaped;
    if e.Found? {
      L.PlusOne(s.ledger.seqNum);
    }
  }

  /** In every session of fewer than 2^32 shares the ledger stays in range, in agreement and within its cap. */
  lemma {:induction false} RunLedger(cfg: Config, s: State, events: seq<Event>)
    requires L.Valid(s.ledger) && s.ledger.seqNum + FoundCount(events) < L.WRAP
    ensures L.Valid(Run(cfg, s, events).ledger)
    ensures s.ledger.seqNum <= Run(cfg, s, events).ledger.seqNum <= s.ledger.seqNum + FoundCount(events)
    decreases |events|
  {
    hide L.Valid, Step;
    if |events| > 0 && s.end.None? {
      StepLedger(cfg, s, events[0]);
      StepSeqNum(cfg, s, events[0]);
      RunLedger(cfg, Step(cfg, s, events[0]), events[1..]);
    }
  }

  /** The submits that leave the ledger: settled by a verdict, or reaped to make room. */
  function Leaves(cfg: Config, s: State, e: Event): set<U32>
  {
    match e
    case Frame(msg, _) => if Foreign(cfg, msg) then {} else Settles(s, msg)
    case Found(share, token, sent, now) =>
      if Submits(s, share, token) && sent then Reaps(s, share, now) else {}
    case _ => {}
  }

  function Reaps(s: State, share: Share, now: nat): set<U32>
  {
    L.Reaped(L.Record(L.Count(s.ledger), share.target, now))
  }

  function Settles(s: State, msg: Message): set<U32>
  {
    match msg
    case SubmitSharesSuccess(_, last, _, _) => L.Acked(s.ledger, last)
    case SubmitSharesError(_, n, _) => L.Refused(s.ledger, n)
    case _ => {}
  }

  function Opens(s: State, e: Event): set<U32>
  {
    if e.Found? && Submits(s, e.share, e.token) && e.sent then {L.Plus(s.ledger.seqNum, 1)} else {}
  }

  /** The outstanding set changes by exactly what a step opens and what leaves. */
  lemma StepKeys(cfg: Config, s: State, e: Event)
    requires L.Valid(s.ledger) && (s.ledger.seqNum < L.WRAP - 1 || !e.Found?)
    ensures Step(cfg, s, e).ledger.sentAt.Keys == s.ledger.sentAt.Keys + Opens(s, e) - Leaves(cfg, s, e)
    ensures Leaves(cfg, s, e) <= s.ledger.sentAt.Keys + Opens(s, e)
  {
    hide OnFrame, OnPrice, Settles, Reaps, Foreign, L.Submit, L.Plus;
    match e
    case Frame(msg, clock) => FrameKeys(cfg, s, msg, clock);
    case Found(share, token, sent, now) => SubmitOpens(s, share, now);
    case _ =>
  }

  lemma SubmitOpens(s: State, share: Share, now: nat)
    requires L.Valid(s.ledger) && s.ledger.seqNum < L.WRAP - 1
    ensures L.Submit(s.ledger, share.target, now).sentAt.Keys
         == s.ledger.sentAt.Keys + {L.Plus(s.ledger.seqNum, 1)} - Reaps(s, share, now)
    ensures Reaps(s, share, now) <= s.ledger.sentAt.Keys + {L.Plus(s.ledger.seqNum, 1)}
    ensures |L.Submit(s.ledger, share.target, now).sentAt| == |s.ledger.sentAt| + 1 - |Reaps(s, share, now)|
  {
    hide L.Plus, L.Submit, L.Record;
    L.NextIsFresh(s.ledger);
    L.SubmitKeys(s.ledger, share.target, now);
  }

  lemma FrameKeys(cfg: Config, s: State, msg: Message, clock: U32)
    ensures OnFrame(cfg, s, msg, clock).ledger.sentAt.Keys
         == s.ledger.sentAt.Keys - if Foreign(cfg, msg) then {} else Settles(s, msg)
    ensures Settles(s, msg) <= s.ledger.sentAt.Keys
  {
    hide OnJob, OnTip, OnTarget, L.Accept, L.Reject, L.Acked, L.Refused;
    match msg
    case SubmitSharesSuccess(_, last, claimed, _) => L.AcceptKeys(s.ledger, last, claimed);
    case SubmitSharesError(_, n, text) => L.RejectKeys(s.ledger, n, cfg.difficulty(text), s.mining.shareTarget);
    case _ =>
  }

  /** A number that left the ledger never comes back. */
  lemma {:induction false} GoneForGood(cfg: Config, s: State, events: seq<Event>, n: U32)
    requires L.Valid(s.ledger) && s.ledger.seqNum + FoundCount(events) < L.WRAP
    requires n <= s.ledger.seqNum && n !in s.ledger.sentAt.Keys
    ensures n !in Run(cfg, s, events).ledger.sentAt.Keys
    decreases |events|
  {
    hide L.Valid, Step, Leaves;
    if |events| > 0 && s.end.None? {
      StepLedger(cfg, s, events[0]);
      StepSeqNum(cfg, s, events[0]);
      StepKeys(cfg, s, events[0]);
      GoneForGood(cfg, Step(cfg, s, events[0]), events[1..], n);
    }
  }

  lemma {:induction false} FoundCountAppend(a: seq<Event>, b: seq<Event>)
    ensures FoundCount(a + b) == FoundCount(a) + FoundCount(b)
  {
    if |a| == 0 {
      assert a + b == b;
    } else {
      assert (a + b)[1..] == a[1..] + b;
      FoundCountAppend(a[1..], b);
    }
  }

  /** Each sequence number leaves the ledger at most once: settled by one verdict, or reaped. */
  lemma SettledOnce(cfg: Config, s: State, events: seq<Event>, i: nat, j: nat)
    requires L.Valid(s.ledger) && s.ledger.seqNum + FoundCount(events) < L.WRAP
    requires i < j < |events| && Run(cfg, s, events[..j]).end.None?
    ensures var a, b := Run(cfg, s, events[..i]), Run(cfg, s, events[..j]);
            Leaves(cfg, a, events[i]) !! Leaves(cfg, b, events[j])
  {
    hide L.Valid, Step, Leaves, Opens;
    var a, e := Run(cfg, s, events[..i]), events[i];
    var before, between, after := events[..i], events[i + 1..j], events[j..];
    assert events[..j] == before + ([e] + between);
    assert events == before + ([e] + between) + after;
    FoundCountAppend(before + ([e] + between), after);
    FoundCountAppend(before, [e] + between);
    RunLedger(cfg, s, before);
    RunAppend(cfg, s, before, [e] + between);
    Leaving(cfg, a, e, between, events[j]);
  }

  lemma Leaving(cfg: Config, a: State, e: Event, between: seq<Event>, later: Event)
    requires L.Valid(a.ledger) && a.ledger.seqNum + FoundCount([e] + between) + FoundCount([later]) < L.WRAP
    requires Run(cfg, a, [e] + between).end.None?
    ensures var b := Run(cfg, a, [e] + between);
            Leaves(cfg, a, e) !! Leaves(cfg, b, later)
  {
    hide L.Valid, Step, Leaves, L.Plus;
    var c, b := Step(cfg, a, e), Run(cfg, a, [e] + between);
    assert ([e] + between)[1..] == between && a.end.None? && b == Run(cfg, c, between);
    StepLedger(cfg, a, e);
    StepSeqNum(cfg, a, e);
    StepKeys(cfg, a, e);
    RunLedger(cfg, c, between);
    StepKeys(cfg, b, later);
    assert FoundCount([later]) == if later.Found? then 1 else 0;
    if later.Found? { L.PlusOne(b.ledger.seqNum); }
    if e.Found? { L.PlusOne(a.ledger.seqNum); }
    hide Run, FoundCount, Submits;
    forall n | n in Leaves(cfg, a, e)
      ensures n !in Leaves(cfg, b, later)
    {
      if n in a.ledger.sentAt.Keys { L.Issued(a.ledger, n); }
      GoneForGood(cfg, c, between, n);
      assert Opens(b, later) !! {n};
    }
  }

  // ---------------------------------------------------------------- conservation

  /** Shares accounted for: verdicts received and submits still outstanding. */
  function Held(l: L.Ledger): nat
  {
    l.accepted + l.rejected + l.retargeted + |l.sentAt|
  }

  /** Shares a step writes off: acknowledged beyond the pool's own count, or reaped without a verdict. */
  function LostAt(cfg: Config, s: State, e: Event): nat
  {
    match e
    case Frame(msg, _) => if Foreign(cfg, msg) then 0 else Uncredited(s, msg)
    case Found(share, token, sent, now) => if Submits(s, share, token) && sent then |Reaps(s, share, now)| else 0
    case _ => 0
  }

  function Uncredited(s: State, msg: Message): nat
  {
    if msg.SubmitSharesSuccess? then
      var settled := |L.Acked(s.ledger, msg.lastSequence)|;
      settled - L.Credit(settled, msg.accepted)
    else 0
  }

  function Lost(cfg: Config, s: State, events: seq<Event>): nat
    decreases |events|
  {
    if |events| == 0 || s.end.Some? then 0
    else LostAt(cfg, s, events[0]) + Lost(cfg, Step(cfg, s, events[0]), events[1..])
  }

  lemma AcceptBalance(l: L.Ledger, last: U32, claimed: U32)
    ensures var settled := |L.Acked(l, last)|;
            Held(L.Accept(l, last, claimed)) == Held(l) - (settled - L.Credit(settled, claimed))
    ensures L.Accept(l, last, claimed).submitted == l.submitted
  {
    L.ForgetSize(l, L.Acked(l, last));
  }

  lemma RejectBalance(l: L.Ledger, n: U32, difficulty: bool, current: Hash)
    ensures Held(L.Reject(l, n, difficulty, current)) == Held(l)
    ensures L.Reject(l, n, difficulty, current).submitted == l.submitted
  {
    if n in l.sentAt {
      L.ForgetSize(l, {n});
    }
  }

  lemma FrameBalance(cfg: Config, s: State, msg: Message, clock: U32)
    ensures var n := OnFrame(cfg, s, msg, clock);
            && n.ledger.submitted == s.ledger.submitted
            && Held(n.ledger) + LostAt(cfg, s, Frame(msg, clock)) == Held(s.ledger)
  {
    hide OnJob, OnTip, OnTarget, L.Accept, L.Reject, L.Acked, L.Credit, Held;
    match msg
    case SubmitSharesSuccess(_, last, claimed, _) => AcceptBalance(s.ledger, last, claimed);
    case SubmitSharesError(_, n, text) => RejectBalance(s.ledger, n, cfg.difficulty(text), s.mining.shareTarget);
    case _ =>
  }

  lemma StepBalance(cfg: Config, s: State, e: Event)
    requires L.Valid(s.ledger) && (s.ledger.seqNum < L.WRAP - 1 || !e.Found?)
    ensures var n := Step(cfg, s, e);
            n.ledger.submitted - Held(n.ledger) == s.ledger.submitted - Held(s.ledger) + LostAt(cfg, s, e)
  {
    hide OnFrame, OnPrice, Foreign, Uncredited, Reaps, L.Plus, L.Reaped;
    match e
    case Frame(msg, clock) => FrameBalance(cfg, s, msg, clock);
    case Found(share, token, sent, now) => SubmitOpens(s, share, now);
    case _ =>
  }

  /** Conservation: every submitted share is accepted, rejected, excused, outstanding or written off, once. */
  lemma {:induction false} RunBalance(cfg: Config, s: State, events: seq<Event>)
    requires L.Valid(s.ledger) && s.ledger.seqNum + FoundCount(events) < L.WRAP
    ensures var n := Run(cfg, s, events);
            n.ledger.submitted - Held(n.ledger) == s.ledger.submitted - Held(s.ledger) + Lost(cfg, s, events)
    decreases |events|
  {
    hide L.Valid, Step, Held, LostAt;
    if |events| > 0 && s.end.None? {
      StepLedger(cfg, s, events[0]);
      StepSeqNum(cfg, s, events[0]);
      StepBalance(cfg, s, events[0]);
      RunBalance(cfg, Step(cfg, s, events[0]), events[1..]);
    }
  }

  /** A whole session's books, whatever verdicts the pool sends. */
  lemma SessionBalances(cfg: Config, target: Hash, curtailed: bool, workers: nat, events: seq<Event>)
    requires FoundCount(events) < L.WRAP
    ensures var l := Run(cfg, Start(target, curtailed, workers), events).ledger;
            && L.Valid(l)
            && l.accepted + l.rejected + l.retargeted + |l.sentAt|
                 + Lost(cfg, Start(target, curtailed, workers), events) == l.submitted
  {
    var s := Start(target, curtailed, workers);
    StartSound(cfg, target, curtailed, workers);
    RunLedger(cfg, s, events);
    RunBalance(cfg, s, events);
  }

  /** Submitted shares name the job being hashed, on our channel, under ever larger sequence numbers. */
  lemma SentInOrder(cfg: Config, s: State, events: seq<Event>, i: nat, j: nat)
    requires L.Valid(s.ledger) && s.ledger.seqNum + FoundCount(events) < L.WRAP
    requires i < j < |events| && Run(cfg, s, events[..j]).end.None?
    ensures var a, b := Run(cfg, s, events[..i]), Run(cfg, s, events[..j]);
            var m, n := Sent(cfg, a, events[i]), Sent(cfg, b, events[j]);
            m.Some? && n.Some? ==>
              && m.value.sequence < n.value.sequence
              && b.mining.active.Some? && n.value.jobId == b.mining.active.value.jobId
              && n.value.channelId == cfg.channel
              && n.value.nonce == events[j].share.nonce && n.value.ntime == events[j].share.ntime
              && n.value.version == events[j].share.version
  {
    hide L.Valid, Step, L.Plus;
    var a, b, e := Run(cfg, s, events[..i]), Run(cfg, s, events[..j]), events[i];
    var before, between, after := events[..i], events[i + 1..j], events[j..];
    assert events[..j] == before + ([e] + between);
    assert events == before + ([e] + between) + after;
    FoundCountAppend(before + ([e] + between), after);
    FoundCountAppend(before, [e] + between);
    RunLedger(cfg, s, before);
    RunAppend(cfg, s, before, [e] + between);
    assert ([e] + between)[1..] == between && b == Run(cfg, a, [e] + between);
    if Sent(cfg, a, e).Some? && Sent(cfg, b, events[j]).Some? {
      StepLedger(cfg, a, e);
      StepSeqNum(cfg, a, e);
      RunLedger(cfg, Step(cfg, a, e), between);
      L.PlusOne(a.ledger.seqNum);
      L.PlusOne(b.ledger.seqNum);
    }
  }
}
