// Verdicts over whole sessions: which submits they settle, what they credit,
// and by which target a reject is judged.

module Verdicts {
  import opened Numerals
  import opened CompactTarget
  import opened Messages
  import opened MiningState
  import opened Session
  import opened Settlement
  import L = Ledger

  /** A verdict of the pool on submit n, read off the frame. */
  predicate Judges(cfg: Config, s: State, e: Event, n: U32)
  {
    && e.Frame?
    && match e.msg {
         case SubmitSharesSuccess(c, last, _, _) => c == cfg.channel && n <= last <= s.ledger.seqNum
         case SubmitSharesError(c, k, _) => c == cfg.channel && k == n
         case _ => false
       }
  }

  /** This event submits a share as number n. */
  predicate SubmitsAs(s: State, e: Event, n: nat)
  {
    && e.Found? && e.token && e.sent
    && s.mining.active.Some? && s.mining.active.value.jobId == e.share.jobId && n == s.ledger.seqNum + 1
  }

  /** A submit finds 1024 outstanding and n more than 512 numbers behind. */
  predicate Crowds(s: State, e: Event, n: U32)
  {
    SubmitsAs(s, e, s.ledger.seqNum + 1) && |s.ledger.sentAt| == 1024 && n < s.ledger.seqNum - 511
  }

  /** Outstanding after a step: what it submits, and what was outstanding and is neither judged nor crowded out. */
  lemma StepOutstanding(cfg: Config, s: State, e: Event, n: U32)
    requires L.Valid(s.ledger) && s.ledger.seqNum < 0xFFFF_FFFF
    ensures n in Step(cfg, s, e).ledger.sentAt
       <==> SubmitsAs(s, e, n) || (n in s.ledger.sentAt && !Judges(cfg, s, e, n) && !Crowds(s, e, n))
  {
    hide MiningFrame, OnPrice, L.Submit, L.Accept, L.Reject;
    match e
    case Frame(msg, clock) => {
      match msg
      case SubmitSharesSuccess(_, last, count, _) => L.AcceptExact(s.ledger, last, count);
      case SubmitSharesError(_, k, text) => L.RejectExact(s.ledger, k, cfg.difficulty(text), s.mining.shareTarget);
      case _ =>
    }
    case Found(share, token, sent, now) => L.SubmitExact(s.ledger, share.target, now);
    case _ =>
  }

  /** The target filed with a submit is never changed. */
  lemma StepTargets(cfg: Config, s: State, e: Event, n: U32)
    requires L.Valid(s.ledger) && s.ledger.seqNum < 0xFFFF_FFFF && n <= s.ledger.seqNum
    ensures n in Step(cfg, s, e).ledger.sentTarget ==>
              n in s.ledger.sentTarget && Step(cfg, s, e).ledger.sentTarget[n] == s.ledger.sentTarget[n]
  {
    hide MiningFrame, OnPrice, L.Submit, L.Accept, L.Reject;
    match e
    case Frame(msg, clock) => {
      match msg
      case SubmitSharesSuccess(_, last, count, _) => L.AcceptExact(s.ledger, last, count);
      case SubmitSharesError(_, k, text) => L.RejectExact(s.ledger, k, cfg.difficulty(text), s.mining.shareTarget);
      case _ =>
    }
    case Found(share, token, sent, now) =>
      L.SubmitExact(s.ledger, share.target, now);
      var f := L.Submit(s.ledger, share.target, now);
      assert n in f.sentTarget ==> n in f.sentTarget.Keys && n in s.ledger.sentAt.Keys;
    case _ =>
  }

  lemma {:induction false} RunTargets(cfg: Config, s: State, events: seq<Event>, n: U32)
    requires L.Valid(s.ledger) && s.ledger.seqNum + FoundCount(events) < L.WRAP && n <= s.ledger.seqNum
    ensures var t := Run(cfg, s, events).ledger.sentTarget;
            n in t ==> n in s.ledger.sentTarget && t[n] == s.ledger.sentTarget[n]
    decreases |events|
  {
    hide Step, L.Valid;
    if |events| > 0 && s.end.None? {
      var m := Step(cfg, s, events[0]);
      StepLedger(cfg, s, events[0]);
      StepSeqNum(cfg, s, events[0]);
      RunTargets(cfg, m, events[1..], n);
      if s.ledger.seqNum < 0xFFFF_FFFF {
        StepTargets(cfg, s, events[0], n);
      } else {
        LastNumber(cfg, s, events[0]);
      }
    }
  }

  /** At the last sequence number no share is left to find, and verdicts only remove. */
  lemma LastNumber(cfg: Config, s: State, e: Event)
    requires L.Valid(s.ledger) && !e.Found?
    ensures forall n :: n in Step(cfg, s, e).ledger.sentTarget ==>
              n in s.ledger.sentTarget && Step(cfg, s, e).ledger.sentTarget[n] == s.ledger.sentTarget[n]
  {
    hide MiningFrame, OnPrice, L.Accept, L.Reject;
    match e
    case Frame(msg, clock) => {
      match msg
      case SubmitSharesSuccess(_, last, count, _) => L.AcceptExact(s.ledger, last, count);
      case SubmitSharesError(_, k, text) => L.RejectExact(s.ledger, k, cfg.difficulty(text), s.mining.shareTarget);
      case _ =>
    }
    case _ =>
  }

  /**
   * A reject is judged by the target its own share was ground under, however much later it comes: excused if the
   * text is of the difficulty class and that target is known and no longer in force, counted otherwise.
   */
  lemma RejectJudgedByItsShare(cfg: Config, s: State, share: Share, now: nat, between: seq<Event>, text: Bytes,
                               clock: U32)
    requires L.Valid(s.ledger) && s.ledger.seqNum + 1 + FoundCount(between) < L.WRAP && s.end.None?
    requires SubmitsAs(s, Found(share, true, true, now), s.ledger.seqNum + 1)
    requires var t := Run(cfg, Step(cfg, s, Found(share, true, true, now)), between);
             t.end.None? && s.ledger.seqNum + 1 in t.ledger.sentAt
    ensures var t := Run(cfg, Step(cfg, s, Found(share, true, true, now)), between);
            var u := Step(cfg, t, Frame(SubmitSharesError(cfg.channel, s.ledger.seqNum + 1, text), clock));
            var excused := cfg.difficulty(text) && share.target !in {ZeroHash(), t.mining.shareTarget};
            && u.ledger.retargeted == t.ledger.retargeted + (if excused then 1 else 0)
            && u.ledger.rejected == t.ledger.rejected + (if excused then 0 else 1)
            && s.ledger.seqNum + 1 !in u.ledger.sentAt
  {
    var e, n := Found(share, true, true, now), s.ledger.seqNum + 1;
    Filed(cfg, s, share, now);
    hide Run, Step, SubmitsAs;
    RunLedger(cfg, Step(cfg, s, e), between);
    RunTargets(cfg, Step(cfg, s, e), between, n);
    RejectedNow(cfg, Run(cfg, Step(cfg, s, e), between), n, text, clock);
  }

  lemma Filed(cfg: Config, s: State, share: Share, now: nat)
    requires L.Valid(s.ledger) && s.ledger.seqNum < 0xFFFF_FFFF
    requires SubmitsAs(s, Found(share, true, true, now), s.ledger.seqNum + 1)
    ensures var a := Step(cfg, s, Found(share, true, true, now)).ledger;
            && L.Valid(a) && a.seqNum == s.ledger.seqNum + 1
            && a.seqNum in a.sentTarget && a.sentTarget[a.seqNum] == share.target
  {
    L.SubmitValid(s.ledger, share.target, now);
    L.SubmitExact(s.ledger, share.target, now);
    hide L.Submit, L.Valid;
    var a := L.Submit(s.ledger, share.target, now);
    assert a.seqNum in a.sentAt.Keys;
  }

  lemma RejectedNow(cfg: Config, t: State, n: U32, text: Bytes, clock: U32)
    requires L.Valid(t.ledger) && n in t.ledger.sentAt
    ensures n in t.ledger.sentTarget
    ensures var u := Step(cfg, t, Frame(SubmitSharesError(cfg.channel, n, text), clock));
            var excused := cfg.difficulty(text) && t.ledger.sentTarget[n] !in {ZeroHash(), t.mining.shareTarget};
            && u.ledger.retargeted == t.ledger.retargeted + (if excused then 1 else 0)
            && u.ledger.rejected == t.ledger.rejected + (if excused then 0 else 1)
            && n !in u.ledger.sentAt
  {
    assert n in t.ledger.sentTarget.Keys;
    L.RejectExact(t.ledger, n, cfg.difficulty(text), t.mining.shareTarget);
    hide L.Reject, L.Valid;
  }

  /** Acknowledging the last number issued, without a count, accepts everything outstanding and leaves nothing. */
  lemma AcknowledgedAll(cfg: Config, target: Hash, curtailed: bool, workers: nat, events: seq<Event>, sum: U64,
                        clock: U32)
    requires FoundCount(events) < L.WRAP && Run(cfg, Start(target, curtailed, workers), events).end.None?
    ensures var t := Run(cfg, Start(target, curtailed, workers), events);
            var u := Step(cfg, t, Frame(SubmitSharesSuccess(cfg.channel, t.ledger.seqNum, 0, sum), clock));
            && |u.ledger.sentAt| == 0 && |u.ledger.sentTarget| == 0
            && u.ledger.accepted == t.ledger.accepted + |t.ledger.sentAt|
            && u.ledger.rejected == t.ledger.rejected && u.ledger.retargeted == t.ledger.retargeted
  {
    var s := Start(target, curtailed, workers);
    RunLedger(cfg, s, events);
    var l := Run(cfg, s, events).ledger;
    hide Run, Start, L.Accept, L.Acked, L.Credit;
    L.AcceptExact(l, l.seqNum, 0);
    assert L.UpTo(l, l.seqNum) == l.sentAt.Keys by {
      forall n | n in l.sentAt.Keys ensures n <= l.seqNum { L.Issued(l, n); }
    }
    var a := L.Accept(l, l.seqNum, 0);
    assert a.sentAt.Keys == {} && a.sentTarget.Keys == {};
    assert |l.sentAt| == |l.sentAt.Keys| && |a.sentAt| == |a.sentAt.Keys| && |a.sentTarget| == |a.sentTarget.Keys|;
  }

  /** Of a batch, the pool's own count is believed from one up to the number it settles, and no further. */
  lemma CreditWithinSettled(cfg: Config, s: State, last: U32, count: U32, sum: U64, clock: U32)
    ensures var u := Step(cfg, s, Frame(SubmitSharesSuccess(cfg.channel, last, count, sum), clock));
            var settled := |set n | n in s.ledger.sentAt && n <= last|;
            u.ledger.accepted == s.ledger.accepted
              + (if last > s.ledger.seqNum then 0 else if 1 <= count <= settled then count else settled)
  {
    hide MiningFrame, L.Accept;
    L.AcceptExact(s.ledger, last, count);
    assert L.UpTo(s.ledger, last) == set n | n in s.ledger.sentAt && n <= last;
  }
}
