// Rejects that are excused as artefacts of a target change, and when a session
// that never changes its target can see one.

module Excuses {
  import opened Numerals
  import opened CompactTarget
  import opened Results
  import opened Messages
  import opened MiningState
  import opened Session
  import JobBook
  import L = Ledger

  /** The work the workers hold. */
  function Issued(m: Mining): set<Work>
  {
    set i | 0 <= i < |m.workers| && m.workers[i].Some? :: m.workers[i].value
  }

  /** The share carries the job, version and target of some work that was handed out. */
  predicate Ground(share: Share, seen: set<Work>)
  {
    exists w :: w in seen && w.jobId == share.jobId && w.version == share.version && w.target == share.target
  }

  /**
   * Every share found was ground from work handed out before: in this session, or in an earlier one whose
   * shares are still in the channel (seen).
   */
  predicate Honest(cfg: Config, s: State, seen: set<Work>, events: seq<Event>)
    decreases |events|
  {
    |events| == 0 || s.end.Some? ||
    var known := seen + Issued(s.mining);
    (events[0].Found? ==> Ground(events[0].share, known)) && Honest(cfg, Step(cfg, s, events[0]), known, events[1..])
  }

  /** The pool does not change the share target. */
  predicate Keeps(cfg: Config, target: Hash, e: Event)
  {
    e.Frame? && e.msg.SetTarget? && e.msg.channelId == cfg.channel ==> e.msg.target == target
  }

  predicate AllKeep(cfg: Config, target: Hash, events: seq<Event>)
  {
    forall i :: 0 <= i < |events| ==> Keeps(cfg, target, events[i])
  }

  // ---------------------------------------------------------------- a target assigned by the pool

  /** Nothing in sight was ground under any other target; a zero target marks a share of unknown origin. */
  predicate Plain(target: Hash, t: Hash)
  {
    t == target || t == ZeroHash()
  }

  ghost predicate OneTarget(s: State, seen: set<Work>, target: Hash)
  {
    && s.mining.shareTarget == target
    && (forall w :: w in seen ==> Plain(target, w.target))
    && (forall i :: 0 <= i < |s.mining.workers| && s.mining.workers[i].Some?
          ==> Plain(target, s.mining.workers[i].value.target))
    && (forall n :: n in s.ledger.sentTarget ==> Plain(target, s.ledger.sentTarget[n]))
  }

  lemma MiningOneTarget(cfg: Config, m: Mining, msg: Message, clock: U32, target: Hash)
    requires target != ZeroHash() && m.shareTarget == target && Keeps(cfg, target, Frame(msg, clock))
    requires !Foreign(cfg, msg)
    requires forall i :: 0 <= i < |m.workers| && m.workers[i].Some? ==> Plain(target, m.workers[i].value.target)
    ensures var n := MiningFrame(cfg, m, msg, clock);
            && n.shareTarget == target
            && forall i :: 0 <= i < |n.workers| && n.workers[i].Some? ==> Plain(target, n.workers[i].value.target)
  {
    hide JobBook.Store, JobBook.Keep, TipNTime, RollNTime;
  }

  lemma LedgerOneTarget(cfg: Config, l: L.Ledger, msg: Message, target: Hash)
    requires forall n :: n in l.sentTarget ==> Plain(target, l.sentTarget[n])
    ensures var r := LedgerFrame(cfg, l, target, msg);
            r.retargeted == l.retargeted && forall n :: n in r.sentTarget ==> Plain(target, r.sentTarget[n])
  {
    hide L.Acked, L.Credit;
  }

  lemma SubmitOneTarget(l: L.Ledger, t: Hash, now: nat, target: Hash)
    requires Plain(target, t) && forall n :: n in l.sentTarget ==> Plain(target, l.sentTarget[n])
    ensures var r := L.Submit(l, t, now);
            r.retargeted == l.retargeted && forall n :: n in r.sentTarget ==> Plain(target, r.sentTarget[n])
  {
    hide L.Plus, L.Reaped;
  }

  lemma StepOneTarget(cfg: Config, s: State, seen: set<Work>, e: Event, target: Hash)
    requires target != ZeroHash() && OneTarget(s, seen, target) && Keeps(cfg, target, e)
    requires e.Found? ==> Ground(e.share, seen + Issued(s.mining))
    ensures OneTarget(Step(cfg, s, e), seen + Issued(s.mining), target)
    ensures Step(cfg, s, e).ledger.retargeted == s.ledger.retargeted
  {
    hide MiningFrame, LedgerFrame, L.Submit, L.Plus, Foreign;
    match e
    case Frame(msg, clock) =>
      if !Foreign(cfg, msg) {
        MiningOneTarget(cfg, s.mining, msg, clock, target);
        LedgerOneTarget(cfg, s.ledger, msg, target);
      }
    case Found(share, token, sent, now) => SubmitOneTarget(s.ledger, share.target, now, target);
    case _ =>
  }

  /** Under a non-zero target that the pool keeps, no reject is ever excused. */
  lemma {:induction false} NoRetargetNoExcuse(cfg: Config, s: State, seen: set<Work>, events: seq<Event>, target: Hash)
    requires target != ZeroHash() && OneTarget(s, seen, target)
    requires AllKeep(cfg, target, events) && Honest(cfg, s, seen, events)
    ensures Run(cfg, s, events).ledger.retargeted == s.ledger.retargeted
    decreases |events|
  {
    hide OneTarget, Step, Ground, Keeps;
    if |events| > 0 && s.end.None? {
      StepOneTarget(cfg, s, seen, events[0], target);
      NoRetargetNoExcuse(cfg, Step(cfg, s, events[0]), seen + Issued(s.mining), events[1..], target);
    }
  }

  // ---------------------------------------------------------------- how an excuse comes about

  function JobFor(cfg: Config, share: Share): Event
  {
    Frame(JobMessage(NewMiningJob(cfg.channel, share.jobId, false, 0, share.version, ZeroHash())), 0)
  }

  function TipFor(cfg: Config, share: Share, nBits: U32): Event
  {
    Frame(TipMessage(SetNewPrevHash(cfg.channel, share.jobId, ZeroHash(), 0, nBits)), 0)
  }

  function Submitted(share: Share): Event
  {
    Found(share, true, true, 0)
  }

  function Refusal(cfg: Config, text: Bytes): Event
  {
    Frame(SubmitSharesError(cfg.channel, 1, text), 0)
  }

  /** The pool opens a job, a share of it is submitted, and the pool refuses it. */
  function Exchange(cfg: Config, share: Share, nBits: U32, text: Bytes): seq<Event>
  {
    [JobFor(cfg, share), TipFor(cfg, share, nBits), Submitted(share), Refusal(cfg, text)]
  }

  /** The state after job and tip. */
  function Working(cfg: Config, target: Hash, workers: nat, share: Share, nBits: U32): State
  {
    Step(cfg, Step(cfg, Start(target, false, workers), JobFor(cfg, share)), TipFor(cfg, share, nBits))
  }

  lemma WorkingShape(cfg: Config, target: Hash, workers: nat, share: Share, nBits: U32)
    ensures var a := Step(cfg, Start(target, false, workers), JobFor(cfg, share));
            var s := Working(cfg, target, workers, share, nBits);
            && a.end.None? && s.end.None? && s.ledger == L.Fresh() && s.mining.shareTarget == target
            && s.mining.active.Some? && s.mining.active.value.jobId == share.jobId
            && (EffectiveTarget(target, nBits) == Some(share.target) && workers > 0 ==> Ground(share, Issued(s.mining)))
  {
    hide EffectiveTarget;
    var a := Step(cfg, Start(target, false, workers), JobFor(cfg, share));
    assert share.jobId in a.mining.book.pending;
    var s := Working(cfg, target, workers, share, nBits);
    if EffectiveTarget(target, nBits) == Some(share.target) && workers > 0 {
      var w := s.mining.workers[0].value;
      assert w in Issued(s.mining);
    }
  }

  lemma FirstSubmit(target: Hash)
    ensures var l := L.Submit(L.Fresh(), target, 0);
            l.seqNum == 1 && l.sentAt == map[1 := 0] && l.sentTarget == map[1 := target] && l.retargeted == 0
  {
    L.PlusOne(0);
    hide L.Plus;
    var r := L.Record(L.Count(L.Fresh()), target, 0);
    assert r.sentAt == map[1 := 0] && |r.sentAt| == 1;
    assert r.sentAt - {} == r.sentAt && r.sentTarget - {} == r.sentTarget;
  }

  lemma RunFour(cfg: Config, s: State, a: Event, b: Event, c: Event, d: Event)
    requires s.end.None? && Step(cfg, s, a).end.None? && Step(cfg, Step(cfg, s, a), b).end.None?
    requires Step(cfg, Step(cfg, Step(cfg, s, a), b), c).end.None?
    ensures Run(cfg, s, [a, b, c, d]) == Step(cfg, Step(cfg, Step(cfg, Step(cfg, s, a), b), c), d)
  {
    hide Step, Run;
    RunStep(cfg, s, [a, b, c, d]);
    assert [a, b, c, d][1..] == [b, c, d] && [b, c, d][1..] == [c, d];
    RunStep(cfg, Step(cfg, s, a), [b, c, d]);
    RunTwo(cfg, Step(cfg, Step(cfg, s, a), b), c, d);
  }

  /** A refused share of any target other than the session's own is excused, though the target never changed. */
  lemma ExcusedRun(cfg: Config, target: Hash, workers: nat, share: Share, nBits: U32, text: Bytes)
    requires cfg.difficulty(text) && !Plain(target, share.target)
    ensures Run(cfg, Start(target, false, workers), Exchange(cfg, share, nBits, text)).ledger.retargeted == 1
    ensures AllKeep(cfg, target, Exchange(cfg, share, nBits, text))
  {
    WorkingShape(cfg, target, workers, share, nBits);
    FirstSubmit(share.target);
    hide MiningFrame, L.Submit, Start;
    var s0 := Start(target, false, workers);
    var s1 := Step(cfg, s0, JobFor(cfg, share));
    var s2 := Step(cfg, s1, TipFor(cfg, share, nBits));
    assert s2 == Working(cfg, target, workers, share, nBits);
    var s3 := Step(cfg, s2, Submitted(share));
    assert s3.ledger == L.Submit(L.Fresh(), share.target, 0) && s3.mining == s2.mining && s3.end.None?;
    var s4 := Step(cfg, s3, Refusal(cfg, text));
    assert s4.ledger.retargeted == 1;
    StartOpen(target, false, workers);
    RunFour(cfg, s0, JobFor(cfg, share), TipFor(cfg, share, nBits), Submitted(share), Refusal(cfg, text));
  }

  lemma StartOpen(target: Hash, curtailed: bool, workers: nat)
    ensures Start(target, curtailed, workers).end.None?
  {
  }

  lemma GroundMore(share: Share, seen: set<Work>, more: set<Work>)
    requires Ground(share, seen)
    ensures Ground(share, seen + more) && Ground(share, more + seen)
  {
  }

  lemma HonestStep(cfg: Config, s: State, seen: set<Work>, events: seq<Event>)
    requires |events| > 0
    requires events[0].Found? ==> Ground(events[0].share, seen + Issued(s.mining))
    requires Honest(cfg, Step(cfg, s, events[0]), seen + Issued(s.mining), events[1..])
    ensures Honest(cfg, s, seen, events)
  {
  }

  /** The exchange is honest as soon as its share was ground from earlier work, or from the job it opens. */
  lemma HonestExchange(cfg: Config, target: Hash, workers: nat, share: Share, nBits: U32, text: Bytes, seen: set<Work>)
    requires Ground(share, seen) || Ground(share, Issued(Working(cfg, target, workers, share, nBits).mining))
    ensures Honest(cfg, Start(target, false, workers), seen, Exchange(cfg, share, nBits, text))
  {
    hide Step, Ground, Issued;
    var a, b, c, d := JobFor(cfg, share), TipFor(cfg, share, nBits), Submitted(share), Refusal(cfg, text);
    var s0 := Start(target, false, workers);
    var s1 := Step(cfg, s0, a);
    var s2 := Step(cfg, s1, b);
    var k0 := seen + Issued(s0.mining);
    var k1 := k0 + Issued(s1.mining);
    var k2 := k1 + Issued(s2.mining);
    if Ground(share, seen) {
      GroundMore(share, seen, Issued(s0.mining));
      GroundMore(share, k0, Issued(s1.mining));
      GroundMore(share, k1, Issued(s2.mining));
    } else {
      GroundMore(share, Issued(s2.mining), k1);
    }
    var s3 := Step(cfg, s2, c);
    var k3 := k2 + Issued(s3.mining);
    assert [d][1..] == [] && Honest(cfg, Step(cfg, s3, d), k3, []);
    HonestStep(cfg, s3, k2, [d]);
    assert [c, d][1..] == [d];
    HonestStep(cfg, s2, k1, [c, d]);
    assert [b, c, d][1..] == [c, d];
    HonestStep(cfg, s1, k0, [b, c, d]);
    assert [a, b, c, d][1..] == [b, c, d];
    HonestStep(cfg, s0, seen, [a, b, c, d]);
  }

  /** Exponent three and mantissa one: the smallest valid nBits. */
  const SMALLEST: U32 := 0x0300_0001

  lemma SmallestTarget() returns (t: Hash)
    ensures TargetFromNBits(SMALLEST) == Target(t) && t != ZeroHash()
  {
    assert Exponent(SMALLEST) == 3 && Mantissa(SMALLEST) == 1 && !SignBit(SMALLEST);
    assert Pow(256, 0) == 1;
    assert Expanded(SMALLEST) == 1;
    assert ToDigits(256, 1) == [1];
    t := TargetFromNBits(SMALLEST).hash;
    BlockTargetNonZero(SMALLEST);
  }

  lemma ZeroNumber()
    ensures Number(ZeroHash()) == 0
  {
    assert Reversed(ZeroHash()) == Zeros(32);
    ValueZeros(256, 32);
  }

  lemma PositiveProduct(a: nat, b: nat)
    requires a > 0 && b > 0
    ensures a * b > 0
  {
  }

  /** A block target is never zero. */
  lemma BlockTargetNonZero(nBits: U32)
    ensures TargetFromNBits(nBits).Target? ==> TargetFromNBits(nBits).hash != ZeroHash()
  {
    if TargetFromNBits(nBits).Target? {
      TargetNumber(nBits);
      PositiveProduct(Mantissa(nBits), Pow(256, Exponent(nBits) - 3));
      ZeroNumber();
    }
  }

  // ---------------------------------------------------------------- exactly when

  /** No session opened at this target, and kept there by the pool, ever excuses a reject. */
  ghost predicate ExcuseFree(cfg: Config, target: Hash, seen: set<Work>)
  {
    forall curtailed: bool, workers: nat, events: seq<Event> ::
      (AllKeep(cfg, target, events) && Honest(cfg, Start(target, curtailed, workers), seen, events)) ==>
        Run(cfg, Start(target, curtailed, workers), events).ledger.retargeted == 0
  }

  lemma Counterexample(cfg: Config, target: Hash, workers: nat, share: Share, nBits: U32, text: Bytes, seen: set<Work>)
    requires cfg.difficulty(text) && !Plain(target, share.target)
    requires Ground(share, seen) || Ground(share, Issued(Working(cfg, target, workers, share, nBits).mining))
    ensures !ExcuseFree(cfg, target, seen)
  {
    ExcusedRun(cfg, target, workers, share, nBits, text);
    HonestExchange(cfg, target, workers, share, nBits, text, seen);
    hide Run, Honest, AllKeep, Exchange, Start;
    var events := Exchange(cfg, share, nBits, text);
    assert AllKeep(cfg, target, events) && Honest(cfg, Start(target, false, workers), seen, events);
  }

  /** With no target assigned the workers grind at the block target, and a refusal of that share is excused. */
  lemma ZeroTargetExcuses(cfg: Config, seen: set<Work>, text: Bytes)
    requires cfg.difficulty(text)
    ensures !ExcuseFree(cfg, ZeroHash(), seen)
  {
    var t := SmallestTarget();
    var share := Share(7, 0, 0, 2, t);
    WorkingShape(cfg, ZeroHash(), 1, share, SMALLEST);
    Counterexample(cfg, ZeroHash(), 1, share, SMALLEST, text, seen);
  }

  /**
   * Exactly when: the pool assigned a target, and no share of an earlier session ground under another one is
   * left in the channel.
   */
  lemma ExcuseFreeIff(cfg: Config, target: Hash, seen: set<Work>, text: Bytes)
    requires cfg.difficulty(text)
    ensures ExcuseFree(cfg, target, seen) <==> target != ZeroHash() && forall w :: w in seen ==> Plain(target, w.target)
  {
    if target == ZeroHash() {
      ZeroTargetExcuses(cfg, seen, text);
    } else if w :| w in seen && !Plain(target, w.target) {
      Counterexample(cfg, target, 0, Share(w.jobId, 0, 0, w.version, w.target), 0, text, seen);
    } else {
      forall curtailed: bool, workers: nat, events: seq<Event> |
        AllKeep(cfg, target, events) && Honest(cfg, Start(target, curtailed, workers), seen, events)
        ensures Run(cfg, Start(target, curtailed, workers), events).ledger.retargeted == 0
      {
        assert OneTarget(Start(target, curtailed, workers), seen, target);
        NoRetargetNoExcuse(cfg, Start(target, curtailed, workers), seen, events, target);
      }
    }
  }

  // ---------------------------------------------------------------- what that hides

  /** Without an assigned target, everything was ground under some block target. */
  ghost predicate BlockTargets(s: State, seen: set<Work>)
  {
    && s.mining.shareTarget == ZeroHash()
    && (forall w :: w in seen ==> w.target != ZeroHash())
    && (forall i :: 0 <= i < |s.mining.workers| && s.mining.workers[i].Some?
          ==> s.mining.workers[i].value.target != ZeroHash())
    && NoneZero(s.ledger)
  }

  ghost predicate NoneZero(l: L.Ledger)
  {
    l.sentAt.Keys == l.sentTarget.Keys && forall n :: n in l.sentTarget ==> l.sentTarget[n] != ZeroHash()
  }

  /** Every refusal of the run is of the difficulty class. */
  predicate DifficultyOnly(cfg: Config, e: Event)
  {
    e.Frame? && e.msg.SubmitSharesError? ==> cfg.difficulty(e.msg.error)
  }

  lemma MiningBlockTargets(cfg: Config, m: Mining, msg: Message, clock: U32)
    requires m.shareTarget == ZeroHash() && Keeps(cfg, ZeroHash(), Frame(msg, clock)) && !Foreign(cfg, msg)
    requires forall i :: 0 <= i < |m.workers| && m.workers[i].Some? ==> m.workers[i].value.target != ZeroHash()
    ensures var n := MiningFrame(cfg, m, msg, clock);
            && n.shareTarget == ZeroHash()
            && forall i :: 0 <= i < |n.workers| && n.workers[i].Some? ==> n.workers[i].value.target != ZeroHash()
  {
    hide JobBook.Store, JobBook.Keep, TipNTime, RollNTime, TargetFromNBits;
    BlockTargetNonZero(MiningFrame(cfg, m, msg, clock).nBits);
  }

  lemma LedgerBlockTargets(cfg: Config, l: L.Ledger, msg: Message)
    requires NoneZero(l) && (msg.SubmitSharesError? ==> cfg.difficulty(msg.error))
    ensures var r := LedgerFrame(cfg, l, ZeroHash(), msg); NoneZero(r) && r.rejected == l.rejected
  {
    hide L.Acked, L.Credit;
    match msg
    case SubmitSharesSuccess(_, last, n, _) => L.ForgetKeysAgree(l, L.Acked(l, last));
    case SubmitSharesError(_, n, _) => L.ForgetKeysAgree(l, {n});
    case _ =>
  }

  lemma SubmitBlockTargets(l: L.Ledger, t: Hash, now: nat)
    requires NoneZero(l) && t != ZeroHash()
    ensures NoneZero(L.Submit(l, t, now)) && L.Submit(l, t, now).rejected == l.rejected
  {
    hide L.Plus, L.Reaped;
    var r := L.Record(L.Count(l), t, now);
    L.RecordKeysAgree(L.Count(l), t, now);
    L.ForgetKeysAgree(r, L.Reaped(r));
  }

  lemma StepBlockTargets(cfg: Config, s: State, seen: set<Work>, e: Event)
    requires BlockTargets(s, seen) && Keeps(cfg, ZeroHash(), e) && DifficultyOnly(cfg, e)
    requires e.Found? ==> Ground(e.share, seen + Issued(s.mining))
    ensures BlockTargets(Step(cfg, s, e), seen + Issued(s.mining))
    ensures Step(cfg, s, e).ledger.rejected == s.ledger.rejected
  {
    hide MiningFrame, LedgerFrame, L.Submit, L.Plus, Foreign;
    match e
    case Frame(msg, clock) =>
      if !Foreign(cfg, msg) {
        MiningBlockTargets(cfg, s.mining, msg, clock);
        LedgerBlockTargets(cfg, s.ledger, msg);
      }
    case Found(share, token, sent, now) => SubmitBlockTargets(s.ledger, share.target, now);
    case _ =>
  }

  lemma {:induction false} BlockTargetsHideRejects(cfg: Config, s: State, seen: set<Work>, events: seq<Event>)
    requires BlockTargets(s, seen) && AllKeep(cfg, ZeroHash(), events) && Honest(cfg, s, seen, events)
    requires forall i :: 0 <= i < |events| ==> DifficultyOnly(cfg, events[i])
    ensures Run(cfg, s, events).ledger.rejected == s.ledger.rejected
    decreases |events|
  {
    hide BlockTargets, Step, Ground, Keeps, DifficultyOnly;
    if |events| > 0 && s.end.None? {
      StepBlockTargets(cfg, s, seen, events[0]);
      BlockTargetsHideRejects(cfg, Step(cfg, s, events[0]), seen + Issued(s.mining), events[1..]);
    }
  }

  /** A pool that assigns no target may refuse every share as too easy: none counts, and the yield floor never acts. */
  lemma ZeroTargetNeverDegrades(cfg: Config, curtailed: bool, workers: nat, events: seq<Event>)
    requires AllKeep(cfg, ZeroHash(), events) && Honest(cfg, Start(ZeroHash(), curtailed, workers), {}, events)
    requires forall i :: 0 <= i < |events| ==> DifficultyOnly(cfg, events[i])
    ensures var s := Run(cfg, Start(ZeroHash(), curtailed, workers), events);
            s.ledger.rejected == 0 && s.end != Some(Degraded)
  {
    var s := Start(ZeroHash(), curtailed, workers);
    assert BlockTargets(s, {});
    BlockTargetsHideRejects(cfg, s, {}, events);
    if Run(cfg, s, events).end == Some(Degraded) {
      DegradedEnd(cfg, s, events);
    }
  }
}
