// The header a pool rebuilds from a submitted share, against the header the
// worker hashed.

module Headers {
  import opened Numerals
  import opened CompactTarget
  import opened Results
  import opened Messages
  import opened MiningState
  import opened Session
  import JobBook
  import L = Ledger

  datatype Header = Header(version: U32, prevHash: Hash, merkleRoot: Hash, time: U32, bits: U32, nonce: U32)

  /** A worker grinds time and nonce; the rest comes from its work. */
  function Hashed(w: Work, share: Share): Header
  {
    Header(w.version, w.prevHash, w.merkleRoot, share.ntime, w.bits, share.nonce)
  }

  /** The pool has the job and the tip; version, time and nonce come from the message. */
  function Rebuilt(job: NewMiningJob, prevHash: Hash, nBits: U32, msg: Message): Header
    requires msg.SubmitSharesStandard?
  {
    Header(msg.version, prevHash, job.merkleRoot, msg.ntime, nBits, msg.nonce)
  }

  /** The share was found on this work. */
  predicate FoundOn(w: Work, share: Share)
  {
    share.jobId == w.jobId && share.version == w.version && share.target == w.target
  }

  /** Once sent, the share's header is the one the pool checks. */
  predicate Trusted(cfg: Config, s: State, w: Work, e: Event)
    requires e.Found?
  {
    var m := Sent(cfg, s, e);
    m.Some? ==>
      && m.value.SubmitSharesStandard? && s.mining.active.Some?
      && m.value.jobId == s.mining.active.value.jobId
      && Rebuilt(s.mining.active.value, s.mining.prevHash, s.mining.nBits, m.value) == Hashed(w, e.share)
  }

  /** The work is of the session's tip, and has the active job's merkle root. */
  predicate SameGround(m: Mining, w: Work)
    requires m.active.Some?
  {
    w.prevHash == m.prevHash && w.bits == m.nBits && w.merkleRoot == m.active.value.merkleRoot
  }

  /** A share is put on the wire exactly for the active job within the rate cap, numbered next, on our channel. */
  lemma SentExactly(cfg: Config, s: State, share: Share, token: bool, sent: bool, now: nat)
    ensures var m := Sent(cfg, s, Found(share, token, sent, now));
            && (m.Some? <==> token && s.mining.active.Some? && s.mining.active.value.jobId == share.jobId)
            && (m.Some? && s.ledger.seqNum < 0xFFFF_FFFF ==>
                  m.value.SubmitSharesStandard? && m.value.channelId == cfg.channel
                  && m.value.sequence == s.ledger.seqNum + 1)
  {
  }

  /** One submit: the pool's header is the hashed one if and only if the work is still that of the job and tip. */
  lemma HeaderIff(cfg: Config, s: State, w: Work, e: Event)
    requires e.Found? && FoundOn(w, e.share) && Sent(cfg, s, e).Some?
    ensures s.mining.active.Some? && (Trusted(cfg, s, w, e) <==> SameGround(s.mining, w))
  {
  }

  // ---------------------------------------------------------------- whole runs

  function Prefix(cfg: Config, s: State, events: seq<Event>, k: nat): State
    requires k <= |events|
  {
    Run(cfg, s, events[..k])
  }

  /** Some worker held the work within the first k steps. */
  ghost predicate HandedOut(cfg: Config, s: State, events: seq<Event>, k: nat, w: Work)
    requires k <= |events|
  {
    exists i :: 0 <= i <= k && Holding(Prefix(cfg, s, events, i).mining, w)
  }

  predicate Holding(m: Mining, w: Work)
  {
    exists j :: 0 <= j < |m.workers| && m.workers[j] == Some(w)
  }

  /** At every moment, a share of any work handed out so far reaches the pool as the header that was hashed. */
  ghost predicate AllTrusted(cfg: Config, s: State, events: seq<Event>)
  {
    forall k: nat, w: Work, e: Event ::
      k <= |events| && e.Found? && HandedOut(cfg, s, events, k, w) && FoundOn(w, e.share) ==>
        Trusted(cfg, Prefix(cfg, s, events, k), w, e)
  }

  /** Some worker holds exactly the current work. */
  predicate Hashing(m: Mining, channel: U32)
  {
    exists j :: 0 <= j < |m.workers| && m.workers[j].Some? && Current(m, channel, m.workers[j].value)
  }

  /** Both are on a job of the same id, with another merkle root or another tip. */
  predicate Ambiguous(a: Mining, b: Mining)
  {
    && a.active.Some? && b.active.Some? && a.active.value.jobId == b.active.value.jobId
    && !(a.prevHash == b.prevHash && a.nBits == b.nBits
         && a.active.value.merkleRoot == b.active.value.merkleRoot)
  }

  /** While a job is being hashed and ever after, its id stands for one merkle root on one tip. */
  ghost predicate OneMeaning(cfg: Config, s: State, events: seq<Event>)
  {
    forall i, k :: 0 <= i <= k <= |events| && Hashing(Prefix(cfg, s, events, i).mining, cfg.channel) ==>
      !Ambiguous(Prefix(cfg, s, events, i).mining, Prefix(cfg, s, events, k).mining)
  }

  lemma StartArms(m: Mining, channel: U32, j: NewMiningJob, ntime: U32, now: U32, w: Work)
    requires Holding(StartJob(m, channel, j, ntime, now), w)
    ensures Holding(m, w) || Current(StartJob(m, channel, j, ntime, now), channel, w)
  {
    hide TargetFromNBits;
    var n := StartJob(m, channel, j, ntime, now);
    var i :| 0 <= i < |n.workers| && n.workers[i] == Some(w);
    if m.curtailed || EffectiveTarget(m.shareTarget, m.nBits).None? {
      assert m.workers[i] == Some(w);
    }
  }

  lemma FrameHandsOut(cfg: Config, m: Mining, msg: Message, clock: U32, w: Work)
    requires Holding(MiningFrame(cfg, m, msg, clock), w)
    ensures Holding(m, w) || Current(MiningFrame(cfg, m, msg, clock), cfg.channel, w)
  {
    hide StartJob, Holding, Current, JobBook.Store, JobBook.Keep;
    match msg
    case JobMessage(j) =>
      var n := m.(book := JobBook.Store(m.book, j));
      HoldingOnly(m, n, w);
      if j.hasNtimeStart && m.havePrev {
        StartArms(n, cfg.channel, j, j.ntimeStart, clock, w);
      }
    case TipMessage(p) =>
      var n := m.(prevHash := p.prevHash, nBits := p.nBits, havePrev := true, book := JobBook.Keep(m.book, p.jobId));
      HoldingOnly(m, n, w);
      if p.jobId in m.book.pending {
        var j := m.book.pending[p.jobId];
        StartArms(n, cfg.channel, j, TipNTime(p, j), clock, w);
      } else {
        IdleHolds(n.(active := None), w);
      }
    case SetTarget(_, t) =>
      var n := m.(shareTarget := t);
      HoldingOnly(m, n, w);
      if m.active.Some? && m.havePrev {
        StartArms(n, cfg.channel, m.active.value, m.activeNTime, clock, w);
      }
    case _ =>
  }

  lemma HoldingOnly(a: Mining, b: Mining, w: Work)
    requires a.workers == b.workers
    ensures Holding(a, w) <==> Holding(b, w)
  {
  }

  lemma IdleHolds(m: Mining, w: Work)
    ensures !Holding(Idled(m), w)
  {
  }

  /** Work a step leaves with a worker was there before, or is current after it. */
  lemma StepHandsOut(cfg: Config, s: State, e: Event, w: Work)
    requires Holding(Step(cfg, s, e).mining, w)
    ensures Holding(s.mining, w) || Current(Step(cfg, s, e).mining, cfg.channel, w)
  {
    hide MiningFrame, LedgerFrame, Holding, Current, Foreign, CurtailDecision;
    match e
    case Frame(msg, clock) =>
      if !Foreign(cfg, msg) {
        FrameHandsOut(cfg, s.mining, msg, clock, w);
      }
    case PriceTick(rate, trusted, threshold) =>
      var next := CurtailDecision(s.mining.curtailed, rate, trusted, threshold);
      IdleHolds(s.mining.(curtailed := next), w);
      HoldingOnly(s.mining, s.mining.(curtailed := next), w);
    case _ =>
  }

  lemma PrefixStep(cfg: Config, s: State, events: seq<Event>, k: nat)
    requires k < |events|
    ensures var a := Prefix(cfg, s, events, k);
            Prefix(cfg, s, events, k + 1) == if a.end.Some? then a else Step(cfg, a, events[k])
  {
    hide Step;
    RunSnoc(cfg, s, events[..k], events[k]);
    assert events[..k + 1] == events[..k] + [events[k]];
  }

  lemma RunSnoc(cfg: Config, s: State, a: seq<Event>, e: Event)
    ensures var r := Run(cfg, s, a); Run(cfg, s, a + [e]) == if r.end.Some? then r else Step(cfg, r, e)
  {
    hide Step;
    RunAppend(cfg, s, a, [e]);
    var r := Run(cfg, s, a);
    assert [e][1..] == [];
    if r.end.None? {
      assert Run(cfg, r, [e]) == Run(cfg, Step(cfg, r, e), []);
    }
  }

  /** All work handed out in a session was current when it was handed out. */
  lemma {:induction false} IssuedWhenCurrent(cfg: Config, s: State, events: seq<Event>, i: nat, w: Work)
    requires i <= |events| && !SomeArmed(s.mining) && Holding(Prefix(cfg, s, events, i).mining, w)
    ensures exists h :: 0 <= h <= i && Holding(Prefix(cfg, s, events, h).mining, w)
                        && Current(Prefix(cfg, s, events, h).mining, cfg.channel, w)
  {
    hide Step, Current;
    if i > 0 {
      PrefixStep(cfg, s, events, i - 1);
      hide Prefix, Holding;
      var a := Prefix(cfg, s, events, i - 1);
      if a.end.None? {
        StepHandsOut(cfg, a, events[i - 1], w);
      }
      if Holding(a.mining, w) {
        IssuedWhenCurrent(cfg, s, events, i - 1, w);
      }
    }
  }

  lemma CurrentIsHashing(m: Mining, channel: U32, w: Work)
    requires Holding(m, w) && Current(m, channel, w)
    ensures Hashing(m, channel) && m.active.Some? && SameGround(m, w) && m.active.value.jobId == w.jobId
  {
  }

  lemma HashingHolds(m: Mining, channel: U32) returns (w: Work)
    requires Hashing(m, channel)
    ensures Holding(m, w) && Current(m, channel, w)
  {
    var j :| 0 <= j < |m.workers| && m.workers[j].Some? && Current(m, channel, m.workers[j].value);
    w := m.workers[j].value;
  }

  function ShareOn(w: Work): Share
  {
    Share(w.jobId, 0, w.time, w.version, w.target)
  }

  lemma TrustedNow(cfg: Config, s: State, events: seq<Event>, k: nat, w: Work, e: Event)
    requires !SomeArmed(s.mining) && OneMeaning(cfg, s, events)
    requires k <= |events| && e.Found? && HandedOut(cfg, s, events, k, w) && FoundOn(w, e.share)
    ensures Trusted(cfg, Prefix(cfg, s, events, k), w, e)
  {
    hide Current, Holding, SomeArmed, Hashing, Sent, SameGround, Prefix;
    var now := Prefix(cfg, s, events, k);
    if Sent(cfg, now, e).Some? {
      var i :| 0 <= i <= k && Holding(Prefix(cfg, s, events, i).mining, w);
      IssuedWhenCurrent(cfg, s, events, i, w);
      var h :| 0 <= h <= i && Holding(Prefix(cfg, s, events, h).mining, w)
               && Current(Prefix(cfg, s, events, h).mining, cfg.channel, w);
      var then0 := Prefix(cfg, s, events, h);
      CurrentIsHashing(then0.mining, cfg.channel, w);
      HeaderIff(cfg, now, w, e);
      assert e == Found(e.share, e.token, e.sent, e.now);
      SentExactly(cfg, now, e.share, e.token, e.sent, e.now);
      assert !Ambiguous(then0.mining, now.mining);
      StillSame(then0.mining, now.mining, w);
    }
  }

  lemma StillSame(a: Mining, b: Mining, w: Work)
    requires a.active.Some? && b.active.Some? && a.active.value.jobId == b.active.value.jobId
    requires SameGround(a, w) && !Ambiguous(a, b)
    ensures SameGround(b, w)
  {
  }

  lemma AmbiguousMisleads(cfg: Config, s: State, events: seq<Event>, i: nat, k: nat)
    requires i <= k <= |events| && Hashing(Prefix(cfg, s, events, i).mining, cfg.channel)
    requires Ambiguous(Prefix(cfg, s, events, i).mining, Prefix(cfg, s, events, k).mining)
    ensures !AllTrusted(cfg, s, events)
  {
    var a, b := Prefix(cfg, s, events, i), Prefix(cfg, s, events, k);
    var w := HashingHolds(a.mining, cfg.channel);
    CurrentIsHashing(a.mining, cfg.channel, w);
    hide Current, Holding, Hashing, Prefix;
    var e := Found(ShareOn(w), true, true, 0);
    SentExactly(cfg, b, ShareOn(w), true, true, 0);
    HeaderIff(cfg, b, w, e);
    hide Sent, Trusted;
    assert HandedOut(cfg, s, events, k, w);
    assert !Trusted(cfg, b, w, e);
  }

  /**
   * Main result: in every session, every share the pool is sent, prompt or late, stands for the header that was
   * hashed, if and only if the pool lets a job id mean one merkle root on one tip from when it is hashed on.
   */
  lemma HeadersTrustedIff(cfg: Config, target: Hash, curtailed: bool, workers: nat, events: seq<Event>)
    ensures var s := Start(target, curtailed, workers);
            AllTrusted(cfg, s, events) <==> OneMeaning(cfg, s, events)
  {
    var s := Start(target, curtailed, workers);
    assert !SomeArmed(s.mining);
    hide Prefix, Hashing, Ambiguous, Trusted, HandedOut, Start, FoundOn;
    if OneMeaning(cfg, s, events) {
      forall k: nat, w: Work, e: Event |
        k <= |events| && e.Found? && HandedOut(cfg, s, events, k, w) && FoundOn(w, e.share)
        ensures Trusted(cfg, Prefix(cfg, s, events, k), w, e)
      {
        TrustedNow(cfg, s, events, k, w, e);
      }
    } else {
      var i, k :| 0 <= i <= k <= |events| && Hashing(Prefix(cfg, s, events, i).mining, cfg.channel)
                  && Ambiguous(Prefix(cfg, s, events, i).mining, Prefix(cfg, s, events, k).mining);
      AmbiguousMisleads(cfg, s, events, i, k);
    }
  }

  /** A tip names a job, and the next tip names it again: a late share of it is checked against the wrong tip. */
  lemma RenamedRun(cfg: Config, target: Hash, p: Hash, q: Hash)
    requires target != ZeroHash() && p != q
    ensures !AllTrusted(cfg, Start(target, false, 1), RenamedJob(cfg, p, q))
  {
    var s, es := Start(target, false, 1), RenamedJob(cfg, p, q);
    var a, b := Step(cfg, s, es[0]), Step(cfg, Step(cfg, s, es[0]), es[1]);
    var c := Step(cfg, b, es[2]);
    assert es[..2] == [es[0], es[1]] && es[..3] == [es[0], es[1]] + [es[2]];
    RunTwo(cfg, s, es[0], es[1]);
    RunSnoc(cfg, s, [es[0], es[1]], es[2]);
    assert a.mining.book == JobBook.Book(map[7 := es[0].msg.job], [7]);
    assert b.mining.book == a.mining.book && b.mining.active == Some(es[0].msg.job) && b.mining.prevHash == p;
    assert b.mining.workers[0].Some? && Current(b.mining, cfg.channel, b.mining.workers[0].value);
    assert c.mining.active == Some(es[0].msg.job) && c.mining.prevHash == q;
    assert Prefix(cfg, s, es, 2) == b && Prefix(cfg, s, es, 3) == c;
    AmbiguousMisleads(cfg, s, es, 2, 3);
  }

  function RenamedJob(cfg: Config, p: Hash, q: Hash): (es: seq<Event>)
    ensures |es| == 3
  {
    [Frame(JobMessage(NewMiningJob(cfg.channel, 7, false, 0, 2, ZeroHash())), 0),
     Frame(TipMessage(SetNewPrevHash(cfg.channel, 7, p, 0, 0)), 0),
     Frame(TipMessage(SetNewPrevHash(cfg.channel, 7, q, 0, 0)), 0)]
  }
}
