// Concrete sessions that reach the two exceptions of the session theorems:
// stale work without a usable target, and a wrapped sequence number.

module SessionLimits {
  import opened CompactTarget
  import opened Results
  import opened Messages
  import opened MiningState
  import opened Session
  import opened JobBook
  import L = Ledger

  function Job(): NewMiningJob
  {
    NewMiningJob(1, 7, false, 0, 2, ZeroHash())
  }

  /** A tip for job 7 whose nBits (zero) are malformed. */
  function Tip(prevHash: Hash): SetNewPrevHash
  {
    SetNewPrevHash(1, 7, prevHash, 0, 0)
  }

  function Opened(target: Hash, prevHash: Hash): Mining
  {
    Mining(Book(map[7 := Job()], [7]), Some(Job()), prevHash, 0, 0, true, target, false,
           [Some(Work(7, 1, 2, prevHash, ZeroHash(), 0, 0, target))])
  }

  function Opening(prevHash: Hash): seq<Event>
  {
    [Frame(JobMessage(Job()), 0), Frame(TipMessage(Tip(prevHash)), 0)]
  }

  lemma Armed(m: Mining, prevHash: Hash)
    requires m.shareTarget != ZeroHash() && !m.curtailed && |m.workers| == 1
    requires m.book == Book(map[7 := Job()], [7])
    ensures OnTip(m, 1, Tip(prevHash), 0) == Opened(m.shareTarget, prevHash)
  {
    var n := OnTip(m, 1, Tip(prevHash), 0);
    assert n.workers == Opened(m.shareTarget, prevHash).workers;
    assert n.book == Opened(m.shareTarget, prevHash).book;
  }

  /** The pool stores job 7 and a tip names it: one worker hashes at the pool's share target. */
  lemma AfterOpening(cfg: Config, target: Hash, prevHash: Hash)
    requires cfg.channel == 1 && target != ZeroHash()
    ensures Run(cfg, Start(target, false, 1), Opening(prevHash)) == State(Opened(target, prevHash), L.Fresh(), None)
  {
    hide OnTip, Opened;
    var s := Start(target, false, 1);
    var a := Step(cfg, s, Opening(prevHash)[0]);
    assert a.mining.book == Book(map[7 := Job()], [7]);
    Armed(a.mining, prevHash);
    RunTwo(cfg, s, Opening(prevHash)[0], Opening(prevHash)[1]);
  }

  /** Zero nBits give no target. */
  lemma NoBlockTarget()
    ensures TargetFromNBits(0).Malformed?
  {
  }

  /** Stale work is reached: the target is withdrawn, the tip moves on, and the worker hashes the old tip. */
  lemma StaleWorkRun(cfg: Config, target: Hash, first: Hash, second: Hash)
    requires cfg.channel == 1 && target != ZeroHash() && first != second
    ensures var s := Run(cfg, Start(target, false, 1),
                         Opening(first) + [Frame(SetTarget(1, ZeroHash()), 0), Frame(TipMessage(Tip(second)), 0)]);
            s.mining.prevHash == second && s.mining.workers == Opened(target, first).workers
  {
    NoBlockTarget();
    AfterOpening(cfg, target, first);
    var s := State(Opened(target, first), L.Fresh(), None);
    var a, b := Frame(SetTarget(1, ZeroHash()), 0), Frame(TipMessage(Tip(second)), 0);
    RunAppend(cfg, Start(target, false, 1), Opening(first), [a, b]);
    hide TargetFromNBits;
    var n := Step(cfg, s, a);
    assert n.mining == s.mining.(shareTarget := ZeroHash());
    RunTwo(cfg, s, a, b);
  }

  // ---------------------------------------------------------------- the wrap

  function Unlicensed(): Event
  {
    Found(Share(7, 0, 0, 2, ZeroHash()), false, true, 0)
  }

  function Drops(k: nat): (s: seq<Event>)
    ensures |s| == k
    ensures forall i :: 0 <= i < k ==> s[i] == Unlicensed()
  {
    seq(k, _ => Unlicensed())
  }

  /** Shares above the rate cap still advance the sequence number. */
  lemma {:induction false} DropsAdvance(cfg: Config, s: State, k: nat)
    requires s.end.None? && s.ledger.seqNum + k < L.WRAP
    ensures var l := s.ledger;
            Run(cfg, s, Drops(k))
              == s.(ledger := l.(seqNum := l.seqNum + k, found := l.found + k, dropped := l.dropped + k))
    decreases k
  {
    if k > 0 {
      L.PlusOne(s.ledger.seqNum);
      hide L.Plus;
      var n := Step(cfg, s, Unlicensed());
      assert Drops(k)[1..] == Drops(k - 1);
      RunStep(cfg, s, Drops(k));
      DropsAdvance(cfg, n, k - 1);
    }
  }

  lemma PlusWraps()
    ensures L.Plus(L.WRAP - 1, 1) == 0
  {
  }

  /** After 2^32 - 1 dropped shares, the next submit is filed under sequence number zero. */
  lemma WrapRun(cfg: Config, target: Hash, prevHash: Hash)
    requires cfg.channel == 1 && target != ZeroHash()
    ensures var submit := Found(Share(7, 0, 0, 2, target), true, true, 0);
            var l := Run(cfg, Start(target, false, 1), Opening(prevHash) + (Drops(L.WRAP - 1) + [submit])).ledger;
            l.seqNum == 0 && l.sentAt.Keys == {0} && !L.Valid(l)
  {
    var submit := Found(Share(7, 0, 0, 2, target), true, true, 0);
    var s := State(Opened(target, prevHash), L.Fresh(), None);
    AfterOpening(cfg, target, prevHash);
    RunAppend(cfg, Start(target, false, 1), Opening(prevHash), Drops(L.WRAP - 1) + [submit]);
    RunAppend(cfg, s, Drops(L.WRAP - 1), [submit]);
    DropsAdvance(cfg, s, L.WRAP - 1);
    hide Drops;
    var b := Run(cfg, s, Drops(L.WRAP - 1));
    RunStep(cfg, b, [submit]);
    assert [submit][1..] == [];
    PlusWraps();
    L.SubmitKeys(b.ledger, target, 0);
    assert L.Record(L.Count(b.ledger), target, 0).sentAt == map[0 := 0];
  }
}
