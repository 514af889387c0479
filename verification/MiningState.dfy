// Job, chain-tip and share-target state of a Stratum V2 session, and the work
// handed to the hashing workers.

module MiningState {
  import opened Numerals
  import opened CompactTarget
  import opened Results
  import opened Messages
  import opened JobBook

  /** What a worker hashes: the header fields and the target a share must meet. */
  datatype Work = Work(jobId: U32, channelId: U32, version: U32, prevHash: Hash, merkleRoot: Hash,
                       time: U32, bits: U32, target: Hash)

  datatype Mining = Mining(
    book: Book, active: Option<NewMiningJob>, prevHash: Hash, nBits: U32, activeNTime: U32,
    havePrev: bool, shareTarget: Hash, curtailed: bool, workers: seq<Option<Work>>)

  function All(n: nat, w: Option<Work>): (s: seq<Option<Work>>)
    ensures |s| == n
    ensures forall i :: 0 <= i < n ==> s[i] == w
  {
    seq(n, _ => w)
  }

  /** Workers are idle at the start of a session: the previous one was torn down first. */
  function Fresh(shareTarget: Hash, curtailed: bool, workers: nat): Mining
  {
    Mining(EMPTY, None, ZeroHash(), 0, 0, false, shareTarget, curtailed, All(workers, None))
  }

  /** The pool's share target, or the block target when the pool assigned none. */
  function EffectiveTarget(shareTarget: Hash, nBits: U32): Option<Hash>
  {
    if shareTarget != ZeroHash() then Some(shareTarget) else
    match TargetFromNBits(nBits)
    case Target(t) => Some(t)
    case Malformed(_) => None
  }

  function RollNTime(declared: U32, now: U32): U32
  {
    if declared < now then now else declared
  }

  function WorkFor(m: Mining, channel: U32, j: NewMiningJob, ntime: U32, target: Hash, now: U32): Work
  {
    Work(j.jobId, channel, j.version, m.prevHash, j.merkleRoot, RollNTime(ntime, now), m.nBits, target)
  }

  /** Without a usable target the workers are left as they were. */
  function Rearmed(m: Mining, channel: U32, j: NewMiningJob, ntime: U32, now: U32): seq<Option<Work>>
  {
    var target := EffectiveTarget(m.shareTarget, m.nBits);
    if target.None? then m.workers
    else All(|m.workers|, Some(WorkFor(m, channel, j, ntime, target.value, now)))
  }

  function StartJob(m: Mining, channel: U32, j: NewMiningJob, ntime: U32, now: U32): Mining
  {
    var n := m.(active := Some(j), activeNTime := ntime);
    if m.curtailed then n else n.(workers := Rearmed(m, channel, j, ntime, now))
  }

  function Idled(m: Mining): Mining
  {
    m.(workers := All(|m.workers|, None))
  }

  /** The later of the tip's ntime and the named job's own. */
  function TipNTime(p: SetNewPrevHash, j: NewMiningJob): (t: U32)
    ensures t >= p.ntimeStart && (j.hasNtimeStart ==> t >= j.ntimeStart)
    ensures t == p.ntimeStart || (j.hasNtimeStart && t == j.ntimeStart)
  {
    if j.hasNtimeStart && j.ntimeStart > p.ntimeStart then j.ntimeStart else p.ntimeStart
  }

  function OnJob(m: Mining, channel: U32, j: NewMiningJob, now: U32): Mining
  {
    var n := m.(book := Store(m.book, j));
    if j.hasNtimeStart && m.havePrev then StartJob(n, channel, j, j.ntimeStart, now) else n
  }

  function OnTip(m: Mining, channel: U32, p: SetNewPrevHash, now: U32): Mining
  {
    var n := m.(prevHash := p.prevHash, nBits := p.nBits, havePrev := true, book := Keep(m.book, p.jobId));
    if p.jobId in m.book.pending then
      var j := m.book.pending[p.jobId];
      StartJob(n, channel, j, TipNTime(p, j), now)
    else
      Idled(n.(active := None))
  }

  function OnTarget(m: Mining, channel: U32, target: Hash, now: U32): Mining
  {
    var n := m.(shareTarget := target);
    if m.active.Some? && m.havePrev then StartJob(n, channel, m.active.value, m.activeNTime, now) else n
  }

  /** The curtailment gate: an untrusted price never moves it. */
  function CurtailDecision(current: bool, rate: real, trusted: bool, threshold: real): bool
  {
    if threshold <= 0.0 || !trusted || rate <= 0.0 then current else rate < threshold
  }

  function OnPrice(m: Mining, rate: real, trusted: bool, threshold: real): Mining
  {
    var next := CurtailDecision(m.curtailed, rate, trusted, threshold);
    var n := m.(curtailed := next);
    if next && !m.curtailed then Idled(n) else n
  }

  /** w is exactly the work of the active job on the current tip at the current target. */
  predicate Current(m: Mining, channel: U32, w: Work)
  {
    && m.active.Some?
    && w.jobId == m.active.value.jobId
    && w.version == m.active.value.version
    && w.merkleRoot == m.active.value.merkleRoot
    && w.channelId == channel
    && w.prevHash == m.prevHash
    && w.bits == m.nBits
    && EffectiveTarget(m.shareTarget, m.nBits) == Some(w.target)
    && w.time >= m.activeNTime
  }

  predicate Coherent(m: Mining, channel: U32)
  {
    forall i :: 0 <= i < |m.workers| && m.workers[i].Some? ==> Current(m, channel, m.workers[i].value)
  }

  predicate SomeArmed(m: Mining)
  {
    exists i :: 0 <= i < |m.workers| && m.workers[i].Some?
  }

  /** Facts that hold whatever the pool sends. */
  ghost predicate Sound(m: Mining, channel: U32)
  {
    && JobBook.Valid(m.book)
    && (forall id :: id in m.book.pending ==> m.book.pending[id].channelId == channel)
    && (m.active.Some? ==> m.havePrev && m.active.value.channelId == channel)
    && (m.active.Some? && m.active.value.hasNtimeStart ==> m.activeNTime >= m.active.value.ntimeStart)
    && (m.curtailed ==> !SomeArmed(m))
    && (!m.havePrev ==> !SomeArmed(m))
  }

  lemma StartJobSound(m: Mining, channel: U32, j: NewMiningJob, ntime: U32, now: U32)
    requires JobBook.Valid(m.book)
    requires forall id :: id in m.book.pending ==> m.book.pending[id].channelId == channel
    requires m.havePrev && j.channelId == channel && (m.curtailed ==> !SomeArmed(m))
    requires j.hasNtimeStart ==> ntime >= j.ntimeStart
    ensures Sound(StartJob(m, channel, j, ntime, now), channel)
  {
    var n := StartJob(m, channel, j, ntime, now);
    if m.curtailed {
      assert n.workers == m.workers;
    }
  }

  /** Arming from any worker state: coherent exactly when a usable target exists, or nothing stays armed. */
  lemma StartJobCoherent(m: Mining, channel: U32, j: NewMiningJob, ntime: U32, now: U32)
    requires m.curtailed ==> !SomeArmed(m)
    ensures Coherent(StartJob(m, channel, j, ntime, now), channel)
       <==> EffectiveTarget(m.shareTarget, m.nBits).Some? || !SomeArmed(m)
  {
    var n := StartJob(m, channel, j, ntime, now);
    if m.curtailed || EffectiveTarget(m.shareTarget, m.nBits).None? {
      assert n.workers == m.workers;
      if SomeArmed(m) {
        var i :| 0 <= i < |m.workers| && m.workers[i].Some?;
        assert !Current(n, channel, n.workers[i].value);
      }
    }
  }

  lemma OnJobSound(m: Mining, channel: U32, j: NewMiningJob, now: U32)
    requires Sound(m, channel) && j.channelId == channel
    ensures Sound(OnJob(m, channel, j, now), channel)
  {
    hide Store, JobBook.Valid, Rearmed;
    StoreKeepsNewest(m.book, j);
    var n := m.(book := Store(m.book, j));
    if j.hasNtimeStart && m.havePrev {
      StartJobSound(n, channel, j, j.ntimeStart, now);
    }
  }

  /** A new job can never strand a worker on work it no longer matches. */
  lemma OnJobCoherent(m: Mining, channel: U32, j: NewMiningJob, now: U32)
    requires Sound(m, channel) && Coherent(m, channel)
    ensures Coherent(OnJob(m, channel, j, now), channel)
  {
    hide Store, EffectiveTarget, JobBook.Valid;
    var n := m.(book := Store(m.book, j));
    if j.hasNtimeStart && m.havePrev {
      StartJobCoherent(n, channel, j, j.ntimeStart, now);
    } else {
      forall i | 0 <= i < |m.workers| && m.workers[i].Some? ensures Current(n, channel, m.workers[i].value) {
        assert Current(m, channel, m.workers[i].value);
      }
    }
  }

  lemma OnTipSound(m: Mining, channel: U32, p: SetNewPrevHash, now: U32)
    requires Sound(m, channel)
    ensures Sound(OnTip(m, channel, p, now), channel)
  {
    var n := m.(prevHash := p.prevHash, nBits := p.nBits, havePrev := true, book := Keep(m.book, p.jobId));
    assert JobBook.Valid(n.book);
    if p.jobId in m.book.pending {
      var j := m.book.pending[p.jobId];
      StartJobSound(n, channel, j, TipNTime(p, j), now);
    }
  }

  /** The tip leaves stale work behind exactly when it names a known job but carries no usable target. */
  lemma OnTipCoherent(m: Mining, channel: U32, p: SetNewPrevHash, now: U32)
    requires Sound(m, channel) && Coherent(m, channel)
    ensures Coherent(OnTip(m, channel, p, now), channel)
       <==> !(SomeArmed(m) && p.jobId in m.book.pending && EffectiveTarget(m.shareTarget, p.nBits).None?)
  {
    hide EffectiveTarget, JobBook.Valid;
    var n := m.(prevHash := p.prevHash, nBits := p.nBits, havePrev := true, book := Keep(m.book, p.jobId));
    if p.jobId in m.book.pending {
      var j := m.book.pending[p.jobId];
      StartJobCoherent(n, channel, j, TipNTime(p, j), now);
    }
  }

  lemma OnTargetSound(m: Mining, channel: U32, target: Hash, now: U32)
    requires Sound(m, channel)
    ensures Sound(OnTarget(m, channel, target, now), channel)
  {
    var n := m.(shareTarget := target);
    if m.active.Some? && m.havePrev {
      StartJobSound(n, channel, m.active.value, m.activeNTime, now);
    }
  }

  /** Withdrawing the share target strands the workers exactly when the tip's nBits give no target either. */
  lemma OnTargetCoherent(m: Mining, channel: U32, target: Hash, now: U32)
    requires Sound(m, channel) && Coherent(m, channel)
    ensures Coherent(OnTarget(m, channel, target, now), channel)
       <==> !(SomeArmed(m) && EffectiveTarget(target, m.nBits).None?)
  {
    hide EffectiveTarget, JobBook.Valid;
    var n := m.(shareTarget := target);
    if SomeArmed(m) {
      var i :| 0 <= i < |m.workers| && m.workers[i].Some?;
      assert Current(m, channel, m.workers[i].value);
    }
    if m.active.Some? && m.havePrev {
      StartJobCoherent(n, channel, m.active.value, m.activeNTime, now);
    }
  }

  lemma OnPriceKeeps(m: Mining, channel: U32, rate: real, trusted: bool, threshold: real)
    requires Sound(m, channel)
    ensures Sound(OnPrice(m, rate, trusted, threshold), channel)
    ensures Coherent(m, channel) ==> Coherent(OnPrice(m, rate, trusted, threshold), channel)
  {
    hide EffectiveTarget, JobBook.Valid;
    var n := OnPrice(m, rate, trusted, threshold);
    if !(n.curtailed && !m.curtailed) && Coherent(m, channel) {
      forall i | 0 <= i < |n.workers| && n.workers[i].Some? ensures Current(n, channel, n.workers[i].value) {
        assert Current(m, channel, m.workers[i].value);
      }
    }
  }
}
