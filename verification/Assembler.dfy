// The stand-alone job assembler of the Stratum V2 dialer, and its agreement
// with the engine's own session loop.

module Assembler {
  import opened Numerals
  import opened CompactTarget
  import opened Results
  import opened Messages
  import opened MiningState
  import opened Session
  import JobBook

  /** A job put to work against a tip. */
  datatype Start = Start(job: NewMiningJob, ntime: U32, prevHash: Hash, nBits: U32)

  /** What the assembler hands to its consumer; clean says the earlier jobs are void. */
  datatype Emission = Emission(start: Start, clean: bool)

  datatype Assembly = Assembly(book: JobBook.Book, prevHash: Hash, nBits: U32, havePrev: bool)

  function Empty(): Assembly
  {
    Assembly(JobBook.EMPTY, ZeroHash(), 0, false)
  }

  function Assemble(a: Assembly, msg: Message): Assembly
  {
    match msg
    case JobMessage(j) => a.(book := JobBook.Store(a.book, j))
    case TipMessage(p) => Assembly(JobBook.Keep(a.book, p.jobId), p.prevHash, p.nBits, true)
    case _ => a
  }

  function Emits(a: Assembly, msg: Message): Option<Emission>
  {
    match msg
    case JobMessage(j) =>
      if j.hasNtimeStart && a.havePrev then Some(Emission(Start(j, j.ntimeStart, a.prevHash, a.nBits), false)) else None
    case TipMessage(p) =>
      if p.jobId !in a.book.pending then None else
      var j := a.book.pending[p.jobId];
      Some(Emission(Start(j, TipNTime(p, j), p.prevHash, p.nBits), true))
    case _ => None
  }

  /** The assembler as the source writes it; open is what emit reports of its consumer. */
  class JobAssembler {
    var pending: map<U32, NewMiningJob>
    var pendingOrder: seq<U32>
    var prevHash: Hash
    var prevNBits: U32
    var havePrev: bool
    var emitted: seq<Emission>

    ghost function View(): Assembly
      reads this
    {
      Assembly(JobBook.Book(pending, pendingOrder), prevHash, prevNBits, havePrev)
    }

    constructor ()
      ensures View() == Empty() && emitted == []
    {
      pending, pendingOrder, prevHash, prevNBits, havePrev, emitted := map[], [], ZeroHash(), 0, false, [];
    }

    method Emit(j: NewMiningJob, ntime: U32, clean: bool, open: bool) returns (more: bool)
      modifies this`emitted
      ensures more == open
      ensures emitted == old(emitted)
                         + if open then [Emission(Start(j, ntime, prevHash, prevNBits), clean)] else []
    {
      if open {
        emitted := emitted + [Emission(Start(j, ntime, prevHash, prevNBits), clean)];
      }
      return open;
    }

    method OnNewMiningJob(j: NewMiningJob, open: bool) returns (more: bool)
      modifies this
      ensures View() == Assemble(old(View()), JobMessage(j))
      ensures var e := Emits(old(View()), JobMessage(j));
              && more == (e.None? || open)
              && emitted == old(emitted) + if e.Some? && open then [e.value] else []
    {
      if j.jobId !in pending {
        pendingOrder := pendingOrder + [j.jobId];
      }
      pending := pending[j.jobId := j];
      while |pendingOrder| > JobBook.CAP
        invariant JobBook.Evict(JobBook.Book(pending, pendingOrder))
               == JobBook.Store(JobBook.Book(old(pending), old(pendingOrder)), j)
        invariant unchanged(`prevHash, `prevNBits, `havePrev, `emitted)
        decreases |pendingOrder|
      {
        pending := pending - {pendingOrder[0]};
        pendingOrder := pendingOrder[1..];
      }
      if j.hasNtimeStart && havePrev {
        more := Emit(j, j.ntimeStart, false, open);
      } else {
        more := true;
      }
    }

    method OnSetNewPrevHash(p: SetNewPrevHash, open: bool) returns (more: bool)
      modifies this
      ensures View() == Assemble(old(View()), TipMessage(p))
      ensures var e := Emits(old(View()), TipMessage(p));
              && more == (e.None? || open)
              && emitted == old(emitted) + if e.Some? && open then [e.value] else []
    {
      prevHash, prevNBits, havePrev := p.prevHash, p.nBits, true;
      var named := if p.jobId in pending then Some(pending[p.jobId]) else None;
      pending, pendingOrder := map[], [];
      if named.None? {
        return true;
      }
      pending := pending[p.jobId := named.value];
      pendingOrder := pendingOrder + [p.jobId];
      var ntime := p.ntimeStart;
      if named.value.hasNtimeStart && named.value.ntimeStart > ntime {
        ntime := named.value.ntimeStart;
      }
      more := Emit(named.value, ntime, true, open);
    }
  }

  // ---------------------------------------------------------------- agreement with the engine

  /** Which job the engine's loop starts on a job or tip frame. */
  function EngineStarts(cfg: Config, m: Mining, msg: Message): Option<Start>
  {
    if Foreign(cfg, msg) then None else
    match msg
    case JobMessage(j) =>
      if j.hasNtimeStart && m.havePrev then Some(Start(j, j.ntimeStart, m.prevHash, m.nBits)) else None
    case TipMessage(p) =>
      if p.jobId in m.book.pending
      then Some(Start(m.book.pending[p.jobId], TipNTime(p, m.book.pending[p.jobId]), p.prevHash, p.nBits))
      else None
    case _ => None
  }

  predicate ArmedWith(n: Mining, channel: U32, st: Start, clock: U32)
  {
    && n.active == Some(st.job) && n.activeNTime == st.ntime && n.prevHash == st.prevHash && n.nBits == st.nBits
    && var target := EffectiveTarget(n.shareTarget, n.nBits);
       !n.curtailed && target.Some? ==>
         n.workers == All(|n.workers|, Some(WorkFor(n, channel, st.job, st.ntime, target.value, clock)))
  }

  /** EngineStarts is what the session does: the started job is active, and every worker gets its header. */
  lemma EngineStartsArmed(cfg: Config, s: State, msg: Message, clock: U32)
    ensures var st, m, n := EngineStarts(cfg, s.mining, msg), s.mining, OnFrame(cfg, s, msg, clock).mining;
            && (st.Some? ==> ArmedWith(n, cfg.channel, st.value, clock))
            && (st.None? && msg.JobMessage? ==> n.active == m.active && n.workers == m.workers)
            && (st.None? && msg.TipMessage? ==> n.active.None? && !SomeArmed(n))
  {
    hide EffectiveTarget, JobBook.Store;
  }

  /** An emission is clean if and only if a tip caused it, and then its job is the only one left. */
  lemma CleanMeansTip(a: Assembly, msg: Message)
    requires Emits(a, msg).Some?
    ensures var e, b := Emits(a, msg).value, Assemble(a, msg);
            && (e.clean <==> msg.TipMessage?)
            && (e.clean ==> b.book.pending == map[msg.tip.jobId := e.start.job])
            && e.start.prevHash == b.prevHash && e.start.nBits == b.nBits
  {
  }

  function Begun(e: Option<Emission>): Option<Start>
  {
    if e.Some? then Some(e.value.start) else None
  }

  predicate Agrees(a: Assembly, m: Mining)
  {
    a == Assembly(m.book, m.prevHash, m.nBits, m.havePrev)
  }

  predicate OwnJob(cfg: Config, msg: Message)
  {
    msg.JobMessage? ==> msg.job.channelId == cfg.channel
  }

  /** One frame: both stay in agreement exactly when a job frame is for this channel, and start the same job. */
  lemma FrameAgrees(cfg: Config, s: State, a: Assembly, msg: Message, clock: U32)
    requires Sound(s.mining, cfg.channel) && Agrees(a, s.mining)
    ensures Agrees(Assemble(a, msg), OnFrame(cfg, s, msg, clock).mining) <==> OwnJob(cfg, msg)
    ensures OwnJob(cfg, msg) ==> EngineStarts(cfg, s.mining, msg) == Begun(Emits(a, msg))
  {
    hide JobBook.Store, JobBook.Valid, EffectiveTarget, Rearmed;
    if !OwnJob(cfg, msg) {
      ForeignJobShows(s.mining, cfg.channel, msg.job);
    }
  }

  lemma ForeignJobShows(m: Mining, channel: U32, j: NewMiningJob)
    requires Sound(m, channel) && j.channelId != channel
    ensures JobBook.Store(m.book, j) != m.book
  {
    JobBook.StoreKeepsNewest(m.book, j);
  }

  function Feed(a: Assembly, events: seq<Event>): Assembly
    decreases |events|
  {
    if |events| == 0 then a
    else Feed(if events[0].Frame? then Assemble(a, events[0].msg) else a, events[1..])
  }

  function Emissions(a: Assembly, events: seq<Event>): seq<Start>
    decreases |events|
  {
    if |events| == 0 then []
    else if !events[0].Frame? then Emissions(a, events[1..])
    else
      var e := Emits(a, events[0].msg);
      (if e.Some? then [e.value.start] else []) + Emissions(Assemble(a, events[0].msg), events[1..])
  }

  function EngineLog(cfg: Config, s: State, events: seq<Event>): seq<Start>
    decreases |events|
  {
    if |events| == 0 || s.end.Some? then []
    else
      var st := if events[0].Frame? then EngineStarts(cfg, s.mining, events[0].msg) else None;
      (if st.Some? then [st.value] else []) + EngineLog(cfg, Step(cfg, s, events[0]), events[1..])
  }

  lemma StepAgrees(cfg: Config, s: State, a: Assembly, e: Event)
    requires Sound(s.mining, cfg.channel) && Agrees(a, s.mining) && (e.Frame? ==> OwnJob(cfg, e.msg))
    ensures Agrees(if e.Frame? then Assemble(a, e.msg) else a, Step(cfg, s, e).mining)
    ensures e.Frame? ==> EngineStarts(cfg, s.mining, e.msg) == Begun(Emits(a, e.msg))
  {
    hide OnFrame, Sound, EngineStarts, Emits, Assemble;
    if e.Frame? {
      FrameAgrees(cfg, s, a, e.msg, e.clock);
    }
  }

  /**
   * Simulation: fed the same frames, interleaved with any shares, price and statistics ticks, the assembler
   * and the engine keep the same pending jobs and tip, and start the same jobs at the same times in order.
   */
  lemma {:induction false} SameJobs(cfg: Config, s: State, a: Assembly, events: seq<Event>)
    requires Sound(s.mining, cfg.channel) && Agrees(a, s.mining) && Run(cfg, s, events).end.None?
    requires forall i :: 0 <= i < |events| && events[i].Frame? ==> OwnJob(cfg, events[i].msg)
    ensures Agrees(Feed(a, events), Run(cfg, s, events).mining)
    ensures Emissions(a, events) == EngineLog(cfg, s, events)
    decreases |events|
  {
    hide Sound, Step, Agrees, EngineStarts, Emits, Assemble;
    if |events| > 0 {
      var e := events[0];
      StepAgrees(cfg, s, a, e);
      StepSound(cfg, s, e);
      SameJobs(cfg, Step(cfg, s, e), if e.Frame? then Assemble(a, e.msg) else a, events[1..]);
    }
  }
}
