// Sessions under the reconnect loop: what the scheduler is told about a session
// is what the session machine did.

module Outcomes {
  import opened CompactTarget
  import opened Results
  import S = Session
  import R = Reconnect
  import H = DialHistory

  /** One dial: it never became a session, or it did and the session was left in this state. */
  datatype Attempt = NoSession | Established(final: S.State)

  /** Whatever else happens around the session's end. */
  datatype Circumstance = Circumstance(canceled: bool, fatal: bool, draw: nat, sleepCut: bool)

  /** What the loop sees: the connected callback, and whether the error is the degraded one. */
  function OutcomeOf(a: Attempt, x: Circumstance): R.Outcome
  {
    R.Outcome(a.Established?, a.Established? && a.final.end == Some(S.Degraded),
              x.canceled, x.fatal, x.draw, x.sleepCut)
  }

  /** The attempt is a run of the session machine, told to watch its yield exactly when a second pool exists. */
  ghost predicate Genuine(c: R.Config, a: Attempt)
  {
    a.NoSession? || exists cfg: S.Config, target: Hash, curtailed: bool, workers: nat, events: seq<S.Event> ::
      RanAs(c, a.final, cfg, target, curtailed, workers, events)
  }

  predicate RanAs(c: R.Config, final: S.State, cfg: S.Config, target: Hash, curtailed: bool, workers: nat,
                  events: seq<S.Event>)
  {
    cfg.yieldFailover == (c.pools > 1) && final == S.Run(cfg, S.Start(target, curtailed, workers), events)
  }

  /** So a degraded outcome was an established session of a client with another pool. */
  lemma GenuineIsPossible(c: R.Config, a: Attempt, x: Circumstance)
    requires Genuine(c, a)
    ensures R.Possible(c, OutcomeOf(a, x))
  {
    hide S.Run;
    if a.Established? && a.final.end == Some(S.Degraded) {
      var cfg: S.Config, target: Hash, curtailed: bool, workers: nat, events: seq<S.Event> :|
        RanAs(c, a.final, cfg, target, curtailed, workers, events);
      S.DegradedEnd(cfg, S.Start(target, curtailed, workers), events);
    }
  }

  function OutcomesOf(attempts: seq<Attempt>, xs: seq<Circumstance>): (os: seq<R.Outcome>)
    requires |attempts| == |xs|
    ensures |os| == |attempts| && forall i :: 0 <= i < |attempts| ==> os[i] == OutcomeOf(attempts[i], xs[i])
  {
    seq(|attempts|, i requires 0 <= i < |attempts| => OutcomeOf(attempts[i], xs[i]))
  }

  /**
   * Over any sequence of genuine sessions the loop dials no pool that carries a mark; each dial and sleep is the one
   * that the sessions before it call for.
   */
  lemma SessionsNeverDialMarked(c: R.Config, attempts: seq<Attempt>, xs: seq<Circumstance>)
    requires R.Usable(c) && |attempts| == |xs| && forall i :: 0 <= i < |attempts| ==> Genuine(c, attempts[i])
    ensures R.Valid(c, R.Begin()) && R.AllPossible(c, OutcomesOf(attempts, xs))
    ensures var t := R.Trace(c, R.Begin(), OutcomesOf(attempts, xs));
            && (forall i :: 0 <= i < |t| && t[i].Dial? ==> t[i].pool !in t[i].marks)
            && H.Follows(c, H.FIRST, t, OutcomesOf(attempts, xs))
  {
    hide Genuine, OutcomeOf, R.Possible;
    R.BeginValid(c);
    forall i | 0 <= i < |attempts| ensures R.Possible(c, OutcomesOf(attempts, xs)[i]) {
      GenuineIsPossible(c, attempts[i], xs[i]);
    }
    R.NeverDialMarked(c, R.Begin(), OutcomesOf(attempts, xs));
    H.LoopFollows(c, R.Begin(), OutcomesOf(attempts, xs), H.FIRST);
  }
}
