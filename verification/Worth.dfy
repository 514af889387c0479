// What a quote is worth and which stream a device gets, said on the quotes
// themselves: sats, confidence, families, ratings and ids.

module Worth {
  import opened Ordering
  import opened Results
  import opened Arbitration
  import opened Decision

  // ---------------------------------------------------------------- one quote

  /** Confidence weighs a quote in proportion: worth is additive in it up to certainty, and never grows beyond. */
  lemma ConfidenceWeighs(sats: real, a: real, b: real)
    requires a >= 0.0 && b >= 0.0
    ensures a + b <= 1.0 ==>
              Effective(Yield(sats, a + b)) == Effective(Yield(sats, a)) + Effective(Yield(sats, b))
    ensures Effective(Yield(sats, 1.0 + a)) == Effective(Yield(sats, 1.0)) == if sats > 0.0 then sats else 0.0
    ensures Effective(Yield(sats, -a)) == 0.0
  {
    Certain(sats, a);
    if sats > 0.0 && a + b <= 1.0 {
      Fractional(sats, a);
      Fractional(sats, b);
      Fractional(sats, a + b);
      hide Effective;
      Distribute(a, b, sats);
    }
  }

  lemma Fractional(sats: real, c: real)
    requires sats > 0.0 && 0.0 <= c <= 1.0
    ensures Effective(Yield(sats, c)) == c * sats
  {
  }

  lemma Certain(sats: real, a: real)
    requires a >= 0.0
    ensures Effective(Yield(sats, 1.0 + a)) == Effective(Yield(sats, 1.0)) == if sats > 0.0 then sats else 0.0
  {
  }

  /** And in the sats, for any confidence. */
  lemma SatsWeigh(x: real, y: real, confidence: real)
    requires x >= 0.0 && y >= 0.0
    ensures Effective(Yield(x + y, confidence)) == Effective(Yield(x, confidence)) + Effective(Yield(y, confidence))
  {
    var c := if confidence < 1.0 then confidence else 1.0;
    Distribute(x, y, c);
  }

  /** The device's own quote, or the stream's default when it has none. */
  predicate Quotes(s: Stream, d: Device, y: Yield)
  {
    (d.id in s.quotes && s.quotes[d.id] == y) || (d.id !in s.quotes && s.defaultYield == y)
  }

  /** The stream pays the device v: its quote, weighed by a confidence of at most one, is positive and comes to v. */
  ghost predicate Pays(s: Stream, d: Device, v: real)
  {
    v > 0.0 && exists y :: Quotes(s, d, y) && y.sats > 0.0 && y.confidence > 0.0
                           && v == if y.confidence >= 1.0 then y.sats else y.sats * y.confidence
  }

  lemma OfferPays(s: Stream, d: Device, v: real)
    ensures Pays(s, d, v) <==> v > 0.0 && Offer(s, d) == v
  {
    var y := YieldFor(s, d.id);
    EffectiveRange(y);
    assert Quotes(s, d, y);
    if y.sats > 0.0 && y.confidence >= 1.0 {
      assert y.sats * 1.0 == y.sats;
    }
  }

  // ---------------------------------------------------------------- one device

  /** The stream takes the device's family and pays it v, which is not under the floor. */
  ghost predicate Eligible(s: Stream, d: Device, floor: real, v: real)
  {
    d.family in s.families && Pays(s, d, v) && v >= floor
  }

  /** How a policy weighs a stream: five per cent for mining, or one per cent for each rating point. */
  function Weight(s: Stream, p: Policy): real
  {
    match p
    case StackBTC => if s.mining then 105.0 / 100.0 else 1.0
    case MaximizePrivacy => 1.0 + s.privacy as real / 100.0
    case EnvironmentFriendly => 1.0 + s.environmental as real / 100.0
    case MaximizeEarnings => 1.0
    case Undefined(_) => 1.0
  }

  lemma WeightIs(s: Stream, p: Policy)
    ensures Premium(s, p) == Weight(s, p)
  {
  }

  lemma EligibleViable(s: Stream, d: Device, floor: real)
    ensures Viable(s, d, floor) <==> Eligible(s, d, floor, Offer(s, d))
    ensures forall v :: Eligible(s, d, floor, v) ==> v == Offer(s, d)
  {
    OfferPays(s, d, Offer(s, d));
    hide Offer;
    forall v | Eligible(s, d, floor, v) ensures v == Offer(s, d) {
      OfferPays(s, d, v);
    }
  }

  ghost predicate AnyEligible(d: Device, streams: seq<Stream>, floor: real)
  {
    exists s, v :: s in streams && Eligible(s, d, floor, v)
  }

  /** s, at v, weighs at least as much as t at w, and has the smaller id when they weigh the same. */
  predicate Preferred(p: Policy, s: Stream, v: real, t: Stream, w: real)
  {
    v * Weight(s, p) > w * Weight(t, p) || (v * Weight(s, p) == w * Weight(t, p) && Le(s.id, t.id))
  }

  /** The device gets s, which pays it v: eligible, and preferred to every eligible stream. */
  ghost predicate Gets(d: Device, streams: seq<Stream>, r: Rules, s: Stream, v: real)
  {
    && s in streams && Eligible(s, d, r.floor, v)
    && forall t, w :: t in streams && Eligible(t, d, r.floor, w) ==> Preferred(r.policy, s, v, t, w)
  }

  lemma AheadPreferred(d: Device, p: Policy, s: Stream, t: Stream)
    ensures Ahead(d, p, s, t) <==> Preferred(p, s, Offer(s, d), t, Offer(t, d))
  {
    hide Offer;
    WeightIs(s, p);
    WeightIs(t, p);
  }

  /**
   * A device without a stream of its own gets the eligible stream that the policy prefers, and is promised what that
   * stream pays it; it stays idle if and only if none is eligible, and is told why.
   */
  lemma ChoiceLaw(d: Device, streams: seq<Stream>, r: Rules)
    ensures var a := Choose(d, streams, NONE, r);
            && a.device == d.id && a.switchedFrom == NONE
            && if AnyEligible(d, streams, r.floor)
               then exists s :: Gets(d, streams, r, s, a.expected) && a.stream == s.id && a.reason == BestYield
               else
                 && a.stream == NONE && a.expected == 0.0 && a.foregone == 0.0
                 && (a.reason == AllBelowFloor <==>
                       exists s, v :: s in streams && d.family in s.families && Pays(s, d, v) && v < r.floor)
                 && (a.reason == NoCompatibleStream <==> a.reason != AllBelowFloor)
  {
    var c := Candidates(d, streams, r.floor);
    forall s | s in streams ensures Viable(s, d, r.floor) <==> Eligible(s, d, r.floor, Offer(s, d)) {
      EligibleViable(s, d, r.floor);
    }
    if |c| == 0 {
      NoneEligible(d, streams, r);
    } else {
      var ranked := Ranked(d, r.policy, c);
      RankedOrdered(d, r.policy, c);
      assert ranked[0] in ranked && ranked[0] in c;
      FirstGets(d, streams, r, ranked);
      hide Viable, Offer, Ahead, Ranked, Candidates, BestOffer, Gets;
      assert Choose(d, streams, NONE, r).expected == Offer(ranked[0], d);
      GetsEligible(d, streams, r, ranked[0], Offer(ranked[0], d));
    }
  }

  lemma GetsEligible(d: Device, streams: seq<Stream>, r: Rules, s: Stream, v: real)
    requires Gets(d, streams, r, s, v)
    ensures AnyEligible(d, streams, r.floor)
  {
  }

  lemma FirstGets(d: Device, streams: seq<Stream>, r: Rules, ranked: seq<Stream>)
    requires |ranked| > 0 && Ordered(d, r.policy, ranked)
    requires forall s :: s in ranked <==> s in streams && Viable(s, d, r.floor)
    ensures Gets(d, streams, r, ranked[0], Offer(ranked[0], d))
  {
    hide Viable, Offer, Ahead, Eligible, Preferred, Ordered;
    var s := ranked[0];
    assert s in ranked;
    EligibleViable(s, d, r.floor);
    forall t, w | t in streams && Eligible(t, d, r.floor, w) ensures Preferred(r.policy, s, Offer(s, d), t, w) {
      EligibleViable(t, d, r.floor);
      FirstAhead(d, r.policy, ranked, t);
      AheadPreferred(d, r.policy, s, t);
    }
  }

  lemma NoneEligible(d: Device, streams: seq<Stream>, r: Rules)
    requires |Candidates(d, streams, r.floor)| == 0
    ensures !AnyEligible(d, streams, r.floor)
    ensures AnyUnderFloor(d, streams, r.floor)
       <==> exists s, v :: s in streams && d.family in s.families && Pays(s, d, v) && v < r.floor
  {
    hide Offer, Pays;
    forall s, v | s in streams ensures !Eligible(s, d, r.floor, v) {
      EligibleViable(s, d, r.floor);
      assert s !in Candidates(d, streams, r.floor);
    }
    if s :| s in streams && UnderFloor(s, d, r.floor) {
      OfferPays(s, d, Offer(s, d));
    }
    if s, v :| s in streams && d.family in s.families && Pays(s, d, v) && v < r.floor {
      OfferPays(s, d, v);
      assert UnderFloor(s, d, r.floor);
    }
  }

  /** t, paying v, would be the choice, and outweighs whatever is eligible of the previous stream by the margin. */
  ghost predicate Outbids(d: Device, streams: seq<Stream>, previous: Id, r: Rules, t: Stream, v: real)
  {
    && Gets(d, streams, r, t, v) && t.id != previous
    && forall s, w :: s in streams && s.id == previous && Eligible(s, d, r.floor, w) ==>
         v * Weight(t, r.policy) > w * Weight(s, r.policy) * (1.0 + r.margin)
  }

  lemma OutbidsOusts(d: Device, streams: seq<Stream>, previous: Id, r: Rules, t: Stream)
    ensures Ousts(d, streams, previous, r, t) <==> Outbids(d, streams, previous, r, t, Offer(t, d))
  {
    hide Offer, Viable, Eligible, Ahead, Preferred, Premium;
    forall s ensures Viable(s, d, r.floor) <==> Eligible(s, d, r.floor, Offer(s, d)) {
      EligibleViable(s, d, r.floor);
    }
    forall s, v | Eligible(s, d, r.floor, v) ensures v == Offer(s, d) {
      EligibleViable(s, d, r.floor);
    }
    forall u ensures Ahead(d, r.policy, t, u) <==> Preferred(r.policy, t, Offer(t, d), u, Offer(u, d)) {
      AheadPreferred(d, r.policy, t, u);
    }
    forall s ensures Premium(s, r.policy) == Weight(s, r.policy) {
      WeightIs(s, r.policy);
    }
    hide Weight;
    if Ousts(d, streams, previous, r, t) {
      forall u, w | u in streams && Eligible(u, d, r.floor, w) ensures Preferred(r.policy, t, Offer(t, d), u, w) {
        assert Candidate(d, streams, r, u);
      }
      forall s, w | s in streams && s.id == previous && Eligible(s, d, r.floor, w)
        ensures Offer(t, d) * Weight(t, r.policy) > w * Weight(s, r.policy) * (1.0 + r.margin)
      {
        assert Candidate(d, streams, r, s);
      }
    }
    if Outbids(d, streams, previous, r, t, Offer(t, d)) {
      forall u | Candidate(d, streams, r, u) ensures Ahead(d, r.policy, t, u) {
        assert Eligible(u, d, r.floor, Offer(u, d));
      }
      forall s | Candidate(d, streams, r, s) && s.id == previous
        ensures Score(t, d, r.policy) > Score(s, d, r.policy) * (1.0 + r.margin)
      {
        assert Eligible(s, d, r.floor, Offer(s, d));
      }
    }
  }

  /** A device leaves its stream if and only if nothing of that is eligible, or another stream outbids it. */
  lemma LeavesIff(d: Device, streams: seq<Stream>, previous: Id, r: Rules)
    requires previous != NONE && r.margin >= 0.0
    ensures Choose(d, streams, previous, r).stream != previous
       <==> || !(exists s, w :: s in streams && s.id == previous && Eligible(s, d, r.floor, w))
            || exists t, v :: Outbids(d, streams, previous, r, t, v)
  {
    SwitchesOnlyForMargin(d, streams, previous, r);
    hide Choose, Offer, Eligible, Viable, Ousts, Outbids;
    forall t ensures Ousts(d, streams, previous, r, t) <==> Outbids(d, streams, previous, r, t, Offer(t, d)) {
      OutbidsOusts(d, streams, previous, r, t);
    }
    forall t, v | Outbids(d, streams, previous, r, t, v) ensures v == Offer(t, d) {
      OutbidsPays(d, streams, previous, r, t, v);
    }
    if s, w :| s in streams && s.id == previous && Eligible(s, d, r.floor, w) {
      EligibleViable(s, d, r.floor);
      assert Candidate(d, streams, r, s);
    }
    if s :| Candidate(d, streams, r, s) && s.id == previous {
      EligibleViable(s, d, r.floor);
    }
  }

  lemma OutbidsPays(d: Device, streams: seq<Stream>, previous: Id, r: Rules, t: Stream, v: real)
    requires Outbids(d, streams, previous, r, t, v)
    ensures v == Offer(t, d)
  {
    EligibleViable(t, d, r.floor);
  }

  /**
   * A device that keeps its stream is marked as held back if and only if another stream would be the choice; one that
   * does not gets the choice, and the switch is reported.
   */
  lemma KeptOrMoved(d: Device, streams: seq<Stream>, previous: Id, r: Rules)
    requires previous != NONE && AnyEligible(d, streams, r.floor)
    ensures var a := Choose(d, streams, previous, r);
            && a.device == d.id && (a.held <==> a.reason == HeldBack)
            && (a.reason in {HeldBack, IncumbentBest} ==>
                  && a.stream == previous
                  && exists s, v :: Gets(d, streams, r, s, v) && (s.id != previous <==> a.reason == HeldBack))
            && (a.reason == BestYield ==> exists s :: Gets(d, streams, r, s, a.expected) && s.id == a.stream)
            && a.reason in {HeldBack, IncumbentBest, BestYield}
            && a.switchedFrom == (if a.stream == previous then NONE else previous)
  {
    var c := Candidates(d, streams, r.floor);
    if |c| == 0 {
      NoneEligible(d, streams, r);
    } else {
      var ranked := Ranked(d, r.policy, c);
      RankedOrdered(d, r.policy, c);
      assert ranked[0] in ranked && ranked[0] in c;
      FirstGets(d, streams, r, ranked);
      hide Viable, Offer, Ahead, Ranked, Candidates, BestOffer, Gets, Score;
    }
  }

  /** Maximizing earnings: the highest pay, and no more is foregone. */
  lemma HighestPay(d: Device, streams: seq<Stream>, margin: real, floor: real)
    ensures var a := Choose(d, streams, NONE, Rules(MaximizeEarnings, margin, floor));
            && (forall t, w :: t in streams && Eligible(t, d, floor, w) ==> w <= a.expected)
            && (AnyEligible(d, streams, floor) ==>
                  exists s :: s in streams && s.id == a.stream && Eligible(s, d, floor, a.expected))
            && (!AnyEligible(d, streams, floor) ==> a.stream == NONE && a.expected == 0.0)
  {
    var r := Rules(MaximizeEarnings, margin, floor);
    ChoiceLaw(d, streams, r);
    hide Choose, Eligible;
    var a := Choose(d, streams, NONE, r);
    forall t, w | t in streams && Eligible(t, d, floor, w) ensures w <= a.expected {
      assert AnyEligible(d, streams, floor);
      var s :| Gets(d, streams, r, s, a.expected) && a.stream == s.id && a.reason == BestYield;
      assert Preferred(r.policy, s, a.expected, t, w);
    }
  }

  // ---------------------------------------------------------------- a whole decision

  /** A decision is made if and only if the policy is known, margin and floor are not negative and no id is repeated. */
  lemma DecidesIff(ds: seq<Device>, streams: seq<Stream>, previous: seq<Assignment>, r: Rules)
    ensures Decided(ds, streams, previous, r).Ok?
       <==> !r.policy.Undefined? && r.margin >= 0.0 && r.floor >= 0.0
            && forall i, j :: 0 <= i < j < |ds| ==> ds[i].id != ds[j].id
  {
  }

  lemma {:induction false} IdleCounted(a: seq<Assignment>)
    ensures IdleCount(a) == |Idle(a)|
  {
    if |a| > 0 {
      var n := |a| - 1;
      IdleCounted(a[..n]);
      IdleSnoc(a);
      hide Idle;
      assert n !in Idle(a[..n]);
    }
  }

  /** The places of the idle devices. */
  function Idle(a: seq<Assignment>): (s: set<nat>)
    ensures forall i :: i in s <==> 0 <= i < |a| && a[i].stream == NONE
  {
    set i: nat | i < |a| && a[i].stream == NONE
  }

  lemma IdleSnoc(a: seq<Assignment>)
    requires |a| > 0
    ensures var n := |a| - 1; Idle(a) == Idle(a[..n]) + if a[n].stream == NONE then {n} else {}
  {
  }

  /** A decision reports its policy, how many devices are idle, and which of those were idle before. */
  lemma DecisionReports(ds: seq<Device>, streams: seq<Stream>, previous: seq<Assignment>, r: Rules)
    requires Decided(ds, streams, previous, r).Ok?
    ensures var a := Decided(ds, streams, previous, r).value;
            && a.policy == r.policy && |a.assignments| == |ds|
            && a.skipped == |Idle(a.assignments)|
            && forall i :: 0 <= i < |a.assignments| ==>
                 (a.assignments[i].heldIdle <==>
                    a.assignments[i].stream == NONE && IdleBefore(previous, a.assignments[i].device))
  {
    hide Choose, Earned, IdleCount, Sorted, IdleBefore, Assign;
    var a := AssignAll(Sorted(ds), streams, previous, r);
    IdleCounted(a);
    forall i | 0 <= i < |a| ensures a[i].heldIdle <==> a[i].stream == NONE && IdleBefore(previous, a[i].device) {
      IdleFlag(Sorted(ds)[i], streams, previous, r);
    }
  }

  ghost predicate IdleBefore(previous: seq<Assignment>, device: Id)
  {
    exists p: nat :: LastOf(previous, p, device) && previous[p].stream == NONE
  }

  lemma IdleFlag(d: Device, streams: seq<Stream>, previous: seq<Assignment>, r: Rules)
    ensures var a := Assign(d, streams, previous, r);
            a.heldIdle <==> a.stream == NONE && IdleBefore(previous, a.device)
  {
    hide Choose;
    ChooseDevice(d, streams, PreviousStream(previous, d.id), r);
    PreviouslyIs(previous, d.id);
    hide Previously;
    if Previously(previous, d.id).Some? {
      var p: nat :| LastOf(previous, p, d.id);
    }
  }

  /** The last entry for a device. */
  predicate LastOf(previous: seq<Assignment>, p: nat, device: Id)
  {
    p < |previous| && previous[p].device == device
    && forall q :: p < q < |previous| ==> previous[q].device != device
  }

  lemma {:induction false} PreviouslyIs(previous: seq<Assignment>, device: Id)
    ensures Previously(previous, device).None? <==> forall p :: 0 <= p < |previous| ==> previous[p].device != device
    ensures forall p: nat :: LastOf(previous, p, device) ==> Previously(previous, device) == Some(previous[p])
    ensures Previously(previous, device).Some? ==> exists p: nat :: LastOf(previous, p, device)
  {
    if |previous| > 0 {
      var n := |previous| - 1;
      if previous[n].device == device {
        assert LastOf(previous, n, device);
      } else {
        PreviouslyIs(previous[..n], device);
        forall p: nat | LastOf(previous, p, device) ensures LastOf(previous[..n], p, device) {
        }
        if Previously(previous[..n], device).Some? {
          var p: nat :| LastOf(previous[..n], p, device);
          assert LastOf(previous, p, device);
        }
      }
    }
  }

  /** The first decision gives every device its choice. */
  lemma FirstDecision(ds: seq<Device>, streams: seq<Stream>, r: Rules, d: Device)
    requires Decided(ds, streams, [], r).Ok? && d in ds
    ensures var all := Decided(ds, streams, [], r).value;
            exists i :: 0 <= i < |all.assignments| && all.assignments[i] == Choose(d, streams, NONE, r)
  {
    hide Choose, Earned, IdleCount;
    var i :| 0 <= i < |Sorted(ds)| && Sorted(ds)[i] == d;
    assert Assign(d, streams, [], r) == Choose(d, streams, NONE, r) by { AssignmentShape(d, streams, NONE, r); }
  }
}
