// Assignment of devices to revenue streams: greedy choice by policy score with
// hysteresis in favour of the incumbent. Yields are reals.

module Arbitration {
  import opened Ordering
  import opened Results

  const NONE: Id := []
  const BTC_STACK_BONUS := 1.05
  const RATING_BONUS := 0.01

  datatype Yield = Yield(sats: real, confidence: real)

  datatype Stream = Stream(id: Id, families: seq<Family>, quotes: map<Id, Yield>, defaultYield: Yield,
                           privacy: int, environmental: int, mining: bool)

  datatype Family = ASIC | GPU | CPU | Other(name: Id)

  datatype Device = Device(id: Id, family: Family)

  datatype Policy = MaximizeEarnings | StackBTC | MaximizePrivacy | EnvironmentFriendly | Undefined(code: int)

  datatype Reason = NoCompatibleStream | AllBelowFloor | BestYield | HeldBack | IncumbentBest

  /** stream NONE leaves the device idle. */
  datatype Assignment = Assignment(device: Id, stream: Id, expected: real, switchedFrom: Id, reason: Reason,
                                   held: bool, heldIdle: bool, foregone: real)

  datatype Allocation = Allocation(assignments: seq<Assignment>, total: real, policy: Policy, skipped: nat)

  /** Policy, hysteresis margin and minimum yield. */
  datatype Rules = Rules(policy: Policy, margin: real, floor: real)

  function Effective(y: Yield): (v: real)
    ensures v >= 0.0
  {
    if y.sats <= 0.0 || y.confidence <= 0.0 then 0.0
    else y.sats * (if y.confidence < 1.0 then y.confidence else 1.0)
  }

  /** Positive exactly for a positive quote with some confidence, and below the quote exactly when that is not full. */
  lemma EffectiveRange(y: Yield)
    ensures Effective(y) > 0.0 <==> y.sats > 0.0 && y.confidence > 0.0
    ensures Effective(y) > 0.0 ==> Effective(y) <= y.sats && (Effective(y) < y.sats <==> y.confidence < 1.0)
  {
    if y.sats > 0.0 && y.confidence > 0.0 {
      var c := if y.confidence < 1.0 then y.confidence else 1.0;
      assert Effective(y) == y.sats * c;
      Fraction(y.sats, c);
    }
  }

  lemma Fraction(y: real, c: real)
    requires y > 0.0 && 0.0 < c <= 1.0
    ensures 0.0 < y * c <= y && (y * c < y <==> c < 1.0)
  {
    assert y * (1.0 - c) >= 0.0;
    assert c < 1.0 ==> y * (1.0 - c) > 0.0;
  }

  function YieldFor(s: Stream, device: Id): Yield
  {
    if device in s.quotes then s.quotes[device] else s.defaultYield
  }

  function Offer(s: Stream, d: Device): (v: real)
    ensures v >= 0.0
  {
    Effective(YieldFor(s, d.id))
  }

  /** The stream takes the device's family, pays something, and clears the floor. */
  predicate Viable(s: Stream, d: Device, floor: real)
  {
    d.family in s.families && Offer(s, d) > 0.0 && Offer(s, d) >= floor
  }

  predicate UnderFloor(s: Stream, d: Device, floor: real)
  {
    d.family in s.families && 0.0 < Offer(s, d) < floor
  }

  function Candidates(d: Device, streams: seq<Stream>, floor: real): (c: seq<Stream>)
    ensures forall s :: s in c <==> s in streams && Viable(s, d, floor)
  {
    if |streams| == 0 then []
    else (if Viable(streams[0], d, floor) then [streams[0]] else []) + Candidates(d, streams[1..], floor)
  }

  function Premium(s: Stream, p: Policy): real
  {
    match p
    case StackBTC => if s.mining then BTC_STACK_BONUS else 1.0
    case MaximizePrivacy => 1.0 + s.privacy as real * RATING_BONUS
    case EnvironmentFriendly => 1.0 + s.environmental as real * RATING_BONUS
    case _ => 1.0
  }

  function Score(s: Stream, d: Device, p: Policy): real
  {
    Offer(s, d) * Premium(s, p)
  }

  /** Higher score first, then the smaller stream id. */
  predicate Ahead(d: Device, p: Policy, a: Stream, b: Stream)
  {
    Score(a, d, p) > Score(b, d, p) || (Score(a, d, p) == Score(b, d, p) && Le(a.id, b.id))
  }

  predicate Ordered(d: Device, p: Policy, c: seq<Stream>)
  {
    forall i, j :: 0 <= i < j < |c| ==> Ahead(d, p, c[i], c[j])
  }

  lemma AheadTotal(d: Device, p: Policy, a: Stream, b: Stream)
    ensures Ahead(d, p, a, b) || Ahead(d, p, b, a)
  {
    LeTotal(a.id, b.id);
  }

  lemma AheadTransitive(d: Device, p: Policy, a: Stream, b: Stream, c: Stream)
    requires Ahead(d, p, a, b) && Ahead(d, p, b, c)
    ensures Ahead(d, p, a, c)
  {
    hide Score;
    if Le(a.id, b.id) && Le(b.id, c.id) {
      LeTransitive(a.id, b.id, c.id);
    }
  }

  /** Stable insertion: before the first element it is not behind. */
  function Insert(d: Device, p: Policy, s: Stream, c: seq<Stream>): (r: seq<Stream>)
    ensures forall x :: x in r <==> x == s || x in c
    ensures |r| == |c| + 1
  {
    if |c| == 0 || Ahead(d, p, s, c[0]) then [s] + c else [c[0]] + Insert(d, p, s, c[1..])
  }

  function Ranked(d: Device, p: Policy, c: seq<Stream>): (r: seq<Stream>)
    ensures forall x :: x in r <==> x in c
    ensures |r| == |c|
  {
    if |c| == 0 then [] else Insert(d, p, c[0], Ranked(d, p, c[1..]))
  }

  lemma {:induction false} InsertOrdered(d: Device, p: Policy, s: Stream, c: seq<Stream>)
    requires Ordered(d, p, c)
    ensures Ordered(d, p, Insert(d, p, s, c))
  {
    hide Ahead;
    if |c| == 0 {
    } else if Ahead(d, p, s, c[0]) {
      forall j | 0 <= j < |c| ensures Ahead(d, p, s, c[j]) {
        if j > 0 {
          AheadTransitive(d, p, s, c[0], c[j]);
        }
      }
    } else {
      AheadTotal(d, p, s, c[0]);
      InsertOrdered(d, p, s, c[1..]);
      var r := Insert(d, p, s, c[1..]);
      forall j | 0 <= j < |r| ensures Ahead(d, p, c[0], r[j]) {
        assert r[j] in r;
      }
    }
  }

  lemma {:induction false} RankedOrdered(d: Device, p: Policy, c: seq<Stream>)
    ensures Ordered(d, p, Ranked(d, p, c))
  {
    if |c| > 0 {
      RankedOrdered(d, p, c[1..]);
      InsertOrdered(d, p, c[0], Ranked(d, p, c[1..]));
    }
  }

  /** The highest yield any viable stream offers the device; nothing if none is viable. */
  function BestOffer(d: Device, c: seq<Stream>): (v: real)
    ensures v >= 0.0
    ensures forall s :: s in c ==> Offer(s, d) <= v
    ensures |c| > 0 ==> exists s :: s in c && Offer(s, d) == v
  {
    if |c| == 0 then 0.0 else
    var rest := BestOffer(d, c[1..]);
    assert c == [c[0]] + c[1..];
    if Offer(c[0], d) > rest || |c| == 1 then assert c[0] in c; Offer(c[0], d) else rest
  }

  function Named(c: seq<Stream>, id: Id): (r: Option<Stream>)
    ensures r.None? <==> forall s :: s in c ==> s.id != id
    ensures r.Some? ==> r.value in c && r.value.id == id
  {
    if |c| == 0 then None else if c[0].id == id then Some(c[0]) else Named(c[1..], id)
  }

  predicate AnyUnderFloor(d: Device, streams: seq<Stream>, floor: real)
  {
    exists s :: s in streams && UnderFloor(s, d, floor)
  }

  function Incumbent(ranked: seq<Stream>, previous: Id): (r: Option<Stream>)
    ensures r.Some? ==> r.value in ranked && r.value.id == previous != NONE
  {
    if previous == NONE then None else Named(ranked, previous)
  }

  /** The incumbent is kept unless the best challenger beats it by more than the margin. */
  predicate Holds(d: Device, r: Rules, best: Stream, incumbent: Option<Stream>)
  {
    incumbent.Some? && Score(best, d, r.policy) <= Score(incumbent.value, d, r.policy) * (1.0 + r.margin)
  }

  function Pick(d: Device, ranked: seq<Stream>, previous: Id, r: Rules): (s: Stream)
    requires |ranked| > 0
    ensures s in ranked
  {
    var incumbent := Incumbent(ranked, previous);
    if Holds(d, r, ranked[0], incumbent) then incumbent.value else ranked[0]
  }

  function Choose(d: Device, streams: seq<Stream>, previous: Id, r: Rules): Assignment
  {
    var c := Candidates(d, streams, r.floor);
    if |c| == 0 then
      Assignment(d.id, NONE, 0.0, NONE,
                 if AnyUnderFloor(d, streams, r.floor) then AllBelowFloor else NoCompatibleStream, false, false, 0.0)
    else
      var ranked := Ranked(d, r.policy, c);
      var best, s, top := ranked[0], Pick(d, ranked, previous, r), BestOffer(d, c);
      if Holds(d, r, best, Incumbent(ranked, previous)) then
        Assignment(d.id, s.id, Offer(s, d), NONE, if best.id != s.id then HeldBack else IncumbentBest,
                   best.id != s.id, false, top - Offer(s, d))
      else
        Assignment(d.id, s.id, Offer(s, d), if previous != NONE && previous != s.id then previous else NONE,
                   BestYield, false, false, top - Offer(s, d))
  }

  // ---------------------------------------------------------------- one device

  /** What pure yield maximisation would earn on this device. */
  function Best(d: Device, streams: seq<Stream>, floor: real): real
  {
    BestOffer(d, Candidates(d, streams, floor))
  }

  /** The assignment's yield and what it gives up add up to the best on offer. */
  lemma ChooseAccounts(d: Device, streams: seq<Stream>, previous: Id, r: Rules)
    ensures var a := Choose(d, streams, previous, r);
            a.expected + a.foregone == Best(d, streams, r.floor) && a.expected >= 0.0 && a.foregone >= 0.0
  {
    hide Offer, Score, Viable;
    var c := Candidates(d, streams, r.floor);
    if |c| > 0 {
      var ranked := Ranked(d, r.policy, c);
      assert ranked[0] in ranked;
    }
  }

  /** An assigned stream is one that was offered, takes the device and pays what is promised. */
  lemma ChooseViable(d: Device, streams: seq<Stream>, previous: Id, r: Rules)
    ensures var a := Choose(d, streams, previous, r);
            if a.reason in {NoCompatibleStream, AllBelowFloor}
            then a.stream == NONE && a.expected == 0.0 && forall s :: s in streams ==> !Viable(s, d, r.floor)
            else exists s :: s in streams && s.id == a.stream && Viable(s, d, r.floor) && a.expected == Offer(s, d)
  {
    hide Offer, Score, Viable;
    var c := Candidates(d, streams, r.floor);
    if |c| == 0 {
      forall s | s in streams ensures !Viable(s, d, r.floor) {
        assert s !in c;
      }
    } else {
      var ranked := Ranked(d, r.policy, c);
      assert ranked[0] in ranked;
    }
  }

  /** No viable stream scores above the first of the ranking. */
  lemma FirstIsBest(d: Device, streams: seq<Stream>, r: Rules, s: Stream)
    requires s in streams && Viable(s, d, r.floor)
    ensures var ranked := Ranked(d, r.policy, Candidates(d, streams, r.floor));
            |ranked| > 0 && Score(s, d, r.policy) <= Score(ranked[0], d, r.policy)
  {
    hide Score, Viable;
    var c := Candidates(d, streams, r.floor);
    var ranked := Ranked(d, r.policy, c);
    RankedOrdered(d, r.policy, c);
    assert s in ranked;
    var i :| 0 <= i < |ranked| && ranked[i] == s;
    if i > 0 {
      assert Ahead(d, r.policy, ranked[0], ranked[i]);
    }
  }

  /** The rating the policy reads, if any, is in its documented range. */
  predicate Rated(s: Stream, p: Policy)
  {
    && (p.MaximizePrivacy? ==> 0 <= s.privacy <= 10)
    && (p.EnvironmentFriendly? ==> 0 <= s.environmental <= 10)
  }

  /** The most a policy can favour a stream over its yield. */
  function MaxPremium(p: Policy): real
  {
    match p
    case StackBTC => BTC_STACK_BONUS
    case MaximizePrivacy => 1.1
    case EnvironmentFriendly => 1.1
    case _ => 1.0
  }

  lemma PremiumRange(s: Stream, p: Policy)
    requires Rated(s, p)
    ensures 1.0 <= Premium(s, p) <= MaxPremium(p)
  {
  }

  lemma Scale(y: real, a: real, b: real)
    requires y >= 0.0 && a <= b
    ensures y * a <= y * b
  {
  }

  lemma Between(y: real, a: real, b: real)
    requires y >= 0.0 && 1.0 <= a <= b
    ensures y <= y * a <= y * b
  {
    Scale(y, 1.0, a);
    Scale(y, a, b);
  }

  lemma ScoreRange(s: Stream, d: Device, p: Policy)
    requires Rated(s, p)
    ensures Offer(s, d) <= Score(s, d, p) <= Offer(s, d) * MaxPremium(p)
  {
    hide Offer, Premium, MaxPremium, Rated;
    PremiumRange(s, p);
    var offer, premium := Offer(s, d), Premium(s, p);
    assert Score(s, d, p) == offer * premium;
    hide Score;
    Between(offer, premium, MaxPremium(p));
  }

  /** The margin is all the pick can lose in score. */
  lemma PickScore(d: Device, ranked: seq<Stream>, previous: Id, r: Rules)
    requires |ranked| > 0 && r.margin >= 0.0 && Score(ranked[0], d, r.policy) >= 0.0
    ensures Score(Pick(d, ranked, previous, r), d, r.policy) * (1.0 + r.margin) >= Score(ranked[0], d, r.policy)
  {
    hide Score;
    Scale(Score(ranked[0], d, r.policy), 1.0, 1.0 + r.margin);
  }

  lemma Chain(y: real, k: real, score: real, m: real, best: real, top: real)
    requires m >= 0.0 && score <= y * k && top <= best <= score * m
    ensures y * k * m >= top
  {
    Scale(m, score, y * k);
  }

  lemma PickBounded(d: Device, c: seq<Stream>, previous: Id, r: Rules, top: Stream)
    requires r.margin >= 0.0 && top in c && Rated(top, r.policy)
    requires var ranked := Ranked(d, r.policy, c);
             Rated(Pick(d, ranked, previous, r), r.policy) && Score(top, d, r.policy) <= Score(ranked[0], d, r.policy)
    ensures var s := Pick(d, Ranked(d, r.policy, c), previous, r);
            Offer(s, d) * MaxPremium(r.policy) * (1.0 + r.margin) >= Offer(top, d)
  {
    hide Score, Pick, Rated, MaxPremium, Ranked;
    var ranked := Ranked(d, r.policy, c);
    var s := Pick(d, ranked, previous, r);
    ScoreRange(top, d, r.policy);
    ScoreRange(s, d, r.policy);
    PickScore(d, ranked, previous, r);
    Chain(Offer(s, d), MaxPremium(r.policy), Score(s, d, r.policy), 1.0 + r.margin,
          Score(ranked[0], d, r.policy), Offer(top, d));
  }

  /** Hysteresis and policy together never cost more than their factors. */
  lemma ChooseBounded(d: Device, streams: seq<Stream>, previous: Id, r: Rules)
    requires r.margin >= 0.0 && forall s :: s in streams ==> Rated(s, r.policy)
    ensures Choose(d, streams, previous, r).expected * MaxPremium(r.policy) * (1.0 + r.margin)
         >= Best(d, streams, r.floor)
  {
    hide Offer, Score, Viable, MaxPremium, Rated, Holds, Pick, Ranked, BestOffer, Candidates;
    var c := Candidates(d, streams, r.floor);
    if |c| > 0 {
      var most := BestOffer(d, c);
      var top: Stream :| top in c && Offer(top, d) == most;
      FirstIsBest(d, streams, r, top);
      var s := Pick(d, Ranked(d, r.policy, c), previous, r);
      assert s in c && top in streams;
      PickBounded(d, c, previous, r, top);
      assert Choose(d, streams, previous, r).expected == Offer(s, d);
    } else {
      NothingOnOffer(d, streams, previous, r);
    }
  }

  lemma NothingOnOffer(d: Device, streams: seq<Stream>, previous: Id, r: Rules)
    requires |Candidates(d, streams, r.floor)| == 0
    ensures Choose(d, streams, previous, r).expected == 0.0 && Best(d, streams, r.floor) == 0.0
  {
  }

  /** Deciding again from the result changes neither stream nor yield and reports no switch. */
  lemma ChooseStable(d: Device, streams: seq<Stream>, previous: Id, r: Rules)
    ensures var a := Choose(d, streams, previous, r);
            var b := Choose(d, streams, a.stream, r);
            b.stream == a.stream && b.expected == a.expected && b.foregone == a.foregone && b.switchedFrom == NONE
  {
    hide Offer, Score, Viable, BestOffer;
    var c := Candidates(d, streams, r.floor);
    if |c| > 0 {
      var ranked := Ranked(d, r.policy, c);
      assert Named(ranked, ranked[0].id) == Some(ranked[0]);
    }
  }

  ghost predicate Candidate(d: Device, streams: seq<Stream>, r: Rules, s: Stream)
  {
    s in streams && Viable(s, d, r.floor)
  }

  /** t ranks above every candidate, and beats those called previous by more than the margin. */
  ghost predicate Ousts(d: Device, streams: seq<Stream>, previous: Id, r: Rules, t: Stream)
  {
    && Candidate(d, streams, r, t) && t.id != previous
    && (forall u :: Candidate(d, streams, r, u) ==> Ahead(d, r.policy, t, u))
    && (forall s :: Candidate(d, streams, r, s) && s.id == previous ==>
          Score(t, d, r.policy) > Score(s, d, r.policy) * (1.0 + r.margin))
  }

  /** Of several candidates with one id the ranking meets the best first. */
  lemma {:induction false} NamedIsBest(d: Device, p: Policy, c: seq<Stream>, s: Stream)
    requires Ordered(d, p, c) && s in c
    ensures Named(c, s.id).Some? && Score(s, d, p) <= Score(Named(c, s.id).value, d, p)
  {
    hide Score;
    if c[0].id == s.id {
      var i :| 0 <= i < |c| && c[i] == s;
      if i > 0 {
        assert Ahead(d, p, c[0], c[i]);
      }
    } else {
      assert c == [c[0]] + c[1..];
      NamedIsBest(d, p, c[1..], s);
    }
  }

  lemma FirstAhead(d: Device, p: Policy, c: seq<Stream>, u: Stream)
    requires Ordered(d, p, c) && u in c
    ensures Ahead(d, p, c[0], u)
  {
    hide Score;
    var i :| 0 <= i < |c| && c[i] == u;
    LeReflexive(u.id);
  }

  lemma RankedCandidates(d: Device, streams: seq<Stream>, r: Rules)
    ensures var ranked := Ranked(d, r.policy, Candidates(d, streams, r.floor));
            Ordered(d, r.policy, ranked) && forall s :: s in ranked <==> Candidate(d, streams, r, s)
  {
    RankedOrdered(d, r.policy, Candidates(d, streams, r.floor));
    hide Viable, Ordered;
  }

  /** When the first of the ranking is not held back, it ousts the incumbent. */
  lemma BestOusts(d: Device, streams: seq<Stream>, previous: Id, r: Rules, c: seq<Stream>)
    requires r.margin >= 0.0 && |c| > 0 && Ordered(d, r.policy, c) && c[0].id != previous
    requires forall s :: s in c <==> Candidate(d, streams, r, s)
    requires var now := Named(c, previous);
             now.Some? ==> Score(c[0], d, r.policy) > Score(now.value, d, r.policy) * (1.0 + r.margin)
    ensures Ousts(d, streams, previous, r, c[0])
  {
    hide Score, Viable, Candidate, Ahead, Ordered;
    assert c[0] in c;
    forall u | Candidate(d, streams, r, u) ensures Ahead(d, r.policy, c[0], u) {
      FirstAhead(d, r.policy, c, u);
    }
    forall s | Candidate(d, streams, r, s) && s.id == previous
      ensures Score(c[0], d, r.policy) > Score(s, d, r.policy) * (1.0 + r.margin)
    {
      NamedIsBest(d, r.policy, c, s);
      Scale(1.0 + r.margin, Score(s, d, r.policy), Score(Named(c, previous).value, d, r.policy));
    }
  }

  /** And a stream that ousts the incumbent is, in score and id, the first of the ranking. */
  lemma OustsIsBest(d: Device, streams: seq<Stream>, previous: Id, r: Rules, c: seq<Stream>, t: Stream)
    requires |c| > 0 && Ordered(d, r.policy, c) && Ousts(d, streams, previous, r, t)
    requires forall s :: s in c <==> Candidate(d, streams, r, s)
    ensures c[0].id == t.id && Score(c[0], d, r.policy) == Score(t, d, r.policy)
  {
    hide Viable, Candidate, Ordered;
    assert c[0] in c && t in c;
    FirstAhead(d, r.policy, c, t);
    hide Score;
    AheadAntisymmetric(d, r.policy, c[0], t);
  }

  /**
   * A device leaves its stream if and only if that stream is no longer a candidate, or one that ranks first beats
   * it by more than the margin; it is reported as a switch exactly when there is anywhere to go.
   */
  lemma SwitchesOnlyForMargin(d: Device, streams: seq<Stream>, previous: Id, r: Rules)
    requires previous != NONE && r.margin >= 0.0
    ensures var a := Choose(d, streams, previous, r);
            && (a.stream != previous <==>
                  || (forall s :: Candidate(d, streams, r, s) ==> s.id != previous)
                  || exists t :: Ousts(d, streams, previous, r, t))
            && (a.switchedFrom == previous <==> a.stream != previous && exists s :: Candidate(d, streams, r, s))
  {
    var c := Ranked(d, r.policy, Candidates(d, streams, r.floor));
    RankedCandidates(d, streams, r);
    hide Offer, Score, Viable, BestOffer, Ranked, Candidates, Ahead, Candidate, Ordered, AnyUnderFloor, Ousts;
    if |c| == 0 {
      forall t ensures !Ousts(d, streams, previous, r, t) {
        OustsIsCandidate(d, streams, previous, r, t);
      }
    } else {
      assert c[0] in c;
      var now := Named(c, previous);
      if t :| Ousts(d, streams, previous, r, t) {
        OustsIsBest(d, streams, previous, r, c, t);
        if now.Some? {
          OustsBeats(d, streams, previous, r, t, now.value);
        }
      }
      if c[0].id != previous && !Holds(d, r, c[0], now) {
        BestOusts(d, streams, previous, r, c);
      }
    }
  }

  lemma OustsIsCandidate(d: Device, streams: seq<Stream>, previous: Id, r: Rules, t: Stream)
    ensures Ousts(d, streams, previous, r, t) ==> Candidate(d, streams, r, t) && t.id != previous
  {
  }

  lemma OustsBeats(d: Device, streams: seq<Stream>, previous: Id, r: Rules, t: Stream, s: Stream)
    requires Ousts(d, streams, previous, r, t) && Candidate(d, streams, r, s) && s.id == previous
    ensures t.id != previous && Score(t, d, r.policy) > Score(s, d, r.policy) * (1.0 + r.margin)
  {
  }

  // ---------------------------------------------------------------- order independence

  predicate DistinctStreams(streams: seq<Stream>)
  {
    forall i, j :: 0 <= i < j < |streams| ==> streams[i].id != streams[j].id
  }

  ghost predicate SameElements<T(!new)>(a: seq<T>, b: seq<T>)
  {
    forall x :: x in a <==> x in b
  }

  lemma {:induction false} CandidatesDistinct(d: Device, streams: seq<Stream>, floor: real)
    requires DistinctStreams(streams)
    ensures DistinctStreams(Candidates(d, streams, floor))
  {
    hide Viable;
    if |streams| > 0 {
      CandidatesDistinct(d, streams[1..], floor);
      var c := Candidates(d, streams[1..], floor);
      forall j | 0 <= j < |c| ensures c[j].id != streams[0].id {
        assert c[j] in streams[1..];
        var k :| 0 <= k < |streams[1..]| && streams[1..][k] == c[j];
        assert streams[1 + k] == c[j];
      }
    }
  }

  lemma {:induction false} InsertDistinct(d: Device, p: Policy, s: Stream, c: seq<Stream>)
    requires DistinctStreams(c) && forall x :: x in c ==> x.id != s.id
    ensures DistinctStreams(Insert(d, p, s, c))
  {
    hide Ahead;
    if |c| > 0 && !Ahead(d, p, s, c[0]) {
      InsertDistinct(d, p, s, c[1..]);
      var r := Insert(d, p, s, c[1..]);
      forall j | 0 <= j < |r| ensures r[j].id != c[0].id {
        assert r[j] in r;
        if r[j] != s {
          var k :| 0 <= k < |c[1..]| && c[1..][k] == r[j];
          assert c[k + 1] == r[j];
        }
      }
    }
  }

  lemma {:induction false} RankedDistinct(d: Device, p: Policy, c: seq<Stream>)
    requires DistinctStreams(c)
    ensures DistinctStreams(Ranked(d, p, c))
  {
    if |c| > 0 {
      RankedDistinct(d, p, c[1..]);
      var r := Ranked(d, p, c[1..]);
      forall x | x in r ensures x.id != c[0].id {
        var k :| 0 <= k < |c[1..]| && c[1..][k] == x;
        assert c[k + 1] == x;
      }
      InsertDistinct(d, p, c[0], r);
    }
  }

  lemma AheadAntisymmetric(d: Device, p: Policy, a: Stream, b: Stream)
    requires Ahead(d, p, a, b) && Ahead(d, p, b, a)
    ensures a.id == b.id
  {
    hide Score;
    LeAntisymmetric(a.id, b.id);
  }

  lemma SameEmptiness<T(!new)>(a: seq<T>, b: seq<T>)
    requires SameElements(a, b)
    ensures |a| == 0 <==> |b| == 0
  {
    if |a| > 0 {
      var x := a[0];
      assert x in b;
    }
    if |b| > 0 {
      var y := b[0];
      assert y in a;
    }
  }

  lemma TailElements(a: seq<Stream>, b: seq<Stream>)
    requires |a| > 0 && |b| > 0 && a[0] == b[0] && SameElements(a, b) && DistinctStreams(a) && DistinctStreams(b)
    ensures SameElements(a[1..], b[1..])
  {
    forall x ensures x in a[1..] <==> x in b[1..] {
      assert x in a <==> x in b;
      assert a == [a[0]] + a[1..] && b == [b[0]] + b[1..];
      assert a[0] !in a[1..] && b[0] !in b[1..];
    }
  }

  /** The same streams have only one ranking. */
  lemma {:induction false} RankingUnique(d: Device, p: Policy, a: seq<Stream>, b: seq<Stream>)
    requires Ordered(d, p, a) && Ordered(d, p, b) && DistinctStreams(a) && DistinctStreams(b) && SameElements(a, b)
    ensures a == b
  {
    hide Ahead;
    SameEmptiness(a, b);
    if |a| > 0 {
      assert a[0] in b && b[0] in a;
      var i :| 0 <= i < |b| && b[i] == a[0];
      var j :| 0 <= j < |a| && a[j] == b[0];
      if i > 0 && j > 0 {
        assert Ahead(d, p, b[0], b[i]) && Ahead(d, p, a[0], a[j]);
        AheadAntisymmetric(d, p, a[0], b[0]);
      }
      TailElements(a, b);
      RankingUnique(d, p, a[1..], b[1..]);
      assert a == [a[0]] + a[1..] && b == [b[0]] + b[1..];
    }
  }

  lemma BestOfferOrderFree(d: Device, a: seq<Stream>, b: seq<Stream>)
    requires SameElements(a, b)
    ensures BestOffer(d, a) == BestOffer(d, b)
  {
    hide Offer;
    SameEmptiness(a, b);
    if |a| > 0 {
      var most, best := BestOffer(d, a), BestOffer(d, b);
      var x: Stream :| x in a && Offer(x, d) == most;
      var y: Stream :| y in b && Offer(y, d) == best;
      assert x in b && y in a;
    }
  }

  /** Ranking what a device can use erases the order in which the streams were listed. */
  lemma RankedOrderFree(d: Device, a: seq<Stream>, b: seq<Stream>, r: Rules)
    requires DistinctStreams(a) && DistinctStreams(b) && SameElements(a, b)
    ensures SameElements(Candidates(d, a, r.floor), Candidates(d, b, r.floor))
    ensures Ranked(d, r.policy, Candidates(d, a, r.floor)) == Ranked(d, r.policy, Candidates(d, b, r.floor))
  {
    var ca, cb := Candidates(d, a, r.floor), Candidates(d, b, r.floor);
    CandidatesDistinct(d, a, r.floor);
    CandidatesDistinct(d, b, r.floor);
    hide Viable, Ahead, DistinctStreams, Candidates, Ranked, Ordered;
    RankedDistinct(d, r.policy, ca);
    RankedDistinct(d, r.policy, cb);
    RankedOrdered(d, r.policy, ca);
    RankedOrdered(d, r.policy, cb);
    RankingUnique(d, r.policy, Ranked(d, r.policy, ca), Ranked(d, r.policy, cb));
  }

  lemma UnderFloorOrderFree(d: Device, a: seq<Stream>, b: seq<Stream>, floor: real)
    requires SameElements(a, b)
    ensures AnyUnderFloor(d, a, floor) <==> AnyUnderFloor(d, b, floor)
  {
    hide UnderFloor;
  }

  /** The order in which distinct streams are listed does not matter to any device. */
  lemma ChooseOrderFree(d: Device, a: seq<Stream>, b: seq<Stream>, previous: Id, r: Rules)
    requires DistinctStreams(a) && DistinctStreams(b) && SameElements(a, b)
    ensures Choose(d, a, previous, r) == Choose(d, b, previous, r)
  {
    hide Viable, AnyUnderFloor, Offer, Holds, Candidates, Ranked, BestOffer, SameElements, Pick, DistinctStreams;
    var ca, cb := Candidates(d, a, r.floor), Candidates(d, b, r.floor);
    RankedOrderFree(d, a, b, r);
    SameEmptiness(ca, cb);
    BestOfferOrderFree(d, ca, cb);
    UnderFloorOrderFree(d, a, b, r.floor);
  }
}
