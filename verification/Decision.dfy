// A whole arbitration decision: every device in id order, the books of the
// allocation, and what a repeated or reordered decision gives.

module Decision {
  import opened Ordering
  import opened Results
  import opened Arbitration

  datatype Error = InvalidPolicy | NegativeMargin | NegativeFloor | DuplicateDevice

  predicate DistinctDevices(ds: seq<Device>)
  {
    forall i, j :: 0 <= i < j < |ds| ==> ds[i].id != ds[j].id
  }

  predicate InOrder(ds: seq<Device>)
  {
    forall i, j :: 0 <= i < j < |ds| ==> Le(ds[i].id, ds[j].id)
  }

  function Insert(d: Device, ds: seq<Device>): (r: seq<Device>)
    ensures |r| == |ds| + 1
    ensures forall x :: x in r <==> x == d || x in ds
  {
    if |ds| == 0 || Le(d.id, ds[0].id) then [d] + ds else [ds[0]] + Insert(d, ds[1..])
  }

  function Sorted(ds: seq<Device>): (r: seq<Device>)
    ensures |r| == |ds|
    ensures forall x :: x in r <==> x in ds
  {
    if |ds| == 0 then [] else Insert(ds[0], Sorted(ds[1..]))
  }

  /** The latest previous assignment of a device. */
  function Previously(previous: seq<Assignment>, device: Id): Option<Assignment>
  {
    if |previous| == 0 then None
    else if previous[|previous| - 1].device == device then Some(previous[|previous| - 1])
    else Previously(previous[..|previous| - 1], device)
  }

  function PreviousStream(previous: seq<Assignment>, device: Id): Id
  {
    var p := Previously(previous, device);
    if p.Some? then p.value.stream else NONE
  }

  /** A device that was idle and stays idle is not a change. */
  function Assign(d: Device, streams: seq<Stream>, previous: seq<Assignment>, r: Rules): Assignment
  {
    var a := Choose(d, streams, PreviousStream(previous, d.id), r);
    a.(heldIdle := a.stream == NONE && Previously(previous, d.id).Some? && PreviousStream(previous, d.id) == NONE)
  }

  function AssignAll(ds: seq<Device>, streams: seq<Stream>, previous: seq<Assignment>, r: Rules): (a: seq<Assignment>)
    ensures |a| == |ds|
    ensures forall i :: 0 <= i < |ds| ==> a[i] == Assign(ds[i], streams, previous, r)
  {
    seq(|ds|, i requires 0 <= i < |ds| => Assign(ds[i], streams, previous, r))
  }

  function Earned(a: seq<Assignment>): real
  {
    if |a| == 0 then 0.0 else Earned(a[..|a| - 1]) + a[|a| - 1].expected
  }

  function Foregone(a: seq<Assignment>): real
  {
    if |a| == 0 then 0.0 else Foregone(a[..|a| - 1]) + a[|a| - 1].foregone
  }

  function IdleCount(a: seq<Assignment>): nat
  {
    if |a| == 0 then 0 else IdleCount(a[..|a| - 1]) + if a[|a| - 1].stream == NONE then 1 else 0
  }

  function Allocate(ds: seq<Device>, streams: seq<Stream>, previous: seq<Assignment>, r: Rules): Allocation
  {
    var a := AssignAll(Sorted(ds), streams, previous, r);
    Allocation(a, Earned(a), r.policy, IdleCount(a))
  }

  function Decided(ds: seq<Device>, streams: seq<Stream>, previous: seq<Assignment>, r: Rules)
    : Result<Allocation, Error>
  {
    if r.policy.Undefined? then Err(InvalidPolicy)
    else if r.margin < 0.0 then Err(NegativeMargin)
    else if r.floor < 0.0 then Err(NegativeFloor)
    else if !DistinctDevices(ds) then Err(DuplicateDevice)
    else Ok(Allocate(ds, streams, previous, r))
  }

  // ---------------------------------------------------------------- the loops

  /** candidateStreams: keep what the device can use, and note offers under the floor. */
  method CandidateStreams(d: Device, streams: seq<Stream>, floor: real) returns (cands: seq<Stream>, below: bool)
    ensures cands == Candidates(d, streams, floor)
    ensures below == AnyUnderFloor(d, streams, floor)
  {
    hide Candidates, AnyUnderFloor, Offer;
    cands, below := [], false;
    NoStreams(d, floor);
    for i := 0 to |streams|
      invariant cands == Candidates(d, streams[..i], floor) && below == AnyUnderFloor(d, streams[..i], floor)
    {
      var s := streams[i];
      OneMore(d, streams, floor, i);
      if d.family in s.families {
        var y := Offer(s, d);
        if y > 0.0 {
          if y < floor {
            below := true;
          } else {
            cands := cands + [s];
          }
        }
      }
    }
    assert streams[..|streams|] == streams;
  }

  lemma NoStreams(d: Device, floor: real)
    ensures Candidates(d, [], floor) == [] && !AnyUnderFloor(d, [], floor)
  {
  }

  lemma OneMore(d: Device, streams: seq<Stream>, floor: real, i: nat)
    requires i < |streams|
    ensures AnyUnderFloor(d, streams[..i + 1], floor)
       <==> AnyUnderFloor(d, streams[..i], floor) || UnderFloor(streams[i], d, floor)
    ensures Candidates(d, streams[..i + 1], floor)
         == Candidates(d, streams[..i], floor) + if Viable(streams[i], d, floor) then [streams[i]] else []
  {
    assert streams[..i + 1] == streams[..i] + [streams[i]];
    CandidatesAppend(d, streams[..i], streams[i], floor);
    hide UnderFloor, Candidates, Viable;
  }

  lemma {:induction false} CandidatesAppend(d: Device, streams: seq<Stream>, s: Stream, floor: real)
    ensures Candidates(d, streams + [s], floor)
         == Candidates(d, streams, floor) + if Viable(s, d, floor) then [s] else []
  {
    hide Viable;
    if |streams| == 0 {
      assert streams + [s] == [s] && [s][1..] == [];
    } else {
      assert (streams + [s])[1..] == streams[1..] + [s];
      CandidatesAppend(d, streams[1..], s, floor);
    }
  }

  /** The raw maximum, before any policy is applied. */
  method MaxRaw(d: Device, c: seq<Stream>) returns (top: real)
    requires |c| > 0
    ensures top == BestOffer(d, c)
  {
    hide Offer;
    top := Offer(c[0], d);
    var i := 1;
    while i < |c|
      invariant 1 <= i <= |c|
      invariant exists k :: 0 <= k < i && Offer(c[k], d) == top
      invariant forall k :: 0 <= k < i ==> Offer(c[k], d) <= top
    {
      if Offer(c[i], d) > top {
        top := Offer(c[i], d);
      }
      i := i + 1;
    }
    var k :| 0 <= k < |c| && Offer(c[k], d) == top;
    assert c[k] in c;
    var best := BestOffer(d, c);
    var s :| s in c && Offer(s, d) == best;
  }

  /** incumbentHold's search: the first ranked candidate that is the previous stream. */
  method FindIncumbent(ranked: seq<Stream>, previous: Id) returns (s: Option<Stream>)
    ensures s == Named(ranked, previous)
  {
    for i := 0 to |ranked|
      invariant Named(ranked, previous) == Named(ranked[i..], previous)
    {
      if ranked[i].id == previous {
        return Some(ranked[i]);
      }
      assert ranked[i..][1..] == ranked[i + 1..];
    }
    return None;
  }

  method ChooseForDevice(d: Device, streams: seq<Stream>, previous: Id, r: Rules) returns (a: Assignment)
    ensures a == Choose(d, streams, previous, r)
  {
    hide Candidates, AnyUnderFloor, Ranked, BestOffer, Named, Offer, Score;
    var c, below := CandidateStreams(d, streams, r.floor);
    if |c| == 0 {
      return Assignment(d.id, NONE, 0.0, NONE, if below then AllBelowFloor else NoCompatibleStream, false, false, 0.0);
    }
    var top := MaxRaw(d, c);
    var ranked := Ranked(d, r.policy, c);
    var best := ranked[0];
    if previous != NONE {
      var s := FindIncumbent(ranked, previous);
      if s.Some? && Score(best, d, r.policy) <= Score(s.value, d, r.policy) * (1.0 + r.margin) {
        var held := best.id != s.value.id;
        return Assignment(d.id, s.value.id, Offer(s.value, d), NONE, if held then HeldBack else IncumbentBest,
                          held, false, top - Offer(s.value, d));
      }
    }
    return Assignment(d.id, best.id, Offer(best, d),
                      if previous != NONE && previous != best.id then previous else NONE,
                      BestYield, false, false, top - Offer(best, d));
  }

  /** The duplicate check: a set of the ids seen so far. */
  method FindDuplicate(ds: seq<Device>) returns (dup: bool)
    ensures dup == !DistinctDevices(ds)
  {
    var seen: set<Id> := {};
    for i := 0 to |ds|
      invariant DistinctDevices(ds[..i])
      invariant forall x :: x in seen <==> exists k :: 0 <= k < i && ds[k].id == x
    {
      if ds[i].id in seen {
        return true;
      }
      seen := seen + {ds[i].id};
    }
    assert ds[..|ds|] == ds;
    return false;
  }

  /** Decide, as the source's loop over the sorted devices. */
  method Decide(ds: seq<Device>, streams: seq<Stream>, previous: seq<Assignment>, r: Rules)
    returns (result: Result<Allocation, Error>)
    ensures result == Decided(ds, streams, previous, r)
  {
    hide Choose, AssignAll, Earned, IdleCount, Sorted, DistinctDevices, Previously;
    if r.policy.Undefined? {
      return Err(InvalidPolicy);
    } else if r.margin < 0.0 {
      return Err(NegativeMargin);
    } else if r.floor < 0.0 {
      return Err(NegativeFloor);
    }
    var dup := FindDuplicate(ds);
    if dup {
      return Err(DuplicateDevice);
    }
    var devices := Sorted(ds);
    var assignments: seq<Assignment>, total, skipped := [], 0.0, 0;
    NoDevices(streams, previous, r);
    for i := 0 to |devices|
      invariant assignments == AssignAll(devices[..i], streams, previous, r)
      invariant total == Earned(assignments) && skipped == IdleCount(assignments)
    {
      var d := devices[i];
      var p := Previously(previous, d.id);
      var a := ChooseForDevice(d, streams, PreviousStream(previous, d.id), r);
      if a.stream == NONE {
        skipped := skipped + 1;
        if p.Some? && p.value.stream == NONE {
          a := a.(heldIdle := true);
        }
      }
      NextDevice(devices, streams, previous, r, i);
      AssignmentShape(d, streams, PreviousStream(previous, d.id), r);
      assert a == Assign(d, streams, previous, r);
      Tally(assignments, a);
      total := total + a.expected;
      assignments := assignments + [a];
    }
    assert devices[..|devices|] == devices;
    return Ok(Allocation(assignments, total, r.policy, skipped));
  }

  lemma NoDevices(streams: seq<Stream>, previous: seq<Assignment>, r: Rules)
    ensures AssignAll([], streams, previous, r) == [] && Earned([]) == 0.0 && IdleCount([]) == 0
  {
  }

  lemma Tally(a: seq<Assignment>, x: Assignment)
    ensures Earned(a + [x]) == Earned(a) + x.expected
    ensures Foregone(a + [x]) == Foregone(a) + x.foregone
    ensures IdleCount(a + [x]) == IdleCount(a) + if x.stream == NONE then 1 else 0
  {
    assert (a + [x])[..|a|] == a;
  }

  lemma AssignmentShape(d: Device, streams: seq<Stream>, previous: Id, r: Rules)
    ensures !Choose(d, streams, previous, r).heldIdle
  {
  }

  lemma NextDevice(ds: seq<Device>, streams: seq<Stream>, previous: seq<Assignment>, r: Rules, i: nat)
    requires i < |ds|
    ensures AssignAll(ds[..i + 1], streams, previous, r)
         == AssignAll(ds[..i], streams, previous, r) + [Assign(ds[i], streams, previous, r)]
  {
    hide Assign;
  }

  lemma LastDevice(ds: seq<Device>, streams: seq<Stream>, previous: seq<Assignment>, r: Rules)
    requires |ds| > 0
    ensures AssignAll(ds, streams, previous, r)
         == AssignAll(ds[..|ds| - 1], streams, previous, r) + [Assign(ds[|ds| - 1], streams, previous, r)]
  {
    NextDevice(ds, streams, previous, r, |ds| - 1);
    assert ds[..|ds|] == ds;
  }

  // ---------------------------------------------------------------- the books

  function TotalBest(ds: seq<Device>, streams: seq<Stream>, floor: real): real
  {
    if |ds| == 0 then 0.0
    else TotalBest(ds[..|ds| - 1], streams, floor) + Best(ds[|ds| - 1], streams, floor)
  }

  lemma {:induction false} AssignedAccounts(ds: seq<Device>, streams: seq<Stream>, previous: seq<Assignment>, r: Rules)
    ensures var a := AssignAll(ds, streams, previous, r);
            Earned(a) + Foregone(a) == TotalBest(ds, streams, r.floor)
  {
    hide Choose, Best;
    if |ds| > 0 {
      var init, d := ds[..|ds| - 1], ds[|ds| - 1];
      LastDevice(ds, streams, previous, r);
      AssignedAccounts(init, streams, previous, r);
      ChooseAccounts(d, streams, PreviousStream(previous, d.id), r);
      Tally(AssignAll(init, streams, previous, r), Assign(d, streams, previous, r));
    }
  }

  lemma Distribute(a: real, b: real, k: real)
    ensures (a + b) * k == a * k + b * k
  {
  }

  lemma {:induction false} AssignedBounded(ds: seq<Device>, streams: seq<Stream>, previous: seq<Assignment>, r: Rules)
    requires r.margin >= 0.0 && forall s :: s in streams ==> Rated(s, r.policy)
    ensures Earned(AssignAll(ds, streams, previous, r)) * (MaxPremium(r.policy) * (1.0 + r.margin))
         >= TotalBest(ds, streams, r.floor)
  {
    hide Choose, Best, MaxPremium, Rated;
    if |ds| > 0 {
      var init, d := ds[..|ds| - 1], ds[|ds| - 1];
      LastDevice(ds, streams, previous, r);
      AssignedBounded(init, streams, previous, r);
      ChooseBounded(d, streams, PreviousStream(previous, d.id), r);
      var done, a := AssignAll(init, streams, previous, r), Assign(d, streams, previous, r);
      Tally(done, a);
      Distribute(Earned(done), a.expected, MaxPremium(r.policy) * (1.0 + r.margin));
      Associate(a.expected, MaxPremium(r.policy), 1.0 + r.margin);
    }
  }

  lemma Associate(a: real, b: real, c: real)
    ensures a * b * c == a * (b * c)
  {
  }

  /** Total yield plus everything deliberately given up is the sum of the devices' best offers. */
  lemma BooksBalance(ds: seq<Device>, streams: seq<Stream>, previous: seq<Assignment>, r: Rules)
    requires Decided(ds, streams, previous, r).Ok?
    ensures var a := Decided(ds, streams, previous, r).value;
            a.total + Foregone(a.assignments) == TotalBest(Sorted(ds), streams, r.floor)
  {
    AssignedAccounts(Sorted(ds), streams, previous, r);
  }

  /** What policy and hysteresis can cost together; for maximize-earnings the factor is 1 + margin. */
  lemma LossBounded(ds: seq<Device>, streams: seq<Stream>, previous: seq<Assignment>, r: Rules)
    requires Decided(ds, streams, previous, r).Ok? && forall s :: s in streams ==> Rated(s, r.policy)
    ensures var a := Decided(ds, streams, previous, r).value;
            a.total * (MaxPremium(r.policy) * (1.0 + r.margin)) >= TotalBest(Sorted(ds), streams, r.floor)
  {
    hide MaxPremium, Rated, Earned, AssignAll, TotalBest, Sorted;
    AssignedBounded(Sorted(ds), streams, previous, r);
  }

  // ---------------------------------------------------------------- deciding again

  lemma {:induction false} InsertInOrder(d: Device, ds: seq<Device>)
    requires InOrder(ds) && DistinctDevices(ds) && forall x :: x in ds ==> x.id != d.id
    ensures InOrder(Insert(d, ds)) && DistinctDevices(Insert(d, ds))
  {
    hide Le;
    if |ds| == 0 {
    } else if Le(d.id, ds[0].id) {
      forall j | 0 <= j < |ds| ensures Le(d.id, ds[j].id) {
        if j > 0 {
          LeTransitive(d.id, ds[0].id, ds[j].id);
        }
      }
    } else {
      LeTotal(d.id, ds[0].id);
      InsertInOrder(d, ds[1..]);
      var r := Insert(d, ds[1..]);
      forall j | 0 <= j < |r| ensures Le(ds[0].id, r[j].id) && ds[0].id != r[j].id {
        assert r[j] in r;
        assert ds[0] in ds;
        if r[j] != d {
          var k :| 0 <= k < |ds[1..]| && ds[1..][k] == r[j];
          assert ds[k + 1] == r[j];
        }
      }
    }
  }

  lemma {:induction false} SortedInOrder(ds: seq<Device>)
    requires DistinctDevices(ds)
    ensures InOrder(Sorted(ds)) && DistinctDevices(Sorted(ds))
  {
    if |ds| > 0 {
      SortedInOrder(ds[1..]);
      forall x | x in Sorted(ds[1..]) ensures x.id != ds[0].id {
        var k :| 0 <= k < |ds[1..]| && ds[1..][k] == x;
        assert ds[k + 1] == x;
      }
      InsertInOrder(ds[0], Sorted(ds[1..]));
    }
  }

  predicate DistinctAssignments(a: seq<Assignment>)
  {
    forall i, j :: 0 <= i < j < |a| ==> a[i].device != a[j].device
  }

  lemma {:induction false} PreviouslyFinds(a: seq<Assignment>, i: nat)
    requires i < |a| && DistinctAssignments(a)
    ensures Previously(a, a[i].device) == Some(a[i])
  {
    if i < |a| - 1 {
      PreviouslyFinds(a[..|a| - 1], i);
    }
  }

  lemma ChooseDevice(d: Device, streams: seq<Stream>, previous: Id, r: Rules)
    ensures Choose(d, streams, previous, r).device == d.id
  {
  }

  lemma AssignedDistinct(ds: seq<Device>, streams: seq<Stream>, previous: seq<Assignment>, r: Rules)
    requires DistinctDevices(ds)
    ensures DistinctAssignments(AssignAll(ds, streams, previous, r))
  {
    hide Choose;
    forall i | 0 <= i < |ds| ensures AssignAll(ds, streams, previous, r)[i].device == ds[i].id {
      ChooseDevice(ds[i], streams, PreviousStream(previous, ds[i].id), r);
    }
  }

  /** Same stream, same yield, same cost, and no switch reported. */
  predicate Unmoved(a: Assignment, b: Assignment)
  {
    && b.device == a.device && b.stream == a.stream && b.expected == a.expected && b.foregone == a.foregone
    && b.switchedFrom == NONE
  }

  lemma {:induction false} EarnedUnmoved(a: seq<Assignment>, b: seq<Assignment>)
    requires |a| == |b| && forall i :: 0 <= i < |a| ==> Unmoved(a[i], b[i])
    ensures Earned(a) == Earned(b)
  {
    if |a| > 0 {
      assert Unmoved(a[|a| - 1], b[|a| - 1]);
      EarnedUnmoved(a[..|a| - 1], b[..|a| - 1]);
    }
  }

  lemma AssignUnmoved(d: Device, streams: seq<Stream>, previous: seq<Assignment>, a: seq<Assignment>, i: nat, r: Rules)
    requires i < |a| && DistinctAssignments(a) && a[i] == Assign(d, streams, previous, r)
    ensures Unmoved(a[i], Assign(d, streams, a, r))
  {
    hide Choose;
    ChooseDevice(d, streams, PreviousStream(previous, d.id), r);
    PreviouslyFinds(a, i);
    ChooseDevice(d, streams, a[i].stream, r);
    ChooseStable(d, streams, PreviousStream(previous, d.id), r);
  }

  /** Deciding again on the same devices and streams, from the result, moves nothing. */
  lemma DecideStable(ds: seq<Device>, streams: seq<Stream>, previous: seq<Assignment>, r: Rules)
    requires Decided(ds, streams, previous, r).Ok?
    ensures var a := Decided(ds, streams, previous, r).value;
            var b := Decided(ds, streams, a.assignments, r);
            && b.Ok? && b.value.total == a.total && |b.value.assignments| == |a.assignments|
            && forall i :: 0 <= i < |a.assignments| ==> Unmoved(a.assignments[i], b.value.assignments[i])
  {
    hide Unmoved, Assign, Earned, Sorted, DistinctAssignments;
    var devices := Sorted(ds);
    var a := AssignAll(devices, streams, previous, r);
    var b := AssignAll(devices, streams, a, r);
    SortedInOrder(ds);
    AssignedDistinct(devices, streams, previous, r);
    forall i | 0 <= i < |a| ensures Unmoved(a[i], b[i]) {
      AssignUnmoved(devices[i], streams, previous, a, i, r);
    }
    EarnedUnmoved(a, b);
  }

  // ---------------------------------------------------------------- order independence

  lemma TailDevices(a: seq<Device>, b: seq<Device>)
    requires |a| > 0 && |b| > 0 && a[0] == b[0] && SameElements(a, b) && DistinctDevices(a) && DistinctDevices(b)
    ensures SameElements(a[1..], b[1..])
  {
    forall x ensures x in a[1..] <==> x in b[1..] {
      assert x in a <==> x in b;
      assert a == [a[0]] + a[1..] && b == [b[0]] + b[1..];
      assert a[0] !in a[1..] && b[0] !in b[1..];
    }
  }

  lemma {:induction false} OrderUnique(a: seq<Device>, b: seq<Device>)
    requires InOrder(a) && InOrder(b) && DistinctDevices(a) && DistinctDevices(b) && SameElements(a, b)
    ensures a == b
  {
    hide Le;
    SameEmptiness(a, b);
    if |a| > 0 {
      assert a[0] in b && b[0] in a;
      var i :| 0 <= i < |b| && b[i] == a[0];
      var j :| 0 <= j < |a| && a[j] == b[0];
      if i > 0 && j > 0 {
        LeAntisymmetric(a[0].id, b[0].id);
      }
      TailDevices(a, b);
      OrderUnique(a[1..], b[1..]);
      assert a == [a[0]] + a[1..] && b == [b[0]] + b[1..];
    }
  }

  lemma {:induction false} AssignAllOrderFree(ds: seq<Device>, a: seq<Stream>, b: seq<Stream>,
                                              previous: seq<Assignment>, r: Rules)
    requires DistinctStreams(a) && DistinctStreams(b) && SameElements(a, b)
    ensures AssignAll(ds, a, previous, r) == AssignAll(ds, b, previous, r)
  {
    hide Choose, DistinctStreams, SameElements;
    if |ds| > 0 {
      LastDevice(ds, a, previous, r);
      LastDevice(ds, b, previous, r);
      AssignAllOrderFree(ds[..|ds| - 1], a, b, previous, r);
      var d := ds[|ds| - 1];
      ChooseOrderFree(d, a, b, PreviousStream(previous, d.id), r);
    }
  }

  /** Listing the same devices and the same distinct streams in any order gives the same allocation. */
  lemma DecideOrderFree(ds: seq<Device>, es: seq<Device>, a: seq<Stream>, b: seq<Stream>,
                        previous: seq<Assignment>, r: Rules)
    requires DistinctStreams(a) && DistinctStreams(b) && SameElements(a, b)
    requires DistinctDevices(ds) && DistinctDevices(es) && SameElements(ds, es)
    ensures Decided(ds, a, previous, r) == Decided(es, b, previous, r)
  {
    SortedInOrder(ds);
    SortedInOrder(es);
    hide InOrder, DistinctDevices, DistinctStreams, Sorted, AssignAll, Earned, IdleCount;
    OrderUnique(Sorted(ds), Sorted(es));
    AssignAllOrderFree(Sorted(ds), a, b, previous, r);
  }
}
