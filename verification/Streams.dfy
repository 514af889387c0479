// Entries of one provider merged into one stream: when the order in which they
// are visited can matter, and when not.

module Streams {
  import opened Ordering
  import opened Arbitration
  import opened Decision

  function NoYield(): Yield
  {
    Yield(0.0, 0.0)
  }

  /** Fold a later entry of the same provider into its representative. */
  function Absorb(rep: Stream, s: Stream): Stream
  {
    rep.(quotes := rep.quotes + s.quotes,
         defaultYield := if rep.defaultYield == NoYield() then s.defaultYield else rep.defaultYield)
  }

  function Add(m: map<Id, Stream>, s: Stream): map<Id, Stream>
  {
    m[s.id := if s.id in m then Absorb(m[s.id], s) else s]
  }

  /** The merged streams, for entries visited in this order. */
  function Merge(entries: seq<Stream>): map<Id, Stream>
  {
    if |entries| == 0 then map[] else Add(Merge(entries[..|entries| - 1]), entries[|entries| - 1])
  }

  /** List the merged streams, in whatever order the map gives them. */
  method ListValues(merged: map<Id, Stream>) returns (result: seq<Stream>)
    requires forall id :: id in merged ==> merged[id].id == id
    ensures DistinctStreams(result)
    ensures forall s :: s in result <==> s in merged.Values
  {
    result := [];
    var todo := merged.Keys;
    while todo != {}
      invariant todo <= merged.Keys && DistinctStreams(result)
      invariant forall s :: s in result <==> s.id in merged.Keys - todo && merged[s.id] == s
      decreases todo
    {
      var id :| id in todo;
      forall k | 0 <= k < |result| ensures result[k].id != id {
        assert result[k] in result;
      }
      result := result + [merged[id]];
      todo := todo - {id};
    }
    forall s ensures s in result <==> s in merged.Values {
      if s in result {
        assert merged[s.id] == s;
      }
    }
  }

  lemma {:induction false} MergedIds(entries: seq<Stream>)
    ensures forall id :: id in Merge(entries) ==> Merge(entries)[id].id == id
    ensures forall id :: id in Merge(entries) <==> exists s :: s in entries && s.id == id
  {
    if |entries| > 0 {
      var init, s := entries[..|entries| - 1], entries[|entries| - 1];
      MergedIds(init);
      assert entries == init + [s];
      forall id ensures id in Merge(entries) <==> exists x :: x in entries && x.id == id {
        if id in Merge(init) {
          var x :| x in init && x.id == id;
          assert x in entries;
        } else if id == s.id {
          assert s in entries;
        }
      }
    }
  }

  /** Two entries of one provider that agree wherever both speak. */
  predicate Agree(a: Stream, b: Stream)
  {
    && a.families == b.families && a.privacy == b.privacy && a.environmental == b.environmental
    && a.mining == b.mining
    && (forall k :: k in a.quotes && k in b.quotes ==> a.quotes[k] == b.quotes[k])
    && (a.defaultYield != NoYield() && b.defaultYield != NoYield() ==> a.defaultYield == b.defaultYield)
  }

  predicate Compatible(entries: seq<Stream>)
  {
    forall a, b :: a in entries && b in entries && a.id == b.id ==> Agree(a, b)
  }

  predicate QuotedBy(entries: seq<Stream>, id: Id, k: Id)
  {
    exists e :: e in entries && e.id == id && k in e.quotes
  }

  predicate DefaultBy(entries: seq<Stream>, id: Id, y: Yield)
  {
    exists e :: e in entries && e.id == id && e.defaultYield == y
  }

  /** x carries the common attributes, every quote and the default of its entries, and nothing else. */
  predicate Sums(entries: seq<Stream>, x: Stream)
  {
    && (exists e :: e in entries && e.id == x.id)
    && (forall e :: e in entries && e.id == x.id ==> Within(e, x))
    && (forall k :: k in x.quotes ==> QuotedBy(entries, x.id, k))
    && (x.defaultYield != NoYield() ==> DefaultBy(entries, x.id, x.defaultYield))
  }

  lemma Grow(entries: seq<Stream>, s: Stream, id: Id)
    ensures forall k :: QuotedBy(entries, id, k) ==> QuotedBy(entries + [s], id, k)
    ensures forall y :: DefaultBy(entries, id, y) ==> DefaultBy(entries + [s], id, y)
    ensures id == s.id ==> DefaultBy(entries + [s], id, s.defaultYield)
    ensures id == s.id ==> forall k :: k in s.quotes ==> QuotedBy(entries + [s], id, k)
  {
    var all := entries + [s];
    assert s in all;
    forall k | QuotedBy(entries, id, k) ensures QuotedBy(all, id, k) {
      var e :| e in entries && e.id == id && k in e.quotes;
      assert e in all;
    }
    forall y | DefaultBy(entries, id, y) ensures DefaultBy(all, id, y) {
      var e :| e in entries && e.id == id && e.defaultYield == y;
      assert e in all;
    }
  }

  predicate Within(e: Stream, x: Stream)
  {
    && e.families == x.families && e.privacy == x.privacy && e.environmental == x.environmental
    && e.mining == x.mining
    && (forall k :: k in e.quotes ==> k in x.quotes && x.quotes[k] == e.quotes[k])
    && (e.defaultYield != NoYield() ==> x.defaultYield == e.defaultYield)
  }

  lemma QuotesInto(entries: seq<Stream>, x: Stream, y: Stream)
    requires x.id == y.id && Sums(entries, x) && Sums(entries, y)
    ensures forall k :: k in x.quotes ==> k in y.quotes && y.quotes[k] == x.quotes[k]
  {
    forall k | k in x.quotes ensures k in y.quotes && y.quotes[k] == x.quotes[k] {
      var f :| f in entries && f.id == x.id && k in f.quotes;
      assert Within(f, x) && Within(f, y);
    }
  }

  lemma DefaultInto(entries: seq<Stream>, x: Stream, y: Stream)
    requires x.id == y.id && Sums(entries, x) && Sums(entries, y)
    ensures x.defaultYield != NoYield() ==> y.defaultYield == x.defaultYield
  {
    if x.defaultYield != NoYield() {
      var f :| f in entries && f.id == x.id && f.defaultYield == x.defaultYield;
      assert Within(f, y);
    }
  }

  lemma SharedAttributes(entries: seq<Stream>, x: Stream, y: Stream)
    requires x.id == y.id && Sums(entries, x) && Sums(entries, y)
    ensures x.families == y.families && x.privacy == y.privacy && x.environmental == y.environmental
    ensures x.mining == y.mining
  {
    var e :| e in entries && e.id == x.id;
    assert Within(e, x) && Within(e, y);
  }

  /** There is only one such summary. */
  lemma SumsUnique(entries: seq<Stream>, x: Stream, y: Stream)
    requires x.id == y.id && Sums(entries, x) && Sums(entries, y)
    ensures x == y
  {
    hide Sums;
    SharedAttributes(entries, x, y);
    QuotesInto(entries, x, y);
    QuotesInto(entries, y, x);
    DefaultInto(entries, x, y);
    DefaultInto(entries, y, x);
    assert x.quotes == y.quotes;
  }

  lemma SumsSameElements(a: seq<Stream>, b: seq<Stream>, x: Stream)
    requires SameElements(a, b) && Sums(a, x)
    ensures Sums(b, x)
  {
    hide Within;
    var e :| e in a && e.id == x.id;
    assert e in b;
    forall k | k in x.quotes ensures QuotedBy(b, x.id, k) {
      var f :| f in a && f.id == x.id && k in f.quotes;
      assert f in b;
    }
  }

  lemma AbsorbFacts(x: Stream, s: Stream)
    ensures var y := Absorb(x, s);
            && y.id == x.id
            && (forall k :: k in y.quotes ==> k in x.quotes || k in s.quotes)
            && (y.defaultYield == s.defaultYield || (y.defaultYield == x.defaultYield != NoYield()))
  {
  }

  lemma AllWithin(entries: seq<Stream>, x: Stream, s: Stream, f: Stream)
    requires Sums(entries, x) && s.id == x.id && forall e :: e in entries && e.id == s.id ==> Agree(e, s)
    requires f in entries + [s] && f.id == x.id
    ensures Within(f, Absorb(x, s))
  {
    if f == s {
      NewWithin(entries, x, s);
    } else {
      hide Within, Agree, Absorb;
      OldWithin(f, x, s);
    }
  }

  /** Adding an agreeing entry to a summary. */
  lemma AbsorbSums(entries: seq<Stream>, x: Stream, s: Stream)
    requires Sums(entries, x) && s.id == x.id && forall e :: e in entries && e.id == s.id ==> Agree(e, s)
    ensures Sums(entries + [s], Absorb(x, s))
  {
    hide Within, Agree, QuotedBy, DefaultBy, Absorb;
    AbsorbFacts(x, s);
    Grow(entries, s, x.id);
    assert s in entries + [s];
    forall f | f in entries + [s] && f.id == x.id ensures Within(f, Absorb(x, s)) {
      AllWithin(entries, x, s, f);
    }
  }

  lemma OldWithin(f: Stream, x: Stream, s: Stream)
    requires Within(f, x) && Agree(f, s)
    ensures Within(f, Absorb(x, s))
  {
  }

  lemma NewWithin(entries: seq<Stream>, x: Stream, s: Stream)
    requires Sums(entries, x) && s.id == x.id && forall e :: e in entries && e.id == s.id ==> Agree(e, s)
    ensures Within(s, Absorb(x, s))
  {
    var e :| e in entries && e.id == x.id;
    assert Within(e, x) && Agree(e, s);
    if x.defaultYield != NoYield() {
      var f :| f in entries && f.id == x.id && f.defaultYield == x.defaultYield;
      assert Agree(f, s);
    }
  }

  lemma ForeignSums(entries: seq<Stream>, x: Stream, s: Stream)
    requires Sums(entries, x) && s.id != x.id
    ensures Sums(entries + [s], x)
  {
    Grow(entries, s, x.id);
    hide Within, QuotedBy, DefaultBy;
    var e :| e in entries && e.id == x.id;
    assert e in entries + [s];
  }

  lemma FirstSums(entries: seq<Stream>, s: Stream)
    requires forall e :: e in entries ==> e.id != s.id
    ensures Sums(entries + [s], s)
  {
    Grow(entries, s, s.id);
    assert s in entries + [s];
  }

  /** Merging agreeing entries gives each provider its summary, in whatever order they came. */
  lemma {:induction false} MergeSums(entries: seq<Stream>, id: Id)
    requires Compatible(entries) && id in Merge(entries)
    ensures Sums(entries, Merge(entries)[id]) && Merge(entries)[id].id == id
  {
    var init, s := entries[..|entries| - 1], entries[|entries| - 1];
    assert entries == init + [s];
    MergedIds(entries);
    MergedIds(init);
    assert Compatible(init);
    hide Sums, Agree;
    if id in Merge(init) {
      MergeSums(init, id);
      if s.id == id {
        AbsorbSums(init, Merge(init)[id], s);
      } else {
        ForeignSums(init, Merge(init)[id], s);
      }
    } else {
      FirstSums(init, s);
    }
  }

  lemma MergeAgrees(a: seq<Stream>, b: seq<Stream>)
    requires Compatible(a) && SameElements(a, b)
    ensures Merge(a) == Merge(b)
  {
    MergedIds(a);
    MergedIds(b);
    hide Sums, Agree, Merge;
    forall id ensures id in Merge(a) <==> id in Merge(b) {
      if s :| s in a && s.id == id {
        assert s in b;
      }
      if s :| s in b && s.id == id {
        assert s in a;
      }
    }
    forall id | id in Merge(a) ensures Merge(a)[id] == Merge(b)[id] {
      MergeSums(a, id);
      MergeSums(b, id);
      SumsSameElements(a, b, Merge(a)[id]);
      SumsUnique(b, Merge(a)[id], Merge(b)[id]);
    }
  }

  // ---------------------------------------------------------------- when order matters

  predicate Rearranged(other: seq<Stream>, entries: seq<Stream>)
  {
    multiset(other) == multiset(entries)
  }

  /** Visiting the entries in any other order gives the same merged streams. */
  ghost predicate OrderFree(entries: seq<Stream>)
  {
    forall other: seq<Stream> {:trigger Rearranged(other, entries)} ::
      Rearranged(other, entries) ==> Merge(other) == Merge(entries)
  }

  lemma {:induction false} MergeFirst(a: Stream, rest: seq<Stream>)
    ensures var m := Merge([a] + rest);
            && a.id in m && m[a.id].families == a.families && m[a.id].privacy == a.privacy
            && m[a.id].environmental == a.environmental && m[a.id].mining == a.mining
            && (a.defaultYield != NoYield() ==> m[a.id].defaultYield == a.defaultYield)
  {
    var all := [a] + rest;
    if |rest| == 0 {
      assert all[..|all| - 1] == [];
    } else {
      assert all[..|all| - 1] == [a] + rest[..|rest| - 1];
      MergeFirst(a, rest[..|rest| - 1]);
    }
  }

  lemma MergeLast(init: seq<Stream>, b: Stream)
    ensures var m := Merge(init + [b]);
            b.id in m && forall k :: k in b.quotes ==> k in m[b.id].quotes && m[b.id].quotes[k] == b.quotes[k]
  {
    assert (init + [b])[..|init|] == init;
  }

  lemma TakeOut(s: seq<Stream>, x: Stream) returns (rest: seq<Stream>)
    requires x in s
    ensures multiset(s) == multiset(rest) + multiset{x}
    ensures forall y :: y in s && y != x ==> y in rest
  {
    var i :| 0 <= i < |s| && s[i] == x;
    rest := s[..i] + s[i + 1..];
    assert s == s[..i] + [x] + s[i + 1..];
  }

  lemma TwoOrders(entries: seq<Stream>, x: seq<Stream>, y: seq<Stream>)
    requires OrderFree(entries) && Rearranged(x, entries) && Rearranged(y, entries)
    ensures Merge(x) == Merge(y)
  {
    hide Merge;
    assert Merge(x) == Merge(entries) && Merge(y) == Merge(entries);
  }

  /** In an order-free list the two entries agree on what the first one decides. */
  lemma FrontAgrees(entries: seq<Stream>, a: Stream, b: Stream, rest: seq<Stream>)
    requires OrderFree(entries) && multiset(entries) == multiset(rest) + multiset{b} + multiset{a} && a.id == b.id
    ensures a.families == b.families && a.privacy == b.privacy && a.environmental == b.environmental
    ensures a.mining == b.mining
    ensures a.defaultYield != NoYield() && b.defaultYield != NoYield() ==> a.defaultYield == b.defaultYield
  {
    hide Merge;
    MergeFirst(a, [b] + rest);
    MergeFirst(b, [a] + rest);
    TwoOrders(entries, [a] + ([b] + rest), [b] + ([a] + rest));
  }

  /** And on what the last one overwrites. */
  lemma BackAgrees(entries: seq<Stream>, a: Stream, b: Stream, rest: seq<Stream>)
    requires OrderFree(entries) && multiset(entries) == multiset(rest) + multiset{b} + multiset{a} && a.id == b.id
    ensures forall k :: k in a.quotes && k in b.quotes ==> a.quotes[k] == b.quotes[k]
  {
    hide Merge;
    MergeLast(rest + [a], b);
    MergeLast(rest + [b], a);
    TwoOrders(entries, (rest + [a]) + [b], (rest + [b]) + [a]);
  }

  lemma Disagreement(entries: seq<Stream>, a: Stream, b: Stream)
    requires a in entries && b in entries && a.id == b.id && !Agree(a, b)
    ensures !OrderFree(entries)
  {
    var r := TakeOut(entries, a);
    var rest := TakeOut(r, b);
    hide OrderFree;
    if OrderFree(entries) {
      FrontAgrees(entries, a, b, rest);
      BackAgrees(entries, a, b, rest);
    }
  }

  /** Exactly when a provider's entries agree does the map's iteration order not matter. */
  lemma OrderFreeIffCompatible(entries: seq<Stream>)
    ensures OrderFree(entries) <==> Compatible(entries)
  {
    hide Agree, Merge;
    if Compatible(entries) {
      forall other: seq<Stream> | Rearranged(other, entries) ensures Merge(other) == Merge(entries) {
        SameMembers(other, entries);
        MergeAgrees(entries, other);
      }
    } else {
      var a, b :| a in entries && b in entries && a.id == b.id && !Agree(a, b);
      Disagreement(entries, a, b);
    }
  }

  lemma SameMembers(a: seq<Stream>, b: seq<Stream>)
    requires Rearranged(a, b)
    ensures SameElements(a, b)
  {
    forall x ensures x in a <==> x in b {
      assert x in a <==> x in multiset(a);
      assert x in b <==> x in multiset(b);
    }
  }

  /** From agreeing entries to the allocation, no iteration order shows: neither the merge's nor the listing's. */
  lemma AllocationOrderFree(entries: seq<Stream>, other: seq<Stream>, a: seq<Stream>, b: seq<Stream>,
                            ds: seq<Device>, previous: seq<Assignment>, r: Rules)
    requires Compatible(entries) && SameElements(other, entries)
    requires DistinctStreams(a) && forall s :: s in a <==> s in Merge(entries).Values
    requires DistinctStreams(b) && forall s :: s in b <==> s in Merge(other).Values
    requires DistinctDevices(ds)
    ensures Decided(ds, a, previous, r) == Decided(ds, b, previous, r)
  {
    hide Merge, Agree, Decided, DistinctStreams, DistinctDevices;
    MergeAgrees(entries, other);
    DecideOrderFree(ds, ds, a, b, previous, r);
  }
}
