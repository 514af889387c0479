// The live map of quotes: provider quotes fold into it, stale entries leave it,
// and every arbitration tick merges it and may write into it.

module LiveStreams {
  import opened Numerals
  import opened Ordering
  import opened Results
  import opened Arbitration
  import opened Streams

  /** Entries by "provider:device" key. */
  type Live = map<Id, Stream>

  /** families None means every family; net is the yield after the provider's fee, if it set one. */
  datatype Quote =
    Quote(provider: Id, device: Id, families: Option<seq<Family>>, sats: real, net: real, confidence: real)

  const COLON: Byte := 58
  const MINING: Id := [109, 105, 110, 105, 110, 103, 46]
  const ALL_FAMILIES := [ASIC, GPU, CPU]

  function Key(provider: Id, device: Id): Id
  {
    provider + [COLON] + device
  }

  function Price(q: Quote): Yield
  {
    Yield(if q.net <= 0.0 then q.sats else q.net, q.confidence)
  }

  function Accepted(q: Quote): seq<Family>
  {
    if q.families.Some? then q.families.value else ALL_FAMILIES
  }

  function Blank(): Stream
  {
    Stream(NONE, [], map[], NoYield(), 0, 0, false)
  }

  /** updateStream: a device's quote goes under the device, a quote for no device becomes the default. */
  function Update(m: Live, q: Quote): Live
  {
    var k := Key(q.provider, q.device);
    var e := if k in m then m[k] else Blank();
    var f := e.(id := q.provider, families := Accepted(q), mining := MINING <= q.provider);
    m[k := if q.device != NONE then f.(quotes := f.quotes[q.device := Price(q)]) else f.(defaultYield := Price(q))]
  }

  /**
   * A quote, from its own fields: it goes under provider, ':' and device, for the families it names or else all
   * three, at the net yield if that is positive and else the gross; a device-less one sets the default instead.
   */
  lemma UpdateExact(m: Live, q: Quote)
    ensures var n, k := Update(m, q), q.provider + [58] + q.device;
            && n.Keys == m.Keys + {k} && (forall x :: x in m && x != k ==> n[x] == m[x])
            && n[k].id == q.provider
            && n[k].families == (if q.families.Some? then q.families.value else [ASIC, GPU, CPU])
            && (n[k].mining <==> |q.provider| >= 7 && q.provider[..7] == [109, 105, 110, 105, 110, 103, 46])
            && var price := Yield(if q.net > 0.0 then q.net else q.sats, q.confidence);
               var quotes := if k in m then m[k].quotes else map[];
               var default := if k in m then m[k].defaultYield else NoYield();
               && n[k].quotes == (if q.device == [] then quotes else quotes[q.device := price])
               && n[k].defaultYield == (if q.device == [] then price else default)
  {
  }

  // ---------------------------------------------------------------- a tick

  predicate Known(m: Live, order: seq<Id>)
  {
    forall i :: 0 <= i < |order| ==> order[i] in m
  }

  /** One iteration over the map: every key once. */
  ghost predicate Visits(m: Live, order: seq<Id>)
  {
    && (forall i, j :: 0 <= i < j < |order| ==> order[i] != order[j])
    && (forall k :: k in order <==> k in m)
  }

  function Entries(m: Live, order: seq<Id>): (es: seq<Stream>)
    requires Known(m, order)
    ensures |es| == |order| && forall i :: 0 <= i < |order| ==> es[i] == m[order[i]]
  {
    seq(|order|, i requires 0 <= i < |order| => m[order[i]])
  }

  /** The entry that represents a provider: its first in the visiting order. */
  function Leader(m: Live, order: seq<Id>, id: Id): (r: Option<Id>)
    requires Known(m, order)
    ensures r.Some? ==> r.value in order && m[r.value].id == id
    ensures r.None? <==> forall i :: 0 <= i < |order| ==> m[order[i]].id != id
  {
    if |order| == 0 then None else
    var r := Leader(m, order[..|order| - 1], id);
    if r.Some? then r else if m[order[|order| - 1]].id == id then Some(order[|order| - 1]) else None
  }

  /**
   * What merging does to the live map. The representative's quotes are copied only when there are some, so a
   * representative without quotes is filled in place with those of its provider's other entries.
   */
  function WriteBack(m: Live, order: seq<Id>): (r: Live)
    requires Known(m, order)
    ensures r.Keys == m.Keys
  {
    LeadersMerged(m, order);
    map k | k in m ::
      if m[k].quotes == map[] && Leader(m, order, m[k].id) == Some(k)
      then m[k].(quotes := Merge(Entries(m, order))[m[k].id].quotes) else m[k]
  }

  lemma {:induction false} LeadersMerged(m: Live, order: seq<Id>)
    requires Known(m, order)
    ensures forall id :: id in Merge(Entries(m, order)) <==> Leader(m, order, id).Some?
  {
    var es := Entries(m, order);
    MergedIds(es);
    hide Merge;
    forall id ensures id in Merge(es) <==> Leader(m, order, id).Some? {
      if s :| s in es && s.id == id {
        var i :| 0 <= i < |es| && es[i] == s;
        assert m[order[i]].id == id;
      }
      if Leader(m, order, id).Some? {
        var i :| 0 <= i < |order| && m[order[i]].id == id;
        assert es[i] in es;
      }
    }
  }

  lemma MergeSnoc(m: Live, pre: seq<Id>, k: Id)
    requires Known(m, pre) && k in m
    ensures Known(m, pre + [k])
    ensures Merge(Entries(m, pre + [k])) == Add(Merge(Entries(m, pre)), m[k])
  {
    var es := Entries(m, pre + [k]);
    assert es[..|es| - 1] == Entries(m, pre);
  }

  lemma LeaderSnoc(m: Live, pre: seq<Id>, k: Id, id: Id)
    requires Known(m, pre) && k in m
    ensures Known(m, pre + [k])
    ensures Leader(m, pre + [k], id)
         == if Leader(m, pre, id).Some? then Leader(m, pre, id) else if m[k].id == id then Some(k) else None
  {
    assert (pre + [k])[..|pre|] == pre;
  }

  /** What a live entry reads, given its provider's leader and merged stream. */
  function Filled(k: Id, s: Stream, lead: Option<Id>, merged: map<Id, Stream>): Stream
  {
    if s.quotes == map[] && lead == Some(k) && s.id in merged then s.(quotes := merged[s.id].quotes) else s
  }

  lemma WrittenAt(m: Live, order: seq<Id>, k: Id)
    requires Known(m, order) && k in m
    ensures WriteBack(m, order)[k] == Filled(k, m[k], Leader(m, order, m[k].id), Merge(Entries(m, order)))
  {
    LeadersMerged(m, order);
  }

  lemma FilledStep(x: Id, s: Stream, lead: Option<Id>, lead': Option<Id>, merged: map<Id, Stream>, k: Id, e: Stream)
    requires lead.Some? <==> s.id in merged
    requires lead' == if lead.Some? then lead else if e.id == s.id then Some(k) else None
    requires x == k ==> s == e
    ensures Filled(x, s, lead', Add(merged, e))
         == if e.id == s.id && lead == Some(x) && s.quotes == map[] then s.(quotes := Add(merged, e)[e.id].quotes)
            else Filled(x, s, lead, merged)
  {
  }

  /** One more visit, seen from one live entry: only the leader of the visited provider can change. */
  lemma WrittenSnoc(m: Live, pre: seq<Id>, k: Id, x: Id)
    requires Known(m, pre) && k in m && x in m
    ensures Known(m, pre + [k])
    ensures WriteBack(m, pre + [k])[x]
         == if m[k].id == m[x].id && Leader(m, pre, m[x].id) == Some(x) && m[x].quotes == map[]
            then m[x].(quotes := Add(Merge(Entries(m, pre)), m[k])[m[k].id].quotes) else WriteBack(m, pre)[x]
  {
    MergeSnoc(m, pre, k);
    LeaderSnoc(m, pre, k, m[x].id);
    LeadersMerged(m, pre);
    WrittenAt(m, pre, x);
    WrittenAt(m, pre + [k], x);
    hide Merge, Leader, WriteBack, Filled, Known, Entries, Add;
    FilledStep(x, m[x], Leader(m, pre, m[x].id), Leader(m, pre + [k], m[x].id), Merge(Entries(m, pre)), k, m[k]);
  }

  lemma Untouched(m: Live, pre: seq<Id>, k: Id)
    requires Known(m, pre) && k in m && k !in pre
    ensures WriteBack(m, pre)[k] == m[k]
  {
    WrittenAt(m, pre, k);
    hide Merge, WriteBack;
  }

  /** The merge under way: the live map, the merged streams, and the live entries sharing a table with one. */
  datatype Progress = Progress(live: Live, merged: map<Id, Stream>, shared: map<Id, Id>)

  ghost predicate Reached(m: Live, order: seq<Id>, p: Progress)
  {
    && Known(m, order) && p.live == WriteBack(m, order) && p.merged == Merge(Entries(m, order))
    && forall id :: SharedBy(m, order, p.shared, id)
  }

  /** A provider is shared exactly when its leader has no quotes of its own. */
  predicate SharedBy(m: Live, order: seq<Id>, shared: map<Id, Id>, id: Id)
    requires Known(m, order)
  {
    var l := Leader(m, order, id);
    if l.Some? && m[l.value].quotes == map[] then id in shared && shared[id] == l.value else id !in shared
  }

  /** One round of the loop. */
  function Visit(p: Progress, k: Id): Progress
    requires k in p.live
  {
    var s := p.live[k];
    if s.id in p.merged then
      var rep := Absorb(p.merged[s.id], s);
      Progress(Shared(p, s.id, rep), p.merged[s.id := rep], p.shared)
    else
      Progress(p.live, p.merged[s.id := s], if s.quotes == map[] then p.shared[s.id := k] else p.shared)
  }

  /** The live map after a write to a representative that may share its table. */
  function Shared(p: Progress, id: Id, rep: Stream): Live
  {
    if id in p.shared && p.shared[id] in p.live
    then p.live[p.shared[id] := p.live[p.shared[id]].(quotes := rep.quotes)] else p.live
  }

  lemma VisitShares(m: Live, pre: seq<Id>, k: Id, p: Progress, id: Id)
    requires Reached(m, pre, p) && k in m && k !in pre
    ensures Known(m, pre + [k]) && k in p.live && SharedBy(m, pre + [k], Visit(p, k).shared, id)
  {
    LeaderSnoc(m, pre, k, id);
    LeadersMerged(m, pre);
    Untouched(m, pre, k);
    hide Merge, Leader, WriteBack, Known, Entries;
    assert SharedBy(m, pre, p.shared, id) && SharedBy(m, pre, p.shared, m[k].id);
  }

  lemma VisitWrites(m: Live, pre: seq<Id>, k: Id, p: Progress, x: Id)
    requires Reached(m, pre, p) && k in m && k !in pre && x in m
    ensures Known(m, pre + [k]) && k in p.live && x in Visit(p, k).live
    ensures Visit(p, k).live[x] == WriteBack(m, pre + [k])[x]
  {
    LeadersMerged(m, pre);
    Untouched(m, pre, k);
    WrittenSnoc(m, pre, k, x);
    assert SharedBy(m, pre, p.shared, m[k].id);
    if m[k].id in p.shared && p.shared[m[k].id] in m {
      WrittenAt(m, pre, p.shared[m[k].id]);
    }
    hide Merge, Leader, WriteBack, Known, Entries;
  }

  /** Shared tables belong to live entries. */
  predicate SharesLive(p: Progress)
  {
    forall id :: id in p.shared ==> p.shared[id] in p.live
  }

  lemma ReachedSharesLive(m: Live, pre: seq<Id>, p: Progress)
    requires Reached(m, pre, p)
    ensures SharesLive(p)
  {
    hide Merge, Leader, WriteBack;
    forall id | id in p.shared ensures p.shared[id] in p.live {
      assert SharedBy(m, pre, p.shared, id);
    }
  }

  lemma VisitKeys(p: Progress, k: Id)
    requires k in p.live
    ensures Visit(p, k).live.Keys == p.live.Keys
  {
  }

  lemma VisitMerges(m: Live, pre: seq<Id>, k: Id, p: Progress)
    requires Reached(m, pre, p) && k in m && k !in pre
    ensures Known(m, pre + [k]) && k in p.live && Visit(p, k).merged == Merge(Entries(m, pre + [k]))
  {
    Untouched(m, pre, k);
    MergeSnoc(m, pre, k);
    hide Merge, Leader, WriteBack, Known, Entries;
  }

  lemma VisitReaches(m: Live, pre: seq<Id>, k: Id, p: Progress)
    requires Reached(m, pre, p) && k in m && k !in pre
    ensures k in p.live && Reached(m, pre + [k], Visit(p, k))
  {
    hide Merge, Leader, WriteBack, SharedBy, Entries, Visit;
    VisitMerges(m, pre, k, p);
    VisitKeys(p, k);
    forall x | x in m ensures x in Visit(p, k).live && Visit(p, k).live[x] == WriteBack(m, pre + [k])[x] {
      VisitWrites(m, pre, k, p, x);
    }
    forall id ensures SharedBy(m, pre + [k], Visit(p, k).shared, id) {
      VisitShares(m, pre, k, p, id);
    }
    assert Visit(p, k).live == WriteBack(m, pre + [k]);
  }

  /** The live map, as the engine keeps it under its lock. */
  class LiveMap {
    var entries: Live

    constructor ()
      ensures entries == map[]
    {
      entries := map[];
    }

    method UpdateStream(q: Quote) returns (key: Id)
      modifies this
      ensures entries == Update(old(entries), q) && key == Key(q.provider, q.device)
    {
      key := q.provider + [COLON] + q.device;
      var existing := if key in entries then entries[key] else Blank();
      existing := existing.(id := q.provider);
      if q.families.Some? {
        existing := existing.(families := q.families.value);
      } else {
        existing := existing.(families := ALL_FAMILIES);
      }
      var netSats := q.net;
      if netSats <= 0.0 {
        netSats := q.sats;
      }
      if q.device != NONE {
        existing := existing.(quotes := existing.quotes[q.device := Yield(netSats, q.confidence)]);
      } else {
        existing := existing.(defaultYield := Yield(netSats, q.confidence));
      }
      existing := existing.(mining := MINING <= q.provider);
      entries := entries[key := existing];
    }

    /** One round of streamsSlice: an entry without quotes shares its table with the representative it becomes. */
    method MergeEntry(k: Id, merged: map<Id, Stream>, shared: map<Id, Id>)
      returns (merged': map<Id, Stream>, shared': map<Id, Id>)
      requires k in entries && SharesLive(Progress(entries, merged, shared))
      modifies this
      ensures Progress(entries, merged', shared') == Visit(Progress(old(entries), merged, shared), k)
    {
      merged', shared' := merged, shared;
      var s := entries[k];
      if s.id in merged {
        var rep := merged[s.id];
        rep := rep.(quotes := rep.quotes + s.quotes);
        if s.id in shared {
          entries := entries[shared[s.id] := entries[shared[s.id]].(quotes := rep.quotes)];
        }
        if rep.defaultYield == NoYield() {
          rep := rep.(defaultYield := s.defaultYield);
        }
        merged' := merged[s.id := rep];
      } else {
        if s.quotes == map[] {
          shared' := shared[s.id := k];
        }
        merged' := merged[s.id := s];
      }
    }

    /** streamsSlice over one visiting order: the merged streams, once each, and the live map as the merge leaves it. */
    method StreamsSlice(order: seq<Id>) returns (result: seq<Stream>)
      requires Visits(entries, order)
      modifies this
      ensures Known(old(entries), order) && entries == WriteBack(old(entries), order)
      ensures DistinctStreams(result)
      ensures forall s :: s in result <==> s in Merge(Entries(old(entries), order)).Values
    {
      ghost var m := entries;
      hide *;
      var merged: map<Id, Stream>, shared: map<Id, Id> := map[], map[];
      NothingVisited(m, order);
      for i := 0 to |order|
        invariant ReachedAt(m, order, i, Progress(entries, merged, shared))
      {
        NextVisit(m, order, i, Progress(entries, merged, shared));
        merged, shared := MergeEntry(order[i], merged, shared);
      }
      AllVisited(m, order, Progress(entries, merged, shared));
      result := ListValues(merged);
    }
  }

  lemma VisitsFacts(m: Live, order: seq<Id>)
    requires Visits(m, order)
    ensures Known(m, order)
  {
  }

  lemma VisitIsNew(m: Live, order: seq<Id>, i: nat)
    requires Visits(m, order) && i < |order|
    ensures order[i] in m && order[i] !in order[..i]
  {
  }

  ghost predicate ReachedAt(m: Live, order: seq<Id>, i: nat, p: Progress)
  {
    i <= |order| && Reached(m, order[..i], p)
  }

  lemma PrefixGrows(order: seq<Id>, i: nat)
    requires i < |order|
    ensures order[..i + 1] == order[..i] + [order[i]]
  {
  }

  lemma NextVisit(m: Live, order: seq<Id>, i: nat, p: Progress)
    requires Visits(m, order) && i < |order| && ReachedAt(m, order, i, p)
    ensures SharesLive(p) && order[i] in p.live && ReachedAt(m, order, i + 1, Visit(p, order[i]))
  {
    hide Reached, Visits, Visit, SharesLive, SharedBy, Known, WriteBack, Merge, Entries, Leader, Absorb, Add;
    var pre, k := order[..i], order[i];
    VisitIsNew(m, order, i);
    PrefixGrows(order, i);
    ReachedSharesLive(m, pre, p);
    VisitReaches(m, pre, k, p);
  }

  lemma AllVisited(m: Live, order: seq<Id>, p: Progress)
    requires ReachedAt(m, order, |order|, p)
    ensures Known(m, order) && p.live == WriteBack(m, order) && p.merged == Merge(Entries(m, order))
    ensures forall id :: id in p.merged ==> p.merged[id].id == id
  {
    hide Merge, WriteBack, SharedBy;
    assert order[..|order|] == order;
    MergedIds(Entries(m, order));
  }

  lemma NothingVisited(m: Live, order: seq<Id>)
    ensures ReachedAt(m, order, 0, Progress(m, map[], map[]))
  {
    forall k | k in m ensures WriteBack(m, [])[k] == m[k] {
      WrittenAt(m, [], k);
    }
    assert WriteBack(m, []) == m;
  }
}
