// Quotes, prunings and arbitration ticks in any order: when the live entries of
// a provider stay in agreement, so that map iteration order never shows.

module LiveRuns {
  import opened Ordering
  import opened Results
  import opened Arbitration
  import opened Decision
  import opened Streams
  import opened LiveStreams

  /** A quote arrives, stale keys are pruned, or a tick visits the map in some order. */
  datatype Event = Quoted(q: Quote) | Pruned(keys: set<Id>) | Tick(order: seq<Id>)

  ghost predicate Legal(m: Live, e: Event)
  {
    e.Tick? ==> Visits(m, e.order)
  }

  ghost function Next(m: Live, e: Event): Live
    requires Legal(m, e)
  {
    match e
    case Quoted(q) => Update(m, q)
    case Pruned(keys) => m - keys
    case Tick(order) =>
      VisitsFacts(m, order);
      WriteBack(m, order)
  }

  ghost predicate LegalRun(m: Live, es: seq<Event>)
    decreases |es|
  {
    |es| == 0 || (Legal(m, es[0]) && LegalRun(Next(m, es[0]), es[1..]))
  }

  ghost function After(m: Live, es: seq<Event>): Live
    requires LegalRun(m, es)
    decreases |es|
  {
    if |es| == 0 then m else After(Next(m, es[0]), es[1..])
  }

  ghost predicate From(es: seq<Event>, qs: set<Quote>)
  {
    forall i :: 0 <= i < |es| && es[i].Quoted? ==> es[i].q in qs
  }

  /** Entries of one provider agree wherever both speak. */
  ghost predicate Agreeing(m: Live)
  {
    forall k, l :: k in m && l in m && m[k].id == m[l].id ==> Agree(m[k], m[l])
  }

  // ---------------------------------------------------------------- what an entry holds

  ghost predicate QuotedIn(qs: set<Quote>, p: Id, d: Id, y: Yield)
  {
    exists q :: q in qs && q.provider == p && q.device == d && Price(q) == y
  }

  /** An entry last quoted by q: its own device's price, or for the device-less entry also written-back ones. */
  ghost predicate Holds(s: Stream, q: Quote, qs: set<Quote>)
  {
    && s.id == q.provider && s.families == Accepted(q) && s.mining == (MINING <= q.provider)
    && s.privacy == 0 && s.environmental == 0
    && (forall d :: d in s.quotes ==> (q.device == NONE || d == q.device) && QuotedIn(qs, q.provider, d, s.quotes[d]))
    && (q.device != NONE ==> q.device in s.quotes)
    && (s.defaultYield != NoYield() ==> q.device == NONE)
  }

  ghost predicate Heard(m: Live, k: Id, qs: set<Quote>)
    requires k in m
  {
    exists q :: q in qs && k == Key(q.provider, q.device) && Holds(m[k], q, qs)
  }

  ghost predicate AllHeard(m: Live, qs: set<Quote>)
  {
    forall k :: k in m ==> Heard(m, k, qs)
  }

  lemma KeyParts(p: Id, d: Id)
    ensures |Key(p, d)| == |p| + 1 + |d| && Key(p, d)[|p| + 1..] == d && Key(p, d)[..|p|] == p
  {
  }

  /** Without the separator in provider ids a key gives back its provider and device. */
  lemma KeyInjective(p: Id, d: Id, p': Id, d': Id)
    requires COLON !in p && COLON !in p' && Key(p, d) == Key(p', d')
    ensures p == p' && d == d'
  {
    KeyParts(p, d);
    KeyParts(p', d');
    var k := Key(p, d);
    assert k[|p|] == COLON && k[|p'|] == COLON;
  }

  lemma DeviceKeys(p: Id, d: Id, d': Id)
    requires d != d'
    ensures Key(p, d) != Key(p, d')
  {
    KeyParts(p, d);
    KeyParts(p, d');
  }

  predicate SameSource(q: Quote, r: Quote)
  {
    q.provider == r.provider && q.device == r.device
  }

  /** No two sources of quotes share a key. */
  ghost predicate KeysApart(qs: set<Quote>)
  {
    forall q, r :: q in qs && r in qs && Key(q.provider, q.device) == Key(r.provider, r.device) ==> SameSource(q, r)
  }

  lemma PlainIdsApart(qs: set<Quote>)
    requires forall q :: q in qs ==> COLON !in q.provider
    ensures KeysApart(qs)
  {
    forall q, r | q in qs && r in qs && Key(q.provider, q.device) == Key(r.provider, r.device)
      ensures SameSource(q, r)
    {
      KeyInjective(q.provider, q.device, r.provider, r.device);
    }
  }

  /** A quote leaves what another source has just quoted as it is. */
  predicate Spares(m: Live, q: Quote, r: Quote)
  {
    var n, k := Update(m, q), Key(q.provider, q.device);
    Update(n, r)[k] == n[k]
  }

  /** Sources never disturb each other's entries, in any live map, if and only if their keys are apart. */
  lemma SparesIff(qs: set<Quote>)
    ensures (forall m: Live, q, r :: q in qs && r in qs && !SameSource(q, r) ==> Spares(m, q, r)) <==> KeysApart(qs)
  {
    hide Price, Accepted;
    if !KeysApart(qs) {
      var q, r :| q in qs && r in qs && Key(q.provider, q.device) == Key(r.provider, r.device) && !SameSource(q, r);
      if q.provider == r.provider {
        DeviceKeys(q.provider, q.device, r.device);
      }
      hide Key;
      assert !Spares(map[], q, r);
    }
  }

  /** Such a collision: the second provider takes over the entry, with the price of the first. */
  lemma CollisionRun()
    ensures var q := Quote([97, 58, 98], [99], None, 10.0, 0.0, 1.0);
            var r := Quote([97], [98, 58, 99], None, 20.0, 0.0, 1.0);
            var k := Key([97], [98, 58, 99]);
            && LegalRun(map[], [Quoted(q), Quoted(r)])
            && After(map[], [Quoted(q), Quoted(r)]).Keys == {k}
            && After(map[], [Quoted(q), Quoted(r)])[k].id == [97]
            && After(map[], [Quoted(q), Quoted(r)])[k].quotes
            == map[[99] := Yield(10.0, 1.0), [98, 58, 99] := Yield(20.0, 1.0)]
  {
    var q := Quote([97, 58, 98], [99], None, 10.0, 0.0, 1.0);
    var r := Quote([97], [98, 58, 99], None, 20.0, 0.0, 1.0);
    assert Key([97, 58, 98], [99]) == Key([97], [98, 58, 99]);
    RunTwo(map[], Quoted(q), Quoted(r));
  }

  lemma UpdateHolds(e: Stream, old0: Quote, q: Quote, qs: set<Quote>)
    requires Holds(e, old0, qs) && q in qs && q.provider == old0.provider && q.device == old0.device
    ensures var f := e.(id := q.provider, families := Accepted(q), mining := MINING <= q.provider);
            Holds(if q.device != NONE then f.(quotes := f.quotes[q.device := Price(q)])
                  else f.(defaultYield := Price(q)), q, qs)
  {
    hide Accepted, Price;
    assert QuotedIn(qs, q.provider, q.device, Price(q));
  }

  lemma FirstHolds(q: Quote, qs: set<Quote>)
    requires q in qs
    ensures var f := Blank().(id := q.provider, families := Accepted(q), mining := MINING <= q.provider);
            Holds(if q.device != NONE then f.(quotes := f.quotes[q.device := Price(q)])
                  else f.(defaultYield := Price(q)), q, qs)
  {
    hide Accepted, Price;
    assert QuotedIn(qs, q.provider, q.device, Price(q));
  }

  /** A quote leaves every entry with what its own provider quoted. */
  lemma UpdateHeard(m: Live, q: Quote, qs: set<Quote>)
    requires AllHeard(m, qs) && q in qs && KeysApart(qs)
    ensures AllHeard(Update(m, q), qs)
  {
    var k, n := Key(q.provider, q.device), Update(m, q);
    if k in m {
      assert Heard(m, k, qs);
      var p :| p in qs && k == Key(p.provider, p.device) && Holds(m[k], p, qs);
      assert SameSource(p, q);
      UpdateHolds(m[k], p, q, qs);
    } else {
      FirstHolds(q, qs);
    }
    hide Holds, Key, Accepted, Price;
    assert Heard(n, k, qs);
    forall x | x in n ensures Heard(n, x, qs) {
      if x != k {
        assert Heard(m, x, qs);
      }
    }
  }

  lemma PruneHeard(m: Live, keys: set<Id>, qs: set<Quote>)
    requires AllHeard(m, qs)
    ensures AllHeard(m - keys, qs)
  {
    hide Holds;
    forall k | k in m - keys ensures Heard(m - keys, k, qs) {
      assert Heard(m, k, qs);
    }
  }

  /** Every quote of a merged stream comes from one of its entries. */
  lemma {:induction false} MergedQuote(es: seq<Stream>, id: Id, d: Id)
    requires id in Merge(es) && d in Merge(es)[id].quotes
    ensures exists e :: e in es && e.id == id && d in e.quotes && e.quotes[d] == Merge(es)[id].quotes[d]
  {
    var init, s := es[..|es| - 1], es[|es| - 1];
    assert es == init + [s];
    if s.id == id && d in s.quotes {
      assert s in es;
    } else {
      MergedQuote(init, id, d);
      var e :| e in init && e.id == id && d in e.quotes && e.quotes[d] == Merge(init)[id].quotes[d];
      assert e in es;
    }
  }

  lemma EntryQuoted(m: Live, k: Id, qs: set<Quote>, d: Id)
    requires k in m && Heard(m, k, qs) && d in m[k].quotes
    ensures QuotedIn(qs, m[k].id, d, m[k].quotes[d])
  {
  }

  lemma MergedQuoted(m: Live, order: seq<Id>, qs: set<Quote>, id: Id, d: Id)
    requires AllHeard(m, qs) && Known(m, order) && id in Merge(Entries(m, order))
    requires d in Merge(Entries(m, order))[id].quotes
    ensures QuotedIn(qs, id, d, Merge(Entries(m, order))[id].quotes[d])
  {
    var es := Entries(m, order);
    MergedQuote(es, id, d);
    hide Merge, QuotedIn, Heard;
    var e :| e in es && e.id == id && d in e.quotes && e.quotes[d] == Merge(es)[id].quotes[d];
    var i :| 0 <= i < |es| && es[i] == e;
    EntryQuoted(m, order[i], qs, d);
  }

  lemma FilledHolds(s: Stream, q: Quote, qs: set<Quote>, quotes: map<Id, Yield>)
    requires Holds(s, q, qs) && s.quotes == map[]
    requires forall d :: d in quotes ==> QuotedIn(qs, s.id, d, quotes[d])
    ensures Holds(s.(quotes := quotes), q, qs)
  {
    hide QuotedIn;
  }

  /** A tick only ever fills a device-less entry, and only with what its own provider quoted. */
  lemma TickHeard(m: Live, order: seq<Id>, qs: set<Quote>)
    requires AllHeard(m, qs) && Known(m, order)
    ensures AllHeard(WriteBack(m, order), qs)
  {
    var n := WriteBack(m, order);
    forall k | k in n ensures Heard(n, k, qs) {
      TickHeardAt(m, order, qs, k);
    }
  }

  lemma TickHeardAt(m: Live, order: seq<Id>, qs: set<Quote>, k: Id)
    requires AllHeard(m, qs) && Known(m, order) && k in m
    ensures Heard(WriteBack(m, order), k, qs)
  {
    WrittenAt(m, order, k);
    assert Heard(m, k, qs);
    var q :| q in qs && k == Key(q.provider, q.device) && Holds(m[k], q, qs);
    var merged := Merge(Entries(m, order));
    if WriteBack(m, order)[k] != m[k] {
      forall d | d in merged[m[k].id].quotes ensures QuotedIn(qs, m[k].id, d, merged[m[k].id].quotes[d]) {
        MergedQuoted(m, order, qs, m[k].id, d);
      }
      FilledHolds(m[k], q, qs, merged[m[k].id].quotes);
    }
    hide Holds, Key, Merge, WriteBack, Leader;
  }

  lemma StepHeard(m: Live, e: Event, qs: set<Quote>)
    requires AllHeard(m, qs) && Legal(m, e) && KeysApart(qs) && (e.Quoted? ==> e.q in qs)
    ensures AllHeard(Next(m, e), qs)
  {
    hide AllHeard, Update, WriteBack;
    match e
    case Quoted(q) => UpdateHeard(m, q, qs);
    case Pruned(keys) => PruneHeard(m, keys, qs);
    case Tick(order) =>
      VisitsFacts(m, order);
      TickHeard(m, order, qs);
  }

  lemma {:induction false} RunHeard(m: Live, es: seq<Event>, qs: set<Quote>)
    requires AllHeard(m, qs) && LegalRun(m, es) && From(es, qs) && KeysApart(qs)
    ensures AllHeard(After(m, es), qs)
    decreases |es|
  {
    hide AllHeard, Next, Legal;
    if |es| > 0 {
      StepHeard(m, es[0], qs);
      RunHeard(Next(m, es[0]), es[1..], qs);
    }
  }

  // ---------------------------------------------------------------- exactly when

  /** A provider quotes the same families for its different devices. */
  ghost predicate SameFamilies(qs: set<Quote>)
  {
    forall q, r :: q in qs && r in qs && q.provider == r.provider && q.device != r.device ==> Accepted(q) == Accepted(r)
  }

  /** No provider mixes a device-less quote with two different prices for one device. */
  ghost predicate Unmixed(qs: set<Quote>)
  {
    forall o, q, r :: o in qs && q in qs && r in qs && Mixed(o, q, r) ==> Price(q) == Price(r)
  }

  predicate Mixed(o: Quote, q: Quote, r: Quote)
  {
    o.provider == q.provider == r.provider && o.device == NONE && q.device == r.device != NONE
  }

  /** However quotes from qs, prunings and ticks interleave, the live entries agree. */
  ghost predicate Safe(qs: set<Quote>)
  {
    forall es: seq<Event> :: LegalRun(map[], es) && From(es, qs) ==> Agreeing(After(map[], es))
  }

  lemma SameDeviceAgrees(m: Live, k: Id, l: Id, q: Quote, r: Quote, qs: set<Quote>)
    requires k in m && l in m && q in qs && r in qs && Holds(m[k], q, qs) && Holds(m[l], r, qs)
    requires q.provider == r.provider && q.device != r.device && SameFamilies(qs) && Unmixed(qs)
    ensures Agree(m[k], m[l])
  {
    hide Accepted, Price;
    forall d | d in m[k].quotes && d in m[l].quotes ensures m[k].quotes[d] == m[l].quotes[d] {
      assert QuotedIn(qs, q.provider, d, m[k].quotes[d]) && QuotedIn(qs, r.provider, d, m[l].quotes[d]);
      var x :| x in qs && x.provider == q.provider && x.device == d && Price(x) == m[k].quotes[d];
      var y :| y in qs && y.provider == r.provider && y.device == d && Price(y) == m[l].quotes[d];
      if d != NONE {
        if q.device == NONE {
          assert Mixed(q, x, y);
        } else {
          assert Mixed(r, x, y);
        }
      }
    }
  }

  lemma HeardAgrees(m: Live, qs: set<Quote>)
    requires AllHeard(m, qs) && SameFamilies(qs) && Unmixed(qs)
    ensures Agreeing(m)
  {
    forall k, l | k in m && l in m && m[k].id == m[l].id ensures Agree(m[k], m[l]) {
      assert Heard(m, k, qs) && Heard(m, l, qs);
      var q :| q in qs && k == Key(q.provider, q.device) && Holds(m[k], q, qs);
      var r :| r in qs && l == Key(r.provider, r.device) && Holds(m[l], r, qs);
      assert q.provider == r.provider;
      if q.device != r.device {
        SameDeviceAgrees(m, k, l, q, r, qs);
      }
    }
  }

  // ---------------------------------------------------------------- how the entries come apart

  lemma RunTwo(m: Live, a: Event, b: Event)
    requires Legal(m, a) && Legal(Next(m, a), b)
    ensures LegalRun(m, [a, b]) && After(m, [a, b]) == Next(Next(m, a), b)
  {
    hide Next, Legal;
    assert [a, b][1..] == [b] && [b][1..] == [];
    assert LegalRun(Next(Next(m, a), b), []);
    assert LegalRun(Next(m, a), [b]);
    assert After(Next(m, a), [b]) == After(Next(Next(m, a), b), []);
  }

  /** Two devices of one provider quoted for different families: the entries disagree at once. */
  lemma FamiliesRun(q: Quote, r: Quote)
    requires q.provider == r.provider && q.device != r.device && Accepted(q) != Accepted(r)
    ensures LegalRun(map[], [Quoted(q), Quoted(r)]) && !Agreeing(After(map[], [Quoted(q), Quoted(r)]))
  {
    var k, l := Key(q.provider, q.device), Key(r.provider, r.device);
    DeviceKeys(q.provider, q.device, r.device);
    RunTwo(map[], Quoted(q), Quoted(r));
    hide Accepted, Price, Key;
    var m := Update(Update(map[], q), r);
    assert m[k].families == Accepted(q) && m[l].families == Accepted(r) && m[k].id == m[l].id;
    assert !Agree(m[k], m[l]);
  }

  lemma {:induction false} RunAppend(m: Live, a: seq<Event>, b: seq<Event>)
    requires LegalRun(m, a) && LegalRun(After(m, a), b)
    ensures LegalRun(m, a + b) && After(m, a + b) == After(After(m, a), b)
    decreases |a|
  {
    hide Next, Legal;
    if |a| == 0 {
      assert a + b == b;
    } else {
      assert (a + b)[1..] == a[1..] + b;
      RunAppend(Next(m, a[0]), a[1..], b);
    }
  }

  /** One provider quotes both no device and a device. */
  predicate Blended(o: Quote, q: Quote)
  {
    o.provider == q.provider && o.device == NONE && q.device != NONE
  }

  /** The device-less entry and the device's own, as first quoted. */
  lemma PairQuoted(o: Quote, q: Quote)
    requires Blended(o, q)
    ensures var m := Update(Update(map[], o), q);
            var k, l := Key(o.provider, NONE), Key(q.provider, q.device);
            && k != l && m.Keys == {k, l}
            && m[k].id == o.provider && m[k].quotes == map[]
            && m[l].id == o.provider && m[l].quotes == map[q.device := Price(q)]
  {
    var k, l := Key(o.provider, NONE), Key(q.provider, q.device);
    DeviceKeys(o.provider, NONE, q.device);
    hide Key, Price, Accepted;
  }

  lemma PairMerged(m: Live, k: Id, l: Id)
    requires k in m && l in m && m[k].id == m[l].id && m[k].quotes == map[]
    ensures Known(m, [k, l]) && Leader(m, [k, l], m[k].id) == Some(k)
    ensures var merged := Merge(Entries(m, [k, l])); m[k].id in merged && merged[m[k].id].quotes == m[l].quotes
  {
    assert [k] + [l] == [k, l] && [] + [k] == [k];
    MergeSnoc(m, [], k);
    MergeSnoc(m, [k], l);
    LeaderSnoc(m, [], k, m[k].id);
    LeaderSnoc(m, [k], l, m[k].id);
    assert Merge(Entries(m, [])) == map[];
    hide Merge, Leader;
    assert map[] + m[l].quotes == m[l].quotes;
  }

  /** Visiting the device-less entry first copies the device's price into it. */
  lemma PairTicked(m: Live, k: Id, l: Id)
    requires k != l && m.Keys == {k, l} && m[k].id == m[l].id && m[k].quotes == map[]
    ensures Visits(m, [k, l]) && Known(m, [k, l])
    ensures WriteBack(m, [k, l]) == m[k := m[k].(quotes := m[l].quotes)]
  {
    var o := [k, l];
    PairMerged(m, k, l);
    WrittenAt(m, o, k);
    WrittenAt(m, o, l);
    hide WriteBack, Leader, Merge;
    assert WriteBack(m, o)[k] == m[k].(quotes := m[l].quotes) && WriteBack(m, o)[l] == m[l];
  }

  lemma Requoted(n: Live, r: Quote, k: Id, y: Yield)
    requires k in n && k != Key(r.provider, r.device) && Key(r.provider, r.device) in n && r.device != NONE
    requires n[k].id == r.provider && n[k].quotes == map[r.device := y] && y != Price(r)
    requires n[Key(r.provider, r.device)].quotes == map[r.device := y]
    ensures var z, l := Update(n, r), Key(r.provider, r.device);
            && z[k].quotes == map[r.device := y] && z[l].quotes == map[r.device := Price(r)]
            && !Agreeing(z)
  {
    var z, l := Update(n, r), Key(r.provider, r.device);
    hide Key, Price, Accepted;
    assert z[l].quotes == map[r.device := Price(r)] && z[k].id == z[l].id;
    assert r.device in z[k].quotes && r.device in z[l].quotes && z[k].quotes[r.device] != z[l].quotes[r.device];
    assert !Agree(z[k], z[l]);
  }

  /**
   * A provider quotes no device, then a device; a tick visits the device-less entry first; the provider requotes
   * the device. The live map now holds two prices for it.
   */
  lemma MixedRun(o: Quote, q: Quote, r: Quote)
    requires Mixed(o, q, r) && Price(q) != Price(r)
    ensures var k, l := Key(o.provider, NONE), Key(q.provider, q.device);
            var es := [Quoted(o), Quoted(q)] + [Tick([k, l]), Quoted(r)];
            && LegalRun(map[], es) && !Agreeing(After(map[], es))
            && Visits(After(map[], es), [k, l])
            && After(map[], es)[k].quotes == map[q.device := Price(q)]
            && After(map[], es)[l].quotes == map[q.device := Price(r)]
  {
    var k, l := Key(o.provider, NONE), Key(q.provider, q.device);
    var m := Update(Update(map[], o), q);
    PairQuoted(o, q);
    hide Price, Accepted, Key, Agreeing;
    PairTicked(m, k, l);
    hide WriteBack, Leader, Merge;
    RunTwo(map[], Quoted(o), Quoted(q));
    hide Update;
    RunTwo(m, Tick([k, l]), Quoted(r));
    RunAppend(map[], [Quoted(o), Quoted(q)], [Tick([k, l]), Quoted(r)]);
    Requoted(WriteBack(m, [k, l]), r, k, Price(q));
  }

  /** The live entries stay in agreement over every interleaving, if and only if the quotes are unmixed. */
  lemma SafeIff(qs: set<Quote>)
    requires KeysApart(qs)
    ensures Safe(qs) <==> SameFamilies(qs) && Unmixed(qs)
  {
    hide Accepted, Price, Agreeing, LegalRun, After, Mixed;
    if SameFamilies(qs) && Unmixed(qs) {
      forall es: seq<Event> | LegalRun(map[], es) && From(es, qs) ensures Agreeing(After(map[], es)) {
        RunHeard(map[], es, qs);
        HeardAgrees(After(map[], es), qs);
      }
    } else if !SameFamilies(qs) {
      var q, r :| q in qs && r in qs && q.provider == r.provider && q.device != r.device && Accepted(q) != Accepted(r);
      FamiliesRun(q, r);
      assert From([Quoted(q), Quoted(r)], qs);
    } else {
      var o, q, r :| o in qs && q in qs && r in qs && Mixed(o, q, r) && Price(q) != Price(r);
      MixedRun(o, q, r);
      var es := [Quoted(o), Quoted(q)] + [Tick([Key(o.provider, NONE), Key(q.provider, q.device)]), Quoted(r)];
      assert From(es, qs);
    }
  }

  /** The copy also outlives its source: pruning the device's own entry leaves its price in the device-less one. */
  lemma PrunedQuoteStays(o: Quote, q: Quote)
    requires Blended(o, q)
    ensures var k, l := Key(o.provider, NONE), Key(q.provider, q.device);
            var es := [Quoted(o), Quoted(q)] + [Tick([k, l]), Pruned({l})];
            && LegalRun(map[], es) && l !in After(map[], es)
            && k in After(map[], es) && After(map[], es)[k].id == q.provider
            && After(map[], es)[k].quotes == map[q.device := Price(q)]
  {
    var k, l := Key(o.provider, NONE), Key(q.provider, q.device);
    var m := Update(Update(map[], o), q);
    PairQuoted(o, q);
    hide Price, Accepted, Key;
    PairTicked(m, k, l);
    hide WriteBack, Leader, Merge;
    RunTwo(map[], Quoted(o), Quoted(q));
    hide Update;
    RunTwo(m, Tick([k, l]), Pruned({l}));
    RunAppend(map[], [Quoted(o), Quoted(q)], [Tick([k, l]), Pruned({l})]);
  }

  /** Every price in the map belongs to an entry that is still there: when that one leaves, its price leaves. */
  ghost predicate Backed(m: Live)
  {
    forall k, d :: k in m && d in m[k].quotes ==> Key(m[k].id, d) in m
  }

  /** However quotes from qs, prunings and ticks interleave, a price leaves the map with its entry. */
  ghost predicate Expiring(qs: set<Quote>)
  {
    forall es: seq<Event> :: LegalRun(map[], es) && From(es, qs) ==> Backed(After(map[], es))
  }

  ghost predicate Unblended(qs: set<Quote>)
  {
    forall o, q :: o in qs && q in qs ==> !Blended(o, q)
  }

  lemma HeardBacked(m: Live, qs: set<Quote>)
    requires AllHeard(m, qs) && Unblended(qs)
    ensures Backed(m)
  {
    hide Accepted, Price, Key;
    forall k, d | k in m && d in m[k].quotes ensures Key(m[k].id, d) in m {
      assert Heard(m, k, qs);
      var q :| q in qs && k == Key(q.provider, q.device) && Holds(m[k], q, qs);
      assert QuotedIn(qs, q.provider, d, m[k].quotes[d]);
      var x :| x in qs && x.provider == q.provider && x.device == d && Price(x) == m[k].quotes[d];
      assert !Blended(q, x);
    }
  }

  /** A collision puts one source's price where only the other's entry is. */
  lemma CollisionUnbacked(q: Quote, r: Quote)
    requires Key(q.provider, q.device) == Key(r.provider, r.device) && !SameSource(q, r) && q.device != NONE
    ensures LegalRun(map[], [Quoted(q), Quoted(r)]) && !Backed(After(map[], [Quoted(q), Quoted(r)]))
  {
    var k, m := Key(q.provider, q.device), Update(Update(map[], q), r);
    RunTwo(map[], Quoted(q), Quoted(r));
    KeyParts(q.provider, q.device);
    KeyParts(r.provider, r.device);
    KeyParts(r.provider, q.device);
    assert Key(r.provider, q.device) != k;
    hide Key, Price, Accepted;
    assert q.device in m[k].quotes && m[k].id == r.provider && m.Keys == {k};
  }

  lemma BlendUnbacked(o: Quote, q: Quote)
    requires Blended(o, q)
    ensures var k, l := Key(o.provider, NONE), Key(q.provider, q.device);
            var es := [Quoted(o), Quoted(q)] + [Tick([k, l]), Pruned({l})];
            LegalRun(map[], es) && !Backed(After(map[], es))
  {
    PrunedQuoteStays(o, q);
    hide Accepted, Price, LegalRun, After, Key;
    var k, l := Key(o.provider, NONE), Key(q.provider, q.device);
    var m := After(map[], [Quoted(o), Quoted(q)] + [Tick([k, l]), Pruned({l})]);
    assert q.device in m[k].quotes && Key(m[k].id, q.device) == l;
  }

  /**
   * Pruned prices are gone over every interleaving, if and only if no two sources share a key and no provider
   * quotes both no device and a device.
   */
  lemma ExpiringIff(qs: set<Quote>)
    ensures Expiring(qs) <==> KeysApart(qs) && Unblended(qs)
  {
    hide Accepted, Price, LegalRun, After, Backed;
    if !KeysApart(qs) {
      var q, r :| q in qs && r in qs && Key(q.provider, q.device) == Key(r.provider, r.device) && !SameSource(q, r);
      KeyParts(q.provider, q.device);
      KeyParts(r.provider, r.device);
      hide Key;
      if q.device != NONE {
        CollisionUnbacked(q, r);
        assert From([Quoted(q), Quoted(r)], qs);
      } else {
        CollisionUnbacked(r, q);
        assert From([Quoted(r), Quoted(q)], qs);
      }
    } else if !Unblended(qs) {
      hide Key;
      var o, q :| o in qs && q in qs && Blended(o, q);
      BlendUnbacked(o, q);
      var es := [Quoted(o), Quoted(q)] + [Tick([Key(o.provider, NONE), Key(q.provider, q.device)]),
                                          Pruned({Key(q.provider, q.device)})];
      assert From(es, qs);
    } else {
      forall es: seq<Event> | LegalRun(map[], es) && From(es, qs) ensures Backed(After(map[], es)) {
        RunHeard(map[], es, qs);
        HeardBacked(After(map[], es), qs);
      }
    }
  }

  /** Agreement and expiry together, for provider ids of any shape. */
  lemma SafeAndExpiringIff(qs: set<Quote>)
    ensures Safe(qs) && Expiring(qs) <==> KeysApart(qs) && SameFamilies(qs) && Unblended(qs)
  {
    ExpiringIff(qs);
    hide Safe, Expiring, Accepted, Price, Key;
    if KeysApart(qs) {
      SafeIff(qs);
      if Unblended(qs) {
        forall o, q, r | o in qs && q in qs && r in qs ensures !Mixed(o, q, r) {
          assert !Blended(o, q);
        }
      }
    }
  }

  /** Listing an agreeing map in any order gives entries whose merge does not depend on that order. */
  lemma AgreeingOrderFree(m: Live, order: seq<Id>)
    requires Visits(m, order)
    ensures Known(m, order) && (Agreeing(m) <==> OrderFree(Entries(m, order)))
  {
    VisitsFacts(m, order);
    var es := Entries(m, order);
    OrderFreeIffCompatible(es);
    hide Agree, OrderFree;
    if Agreeing(m) {
      forall a, b | a in es && b in es && a.id == b.id ensures Agree(a, b) {
        var i :| 0 <= i < |es| && es[i] == a;
        var j :| 0 <= j < |es| && es[j] == b;
        assert m[order[i]] == a && m[order[j]] == b;
      }
    }
    if Compatible(es) {
      forall k, l | k in m && l in m && m[k].id == m[l].id ensures Agree(m[k], m[l]) {
        var i :| 0 <= i < |order| && order[i] == k;
        var j :| 0 <= j < |order| && order[j] == l;
        assert es[i] in es && es[j] in es;
      }
    }
  }

  /** Four events: no device, a device at 10, a tick, the device at 20; and the merge depends on the order. */
  lemma StaleQuoteRun()
    ensures var p, d := [112], [100];
            var k, l := Key(p, NONE), Key(p, d);
            var es := [Quoted(Quote(p, NONE, None, 1.0, 0.0, 1.0)), Quoted(Quote(p, d, None, 10.0, 0.0, 1.0))]
                      + [Tick([k, l]), Quoted(Quote(p, d, None, 20.0, 0.0, 1.0))];
            && LegalRun(map[], es)
            && k in After(map[], es) && After(map[], es)[k].quotes == map[d := Yield(10.0, 1.0)]
            && l in After(map[], es) && After(map[], es)[l].quotes == map[d := Yield(20.0, 1.0)]
            && !Agreeing(After(map[], es))
            && Known(After(map[], es), [k, l]) && !OrderFree(Entries(After(map[], es), [k, l]))
  {
    var o, q := Quote([112], NONE, None, 1.0, 0.0, 1.0), Quote([112], [100], None, 10.0, 0.0, 1.0);
    var r := Quote([112], [100], None, 20.0, 0.0, 1.0);
    var k, l := Key([112], NONE), Key([112], [100]);
    var es := [Quoted(o), Quoted(q)] + [Tick([k, l]), Quoted(r)];
    MixedRun(o, q, r);
    hide LegalRun, After, Agreeing, OrderFree;
    AgreeingOrderFree(After(map[], es), [k, l]);
  }

  /** So with unmixed quotes, at every tick of every run, iteration order never reaches the merged streams. */
  lemma QuotesOrderFree(qs: set<Quote>, es: seq<Event>, order: seq<Id>)
    requires KeysApart(qs) && SameFamilies(qs) && Unmixed(qs)
    requires LegalRun(map[], es) && From(es, qs) && Visits(After(map[], es), order)
    ensures Known(After(map[], es), order) && OrderFree(Entries(After(map[], es), order))
  {
    SafeIff(qs);
    AgreeingOrderFree(After(map[], es), order);
  }
  lemma SameVisits(m: Live, x: seq<Id>, y: seq<Id>)
    requires Visits(m, x) && Visits(m, y)
    ensures Known(m, x) && Known(m, y) && SameElements(Entries(m, y), Entries(m, x))
  {
    VisitsFacts(m, x);
    VisitsFacts(m, y);
    var a, b := Entries(m, x), Entries(m, y);
    forall s ensures s in a <==> s in b {
      if s in a {
        var i :| 0 <= i < |a| && a[i] == s;
        assert x[i] in y;
        var j :| 0 <= j < |y| && y[j] == x[i];
        assert b[j] == s;
      }
      if s in b {
        var j :| 0 <= j < |b| && b[j] == s;
        assert y[j] in x;
        var i :| 0 <= i < |x| && x[i] == y[j];
        assert a[i] == s;
      }
    }
  }

  /** Nor the allocation: whatever orders two ticks visit the map and list the merged streams in, they decide alike. */
  lemma QuotesDecideAlike(qs: set<Quote>, es: seq<Event>, x: seq<Id>, y: seq<Id>, a: seq<Stream>, b: seq<Stream>,
                          ds: seq<Device>, previous: seq<Assignment>, r: Rules)
    requires KeysApart(qs) && SameFamilies(qs) && Unmixed(qs) && LegalRun(map[], es) && From(es, qs)
    requires Visits(After(map[], es), x) && Visits(After(map[], es), y)
    requires Known(After(map[], es), x) && Known(After(map[], es), y)
    requires DistinctStreams(a) && forall s :: s in a <==> s in Merge(Entries(After(map[], es), x)).Values
    requires DistinctStreams(b) && forall s :: s in b <==> s in Merge(Entries(After(map[], es), y)).Values
    requires DistinctDevices(ds)
    ensures Decided(ds, a, previous, r) == Decided(ds, b, previous, r)
  {
    var m := After(map[], es);
    QuotesOrderFree(qs, es, x);
    SameVisits(m, x, y);
    hide Merge, Visits, Known, Entries, Decided, DistinctStreams, DistinctDevices, OrderFree, Compatible, LegalRun,
         After, SameFamilies, Unmixed, KeysApart, From, SameElements;
    OrderFreeIffCompatible(Entries(m, x));
    AllocationOrderFree(Entries(m, x), Entries(m, y), a, b, ds, previous, r);
  }
}
