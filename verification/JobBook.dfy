// The bounded table of outstanding jobs that both Stratum V2 front ends keep:
// a map from job id to job, and the ids in insertion order.

module JobBook {
  import opened Numerals
  import opened Messages

  const CAP := 64

  datatype Book = Book(pending: map<U32, NewMiningJob>, order: seq<U32>)

  const EMPTY := Book(map[], [])

  predicate NoDuplicates(s: seq<U32>)
  {
    forall i, j :: 0 <= i < j < |s| ==> s[i] != s[j]
  }

  ghost predicate Consistent(b: Book)
  {
    && NoDuplicates(b.order)
    && (forall id :: id in b.pending <==> id in b.order)
    && (forall id :: id in b.pending ==> b.pending[id].jobId == id)
  }

  /** The table between steps: map and order agree, no duplicates, at most CAP jobs. */
  ghost predicate Valid(b: Book)
  {
    Consistent(b) && |b.order| <= CAP
  }

  /** The eviction loop: forget the oldest job until the table fits. */
  function Evict(b: Book): Book
    decreases |b.order|
  {
    if |b.order| > CAP then Evict(Book(b.pending - {b.order[0]}, b.order[1..])) else b
  }

  function Insert(b: Book, j: NewMiningJob): Book
  {
    Book(b.pending[j.jobId := j], if j.jobId in b.pending then b.order else b.order + [j.jobId])
  }

  function Store(b: Book, j: NewMiningJob): Book
  {
    Evict(Insert(b, j))
  }

  /** A new tip keeps only the job it names. */
  function Keep(b: Book, id: U32): Book
  {
    if id in b.pending then Book(map[id := b.pending[id]], [id]) else EMPTY
  }

  function Latest(s: seq<U32>): seq<U32>
  {
    if |s| > CAP then s[|s| - CAP..] else s
  }

  lemma DropOldest(b: Book)
    requires Consistent(b) && |b.order| > 0
    ensures Consistent(Book(b.pending - {b.order[0]}, b.order[1..]))
  {
  }

  /** Eviction keeps the newest CAP ids and exactly their jobs. */
  lemma {:induction false} EvictKeepsNewest(b: Book)
    requires Consistent(b)
    ensures Valid(Evict(b)) && Evict(b).order == Latest(b.order)
    ensures forall id :: id in Evict(b).pending ==> id in b.pending && Evict(b).pending[id] == b.pending[id]
    decreases |b.order|
  {
    if |b.order| > CAP {
      DropOldest(b);
      hide Consistent;
      var rest := Book(b.pending - {b.order[0]}, b.order[1..]);
      EvictKeepsNewest(rest);
      assert Latest(rest.order) == Latest(b.order);
    }
  }

  lemma InsertConsistent(b: Book, j: NewMiningJob)
    requires Consistent(b)
    ensures Consistent(Insert(b, j))
  {
  }

  lemma NewestStays(b: Book, j: NewMiningJob)
    requires Valid(b)
    ensures j.jobId in Latest(Insert(b, j).order)
  {
    var s := Insert(b, j).order;
    if j.jobId !in b.pending {
      assert Latest(s)[|Latest(s)| - 1] == j.jobId;
    }
  }

  /** Storing keeps the table valid; the stored job is present, and first-in first-out eviction. */
  lemma StoreKeepsNewest(b: Book, j: NewMiningJob)
    requires Valid(b)
    ensures Valid(Store(b, j))
    ensures j.jobId in Store(b, j).pending && Store(b, j).pending[j.jobId] == j
    ensures Store(b, j).order == if j.jobId in b.pending then b.order else Latest(b.order + [j.jobId])
    ensures forall id :: id in Store(b, j).pending && id != j.jobId
              ==> id in b.pending && Store(b, j).pending[id] == b.pending[id]
  {
    InsertConsistent(b, j);
    var c := Insert(b, j);
    EvictKeepsNewest(c);
    NewestStays(b, j);
    hide Evict, NoDuplicates;
    assert j.jobId in c.order;
  }

  /** Of 64 jobs none is evicted for a known id; a 65th evicts the oldest and no other. */
  lemma SixtyFour(b: Book, j: NewMiningJob)
    requires Valid(b)
    ensures var s := Store(b, j);
            && |b.order| <= 64 && |s.order| <= 64
            && s.pending.Keys == b.pending.Keys + {j.jobId}
                 - (if j.jobId !in b.pending && |b.order| == 64 then {b.order[0]} else {})
  {
    StoreKeepsNewest(b, j);
    var s := Store(b, j);
    KeysOfOrder(b);
    KeysOfOrder(s);
    hide Store, Valid, Consistent;
    if j.jobId !in b.pending && |b.order| == 64 {
      FirstDropped(b.order, j.jobId);
      assert Latest(b.order + [j.jobId]) == b.order[1..] + [j.jobId];
    }
  }

  lemma KeysOfOrder(b: Book)
    requires Valid(b)
    ensures NoDuplicates(b.order) && |b.order| <= 64
    ensures b.pending.Keys == set id | id in b.order
  {
  }

  lemma FirstDropped(s: seq<U32>, x: U32)
    requires |s| > 0 && NoDuplicates(s) && x !in s
    ensures (set id | id in s[1..] + [x]) == (set id | id in s) + {x} - {s[0]}
  {
    assert s == [s[0]] + s[1..];
  }
}
