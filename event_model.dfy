/**
 The values and the specification shared by both versions of the event store
 (src/main/EventStore.cpp and src/main/EventStoreSharedMutex.cpp, whose store
 logic is identical): the Event value, the multimap `event_mmap` viewed as
 one bucket of timestamps per event type, what `insert`, `removeAll` and
 `query` do to it as pure functions, and the properties relating them.
 */
module EventModel {

  /** Range of C++ `int`, the value type of `event_mmap`. */
  const INT_MIN: int := -0x8000_0000
  const INT_MAX: int := 0x7fff_ffff

  /** Range of C++ `long int` (64 bits), the type of Event timestamps and query bounds. */
  const LONG_MIN: int := -0x8000_0000_0000_0000
  const LONG_MAX: int := 0x7fff_ffff_ffff_ffff

  type Int32 = x: int | INT_MIN <= x <= INT_MAX
  type Int64 = x: int | LONG_MIN <= x <= LONG_MAX

  /** An event: a plain value; its destructors are the getters `Type()` and `Timestamp()`. */
  datatype Event = Event(Type: string, Timestamp: Int64)

  /**
   The multimap `event_mmap` grouped by key: every key present maps to its
   bucket, the timestamps stored under that key in insertion order (the
   order `std::unordered_multimap` walks them in is unspecified).
   */
  type Index = map<string, seq<Int32>>

  /** A multimap holds no key without an entry: every present bucket is non-empty. */
  ghost predicate NoEmptyBucket(m: Index)
  {
    forall ty :: ty in m ==> m[ty] != []
  }

  /** The entries stored under `ty`, i.e. what `equal_range(ty)` walks over. */
  function Bucket(m: Index, ty: string): seq<Int32>
  {
    if ty in m then m[ty] else []
  }

  /** How many entries `(ty, t)` the multimap holds. */
  function Count(m: Index, ty: string, t: int): nat
  {
    multiset(Bucket(m, ty))[t]
  }

  /** Whether `t` lies in the half-open interval [startTime, endTime). */
  predicate InRange(t: int, startTime: int, endTime: int)
  {
    startTime <= t < endTime
  }

  /** The multimap after inserting the pair `(ty, t)`; duplicates are kept. */
  function Inserted(m: Index, ty: string, t: Int32): (r: Index)
    ensures NoEmptyBucket(m) ==> NoEmptyBucket(r)
    ensures r.Keys == m.Keys + {ty}
    ensures |Bucket(r, ty)| == |Bucket(m, ty)| + 1
    ensures forall u :: Count(r, ty, u) == Count(m, ty, u) + (if u == t then 1 else 0)
    ensures forall k :: k != ty ==> Bucket(r, k) == Bucket(m, k)
  {
    m[ty := Bucket(m, ty) + [t]]
  }

  /** The multimap after erasing every pair whose key is `ty`. */
  function Erased(m: Index, ty: string): (r: Index)
    ensures NoEmptyBucket(m) ==> NoEmptyBucket(r)
    ensures r.Keys == m.Keys - {ty}
    ensures forall u :: Count(r, ty, u) == 0
    ensures forall k :: k != ty ==> Bucket(r, k) == Bucket(m, k)
    ensures ty !in m ==> r == m
  {
    m - {ty}
  }

  /** The timestamps of `bucket` that lie in [startTime, endTime), in bucket order. */
  function Matching(bucket: seq<Int32>, startTime: int, endTime: int): seq<Int32>
  {
    if bucket == [] then []
    else
      var n := |bucket| - 1;
      Matching(bucket[..n], startTime, endTime)
        + (if InRange(bucket[n], startTime, endTime) then [bucket[n]] else [])
  }

  /** One Event per timestamp, each carrying the type `ty`, in the order of `ts`. */
  function Events(ty: string, ts: seq<Int32>): seq<Event>
  {
    if ts == [] then []
    else
      var n := |ts| - 1;
      Events(ty, ts[..n]) + [Event(ty, ts[n])]
  }

  /** Each timestamp gives one event of type `ty`, and there are no others. */
  lemma {:induction false} EventsCount(ty: string, ts: seq<Int32>, e: Event)
    ensures multiset(Events(ty, ts))[e] == if e.Type == ty then multiset(ts)[e.Timestamp] else 0
  {
    if ts != [] {
      var n := |ts| - 1;
      assert ts == ts[..n] + [ts[n]];
      EventsCount(ty, ts[..n], e);
    }
  }

  /** What `query(ty, startTime, endTime)` returns on the multimap `m`. */
  function QueryResult(m: Index, ty: string, startTime: int, endTime: int): seq<Event>
  {
    Events(ty, Matching(Bucket(m, ty), startTime, endTime))
  }

  /**
   Filtering keeps every occurrence of a timestamp in range and none outside
   it: as a multiset, `Matching` is the bucket restricted to [startTime, endTime).
   */
  lemma {:induction false} MatchingCount(bucket: seq<Int32>, startTime: int, endTime: int, t: int)
    ensures multiset(Matching(bucket, startTime, endTime))[t]
         == if InRange(t, startTime, endTime) then multiset(bucket)[t] else 0
  {
    if bucket != [] {
      var n := |bucket| - 1;
      assert bucket == bucket[..n] + [bucket[n]];
      MatchingCount(bucket[..n], startTime, endTime, t);
    }
  }

  /** Appending one timestamp to a bucket appends it to the filtered bucket exactly when it is in range. */
  lemma MatchingSnoc(bucket: seq<Int32>, t: Int32, startTime: int, endTime: int)
    ensures InRange(t, startTime, endTime) ==>
              Matching(bucket + [t], startTime, endTime) == Matching(bucket, startTime, endTime) + [t]
    ensures !InRange(t, startTime, endTime) ==>
              Matching(bucket + [t], startTime, endTime) == Matching(bucket, startTime, endTime)
  {
    assert (bucket + [t])[..|bucket|] == bucket;
    assert Matching(bucket, startTime, endTime) + [] == Matching(bucket, startTime, endTime);
  }

  /** Appending one timestamp appends one event. */
  lemma EventsSnoc(ty: string, ts: seq<Int32>, t: Int32)
    ensures Events(ty, ts + [t]) == Events(ty, ts) + [Event(ty, t)]
  {
    assert (ts + [t])[..|ts|] == ts;
  }

  /** One more step of the scan over `bucket`: the event for `bucket[i]` is appended exactly when it is in range. */
  lemma ScanStep(ty: string, bucket: seq<Int32>, i: nat, startTime: int, endTime: int)
    requires i < |bucket|
    ensures Events(ty, Matching(bucket[..i + 1], startTime, endTime))
         == Events(ty, Matching(bucket[..i], startTime, endTime))
            + (if InRange(bucket[i], startTime, endTime) then [Event(ty, bucket[i])] else [])
  {
    var before := Events(ty, Matching(bucket[..i], startTime, endTime));
    assert bucket[..i + 1] == bucket[..i] + [bucket[i]];
    MatchingSnoc(bucket[..i], bucket[i], startTime, endTime);
    if InRange(bucket[i], startTime, endTime) {
      EventsSnoc(ty, Matching(bucket[..i], startTime, endTime), bucket[i]);
    } else {
      assert before + [] == before;
    }
  }

  /**
   The query result, as a multiset of events, is exactly the stored pairs of
   type `ty` whose timestamp lies in [startTime, endTime), each once per stored
   occurrence; an absent type or an empty interval gives the empty sequence.
   */
  lemma QueryResultSpec(m: Index, ty: string, startTime: int, endTime: int)
    ensures forall e :: (multiset(QueryResult(m, ty, startTime, endTime))[e]
         == if e.Type == ty && InRange(e.Timestamp, startTime, endTime) then Count(m, ty, e.Timestamp) else 0)
    ensures forall e :: e in QueryResult(m, ty, startTime, endTime) ==> e.Type == ty && InRange(e.Timestamp, startTime, endTime)
    ensures ty !in m || endTime <= startTime ==> QueryResult(m, ty, startTime, endTime) == []
  {
    forall e: Event
      ensures multiset(QueryResult(m, ty, startTime, endTime))[e]
           == if e.Type == ty && InRange(e.Timestamp, startTime, endTime) then Count(m, ty, e.Timestamp) else 0
    {
      MatchingCount(Bucket(m, ty), startTime, endTime, e.Timestamp);
      EventsCount(ty, Matching(Bucket(m, ty), startTime, endTime), e);
    }
  }

  /**
   A query after an insert sees exactly what it saw before, plus the new
   event when its timestamp lies in the interval; queries of other types
   are unaffected.
   */
  lemma InsertThenQuery(m: Index, ty: string, t: Int32, qty: string, startTime: int, endTime: int)
    ensures QueryResult(Inserted(m, ty, t), qty, startTime, endTime)
         == QueryResult(m, qty, startTime, endTime)
            + (if qty == ty && InRange(t, startTime, endTime) then [Event(ty, t)] else [])
  {
    var before := QueryResult(m, qty, startTime, endTime);
    if qty == ty {
      var bucket := Bucket(m, ty);
      var ts := Matching(bucket, startTime, endTime);
      assert Bucket(Inserted(m, ty, t), ty) == bucket + [t];
      MatchingSnoc(bucket, t, startTime, endTime);
      if InRange(t, startTime, endTime) {
        EventsSnoc(ty, ts, t);
      } else {
        assert ts + [] == ts;
        assert before + [] == before;
      }
    } else {
      assert Bucket(Inserted(m, ty, t), qty) == Bucket(m, qty);
      assert before + [] == before;
    }
  }

  /**
   The order-free form of `InsertThenQuery`: as a multiset, a query after an
   insert gains exactly the new event when its timestamp lies in the interval,
   wherever the multimap places the new entry among those of its key.
   */
  lemma InsertThenQueryMultiset(m: Index, ty: string, t: Int32, qty: string, startTime: int, endTime: int)
    ensures multiset(QueryResult(Inserted(m, ty, t), qty, startTime, endTime))
         == multiset(QueryResult(m, qty, startTime, endTime))
            + (if qty == ty && InRange(t, startTime, endTime) then multiset{Event(ty, t)} else multiset{})
  {
    InsertThenQuery(m, ty, t, qty, startTime, endTime);
  }

  /** After `removeAll(ty)` a query of `ty` is empty; queries of other types are unaffected. */
  lemma RemoveAllThenQuery(m: Index, ty: string, qty: string, startTime: int, endTime: int)
    ensures QueryResult(Erased(m, ty), qty, startTime, endTime)
         == if qty == ty then [] else QueryResult(m, qty, startTime, endTime)
  {
  }

  /** One writer call against the store. */
  datatype Op = Insert(evType: string, timestamp: Int32) | RemoveAll(evType: string)

  /** The multimap after one writer call. */
  function Step(m: Index, op: Op): Index
  {
    match op
    case Insert(ty, t) => Inserted(m, ty, t)
    case RemoveAll(ty) => Erased(m, ty)
  }

  /** The multimap after a sequence of writer calls, applied in order. */
  function Apply(m: Index, ops: seq<Op>): Index
    decreases |ops|
  {
    if ops == [] then m else Apply(Step(m, ops[0]), ops[1..])
  }

  /**
   With no `removeAll(ty)` among them, a sequence of writers leaves exactly
   one more entry `(ty, t)` per `insert` of `(ty, t)` it contains: no insert
   is lost, whatever else is inserted or removed in between.
   */
  lemma {:induction false} CountAfterWriters(m: Index, ty: string, t: Int32, ops: seq<Op>)
    requires forall i :: 0 <= i < |ops| ==> ops[i] != RemoveAll(ty)
    ensures Count(Apply(m, ops), ty, t) == Count(m, ty, t) + multiset(ops)[Insert(ty, t)]
    decreases |ops|
  {
    if ops != [] {
      var op, rest := ops[0], ops[1..];
      assert ops == [op] + rest;
      assert multiset(ops)[Insert(ty, t)] == (if op == Insert(ty, t) then 1 else 0) + multiset(rest)[Insert(ty, t)];
      assert Count(Step(m, op), ty, t) == Count(m, ty, t) + (if op == Insert(ty, t) then 1 else 0) by {
        match op
        case Insert(k, u) =>
        case RemoveAll(k) =>
      }
      CountAfterWriters(Step(m, op), ty, t, rest);
    }
  }

  /**
   An inserted event with a timestamp in [startTime, endTime) is returned by
   every later query of its type over that interval, whatever writers come
   in between, as long as none of them is `removeAll` of that type.
   */
  lemma InsertedStaysVisible(m: Index, ty: string, t: Int32, ops: seq<Op>, startTime: int, endTime: int)
    requires InRange(t, startTime, endTime)
    requires forall i :: 0 <= i < |ops| ==> ops[i] != RemoveAll(ty)
    ensures Event(ty, t) in QueryResult(Apply(Inserted(m, ty, t), ops), ty, startTime, endTime)
  {
    var after := Apply(Inserted(m, ty, t), ops);
    CountAfterWriters(Inserted(m, ty, t), ty, t, ops);
    QueryResultSpec(after, ty, startTime, endTime);
    assert multiset(QueryResult(after, ty, startTime, endTime))[Event(ty, t)] == Count(after, ty, t);
  }
}
