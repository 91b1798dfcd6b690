/**
 src/main/EventStoreSharedMutex.cpp: the EventStore guarded by one
 reader/writer lock `sh_mutex_`. Writers (`Insert`, `RemoveAll`) hold it
 exclusively and `Query` holds it shared, each for its whole body, so every
 call acts atomically on `event_mmap`; the lock itself is not modelled and
 each body below is the serial one.
 */
module EventStoreSharedMutex {
  import opened EventModel
  import opened TestScenario

  class EventStore {
    /** `event_mmap`, grouped by key (see `EventModel.Index`). */
    var eventMmap: Index

    /** The multimap invariant: no key is present without an entry. */
    ghost predicate Valid()
      reads this
    {
      NoEmptyBucket(eventMmap)
    }

    /** The implicit default constructor: the store starts empty. */
    constructor ()
      ensures Valid() && eventMmap == map[]
    {
      eventMmap := map[];
    }

    /**
     Under the exclusive lock, adds the pair `(inEvent.Type, inEvent.Timestamp)`;
     a duplicate pair is kept. The stored value type is `int`, so the
     timestamp must fit in it.
     */
    method Insert(inEvent: Event)
      requires Valid()
      requires INT_MIN <= inEvent.Timestamp <= INT_MAX
      modifies this
      ensures Valid()
      ensures eventMmap == Inserted(old(eventMmap), inEvent.Type, inEvent.Timestamp)
      ensures |Bucket(eventMmap, inEvent.Type)| == |Bucket(old(eventMmap), inEvent.Type)| + 1
      ensures forall ty :: ty != inEvent.Type ==> Bucket(eventMmap, ty) == Bucket(old(eventMmap), ty)
    {
      var ty, t := inEvent.Type, inEvent.Timestamp;
      eventMmap := eventMmap[ty := Bucket(eventMmap, ty) + [t]];
    }

    /** Under the exclusive lock, erases every pair whose key is `evType`; an absent key leaves the store as it was. */
    method RemoveAll(evType: string)
      requires Valid()
      modifies this
      ensures Valid()
      ensures eventMmap == Erased(old(eventMmap), evType)
      ensures Bucket(eventMmap, evType) == []
      ensures forall ty :: ty != evType ==> Bucket(eventMmap, ty) == Bucket(old(eventMmap), ty)
      ensures old(evType !in eventMmap) ==> eventMmap == old(eventMmap)
    {
      eventMmap := eventMmap - {evType};
    }

    /**
     The events of type `evType` whose timestamp lies in [startTime, endTime),
     one per stored occurrence, built while walking the bucket of `evType`
     under the shared lock. The store is only read. `Valid()` is what lets the test
     `evType in eventMmap` stand for the source's `range.first != range.second`:
     a present type always has a non-empty bucket.
     */
    method Query(evType: string, startTime: Int64, endTime: Int64) returns (vect: seq<Event>)
      requires Valid()
      ensures vect == QueryResult(eventMmap, evType, startTime, endTime)
      ensures forall e :: (multiset(vect)[e]
                == if e.Type == evType && InRange(e.Timestamp, startTime, endTime)
                   then Count(eventMmap, evType, e.Timestamp) else 0)
      ensures forall i :: 0 <= i < |vect| ==> vect[i].Type == evType
      ensures evType !in eventMmap || endTime <= startTime ==> vect == []
    {
      if evType in eventMmap {
        var bucket := eventMmap[evType];
        vect := [];
        var i := 0;
        while i < |bucket|
          invariant 0 <= i <= |bucket|
          invariant vect == Events(evType, Matching(bucket[..i], startTime, endTime))
        {
          var ts := bucket[i];
          ScanStep(evType, bucket, i, startTime, endTime);
          if ts >= startTime && ts < endTime {
            vect := vect + [Event(evType, ts)];
          }
          i := i + 1;
        }
        assert bucket[..i] == bucket;
      } else {
        vect := [];
      }
      QueryResultSpec(eventMmap, evType, startTime, endTime);
    }
  }

  /**
   The driver `test_6`: two labelled insert loops around `removeAll("event_label_1")`,
   then the two queries of `event_label_0`.
   */
  method Test6() returns (first: seq<Event>, second: seq<Event>)
    ensures multiset(first) == multiset{Event("event_label_0", 3), Event("event_label_0", 6)}
    ensures multiset(second)
         == multiset{Event("event_label_0", 375), Event("event_label_0", 378), Event("event_label_0", 381),
                     Event("event_label_0", 384), Event("event_label_0", 387), Event("event_label_0", 390),
                     Event("event_label_0", 393), Event("event_label_0", 396), Event("event_label_0", 399)}
    ensures |second| == 9
  {
    LabelValues();
    var es := new EventStore();
    var i := 0;
    while i < 10
      invariant 0 <= i <= 10
      invariant es.Valid() && es.eventMmap == LabelledRun(map[], 0, i)
    {
      es.Insert(Event(Label(i % 3), i));
      i := i + 1;
    }
    ghost var afterFirst := es.eventMmap;
    es.RemoveAll("event_label_1");
    i := 373;
    while i < 411
      invariant 373 <= i <= 411
      invariant es.Valid() && es.eventMmap == LabelledRun(Erased(afterFirst, Label(1)), 373, i)
    {
      es.Insert(Event(Label(i % 3), i));
      i := i + 1;
    }
    Test6Bucket();
    Test6Contents(es.eventMmap);
    first := es.Query("event_label_0", 3, 7);
    second := es.Query("event_label_0", 370, 400);
    Test6FirstQuery(es.eventMmap);
    Test6SecondQuery(es.eventMmap);
  }
}
