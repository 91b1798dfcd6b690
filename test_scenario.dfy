/**
 The data driven by `test_6`, identical in src/main/EventStore.cpp and
 src/main/EventStoreSharedMutex.cpp: insert `(event_label_{i % 3}, i)` for
 i in [0, 10), remove every `event_label_1`, insert the same way for i in
 [373, 411), then query `event_label_0` over [3, 7) and over [370, 400).
 */
module TestScenario {
  import opened EventModel

  /** `"event_label_" + std::to_string(k)` for a single decimal digit `k`. */
  function Label(k: int): string
    requires 0 <= k < 10
  {
    "event_label_" + [('0' as int + k) as char]
  }

  /** The three labels the driver uses. */
  lemma LabelValues()
    ensures Label(0) == "event_label_0" && Label(1) == "event_label_1" && Label(2) == "event_label_2"
  {
  }

  /** Distinct digits give distinct labels. */
  lemma LabelInjective(j: int, k: int)
    requires 0 <= j < 10 && 0 <= k < 10
    ensures Label(j) == Label(k) <==> j == k
  {
    if Label(j) == Label(k) {
      assert Label(j)[12] == Label(k)[12];
    }
  }

  /**
   The multimap after the driver loop `for (i = lo; i < hi; i++)` inserting
   `(event_label_{i % 3}, i)` into `m`.
   */
  function LabelledRun(m: Index, lo: nat, hi: int): Index
    requires hi <= INT_MAX + 1
    decreases hi - lo
  {
    if hi <= lo then m else Inserted(LabelledRun(m, lo, hi - 1), Label((hi - 1) % 3), hi - 1)
  }

  /** The numbers i in [lo, hi) with i % 3 == k, in increasing order. */
  function Residues(lo: int, hi: int, k: int): seq<int>
    decreases hi - lo
  {
    if hi <= lo then [] else Residues(lo, hi - 1, k) + (if (hi - 1) % 3 == k then [hi - 1] else [])
  }

  /** Each number of the right residue in [lo, hi) occurs exactly once in `Residues`. */
  lemma {:induction false} ResiduesCount(lo: int, hi: int, k: int, t: int)
    ensures multiset(Residues(lo, hi, k))[t] == if lo <= t < hi && t % 3 == k then 1 else 0
    decreases hi - lo
  {
    if lo < hi {
      ResiduesCount(lo, hi - 1, k, t);
    }
  }

  /** Inserting `(ty, t)` appends `t` to the bucket of `ty` and leaves every other bucket as it was. */
  lemma InsertedBucket(m: Index, ty: string, t: Int32, k: string)
    ensures Bucket(Inserted(m, ty, t), k) == if k == ty then Bucket(m, k) + [t] else Bucket(m, k)
  {
  }

  /** The driver loop appends to bucket `event_label_k` exactly the i of residue k, in order. */
  lemma {:induction false} LabelledRunBucket(m: Index, lo: nat, hi: int, k: int)
    requires hi <= INT_MAX + 1
    requires 0 <= k < 3
    ensures Bucket(LabelledRun(m, lo, hi), Label(k)) == Bucket(m, Label(k)) + Residues(lo, hi, k)
    decreases hi - lo
  {
    if hi <= lo {
      assert Bucket(m, Label(k)) + [] == Bucket(m, Label(k));
    } else {
      var i := hi - 1;
      var prev := LabelledRun(m, lo, i);
      LabelledRunBucket(m, lo, i, k);
      LabelInjective(i % 3, k);
      InsertedBucket(prev, Label(i % 3), i, Label(k));
      assert LabelledRun(m, lo, hi) == Inserted(prev, Label(i % 3), i);
      if i % 3 == k {
        assert Bucket(LabelledRun(m, lo, hi), Label(k)) == Bucket(prev, Label(k)) + [i];
        assert Residues(lo, hi, k) == Residues(lo, i, k) + [i];
        assert (Bucket(m, Label(k)) + Residues(lo, i, k)) + [i] == Bucket(m, Label(k)) + (Residues(lo, i, k) + [i]);
      } else {
        assert Bucket(LabelledRun(m, lo, hi), Label(k)) == Bucket(prev, Label(k));
        assert Residues(lo, hi, k) == Residues(lo, i, k) + [];
        assert Residues(lo, i, k) + [] == Residues(lo, i, k);
      }
    }
  }

  /** The multimap `test_6` queries. */
  function Test6Index(): Index
  {
    LabelledRun(Erased(LabelledRun(map[], 0, 10), Label(1)), 373, 411)
  }

  /** After the first loop and `removeAll("event_label_1")`, bucket `event_label_0` holds 0, 3, 6, 9. */
  lemma Test6AfterRemove()
    ensures Bucket(Erased(LabelledRun(map[], 0, 10), Label(1)), Label(0)) == Residues(0, 10, 0)
  {
    LabelledRunBucket(map[], 0, 10, 0);
    LabelInjective(0, 1);
  }

  /** After the second loop, bucket `event_label_0` has 375, 378, ..., 408 appended. */
  lemma Test6Bucket()
    ensures Bucket(Test6Index(), Label(0)) == Residues(0, 10, 0) + Residues(373, 411, 0)
  {
    Test6AfterRemove();
    LabelledRunBucket(Erased(LabelledRun(map[], 0, 10), Label(1)), 373, 411, 0);
  }

  /** Bucket `event_label_0` holds 0, 3, 6, 9 and 375, 378, ..., 408, once each. */
  ghost predicate Test6LabelZero(m: Index)
  {
    forall t :: Count(m, "event_label_0", t) == if (0 <= t < 10 || 373 <= t < 411) && t % 3 == 0 then 1 else 0
  }

  /** A bucket made of two disjoint runs of one residue holds each of their numbers once. */
  lemma TwoRunsCount(bucket: seq<int>, lo1: int, hi1: int, lo2: int, hi2: int, k: int, t: int)
    requires hi1 <= lo2
    requires bucket == Residues(lo1, hi1, k) + Residues(lo2, hi2, k)
    ensures multiset(bucket)[t] == if (lo1 <= t < hi1 || lo2 <= t < hi2) && t % 3 == k then 1 else 0
  {
    ResiduesCount(lo1, hi1, k, t);
    ResiduesCount(lo2, hi2, k, t);
  }

  /** That bucket content, stated by multiplicity. */
  lemma Test6Contents(m: Index)
    requires Bucket(m, "event_label_0") == Residues(0, 10, 0) + Residues(373, 411, 0)
    ensures Test6LabelZero(m)
  {
    var bucket := Bucket(m, "event_label_0");
    forall t ensures Count(m, "event_label_0", t) == if (0 <= t < 10 || 373 <= t < 411) && t % 3 == 0 then 1 else 0 {
      TwoRunsCount(bucket, 0, 10, 373, 411, 0, t);
    }
  }

  /** The multiples of three in [3, 7) are 3 and 6. */
  lemma FirstWindow(t: int)
    requires 3 <= t < 7 && t % 3 == 0
    ensures t == 3 || t == 6
  {
    assert t == 3 * (t / 3);
  }

  /** The multiples of three in [373, 400) are 375, 378, ..., 399. */
  lemma SecondWindow(t: int)
    requires 373 <= t < 400 && t % 3 == 0
    ensures t in {375, 378, 381, 384, 387, 390, 393, 396, 399}
  {
    var q := t / 3;
    assert t == 3 * q;
    assert 125 <= q <= 133;
  }

  /** `query("event_label_0", 3, 7)` returns the events at 3 and 6. */
  lemma Test6FirstQuery(m: Index)
    requires Test6LabelZero(m)
    ensures multiset(QueryResult(m, "event_label_0", 3, 7))
         == multiset{Event("event_label_0", 3), Event("event_label_0", 6)}
  {
    var expected := multiset{Event("event_label_0", 3), Event("event_label_0", 6)};
    var got := multiset(QueryResult(m, "event_label_0", 3, 7));
    QueryResultSpec(m, "event_label_0", 3, 7);
    forall e: Event ensures got[e] == expected[e] {
      if e.Type == "event_label_0" && InRange(e.Timestamp, 3, 7) && e.Timestamp % 3 == 0 {
        FirstWindow(e.Timestamp);
      }
    }
    assert got == expected;
  }

  /** The events `query("event_label_0", 370, 400)` should return. */
  function Test6SecondExpected(): multiset<Event>
  {
    multiset{Event("event_label_0", 375), Event("event_label_0", 378), Event("event_label_0", 381),
             Event("event_label_0", 384), Event("event_label_0", 387), Event("event_label_0", 390),
             Event("event_label_0", 393), Event("event_label_0", 396), Event("event_label_0", 399)}
  }

  /** The expected multiset holds each multiple of three in [373, 400) once, with type `event_label_0`. */
  lemma Test6SecondExpectedCount(e: Event)
    ensures Test6SecondExpected()[e]
         == if e.Type == "event_label_0" && 373 <= e.Timestamp < 400 && e.Timestamp % 3 == 0 then 1 else 0
  {
    if e.Type == "event_label_0" && 373 <= e.Timestamp < 400 && e.Timestamp % 3 == 0 {
      SecondWindow(e.Timestamp);
    }
  }

  /** One event's multiplicity in the second query. */
  lemma Test6SecondQueryAt(m: Index, e: Event)
    requires Test6LabelZero(m)
    ensures multiset(QueryResult(m, "event_label_0", 370, 400))[e] == Test6SecondExpected()[e]
  {
    QueryResultSpec(m, "event_label_0", 370, 400);
    Test6SecondExpectedCount(e);
  }

  /** `query("event_label_0", 370, 400)` returns the nine events at 375, 378, ..., 399. */
  lemma Test6SecondQuery(m: Index)
    requires Test6LabelZero(m)
    ensures multiset(QueryResult(m, "event_label_0", 370, 400)) == Test6SecondExpected()
  {
    forall e: Event {
      Test6SecondQueryAt(m, e);
    }
  }
}
