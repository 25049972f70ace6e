/** What follows from the series specification: a skipped record changes
    nothing, the input order does not matter, the series is unique, and
    the chart's totals count every kept record exactly once. */
module SeriesLaws {
  import opened Wrappers
  import opened JsText
  import opened Dates
  import opened Regions
  import opened Aggregation
  import opened Chart

  /** Normalising two runs of records one after the other keeps the kept
      records of each, in order. */
  lemma {:induction false} EventsAppend<R>(a: seq<R>, b: seq<R>, normalise: R -> Option<Event>)
    ensures Events(a + b, normalise) == Events(a, normalise) + Events(b, normalise)
  {
    if b == [] {
      assert a + b == a;
    } else {
      var init := b[..|b| - 1];
      EventsAppend(a, init, normalise);
      assert (a + b)[..|a + b| - 1] == a + init;
      assert (a + b)[|a + b| - 1] == b[|b| - 1];
    }
  }

  /** The kept records of a single record. */
  lemma EventsOfOne<R>(x: R, normalise: R -> Option<Event>)
    ensures Events([x], normalise) == match normalise(x) case None => [] case Some(e) => [e]
  {
    assert [x][..0] == [];
  }

  /** A record that normalisation skips adds nothing, wherever it stands. */
  lemma SkippedRecord<R>(a: seq<R>, x: R, b: seq<R>, normalise: R -> Option<Event>)
    requires normalise(x).None?
    ensures Events(a + [x] + b, normalise) == Events(a + b, normalise)
  {
    EventsAppend(a + [x], b, normalise);
    EventsAppend(a, [x], normalise);
    EventsAppend(a, b, normalise);
    EventsOfOne(x, normalise);
  }

  lemma {:induction false} CountAppend(a: seq<Event>, b: seq<Event>, key: int, r: Region)
    ensures Count(a + b, key, r) == Count(a, key, r) + Count(b, key, r)
  {
    if b == [] {
      assert a + b == a;
    } else {
      CountAppend(a, b[..|b| - 1], key, r);
      assert (a + b)[..|a + b| - 1] == a + b[..|b| - 1];
    }
  }

  /** A sequence is its part before `j`, its element at `j` and the rest. */
  lemma SplitAt<T>(b: seq<T>, j: nat)
    requires j < |b|
    ensures b == b[..j] + [b[j]] + b[j + 1..]
  {
  }

  /** The last element of `a` found in a permutation `b` of it: what
      remains of both are permutations of each other. */
  lemma FindLast<T>(a: seq<T>, b: seq<T>) returns (j: nat)
    requires a != [] && multiset(a) == multiset(b)
    ensures j < |b| && b[j] == a[|a| - 1]
    ensures b == b[..j] + [b[j]] + b[j + 1..]
    ensures multiset(a[..|a| - 1]) == multiset(b[..j] + b[j + 1..])
  {
    var x := a[|a| - 1];
    assert a == a[..|a| - 1] + [x];
    assert x in multiset(b);
    j :| 0 <= j < |b| && b[j] == x;
    assert b == b[..j] + [x] + b[j + 1..];
    assert multiset(b) == multiset(b[..j] + b[j + 1..]) + multiset{x};
    assert multiset(a) == multiset(a[..|a| - 1]) + multiset{x};
    assert multiset(a[..|a| - 1]) == multiset(a) - multiset{x};
    assert multiset(b[..j] + b[j + 1..]) == multiset(b) - multiset{x};
  }

  /** Taking one record out of the middle takes its contribution out of the counts. */
  lemma CountRemove(b: seq<Event>, j: nat, key: int, r: Region)
    requires j < |b|
    ensures Count(b, key, r) == Count(b[..j] + b[j + 1..], key, r)
                                + (if Key(b[j]) == key && b[j].region == r then 1 else 0)
  {
    SplitAt(b, j);
    CountAppend(b[..j] + [b[j]], b[j + 1..], key, r);
    CountAppend(b[..j], [b[j]], key, r);
    CountAppend(b[..j], b[j + 1..], key, r);
    assert [b[j]][..0] == [];
  }

  /** The counts do not depend on the order of the kept records. */
  lemma {:induction false} CountPermutation(a: seq<Event>, b: seq<Event>, key: int, r: Region)
    requires multiset(a) == multiset(b)
    ensures Count(a, key, r) == Count(b, key, r)
    decreases |a|
  {
    if a != [] {
      var j := FindLast(a, b);
      CountPermutation(a[..|a| - 1], b[..j] + b[j + 1..], key, r);
      CountRemove(b, j, key, r);
    } else {
      assert |b| == |multiset(b)| == 0;
    }
  }

  /** Taking one record out of the middle takes its kept record out. */
  lemma EventsRemove<R>(b: seq<R>, j: nat, normalise: R -> Option<Event>)
    requires j < |b|
    ensures multiset(Events(b, normalise))
            == multiset(Events(b[..j] + b[j + 1..], normalise))
               + (match normalise(b[j]) case None => multiset{} case Some(e) => multiset{e})
  {
    var (p, x, q) := (b[..j], b[j], b[j + 1..]);
    SplitAt(b, j);
    EventsAppend(p + [x], q, normalise);
    EventsAppend(p, [x], normalise);
    EventsAppend(p, q, normalise);
    EventsOfOne(x, normalise);
    var (ep, ex, eq) := (Events(p, normalise), Events([x], normalise), Events(q, normalise));
    assert multiset(ep + ex + eq) == multiset(ep) + multiset(ex) + multiset(eq);
    assert multiset(ep + eq) == multiset(ep) + multiset(eq);
  }

  /** Reordering the records reorders the kept records and nothing more. */
  lemma {:induction false} EventsPermutation<R>(a: seq<R>, b: seq<R>, normalise: R -> Option<Event>)
    requires multiset(a) == multiset(b)
    ensures multiset(Events(a, normalise)) == multiset(Events(b, normalise))
    decreases |a|
  {
    if a != [] {
      var j := FindLast(a, b);
      EventsPermutation(a[..|a| - 1], b[..j] + b[j + 1..], normalise);
      EventsRemove(b, j, normalise);
    } else {
      assert |b| == |multiset(b)| == 0;
    }
  }

  /** The sort keys of a series, in order. */
  function Keys(s: seq<Bucket>): (keys: seq<int>)
    ensures |keys| == |s| && forall i :: 0 <= i < |s| ==> keys[i] == s[i].sortKey
  {
    seq(|s|, i requires 0 <= i < |s| => s[i].sortKey)
  }

  /** The months of a series are the months some kept record falls in. */
  lemma SeriesKeys(s: seq<Bucket>, events: seq<Event>, key: int)
    requires IsSeriesOf(s, events)
    ensures key in Keys(s) <==> MonthCount(events, key) > 0
  {
    if MonthCount(events, key) > 0 {
      var r :| Count(events, key, r) > 0;
      CountPositive(events, key, r);
      var e :| e in events && Key(e) == key && e.region == r;
      var i :| 0 <= i < |s| && s[i].sortKey == Key(e);
      assert Keys(s)[i] == key;
    }
  }

  /** Two strictly ascending sequences with the same members are equal. */
  lemma {:induction false} AscendingUnique(a: seq<int>, b: seq<int>)
    requires forall i, j :: 0 <= i < j < |a| ==> a[i] < a[j]
    requires forall i, j :: 0 <= i < j < |b| ==> b[i] < b[j]
    requires forall k :: k in a <==> k in b
    ensures a == b
    decreases |a|
  {
    if a != [] {
      assert a[0] in a && a[0] in b;
      assert b != [] && b[0] in b && b[0] in a;
      assert a[0] == b[0];
      var t1, t2 := a[1..], b[1..];
      forall k ensures k in t1 <==> k in t2 {
        assert k in t1 <==> k in a && k != a[0];
        assert k in t2 <==> k in b && k != b[0];
      }
      AscendingUnique(t1, t2);
      assert a == [a[0]] + t1 && b == [b[0]] + t2;
    } else {
      FirstIsMember(b);
    }
  }

  lemma FirstIsMember(s: seq<int>)
    ensures s != [] ==> s[0] in s
  {
  }

  /** The series is determined by the per-month, per-region counts alone:
      two series of kept records with the same counts are equal. */
  lemma SeriesUnique(s1: seq<Bucket>, e1: seq<Event>, s2: seq<Bucket>, e2: seq<Event>)
    requires IsSeriesOf(s1, e1) && IsSeriesOf(s2, e2)
    requires forall key, r :: Count(e1, key, r) == Count(e2, key, r)
    ensures s1 == s2
  {
    forall k ensures k in Keys(s1) <==> k in Keys(s2) {
      SeriesKeys(s1, e1, k);
      SeriesKeys(s2, e2, k);
    }
    AscendingUnique(Keys(s1), Keys(s2));
    forall i | 0 <= i < |s1| ensures s1[i] == s2[i] {
      assert s1[i].sortKey == Keys(s1)[i] == Keys(s2)[i] == s2[i].sortKey;
    }
  }

  /** The series does not depend on the order of the records. */
  lemma OrderIndependent<R>(a: seq<R>, b: seq<R>, normalise: R -> Option<Event>, s1: seq<Bucket>, s2: seq<Bucket>)
    requires multiset(a) == multiset(b)
    requires IsSeriesOf(s1, Events(a, normalise)) && IsSeriesOf(s2, Events(b, normalise))
    ensures s1 == s2
  {
    EventsPermutation(a, b, normalise);
    forall key, r ensures Count(Events(a, normalise), key, r) == Count(Events(b, normalise), key, r) {
      CountPermutation(Events(a, normalise), Events(b, normalise), key, r);
    }
    SeriesUnique(s1, Events(a, normalise), s2, Events(b, normalise));
  }

  /** A record that normalisation skips leaves the series as it is. */
  lemma SkippedRecordIgnored<R>(a: seq<R>, x: R, b: seq<R>, normalise: R -> Option<Event>, s1: seq<Bucket>, s2: seq<Bucket>)
    requires normalise(x).None?
    requires IsSeriesOf(s1, Events(a + [x] + b, normalise)) && IsSeriesOf(s2, Events(a + b, normalise))
    ensures s1 == s2
  {
    SkippedRecord(a, x, b, normalise);
    SeriesUnique(s1, Events(a + b, normalise), s2, Events(a + b, normalise));
  }

  /** The region-`r` records of `events` summed over the months `keys`. */
  function KeyedCount(keys: seq<int>, events: seq<Event>, r: Region): nat {
    if keys == [] then 0 else KeyedCount(keys[..|keys| - 1], events, r) + Count(events, keys[|keys| - 1], r)
  }

  /** How often `key` occurs in `keys`. */
  function Occurrences(keys: seq<int>, key: int): nat {
    if keys == [] then 0 else Occurrences(keys[..|keys| - 1], key) + (if keys[|keys| - 1] == key then 1 else 0)
  }

  /** A region sum over a series is the keyed count over its months. */
  lemma {:induction false} SumRegionIsKeyedCount(s: seq<Bucket>, events: seq<Event>, r: Region)
    requires forall i :: 0 <= i < |s| ==> ValidKey(s[i].sortKey) && s[i] == BucketFor(events, s[i].sortKey)
    ensures SumRegion(s, r) == KeyedCount(Keys(s), events, r)
  {
    if s != [] {
      var init := s[..|s| - 1];
      SumRegionIsKeyedCount(init, events, r);
      assert Keys(s)[..|s| - 1] == Keys(init);
    }
  }

  /** One more kept record adds, in its region, once per occurrence of its month. */
  lemma {:induction false} KeyedCountSnoc(keys: seq<int>, events: seq<Event>, e: Event, r: Region)
    ensures KeyedCount(keys, events + [e], r)
            == KeyedCount(keys, events, r) + (if e.region == r then Occurrences(keys, Key(e)) else 0)
  {
    if keys != [] {
      KeyedCountSnoc(keys[..|keys| - 1], events, e, r);
      assert (events + [e])[..|events|] == events;
    }
  }

  /** A key of a strictly ascending series occurs once in its keys. */
  lemma {:induction false} OccursOnce(keys: seq<int>, key: int)
    requires forall i, j :: 0 <= i < j < |keys| ==> keys[i] < keys[j]
    ensures Occurrences(keys, key) == if key in keys then 1 else 0
  {
    if keys != [] {
      var init := keys[..|keys| - 1];
      OccursOnce(init, key);
      assert keys == init + [keys[|keys| - 1]];
      if keys[|keys| - 1] == key {
        assert key !in init;
      }
    }
  }

  /** Summed over all months that cover them, the region-`r` counts are the
      number of region-`r` records. */
  lemma {:induction false} KeyedCountCovers(keys: seq<int>, events: seq<Event>, r: Region)
    requires forall i, j :: 0 <= i < j < |keys| ==> keys[i] < keys[j]
    requires forall e :: e in events ==> Key(e) in keys
    ensures KeyedCount(keys, events, r) == RegionCount(events, r)
  {
    if events == [] {
      KeyedCountOfNothing(keys, r);
    } else {
      var init := events[..|events| - 1];
      var e := events[|events| - 1];
      assert events == init + [e];
      KeyedCountCovers(keys, init, r);
      KeyedCountSnoc(keys, init, e, r);
      OccursOnce(keys, Key(e));
    }
  }

  lemma {:induction false} KeyedCountOfNothing(keys: seq<int>, r: Region)
    ensures KeyedCount(keys, [], r) == 0
  {
    if keys != [] {
      KeyedCountOfNothing(keys[..|keys| - 1], r);
    }
  }

  /** Every kept record is counted once in its region's total: the
      `totalGauteng`, `totalLimpopo` and `totalOther` cards show how many
      kept records are in each region. */
  lemma SeriesRegionSum(s: seq<Bucket>, events: seq<Event>, r: Region)
    requires IsSeriesOf(s, events)
    ensures SumRegion(s, r) == RegionCount(events, r)
  {
    SumRegionIsKeyedCount(s, events, r);
    forall e | e in events ensures Key(e) in Keys(s) {
      var i :| 0 <= i < |s| && s[i].sortKey == Key(e);
      assert Keys(s)[i] == Key(e);
    }
    KeyedCountCovers(Keys(s), events, r);
  }

  /** Every kept record is in exactly one region. */
  lemma {:induction false} RegionCountsAddUp(events: seq<Event>)
    ensures RegionCount(events, Gauteng) + RegionCount(events, Limpopo) + RegionCount(events, Other) == |events|
  {
    if events != [] {
      RegionCountsAddUp(events[..|events| - 1]);
    }
  }

  /** The totals cards count every kept record once: each region card
      shows how many kept records are in that region, and the overall card
      how many were kept. */
  lemma RenderedTotals(s: seq<Bucket>, events: seq<Event>)
    requires IsSeriesOf(s, events)
    ensures Render(s).totals.gauteng == RegionCount(events, Gauteng)
    ensures Render(s).totals.limpopo == RegionCount(events, Limpopo)
    ensures Render(s).totals.other == RegionCount(events, Other)
    ensures Render(s).totals.all == |events|
  {
    SeriesRegionSum(s, events, Gauteng);
    SeriesRegionSum(s, events, Limpopo);
    SeriesRegionSum(s, events, Other);
    RegionCountsAddUp(events);
  }

  /** Every bucket of a series holds at least one kept record. */
  lemma BucketsNonEmpty(s: seq<Bucket>, events: seq<Event>)
    requires IsSeriesOf(s, events)
    ensures forall i :: 0 <= i < |s| ==> BucketTotal(s[i]) > 0
  {
    forall i | 0 <= i < |s| ensures BucketTotal(s[i]) > 0 {
      assert BucketTotal(s[i]) == MonthCount(events, s[i].sortKey);
    }
  }

  /** For a non-empty series the scale is at least 2 and every bar is
      drawn with a positive height of at most 100%. */
  lemma RenderedScale(s: seq<Bucket>, events: seq<Event>)
    requires IsSeriesOf(s, events) && s != []
    ensures Render(s).maxValue >= 1 && Render(s).chartMax >= 2
    ensures forall i :: 0 <= i < |s| ==> 0.0 < Render(s).bars[i].heightPct <= 100.0
  {
    BucketsNonEmpty(s, events);
    assert BucketTotal(s[0]) <= MaxTotal(s);
  }

  /** A kept record counts in its own month and region. */
  lemma {:induction false} CountOfMember(events: seq<Event>, e: Event)
    requires e in events
    ensures Count(events, Key(e), e.region) > 0
  {
    var init := events[..|events| - 1];
    if events[|events| - 1] != e {
      assert events == init + [events[|events| - 1]];
      CountOfMember(init, e);
    }
  }

  /** Every kept record shows in the series: in the bucket labelled with
      its month, whose counter for its region is positive. */
  lemma EventShown(s: seq<Bucket>, events: seq<Event>, e: Event)
    requires IsSeriesOf(s, events) && e in events
    ensures exists j :: 0 <= j < |s| && s[j].monthLabel == Label(e.when) && Field(s[j], e.region) > 0
  {
    var j :| 0 <= j < |s| && s[j].sortKey == Key(e);
    KeyOfEvent(e);
    CountOfMember(events, e);
    assert Field(s[j], e.region) == Count(events, Key(e), e.region);
  }

  /** Every record that normalisation keeps shows in the series. */
  lemma KeptRecordShown<R>(records: seq<R>, normalise: R -> Option<Event>, s: seq<Bucket>, i: nat)
    requires IsSeriesOf(s, Events(records, normalise))
    requires i < |records| && normalise(records[i]).Some?
    ensures exists j :: 0 <= j < |s| && s[j].monthLabel == Label(normalise(records[i]).value.when)
                        && Field(s[j], normalise(records[i]).value.region) > 0
  {
    EventsMembers(records, normalise);
    EventShown(s, Events(records, normalise), normalise(records[i]).value);
  }

  /** Each bar of a series is captioned with its month's short name over
      its year. */
  lemma RenderedCaptions(s: seq<Bucket>, events: seq<Event>)
    requires IsSeriesOf(s, events)
    ensures forall i :: 0 <= i < |s| ==>
              Render(s).bars[i].monthText == MonthNames[MonthOfKey(s[i].sortKey).month]
              && Render(s).bars[i].yearText == NatToString(MonthOfKey(s[i].sortKey).year)
  {
    forall i | 0 <= i < |s|
      ensures Caption(s[i].monthLabel)
              == (MonthNames[MonthOfKey(s[i].sortKey).month], NatToString(MonthOfKey(s[i].sortKey).year))
    {
      CaptionOfLabel(MonthOfKey(s[i].sortKey));
    }
  }

  /** No records give an empty series, zero totals and the fallback scale
      of 12. */
  lemma EmptyInput(s: seq<Bucket>)
    requires IsSeriesOf(s, [])
    ensures s == []
    ensures Render(s).totals == Totals(0, 0, 0, 0) && Render(s).maxValue == 10 && Render(s).chartMax == 12
  {
    assert s != [] ==> MonthCount([], s[0].sortKey) > 0;
  }
}
