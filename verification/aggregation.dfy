/** The monthly fold shared by the collection and the sales report: each
    kept record adds one to one region counter of its month's bucket, in a
    map keyed by the `"<Mon> <Year>"` label; the buckets are then sorted by
    their sort key. */
module Aggregation {
  import opened Wrappers
  import opened Dates
  import opened Regions

  /** A kept record: the month it falls in and its region. */
  datatype Event = Event(when: YearMonth, region: Region)

  /** A chart bucket `{ label, Gauteng, Limpopo, Other, sortKey }` (`label` is a
      reserved word in Dafny, hence `monthLabel`). */
  datatype Bucket = Bucket(monthLabel: string, gauteng: nat, limpopo: nat, other: nat, sortKey: int)

  function Key(e: Event): nat {
    SortKey(e.when)
  }

  /** The counter of a bucket for one region. */
  function Field(b: Bucket, r: Region): nat {
    match r
    case Gauteng => b.gauteng
    case Limpopo => b.limpopo
    case Other => b.other
  }

  /** `entry.Gauteng++`, `entry.Limpopo++` or `entry.Other++`. */
  function Tally(b: Bucket, r: Region): (t: Bucket)
    ensures Field(t, r) == Field(b, r) + 1
    ensures forall q :: q != r ==> Field(t, q) == Field(b, q)
    ensures t.monthLabel == b.monthLabel && t.sortKey == b.sortKey
  {
    match r
    case Gauteng => b.(gauteng := b.gauteng + 1)
    case Limpopo => b.(limpopo := b.limpopo + 1)
    case Other => b.(other := b.other + 1)
  }

  /** One pass of the loop body for a kept record: create the month's
      bucket with zero counts if it is missing, then tally the region. */
  function Step(stats: map<string, Bucket>, e: Event): map<string, Bucket> {
    var key := Label(e.when);
    var entry := if key in stats then stats[key] else Bucket(key, 0, 0, 0, SortKey(e.when));
    stats[key := Tally(entry, e.region)]
  }

  /** The map after folding a sequence of kept records, in order. */
  function Fold(events: seq<Event>): map<string, Bucket> {
    if events == [] then map[] else Step(Fold(events[..|events| - 1]), events[|events| - 1])
  }

  /** The records that survive normalisation, in input order. */
  function Events<R>(records: seq<R>, normalise: R -> Option<Event>): seq<Event> {
    if records == [] then []
    else
      var init := Events(records[..|records| - 1], normalise);
      match normalise(records[|records| - 1])
      case None => init
      case Some(e) => init + [e]
  }

  /** The kept records are exactly the normalised forms of the records that
      have one, and there are no more of them than records. */
  lemma {:induction false} EventsMembers<R>(records: seq<R>, normalise: R -> Option<Event>)
    ensures |Events(records, normalise)| <= |records|
    ensures forall e :: e in Events(records, normalise) <==>
              exists i :: 0 <= i < |records| && normalise(records[i]) == Some(e)
  {
    if records != [] {
      var init := records[..|records| - 1];
      EventsMembers(init, normalise);
      assert forall i :: 0 <= i < |init| ==> init[i] == records[i];
    }
  }

  /** How many kept records fall in the month with sort key `key` and in region `r`. */
  function Count(events: seq<Event>, key: int, r: Region): nat {
    if events == [] then 0
    else
      var last := events[|events| - 1];
      Count(events[..|events| - 1], key, r) + (if Key(last) == key && last.region == r then 1 else 0)
  }

  /** How many kept records fall in the month with sort key `key`. */
  function MonthCount(events: seq<Event>, key: int): nat {
    Count(events, key, Gauteng) + Count(events, key, Limpopo) + Count(events, key, Other)
  }

  /** How many kept records are in region `r`, whatever their month. */
  function RegionCount(events: seq<Event>, r: Region): nat {
    if events == [] then 0
    else RegionCount(events[..|events| - 1], r) + (if events[|events| - 1].region == r then 1 else 0)
  }

  /** A sort key of a real month: `year * 100 + monthIndex`. */
  predicate ValidKey(key: int) {
    key >= 0 && key % 100 < 12
  }

  /** The bucket that the month with sort key `key` must end up with. */
  function BucketFor(events: seq<Event>, key: int): Bucket
    requires ValidKey(key)
  {
    Bucket(Label(MonthOfKey(key)), Count(events, key, Gauteng), Count(events, key, Limpopo),
           Count(events, key, Other), key)
  }

  predicate StrictlySorted(s: seq<Bucket>) {
    forall i, j :: 0 <= i < j < |s| ==> s[i].sortKey < s[j].sortKey
  }

  /** `s` is the chart series of `events`: ascending by sort key with no
      month twice, one bucket for every month some record falls in and for
      no other, each holding that month's label, sort key and per-region
      counts. */
  predicate IsSeriesOf(s: seq<Bucket>, events: seq<Event>) {
    && StrictlySorted(s)
    && (forall i :: 0 <= i < |s| ==>
          ValidKey(s[i].sortKey) && MonthCount(events, s[i].sortKey) > 0
          && s[i] == BucketFor(events, s[i].sortKey))
    && (forall e :: e in events ==> exists i :: 0 <= i < |s| && s[i].sortKey == Key(e))
  }

  /** The label map holds exactly the buckets of the series of `events`,
      each under its own label. */
  predicate Summarises(stats: map<string, Bucket>, events: seq<Event>) {
    && (forall k :: k in stats ==>
          ValidKey(stats[k].sortKey) && k == Label(MonthOfKey(stats[k].sortKey))
          && MonthCount(events, stats[k].sortKey) > 0 && stats[k] == BucketFor(events, stats[k].sortKey))
    && (forall e :: e in events ==> Label(e.when) in stats)
  }

  /** A month with a positive count has a record in it. */
  lemma {:induction false} CountPositive(events: seq<Event>, key: int, r: Region)
    requires Count(events, key, r) > 0
    ensures exists e :: e in events && Key(e) == key && e.region == r
  {
    var init := events[..|events| - 1];
    var last := events[|events| - 1];
    if !(Key(last) == key && last.region == r) {
      CountPositive(init, key, r);
      var e :| e in init && Key(e) == key && e.region == r;
      assert e in events;
    }
  }

  /** Two months with the same label have the same sort key. */
  lemma SameLabelSameKey(k1: int, k2: int)
    requires ValidKey(k1) && ValidKey(k2)
    requires Label(MonthOfKey(k1)) == Label(MonthOfKey(k2))
    ensures k1 == k2
  {
    LabelInjective(MonthOfKey(k1), MonthOfKey(k2));
  }

  /** The sort key of the month an event falls in labels that month. */
  lemma KeyOfEvent(e: Event)
    ensures ValidKey(Key(e)) && MonthOfKey(Key(e)) == e.when
  {
    MonthOfSortKey(e.when);
  }

  /** Appending a record changes only the counts of its own month and region. */
  lemma BucketForSnoc(events: seq<Event>, e: Event, key: int)
    requires ValidKey(key)
    ensures BucketFor(events + [e], key)
            == if key == Key(e) then Tally(BucketFor(events, key), e.region) else BucketFor(events, key)
    ensures MonthCount(events + [e], key) == MonthCount(events, key) + (if key == Key(e) then 1 else 0)
  {
    var es := events + [e];
    assert es[..|es| - 1] == events;
  }

  /** A month no record falls in has all counts zero. */
  lemma {:induction false} CountOfAbsentMonth(events: seq<Event>, key: int, r: Region)
    requires forall e :: e in events ==> Key(e) != key
    ensures Count(events, key, r) == 0
  {
    if Count(events, key, r) > 0 {
      CountPositive(events, key, r);
    }
  }

  /** Step on a month the map has not seen yet. */
  lemma StepSummarisesNewMonth(stats: map<string, Bucket>, events: seq<Event>, e: Event)
    requires Summarises(stats, events) && Label(e.when) !in stats
    ensures Summarises(Step(stats, e), events + [e])
  {
    var key := Label(e.when);
    var sk := Key(e);
    KeyOfEvent(e);
    forall e' | e' in events ensures Key(e') != sk {
      KeyOfEvent(e');
    }
    CountOfAbsentMonth(events, sk, Gauteng);
    CountOfAbsentMonth(events, sk, Limpopo);
    CountOfAbsentMonth(events, sk, Other);
    BucketForSnoc(events, e, sk);
    var next := Step(stats, e);
    forall k | k in stats
      ensures MonthCount(events + [e], stats[k].sortKey) > 0
      ensures stats[k] == BucketFor(events + [e], stats[k].sortKey)
    {
      BucketForSnoc(events, e, stats[k].sortKey);
    }
  }

  /** Step on a month the map already holds. */
  lemma StepSummarisesKnownMonth(stats: map<string, Bucket>, events: seq<Event>, e: Event)
    requires Summarises(stats, events) && Label(e.when) in stats
    ensures Summarises(Step(stats, e), events + [e])
  {
    var key := Label(e.when);
    var sk := Key(e);
    KeyOfEvent(e);
    SameLabelSameKey(stats[key].sortKey, sk);
    BucketForSnoc(events, e, sk);
    forall k | k in stats && k != key
      ensures stats[k].sortKey != sk
      ensures MonthCount(events + [e], stats[k].sortKey) > 0
      ensures stats[k] == BucketFor(events + [e], stats[k].sortKey)
    {
      BucketForSnoc(events, e, stats[k].sortKey);
    }
  }

  /** One step of the loop keeps the label map summarising the records seen. */
  lemma StepSummarises(stats: map<string, Bucket>, events: seq<Event>, e: Event)
    requires Summarises(stats, events)
    ensures Summarises(Step(stats, e), events + [e])
  {
    if Label(e.when) in stats {
      StepSummarisesKnownMonth(stats, events, e);
    } else {
      StepSummarisesNewMonth(stats, events, e);
    }
  }

  /** The fold leaves the label map summarising all records folded. */
  lemma {:induction false} FoldSummarises(events: seq<Event>)
    ensures Summarises(Fold(events), events)
  {
    if events != [] {
      var init := events[..|events| - 1];
      FoldSummarises(init);
      assert init + [events[|events| - 1]] == events;
      StepSummarises(Fold(init), init, events[|events| - 1]);
    }
  }

  /** Inserts a bucket into a sorted list, keeping it sorted. */
  function Insert(s: seq<Bucket>, b: Bucket): (r: seq<Bucket>)
    requires StrictlySorted(s)
    requires forall i :: 0 <= i < |s| ==> s[i].sortKey != b.sortKey
    ensures StrictlySorted(r) && |r| == |s| + 1
    ensures forall x :: x in r <==> x in s || x == b
  {
    if s == [] || b.sortKey < s[0].sortKey then [b] + s
    else
      var t := Insert(s[1..], b);
      assert forall j :: 0 <= j < |t| ==> t[j] in t;
      assert forall j :: 0 <= j < |t| ==> s[0].sortKey < t[j].sortKey;
      [s[0]] + t
  }

  /** `Array.from(statsMap.values()).sort((a, b) => a.sortKey - b.sortKey)`:
      the buckets of the map in ascending sort-key order. */
  method SortByKey(stats: map<string, Bucket>) returns (series: seq<Bucket>)
    requires forall k1, k2 :: k1 in stats && k2 in stats && k1 != k2 ==> stats[k1].sortKey != stats[k2].sortKey
    ensures StrictlySorted(series) && |series| == |stats|
    ensures forall b :: b in series <==> b in stats.Values
  {
    series := [];
    var pending := stats.Keys;
    while pending != {}
      invariant pending <= stats.Keys
      invariant StrictlySorted(series) && |series| + |pending| == |stats|
      invariant forall b :: b in series <==> exists k :: k in stats && k !in pending && stats[k] == b
      decreases |pending|
    {
      var k :| k in pending;
      forall i | 0 <= i < |series| ensures series[i].sortKey != stats[k].sortKey {
        assert series[i] in series;
      }
      series := Insert(series, stats[k]);
      pending := pending - {k};
    }
  }

  /** Labels are keys of one month each, so no two buckets of a summary share a sort key. */
  lemma SummaryKeysDistinct(stats: map<string, Bucket>, events: seq<Event>)
    requires Summarises(stats, events)
    ensures forall k1, k2 :: k1 in stats && k2 in stats && k1 != k2 ==> stats[k1].sortKey != stats[k2].sortKey
  {
  }

  /** The label map's buckets, sorted, are the series of the records. */
  lemma SortedSummaryIsSeries(stats: map<string, Bucket>, events: seq<Event>, series: seq<Bucket>)
    requires Summarises(stats, events)
    requires StrictlySorted(series)
    requires forall b :: b in series <==> b in stats.Values
    ensures IsSeriesOf(series, events)
  {
    forall e | e in events
      ensures exists i :: 0 <= i < |series| && series[i].sortKey == Key(e)
    {
      var b := stats[Label(e.when)];
      assert b in stats.Values;
      var i :| 0 <= i < |series| && series[i] == b;
      KeyOfEvent(e);
      SameLabelSameKey(b.sortKey, Key(e));
    }
    forall i | 0 <= i < |series|
      ensures ValidKey(series[i].sortKey) && MonthCount(events, series[i].sortKey) > 0
      ensures series[i] == BucketFor(events, series[i].sortKey)
    {
      assert series[i] in series;
    }
  }

  /** One record more: the records kept so far grow by at most that record. */
  lemma EventsSnoc<R>(records: seq<R>, i: nat, normalise: R -> Option<Event>)
    requires i < |records|
    ensures Events(records[..i + 1], normalise)
            == Events(records[..i], normalise) + (match normalise(records[i]) case None => [] case Some(e) => [e])
  {
    assert records[..i + 1][..i] == records[..i];
  }

  /** Folding one record more is one step more. */
  lemma FoldSnoc(events: seq<Event>, e: Event)
    ensures Fold(events + [e]) == Step(Fold(events), e)
  {
    assert (events + [e])[..|events|] == events;
  }

  /** The loop body for a kept record: `statsMap.set` of a zero bucket
      when the month's label is missing, then `entry.<Region>++`. */
  method AddToBucket(stats: map<string, Bucket>, e: Event) returns (updated: map<string, Bucket>)
    ensures updated == Step(stats, e)
  {
    updated := stats;
    var key := Label(e.when);
    if key !in updated {
      updated := updated[key := Bucket(key, 0, 0, 0, SortKey(e.when))];
    }
    var entry := updated[key];
    assert entry == if key in stats then stats[key] else Bucket(key, 0, 0, 0, SortKey(e.when));
    match e.region {
      case Gauteng => updated := updated[key := entry.(gauteng := entry.gauteng + 1)];
      case Limpopo => updated := updated[key := entry.(limpopo := entry.limpopo + 1)];
      case Other => updated := updated[key := entry.(other := entry.other + 1)];
    }
    assert updated == stats[key := Tally(entry, e.region)];
  }

  /** The `forEach` loop of both reports: normalises each record, drops the
      ones without a month, and tallies the rest in a map keyed by label,
      creating a month's bucket with zero counts on its first record. */
  method Tabulate<R>(records: array<R>, normalise: R -> Option<Event>) returns (stats: map<string, Bucket>)
    ensures stats == Fold(Events(records[..], normalise))
  {
    stats := map[];
    ghost var rs := records[..];
    for i := 0 to records.Length
      invariant stats == Fold(Events(rs[..i], normalise))
    {
      EventsSnoc(rs, i, normalise);
      assert records[i] == rs[i];
      match normalise(records[i]) {
        case None =>
          assert Events(rs[..i], normalise) + [] == Events(rs[..i], normalise);
        case Some(e) =>
          FoldSnoc(Events(rs[..i], normalise), e);
          stats := AddToBucket(stats, e);
      }
    }
    assert rs[..records.Length] == rs;
  }

  /** The monthly aggregation of both reports: the tallied buckets in
      ascending sort-key order. */
  method Aggregate<R>(records: array<R>, normalise: R -> Option<Event>) returns (series: seq<Bucket>)
    ensures IsSeriesOf(series, Events(records[..], normalise))
  {
    var stats := Tabulate(records, normalise);
    var events := Events(records[..], normalise);
    FoldSummarises(events);
    SummaryKeysDistinct(stats, events);
    series := SortByKey(stats);
    SortedSummaryIsSeries(stats, events, series);
  }
}
