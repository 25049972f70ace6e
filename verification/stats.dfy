/** The two reports of the statistics page: the collection report over the
    collection history and the sales report over the customer feed, each a
    monthly series of per-region counts. */
module Stats {
  import opened Wrappers
  import opened JsText
  import opened Regions
  import opened Dates
  import opened Aggregation
  import opened Chart
  import opened Records
  import opened SeriesLaws

  /** The collection report once the rows are fetched: every row goes
      through the collection loop body, then the buckets are sorted. */
  method CollectionStats(records: array<CollectionRecord>) returns (series: seq<Bucket>)
    ensures IsSeriesOf(series, Events(records[..], NormaliseCollection))
  {
    series := Aggregate(records, NormaliseCollection);
  }

  /** The sales report once the rows are fetched: the eligible rows, in
      order, go through the sales loop body, then the buckets are sorted. */
  method SalesStats(customers: array<SalesRecord>) returns (series: seq<Bucket>)
    ensures IsSeriesOf(series, Events(FilterEligible(customers[..]), NormaliseSales))
  {
    var filtered := FromSeq(FilterEligible(customers[..]));
    series := Aggregate(filtered, NormaliseSales);
  }

  /** The new array that `Array.prototype.filter` returns. */
  method FromSeq<T>(s: seq<T>) returns (a: array<T>)
    ensures fresh(a) && a[..] == s
  {
    a := new T[|s|](i requires 0 <= i < |s| => s[i]);
  }

  /** A sales row as one step: ineligible rows are skipped like undated ones. */
  function SalesEvent(c: SalesRecord): Option<Event> {
    if Eligible(c) then NormaliseSales(c) else None
  }

  /** Filtering first and then normalising keeps the same records as
      normalising every row with the filter as one more reason to skip. */
  lemma {:induction false} FilterThenNormalise(cs: seq<SalesRecord>)
    ensures Events(FilterEligible(cs), NormaliseSales) == Events(cs, SalesEvent)
  {
    if cs != [] {
      var init := cs[..|cs| - 1];
      var last := cs[|cs| - 1];
      FilterThenNormalise(init);
      if Eligible(last) {
        EventsAppend(FilterEligible(init), [last], NormaliseSales);
        EventsOfOne(last, NormaliseSales);
      }
    }
  }

  /** A collection row without a truthy date, or whose date does not parse
      once its first space is `T`, leaves the report as it is. */
  lemma CollectionRowSkipped(a: seq<CollectionRecord>, x: CollectionRecord, b: seq<CollectionRecord>,
                             s1: seq<Bucket>, s2: seq<Bucket>)
    requires CollectionDateText(x).None?
             || ParseDate(ReplaceFirst(CollectionDateText(x).value, ' ', 'T')).None?
    requires IsSeriesOf(s1, Events(a + [x] + b, NormaliseCollection))
    requires IsSeriesOf(s2, Events(a + b, NormaliseCollection))
    ensures s1 == s2
  {
    SkippedRecordIgnored(a, x, b, NormaliseCollection, s1, s2);
  }

  /** A customer that fails the filter leaves the report as it is. */
  lemma IneligibleCustomerSkipped(a: seq<SalesRecord>, x: SalesRecord, b: seq<SalesRecord>,
                                  s1: seq<Bucket>, s2: seq<Bucket>)
    requires !Eligible(x)
    requires IsSeriesOf(s1, Events(FilterEligible(a + [x] + b), NormaliseSales))
    requires IsSeriesOf(s2, Events(FilterEligible(a + b), NormaliseSales))
    ensures s1 == s2
  {
    FilterThenNormalise(a + [x] + b);
    FilterThenNormalise(a + b);
    SkippedRecordIgnored(a, x, b, SalesEvent, s1, s2);
  }

  /** An eligible customer without a truthy or valid `date_add` leaves the
      report as it is. */
  lemma UndatedCustomerSkipped(a: seq<SalesRecord>, x: SalesRecord, b: seq<SalesRecord>,
                               s1: seq<Bucket>, s2: seq<Bucket>)
    requires !Truthy(x.dateAdd) || ParseDate(x.dateAdd.value).None?
    requires IsSeriesOf(s1, Events(FilterEligible(a + [x] + b), NormaliseSales))
    requires IsSeriesOf(s2, Events(FilterEligible(a + b), NormaliseSales))
    ensures s1 == s2
  {
    FilterThenNormalise(a + [x] + b);
    FilterThenNormalise(a + b);
    SkippedRecordIgnored(a, x, b, SalesEvent, s1, s2);
  }

  /** The collection report does not depend on the order of the rows. */
  lemma CollectionOrderIndependent(a: seq<CollectionRecord>, b: seq<CollectionRecord>,
                                   s1: seq<Bucket>, s2: seq<Bucket>)
    requires multiset(a) == multiset(b)
    requires IsSeriesOf(s1, Events(a, NormaliseCollection))
    requires IsSeriesOf(s2, Events(b, NormaliseCollection))
    ensures s1 == s2
  {
    OrderIndependent(a, b, NormaliseCollection, s1, s2);
  }

  /** The sales report does not depend on the order of the rows. */
  lemma SalesOrderIndependent(a: seq<SalesRecord>, b: seq<SalesRecord>, s1: seq<Bucket>, s2: seq<Bucket>)
    requires multiset(a) == multiset(b)
    requires IsSeriesOf(s1, Events(FilterEligible(a), NormaliseSales))
    requires IsSeriesOf(s2, Events(FilterEligible(b), NormaliseSales))
    ensures s1 == s2
  {
    FilterThenNormalise(a);
    FilterThenNormalise(b);
    OrderIndependent(a, b, SalesEvent, s1, s2);
  }

  /** A collection row whose date is a `YYYY-MM-DD hh:mm...` timestamp shows
      in the bucket of its month, under the region its province names. */
  lemma TimestampedRowShown(records: seq<CollectionRecord>, s: seq<Bucket>, i: nat,
                            year: nat, month: nat, day: nat, time: string)
    requires IsSeriesOf(s, Events(records, NormaliseCollection))
    requires i < |records|
    requires year < 10000 && 1 <= month <= 12 && 1 <= day <= DaysInMonth(year, month)
    requires ValidTime(time)
    requires CollectionDateText(records[i]) == Some(FormatDate(year, month, day) + " " + time)
    ensures exists j :: 0 <= j < |s| && s[j].monthLabel == Label(YearMonth(year, month - 1))
                        && Field(s[j], ClassifyProvince(ProvinceText(records[i]))) > 0
  {
    CollectionTimestamp(records[i], year, month, day, time);
    KeptRecordShown(records, NormaliseCollection, s, i);
  }

  /** The sales totals cards: every region card counts the kept customers
      of that region, and no more customers are counted than passed the
      filter. */
  lemma SalesTotals(customers: seq<SalesRecord>, s: seq<Bucket>)
    requires IsSeriesOf(s, Events(FilterEligible(customers), NormaliseSales))
    ensures Render(s).totals.all == |Events(FilterEligible(customers), NormaliseSales)|
    ensures Render(s).totals.all <= |FilterEligible(customers)| <= |customers|
  {
    RenderedTotals(s, Events(FilterEligible(customers), NormaliseSales));
    EventsMembers(FilterEligible(customers), NormaliseSales);
  }
}
