/** The raw rows the two reports read, and how each row becomes a kept
    record (an `Event`) or is skipped: field fallbacks, date parsing, region
    classification, and the sales report's eligibility filter. A field is
    absent (`None`) or holds text. */
module Records {
  import opened Wrappers
  import opened JsText
  import opened JsNumber
  import opened Dates
  import opened Regions
  import opened Aggregation

  /** A collection-history row: `Date`, `date`, `created_at`, `Province`,
      `province`. */
  datatype CollectionRecord = CollectionRecord(
    upperDate: Option<string>, date: Option<string>, createdAt: Option<string>,
    upperProvince: Option<string>, province: Option<string>)

  /** A customer row of the sales feed: `partner_id`, `mrr_total`,
      `date_add`, `location_id`. */
  datatype SalesRecord = SalesRecord(
    partnerId: Option<string>, mrrTotal: Option<string>, dateAdd: Option<string>,
    locationId: Option<string>)

  /** JavaScript truthiness of a field: present and not the empty string. */
  predicate Truthy(v: Option<string>) {
    v.Some? && v.value != ""
  }

  /** `a || b` on two fields. */
  function JsOr(a: Option<string>, b: Option<string>): Option<string> {
    if Truthy(a) then a else b
  }

  /** `v || ''` on a field, as text. */
  function OrEmpty(v: Option<string>): string {
    if Truthy(v) then v.value else ""
  }

  /** `record.Date || record.date || record.created_at`, when that is truthy:
      the first truthy field in that order, or `None` when none is. */
  function CollectionDateText(rec: CollectionRecord): (t: Option<string>)
    ensures t.Some? <==> Truthy(rec.upperDate) || Truthy(rec.date) || Truthy(rec.createdAt)
    ensures t.Some? ==> t.value != ""
    ensures Truthy(rec.upperDate) ==> t == rec.upperDate
    ensures !Truthy(rec.upperDate) && Truthy(rec.date) ==> t == rec.date
    ensures !Truthy(rec.upperDate) && !Truthy(rec.date) && Truthy(rec.createdAt) ==> t == rec.createdAt
  {
    var v := JsOr(JsOr(rec.upperDate, rec.date), rec.createdAt);
    if Truthy(v) then v else None
  }

  /** `String(record.Province || record.province || '')`. */
  function ProvinceText(rec: CollectionRecord): (p: string)
    ensures Truthy(rec.upperProvince) ==> p == rec.upperProvince.value
    ensures !Truthy(rec.upperProvince) && Truthy(rec.province) ==> p == rec.province.value
    ensures !Truthy(rec.upperProvince) && !Truthy(rec.province) ==> p == ""
  {
    OrEmpty(JsOr(rec.upperProvince, rec.province))
  }

  /** The loop body of the collection report up to the tally: a row without
      a truthy date is skipped; otherwise its first space becomes `T` and
      the result is parsed, an invalid date is skipped, and a valid one
      gives its month and the region named by the province text. */
  function NormaliseCollection(rec: CollectionRecord): (r: Option<Event>)
    ensures CollectionDateText(rec).None? ==> r.None?
    ensures r.Some? <==> CollectionDateText(rec).Some?
                         && ParseDate(ReplaceFirst(CollectionDateText(rec).value, ' ', 'T')).Some?
    ensures r.Some? ==> r.value.when == ParseDate(ReplaceFirst(CollectionDateText(rec).value, ' ', 'T')).value
    ensures r.Some? ==> r.value.region == ClassifyProvince(ProvinceText(rec))
  {
    match CollectionDateText(rec)
    case None => None
    case Some(text) =>
      match ParseDate(ReplaceFirst(text, ' ', 'T'))
      case None => None
      case Some(ym) => Some(Event(ym, ClassifyProvince(ProvinceText(rec))))
  }

  /** Turning the first space into `T` makes a database timestamp
      `YYYY-MM-DD hh:mm[:ss[.fff]][zone]` a valid date-time string. */
  lemma SpacedTimestampParses(year: nat, month: nat, day: nat, time: string)
    requires year < 10000 && 1 <= month <= 12 && 1 <= day <= DaysInMonth(year, month)
    requires ValidTime(time)
    ensures ParseDate(ReplaceFirst(FormatDate(year, month, day) + " " + time, ' ', 'T'))
            == Some(YearMonth(year, month - 1))
  {
    var d := FormatDate(year, month, day);
    ParseFormattedDate(year, month, day, []);
    assert d + [] == d;
    ParsedDateHasNoSpace(d);
    ReplaceFirstAt(d, time, ' ', 'T');
    ParseFormattedDate(year, month, day, "T" + time);
    assert ("T" + time)[1..] == time;
    Regroup(d, "T", time);
  }

  /** A collection row without a truthy province field counts as Other. */
  lemma UnnamedProvinceIsOther(rec: CollectionRecord)
    requires !Truthy(rec.upperProvince) && !Truthy(rec.province)
    ensures NormaliseCollection(rec).Some? ==> NormaliseCollection(rec).value.region == Other
  {
    BlankProvince("");
  }

  /** A database timestamp, with a space where the date-time format wants
      `T`, is counted in its calendar month. */
  lemma CollectionTimestamp(rec: CollectionRecord, year: nat, month: nat, day: nat, time: string)
    requires year < 10000 && 1 <= month <= 12 && 1 <= day <= DaysInMonth(year, month)
    requires ValidTime(time)
    requires CollectionDateText(rec) == Some(FormatDate(year, month, day) + " " + time)
    ensures NormaliseCollection(rec)
            == Some(Event(YearMonth(year, month - 1), ClassifyProvince(ProvinceText(rec))))
  {
    SpacedTimestampParses(year, month, day, time);
  }

  /** A plain calendar date `YYYY-MM-DD` is counted in its month. */
  lemma CollectionPlainDate(rec: CollectionRecord, year: nat, month: nat, day: nat)
    requires year < 10000 && 1 <= month <= 12 && 1 <= day <= DaysInMonth(year, month)
    requires CollectionDateText(rec) == Some(FormatDate(year, month, day))
    ensures NormaliseCollection(rec)
            == Some(Event(YearMonth(year, month - 1), ClassifyProvince(ProvinceText(rec))))
  {
    var d := FormatDate(year, month, day);
    ParseFormattedDate(year, month, day, []);
    assert d + [] == d;
    ParsedDateHasNoSpace(d);
    assert ReplaceFirst(d, ' ', 'T') == d;
  }

  /** `Math.abs(mrr - 399.0) < 0.01`: false for `NaN` and the infinities. */
  predicate IsMrr399(mrr: Num) {
    mrr.Finite? && -0.01 < mrr.value - 399.0 < 0.01
  }

  /** The sales filter: partner 3, a monthly recurring revenue of 399 within
      a cent, and `"2025"` somewhere in `date_add`. */
  function Eligible(c: SalesRecord): (b: bool)
    ensures b <==> ParseInt(c.partnerId) == Some(3)
                   && ParseFloat(c.mrrTotal).Finite?
                   && 398.99 < ParseFloat(c.mrrTotal).value < 399.01
                   && Contains(OrEmpty(c.dateAdd), "2025")
  {
    ParseInt(c.partnerId) == Some(3) && IsMrr399(ParseFloat(c.mrrTotal))
    && Contains(OrEmpty(c.dateAdd), "2025")
  }

  /** `parseInt` reads partner `"3"`, after any white space, as 3. */
  lemma PartnerThree(ws: string)
    requires forall i :: 0 <= i < |ws| ==> IsJsSpace(ws[i])
    ensures ParseInt(Some(ws + "3")) == Some(3)
  {
    assert NatToString(3) == "3";
    ParseIntOfDecimal(ws, 3, []);
    assert ws + "3" + [] == ws + "3";
  }

  lemma Numeral399()
    ensures NatToString(399) == "399"
  {
    assert NatToString(3) == "3";
    assert NatToString(39) == "39";
  }

  /** `parseFloat` reads `"399.0000"`, after any white space, as 399. */
  lemma Mrr399(ws: string, zeros: string)
    requires forall i :: 0 <= i < |ws| ==> IsJsSpace(ws[i])
    requires forall i :: 0 <= i < |zeros| ==> zeros[i] == '0'
    ensures ParseFloat(Some(ws + "399." + zeros)) == Finite(399.0)
  {
    var d := NatToString(399);
    var text := ws + "399." + zeros;
    assert text == ws + d + "." + zeros by {
      Numeral399();
    }
    ParseFloatOfZeroFraction(ws, 399, zeros);
  }

  /** A date written `2025-MM-DD...` contains `"2025"`. */
  lemma DateIn2025(month: nat, day: nat, tail: string)
    ensures Contains(FormatDate(2025, month, day) + tail, "2025")
  {
    assert PadDigits(2025, 4) == "2025" by {
      assert PadDigits(202, 3) == "202" by {
        assert PadDigits(20, 2) == "20";
      }
    }
    var s := FormatDate(2025, month, day) + tail;
    DateParts(PadDigits(2025, 4), PadDigits(month, 2), PadDigits(day, 2), tail);
    assert OccursAt(s, "2025", 0);
  }

  /** A row with partner `"3"`, revenue `"399.0000"` (any leading white
      space on the numbers, any number of zeros) and a `date_add` in which
      `"2025"` occurs passes the filter. */
  lemma EligibleCustomer(c: SalesRecord, ws1: string, ws2: string, zeros: string)
    requires forall i :: 0 <= i < |ws1| ==> IsJsSpace(ws1[i])
    requires forall i :: 0 <= i < |ws2| ==> IsJsSpace(ws2[i])
    requires forall i :: 0 <= i < |zeros| ==> zeros[i] == '0'
    requires c.partnerId == Some(ws1 + "3")
    requires c.mrrTotal == Some(ws2 + "399." + zeros)
    requires c.dateAdd.Some? && Contains(c.dateAdd.value, "2025")
    ensures Eligible(c)
  {
    PartnerThree(ws1);
    Mrr399(ws2, zeros);
  }

  /** A customer added in 2025 passes the filter. */
  lemma Customer2025(c: SalesRecord, ws1: string, ws2: string, zeros: string, month: nat, day: nat, tail: string)
    requires forall i :: 0 <= i < |ws1| ==> IsJsSpace(ws1[i])
    requires forall i :: 0 <= i < |ws2| ==> IsJsSpace(ws2[i])
    requires forall i :: 0 <= i < |zeros| ==> zeros[i] == '0'
    requires c.partnerId == Some(ws1 + "3")
    requires c.mrrTotal == Some(ws2 + "399." + zeros)
    requires c.dateAdd == Some(FormatDate(2025, month, day) + tail)
    ensures Eligible(c)
  {
    DateIn2025(month, day, tail);
    EligibleCustomer(c, ws1, ws2, zeros);
  }

  /** The year check is textual: a customer added at any time of any day
      of 2024 whose fraction of a second reads `2025` passes the filter. */
  lemma LooseYearCheck(c: SalesRecord, ws1: string, ws2: string, zeros: string,
                       month: nat, day: nat, hour: nat, minute: nat, second: nat)
    requires forall i :: 0 <= i < |ws1| ==> IsJsSpace(ws1[i])
    requires forall i :: 0 <= i < |ws2| ==> IsJsSpace(ws2[i])
    requires forall i :: 0 <= i < |zeros| ==> zeros[i] == '0'
    requires c.partnerId == Some(ws1 + "3")
    requires c.mrrTotal == Some(ws2 + "399." + zeros)
    requires 1 <= month <= 12 && 1 <= day <= DaysInMonth(2024, month)
    requires hour <= 23 && minute <= 59 && second <= 59
    requires c.dateAdd == Some(FormatDate(2024, month, day) + "T" + FormatTime(hour, minute, second) + ".2025")
    ensures Eligible(c)
  {
    var text := c.dateAdd.value;
    var head := FormatDate(2024, month, day) + "T" + FormatTime(hour, minute, second) + ".";
    ContainsInside(head, "2025", []);
    assert head + "2025" + [] == text;
    EligibleCustomer(c, ws1, ws2, zeros);
  }

  /** Such a customer is counted in its 2024 month. */
  lemma LooseYearMonth(c: SalesRecord, month: nat, day: nat, hour: nat, minute: nat, second: nat)
    requires 1 <= month <= 12 && 1 <= day <= DaysInMonth(2024, month)
    requires hour <= 23 && minute <= 59 && second <= 59
    requires c.dateAdd == Some(FormatDate(2024, month, day) + "T" + FormatTime(hour, minute, second) + ".2025")
    ensures NormaliseSales(c).Some? && NormaliseSales(c).value.when == YearMonth(2024, month - 1)
  {
    var x := FormatDate(2024, month, day) + "T" + FormatTime(hour, minute, second);
    FractionTimestampParses(2024, month, day, hour, minute, second, "2025");
    Regroup(x, ".", "2025");
    assert "." + "2025" == ".2025";
    assert ParseDate(c.dateAdd.value) == Some(YearMonth(2024, month - 1));
  }

  /** A timestamp `YYYY-MM-DDThh:mm:ss.fraction` parses to its month. */
  lemma FractionTimestampParses(year: nat, month: nat, day: nat, hour: nat, minute: nat, second: nat,
                                fraction: string)
    requires year < 10000 && 1 <= month <= 12 && 1 <= day <= DaysInMonth(year, month)
    requires hour <= 23 && minute <= 59 && second <= 59
    requires fraction != [] && AllDigits(fraction)
    ensures ParseDate(FormatDate(year, month, day) + "T" + FormatTime(hour, minute, second) + "." + fraction)
            == Some(YearMonth(year, month - 1))
  {
    var rest := "." + fraction;
    FractionValid(fraction, "");
    assert rest + "" == rest;
    var time := FormatTime(hour, minute, second) + rest;
    FormattedTimeValid(hour, minute, second, rest);
    var tail := "T" + time;
    assert tail[1..] == time;
    ParseFormattedDate(year, month, day, tail);
    var date := FormatDate(year, month, day);
    var clock := FormatTime(hour, minute, second);
    Regroup(date, "T", time);
    Regroup(date + "T", clock, rest);
    Regroup(date + "T" + clock, ".", fraction);
  }

  /** A partner other than 3, or a date without `"2025"`, fails the filter. */
  lemma IneligibleCustomer(c: SalesRecord)
    requires ParseInt(c.partnerId) != Some(3) || !Contains(OrEmpty(c.dateAdd), "2025")
    ensures !Eligible(c)
  {
  }

  /** A revenue that reads as a whole number other than 399 fails the
      filter, whatever the partner and the date. */
  lemma OffPlanCustomer(c: SalesRecord, ws: string, n: nat)
    requires forall i :: 0 <= i < |ws| ==> IsJsSpace(ws[i])
    requires c.mrrTotal == Some(ws + NatToString(n))
    requires n != 399
    ensures !Eligible(c)
  {
    ParseFloatOfNumeral(ws, n);
  }

  /** `Array.prototype.filter`: the elements that pass `keep`, in input
      order, each as often as it occurs in the input. */
  function Filter<T(!new)>(s: seq<T>, keep: T -> bool): (r: seq<T>)
    ensures |r| <= |s|
    ensures forall x :: x in r <==> x in s && keep(x)
    ensures forall x :: multiset(r)[x] == if keep(x) then multiset(s)[x] else 0
  {
    if s == [] then []
    else
      var init := Filter(s[..|s| - 1], keep);
      var last := s[|s| - 1];
      assert s == s[..|s| - 1] + [last];
      if keep(last) then
        assert multiset(init + [last]) == multiset(init) + multiset{last};
        init + [last]
      else init
  }

  /** Filtering a list with one more element at the end. */
  lemma FilterSnoc<T(!new)>(s: seq<T>, x: T, keep: T -> bool)
    ensures Filter(s + [x], keep) == if keep(x) then Filter(s, keep) + [x] else Filter(s, keep)
  {
    assert (s + [x])[..|s + [x]| - 1] == s;
  }

  /** How a concatenation splits off its last element. */
  lemma SplitLast<T>(a: seq<T>, b: seq<T>)
    requires b != []
    ensures a + b == (a + b[..|b| - 1]) + [b[|b| - 1]]
  {
    assert b == b[..|b| - 1] + [b[|b| - 1]];
  }

  /** Filtering keeps the input order: the filter of a concatenation is the
      filter of each part, one part after the other. */
  lemma {:induction false} FilterAppend<T(!new)>(a: seq<T>, b: seq<T>, keep: T -> bool)
    ensures Filter(a + b, keep) == Filter(a, keep) + Filter(b, keep)
    decreases |b|
  {
    if b == [] {
      assert a + b == a;
    } else {
      var b', last := b[..|b| - 1], b[|b| - 1];
      SplitLast(a, b);
      SplitLast([], b);
      assert [] + b == b && [] + b' == b';
      FilterAppend(a, b', keep);
      FilterSnoc(a + b', last, keep);
      FilterSnoc(b', last, keep);
      var fa, fb' := Filter(a, keep), Filter(b', keep);
      SplitLast(fa, fb' + [last]);
    }
  }

  /** `rawCustomers.filter(...)`: the eligible rows, in input order. */
  function FilterEligible(cs: seq<SalesRecord>): (r: seq<SalesRecord>)
    ensures |r| <= |cs|
    ensures forall c :: c in r <==> c in cs && Eligible(c)
    ensures forall c :: multiset(r)[c] == if Eligible(c) then multiset(cs)[c] else 0
  {
    Filter(cs, Eligible)
  }

  /** The loop body of the sales report up to the tally: a row without a
      truthy `date_add` is skipped; otherwise `date_add` is parsed as it is
      (no space is replaced), an invalid date is skipped, and a valid one
      gives its month and the region of `parseInt(location_id, 10)`. */
  function NormaliseSales(c: SalesRecord): (r: Option<Event>)
    ensures !Truthy(c.dateAdd) ==> r.None?
    ensures r.Some? <==> Truthy(c.dateAdd) && ParseDate(c.dateAdd.value).Some?
    ensures r.Some? ==> r.value.when == ParseDate(c.dateAdd.value).value
    ensures r.Some? ==> r.value.region == ClassifyLocation(ParseInt(c.locationId))
  {
    if !Truthy(c.dateAdd) then None
    else match ParseDate(c.dateAdd.value)
      case None => None
      case Some(ym) => Some(Event(ym, ClassifyLocation(ParseInt(c.locationId))))
  }

  /** A customer added on `YYYY-MM-DD` (optionally with `T` and a time) at a
      numeric location id is counted in that month and in the id's region. */
  lemma SalesCustomer(c: SalesRecord, year: nat, month: nat, day: nat, tail: string, ws: string, id: nat)
    requires year < 10000 && 1 <= month <= 12 && 1 <= day <= DaysInMonth(year, month)
    requires tail == [] || (tail[0] == 'T' && ValidTime(tail[1..]))
    requires forall i :: 0 <= i < |ws| ==> IsJsSpace(ws[i])
    requires c.dateAdd == Some(FormatDate(year, month, day) + tail)
    requires c.locationId == Some(ws + NatToString(id))
    ensures NormaliseSales(c) == Some(Event(YearMonth(year, month - 1), ClassifyLocation(Some(id))))
  {
    ParseFormattedDate(year, month, day, tail);
    ParseIntOfDecimal(ws, id, []);
    assert ws + NatToString(id) + [] == ws + NatToString(id);
  }
}
