/** The render-time arithmetic over a series: the per-region totals, the
    largest bar, the chart's vertical scale with 20% headroom, and each
    bar's height and segment shares in percent. */
module Chart {
  import opened JsText
  import opened Dates
  import opened Regions
  import opened Aggregation

  /** `item.Gauteng + item.Limpopo + item.Other`. */
  function BucketTotal(b: Bucket): nat {
    b.gauteng + b.limpopo + b.other
  }

  /** `data.reduce((acc, curr) => acc + curr.<region>, 0)`. */
  function SumRegion(s: seq<Bucket>, r: Region): nat {
    if s == [] then 0 else SumRegion(s[..|s| - 1], r) + Field(s[|s| - 1], r)
  }

  /** The sum of all bar totals. */
  function SumTotals(s: seq<Bucket>): nat {
    if s == [] then 0 else SumTotals(s[..|s| - 1]) + BucketTotal(s[|s| - 1])
  }

  /** `{ totalGauteng, totalLimpopo, totalOther, totalAll }`. */
  datatype Totals = Totals(gauteng: nat, limpopo: nat, other: nat, all: nat)

  /** The three region sums add up to the sum of the bar totals. */
  lemma {:induction false} RegionSumsAddUp(s: seq<Bucket>)
    ensures SumRegion(s, Gauteng) + SumRegion(s, Limpopo) + SumRegion(s, Other) == SumTotals(s)
  {
    if s != [] {
      RegionSumsAddUp(s[..|s| - 1]);
    }
  }

  /** The totals cards: each region's sum over all buckets, and `totalAll`
      as their sum, which is also the sum of all bar totals. */
  function ComputeTotals(s: seq<Bucket>): (t: Totals)
    ensures t.all == SumTotals(s)
    ensures t.all == t.gauteng + t.limpopo + t.other
  {
    var g := SumRegion(s, Gauteng);
    var l := SumRegion(s, Limpopo);
    var o := SumRegion(s, Other);
    RegionSumsAddUp(s);
    Totals(g, l, o, g + l + o)
  }

  /** `Math.max(...data.map(d => d.Gauteng + d.Limpopo + d.Other))`. */
  function MaxTotal(s: seq<Bucket>): (m: nat)
    requires s != []
    ensures exists i :: 0 <= i < |s| && BucketTotal(s[i]) == m
    ensures forall i :: 0 <= i < |s| ==> BucketTotal(s[i]) <= m
  {
    if |s| == 1 then BucketTotal(s[0])
    else
      var rest := MaxTotal(s[..|s| - 1]);
      var last := BucketTotal(s[|s| - 1]);
      assert forall i :: 0 <= i < |s| - 1 ==> s[..|s| - 1][i] == s[i];
      if last > rest then last else rest
  }

  /** The axis height the page falls back to when there is no data. */
  const EmptyChartMaxValue: nat := 10

  /** `maxValue`: the largest bar total, or 10 for an empty series. */
  function MaxValue(s: seq<Bucket>): nat {
    if |s| > 0 then MaxTotal(s) else EmptyChartMaxValue
  }

  /** `Math.ceil(maxValue * 1.2)`: the least whole number at or above
      `maxValue` with 20% headroom. */
  function ChartMax(maxValue: nat): (c: nat)
    ensures c as real >= maxValue as real * 1.2
    ensures (c as real) - 1.0 < maxValue as real * 1.2
  {
    (6 * maxValue + 4) / 5
  }

  /** `chartMax > 0 ? (totalHeight / chartMax) * 100 : 0`. */
  function HeightPct(total: nat, chartMax: nat): (h: real)
    ensures 0.0 <= h
    ensures total <= chartMax ==> h <= 100.0
    ensures chartMax == 0 ==> h == 0.0
    ensures 0 < chartMax && total == chartMax ==> h == 100.0
    ensures 0 < chartMax && 0 < total ==> 0.0 < h
    ensures 0 < chartMax ==> h * chartMax as real == total as real * 100.0
  {
    if chartMax > 0 then
      var q := total as real / chartMax as real;
      assert q * chartMax as real == total as real;
      assert total <= chartMax ==> q <= 1.0;
      q * 100.0
    else 0.0
  }

  /** The share of each region in one bar, in percent. */
  datatype Shares = Shares(gauteng: real, limpopo: real, other: real)

  /** One region's share of a bar in percent, `(count / total) * 100`. */
  function Pct(count: nat, total: nat): real
    requires total > 0
  {
    count as real / total as real * 100.0
  }

  /** A share times the total gives back the count, in percent. */
  lemma PctTimesTotal(count: nat, total: nat)
    requires total > 0
    ensures Pct(count, total) * total as real == count as real * 100.0
    ensures 0.0 <= Pct(count, total)
  {
    var q := count as real / total as real;
    assert q * total as real == count as real;
  }

  /** The shares of three counts make up the whole bar. */
  lemma PctsAddUp(g: nat, l: nat, o: nat)
    requires g + l + o > 0
    ensures Pct(g, g + l + o) + Pct(l, g + l + o) + Pct(o, g + l + o) == 100.0
  {
    var total := g + l + o;
    var t := total as real;
    PctTimesTotal(g, total);
    PctTimesTotal(l, total);
    PctTimesTotal(o, total);
    var sum := Pct(g, total) + Pct(l, total) + Pct(o, total);
    assert sum * t == (g as real + l as real + o as real) * 100.0;
    assert sum * t == 100.0 * t;
  }

  /** `gpPct`, `lpPct`, `otherPct`: each region's count over the bar total
      times 100, or 0 for an empty bar. */
  function SegmentPcts(b: Bucket): (p: Shares)
    ensures BucketTotal(b) > 0 ==> p.gauteng + p.limpopo + p.other == 100.0
    ensures 0.0 <= p.gauteng && 0.0 <= p.limpopo && 0.0 <= p.other
    ensures BucketTotal(b) == 0 ==> p == Shares(0.0, 0.0, 0.0)
  {
    var total := BucketTotal(b);
    if total > 0 then
      PctTimesTotal(b.gauteng, total);
      PctTimesTotal(b.limpopo, total);
      PctTimesTotal(b.other, total);
      PctsAddUp(b.gauteng, b.limpopo, b.other);
      Shares(Pct(b.gauteng, total), Pct(b.limpopo, total), Pct(b.other, total))
    else Shares(0.0, 0.0, 0.0)
  }

  /** Each segment is in proportion to its region's count: share times the
      bar total is the count in percent. */
  lemma SharesProportional(b: Bucket, r: Region)
    requires BucketTotal(b) > 0
    ensures var p := SegmentPcts(b);
            (match r case Gauteng => p.gauteng case Limpopo => p.limpopo case Other => p.other)
              * BucketTotal(b) as real == Field(b, r) as real * 100.0
  {
    PctTimesTotal(Field(b, r), BucketTotal(b));
  }

  /** `Math.round(x)`: the nearest integer, halves rounded up. */
  function JsRound(x: real): (n: int)
    ensures x - 0.5 < n as real <= x + 0.5
  {
    (x + 0.5).Floor
  }

  /** The fractions of the scale at which the grid lines are drawn, top first. */
  const TickFractions: seq<real> := [1.0, 0.75, 0.5, 0.25, 0.0]

  /** Rounding never reverses an order. */
  lemma JsRoundMonotone(x: real, y: real)
    requires x <= y
    ensures JsRound(x) <= JsRound(y)
  {
  }

  /** The grid labels `Math.round(chartMax * tick)`, top first: the scale
      itself at the top, 0 at the bottom, never increasing downwards, each
      within half a unit of its fraction of the scale. */
  function AxisLabels(chartMax: nat): (labels: seq<int>)
    ensures |labels| == |TickFractions|
    ensures labels[0] == chartMax && labels[4] == 0
    ensures forall i :: 0 < i < |labels| ==> labels[i - 1] >= labels[i]
    ensures forall i :: 0 <= i < |labels| ==>
              chartMax as real * TickFractions[i] - 0.5 < labels[i] as real <= chartMax as real * TickFractions[i] + 0.5
  {
    var c := chartMax as real;
    JsRoundMonotone(c * 0.75, c);
    JsRoundMonotone(c * 0.5, c * 0.75);
    JsRoundMonotone(c * 0.25, c * 0.5);
    JsRoundMonotone(0.0, c * 0.25);
    [JsRound(c * 1.0), JsRound(c * 0.75), JsRound(c * 0.5), JsRound(c * 0.25), JsRound(c * 0.0)]
  }

  /** `s.split(' ')`. */
  function SplitOnSpace(s: string): (parts: seq<string>)
    ensures |parts| >= 1
  {
    if s == [] then [""]
    else
      var rest := SplitOnSpace(s[1..]);
      if s[0] == ' ' then [""] + rest else [[s[0]] + rest[0]] + rest[1..]
  }

  /** A text without a space splits into itself. */
  lemma {:induction false} SplitWithoutSpace(s: string)
    requires ' ' !in s
    ensures SplitOnSpace(s) == [s]
  {
    if s != [] {
      SplitWithoutSpace(s[1..]);
      assert [s[0]] + s[1..] == s;
    }
  }

  /** A space after a space-free head separates the head from the rest. */
  lemma {:induction false} SplitAfterWord(a: string, b: string)
    requires ' ' !in a
    ensures SplitOnSpace(a + " " + b) == [a] + SplitOnSpace(b)
  {
    if a == [] {
      assert a + " " + b == [' '] + b;
    } else {
      assert (a + " " + b)[1..] == a[1..] + " " + b;
      SplitAfterWord(a[1..], b);
      assert [a[0]] + a[1..] == a;
    }
  }

  /** The bar caption splits the label back into the month name and the
      year: `label.split(' ')` is exactly those two words. */
  lemma CaptionOfLabel(ym: YearMonth)
    ensures SplitOnSpace(Label(ym)) == [MonthNames[ym.month], NatToString(ym.year)]
  {
    assert forall m: Month :: ' ' !in MonthNames[m];
    var y := NatToString(ym.year);
    assert ' ' !in y by {
      assert forall i :: 0 <= i < |y| ==> IsDigit(y[i]);
    }
    SplitAfterWord(MonthNames[ym.month], y);
    SplitWithoutSpace(y);
  }

  /** What one bar of the chart shows: the two caption lines, the height
      and the three segment shares. */
  datatype Bar = Bar(monthText: string, yearText: string, heightPct: real, shares: Shares)

  /** The bar caption `label.split(' ')[0]` over `label.split(' ')[1]`
      (empty where the split yields `undefined`, which renders as nothing). */
  function Caption(text: string): (lines: (string, string))
  {
    var parts := SplitOnSpace(text);
    (parts[0], if |parts| > 1 then parts[1] else "")
  }

  /** What the chart shows: the totals cards, whether the Other legend and
      card are shown, the scale, the grid labels and the bars. */
  datatype ChartData = ChartData(totals: Totals, otherShown: bool, maxValue: nat, chartMax: nat,
                                 axis: seq<int>, bars: seq<Bar>)

  /** The render helpers applied to a series. */
  function Render(s: seq<Bucket>): (c: ChartData)
    ensures |c.bars| == |s|
    ensures c.chartMax >= c.maxValue
    ensures c.otherShown <==> c.totals.other > 0
    ensures forall i :: 0 <= i < |s| ==> 0.0 <= c.bars[i].heightPct <= 100.0
    ensures forall i :: 0 <= i < |s| && BucketTotal(s[i]) > 0 ==>
              c.bars[i].shares.gauteng + c.bars[i].shares.limpopo + c.bars[i].shares.other == 100.0
    ensures s == [] ==> c.maxValue == 10 && c.chartMax == 12
  {
    var maxValue := MaxValue(s);
    var chartMax := ChartMax(maxValue);
    var totals := ComputeTotals(s);
    ChartData(totals, totals.other > 0, maxValue, chartMax, AxisLabels(chartMax),
              seq(|s|, i requires 0 <= i < |s| =>
                var caption := Caption(s[i].monthLabel);
                Bar(caption.0, caption.1, HeightPct(BucketTotal(s[i]), chartMax), SegmentPcts(s[i]))))
  }
}
