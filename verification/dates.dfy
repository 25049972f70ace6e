/** Calendar months as the page derives them from record dates: a fixed
    parser standing for `new Date(text)`, the `"<Mon> <Year>"` label and the
    `year * 100 + monthIndex` sort key. */
module Dates {
  import opened Wrappers
  import opened JsText

  /** A zero-based month index, as `Date.prototype.getMonth` returns it. */
  type Month = m: nat | m < 12

  /** The calendar month a record falls in. */
  datatype YearMonth = YearMonth(year: nat, month: Month)

  /** The value of the `n` digits at position `i`, if they are all digits. */
  function NumAt(s: string, i: nat, n: nat): Option<nat> {
    if i + n <= |s| && AllDigits(s[i..i + n]) then Some(DigitsValue(s[i..i + n])) else None
  }

  /** Two digits at position `i` whose value is at most `max`. */
  predicate TwoDigitsUpTo(s: string, i: nat, max: nat) {
    NumAt(s, i, 2).Some? && NumAt(s, i, 2).value <= max
  }

  predicate IsLeapYear(year: nat) {
    year % 4 == 0 && (year % 100 != 0 || year % 400 == 0)
  }

  /** Days in a one-based month of the proleptic Gregorian calendar. */
  function DaysInMonth(year: nat, month: nat): nat
    requires 1 <= month <= 12
  {
    if month == 2 then (if IsLeapYear(year) then 29 else 28)
    else if month == 4 || month == 6 || month == 9 || month == 11 then 30
    else 31
  }

  /** A time-zone designator: none, `Z`, or `+HH:mm` / `-HH:mm`. */
  predicate ValidZone(z: string) {
    z == "" || z == "Z"
    || (|z| == 6 && (z[0] == '+' || z[0] == '-') && TwoDigitsUpTo(z, 1, 23)
        && z[3] == ':' && TwoDigitsUpTo(z, 4, 59))
  }

  /** An optional `.digits` fraction of a second, then a zone. */
  predicate ValidFractionAndZone(t: string) {
    if |t| >= 2 && t[0] == '.' && IsDigit(t[1]) then ValidZone(t[1 + DigitRun(t[1..])..])
    else ValidZone(t)
  }

  /** Optional `:ss` seconds (with an optional fraction), then a zone. */
  predicate ValidSecondsAndZone(t: string) {
    if |t| >= 1 && t[0] == ':' then TwoDigitsUpTo(t, 1, 59) && ValidFractionAndZone(t[3..])
    else ValidZone(t)
  }

  /** The time that follows `T`: `HH:mm[:ss[.fraction]][zone]`. */
  predicate ValidTime(t: string) {
    |t| >= 5 && TwoDigitsUpTo(t, 0, 23) && t[2] == ':' && TwoDigitsUpTo(t, 3, 59)
    && ValidSecondsAndZone(t[5..])
  }

  /** What follows a complete date form: nothing, or `T` and a time. */
  function DateTail(rest: string, ym: YearMonth): Option<YearMonth> {
    if rest == [] then Some(ym)
    else if rest[0] == 'T' && ValidTime(rest[1..]) then Some(ym)
    else None
  }

  /** The calendar month of `new Date(s)` for the date-time string format of
      ECMA-262: `YYYY`, `YYYY-MM` or `YYYY-MM-DD`, optionally followed by `T`
      and a time. Anything else is an invalid date (`None`). */
  function ParseDate(s: string): (r: Option<YearMonth>)
    ensures r.Some? ==> NumAt(s, 0, 4) == Some(r.value.year)
    ensures r.Some? && |s| >= 7 && s[4] == '-' ==> NumAt(s, 5, 2) == Some(r.value.month + 1)
    ensures r.Some? && (|s| < 7 || s[4] != '-') ==> r.value.month == 0
  {
    match NumAt(s, 0, 4)
    case None => None
    case Some(year) =>
      if |s| == 4 || s[4] != '-' then DateTail(s[4..], YearMonth(year, 0))
      else match NumAt(s, 5, 2)
        case None => None
        case Some(mm) =>
          if !(1 <= mm <= 12) then None
          else if |s| == 7 || s[7] != '-' then DateTail(s[7..], YearMonth(year, mm - 1))
          else match NumAt(s, 8, 2)
            case None => None
            case Some(dd) =>
              if !(1 <= dd <= DaysInMonth(year, mm)) then None
              else DateTail(s[10..], YearMonth(year, mm - 1))
  }

  /** `YYYY-MM-DD` with leading zeros. */
  function FormatDate(year: nat, month: nat, day: nat): string {
    PadDigits(year, 4) + "-" + PadDigits(month, 2) + "-" + PadDigits(day, 2)
  }

  lemma NumAtOfPadded(s: string, i: nat, n: nat, width: nat)
    requires n < Pow10(width) && i + width <= |s| && s[i..i + width] == PadDigits(n, width)
    ensures NumAt(s, i, width) == Some(n)
  {
    DigitsValueOfPadDigits(n, width);
  }

  /** Where the parts of `YYYY-MM-DD` followed by a tail sit. */
  lemma DateParts(y: string, m: string, d: string, tail: string)
    requires |y| == 4 && |m| == 2 && |d| == 2
    ensures var s := y + "-" + m + "-" + d + tail;
            s[0..4] == y && s[4] == '-' && s[5..7] == m && s[7] == '-' && s[8..10] == d && s[10..] == tail
  {
  }

  /** The date parser reads back a calendar date written as `YYYY-MM-DD`
      followed by nothing or by `T` and a time. */
  lemma ParseFormattedDate(year: nat, month: nat, day: nat, tail: string)
    requires year < 10000 && 1 <= month <= 12 && 1 <= day <= DaysInMonth(year, month)
    requires tail == [] || (tail[0] == 'T' && ValidTime(tail[1..]))
    ensures ParseDate(FormatDate(year, month, day) + tail) == Some(YearMonth(year, month - 1))
  {
    var s := FormatDate(year, month, day) + tail;
    assert Pow10(2) == 100 && Pow10(4) == 10000;
    DateParts(PadDigits(year, 4), PadDigits(month, 2), PadDigits(day, 2), tail);
    NumAtOfPadded(s, 0, year, 4);
    NumAtOfPadded(s, 5, month, 2);
    NumAtOfPadded(s, 8, day, 2);
  }

  /** `hh:mm:ss` with leading zeros. */
  function FormatTime(hour: nat, minute: nat, second: nat): string {
    PadDigits(hour, 2) + ":" + PadDigits(minute, 2) + ":" + PadDigits(second, 2)
  }

  /** A fraction of a second, `.digits`, followed by a zone designator. */
  lemma FractionValid(fraction: string, zone: string)
    requires fraction != [] && AllDigits(fraction)
    requires ValidZone(zone)
    ensures ValidFractionAndZone("." + fraction + zone)
  {
    var v := "." + fraction + zone;
    assert v[1..] == fraction + zone;
    DigitRunOf(fraction, zone);
    assert v[1 + |fraction|..] == zone;
  }

  /** Seconds `:ss` followed by a valid fraction and zone. */
  lemma SecondsValid(second: nat, rest: string)
    requires second <= 59 && ValidFractionAndZone(rest)
    ensures ValidSecondsAndZone(":" + PadDigits(second, 2) + rest)
  {
    var u := ":" + PadDigits(second, 2) + rest;
    assert Pow10(2) == 100;
    assert u[1..3] == PadDigits(second, 2) && u[3..] == rest;
    NumAtOfPadded(u, 1, second, 2);
  }

  /** Hours and minutes `hh:mm` followed by valid seconds and zone. */
  lemma ClockValid(hour: nat, minute: nat, rest: string)
    requires hour <= 23 && minute <= 59 && ValidSecondsAndZone(rest)
    ensures ValidTime(PadDigits(hour, 2) + ":" + PadDigits(minute, 2) + rest)
  {
    var t := PadDigits(hour, 2) + ":" + PadDigits(minute, 2) + rest;
    assert Pow10(2) == 100;
    assert t[0..2] == PadDigits(hour, 2) && t[2] == ':' && t[3..5] == PadDigits(minute, 2) && t[5..] == rest;
    NumAtOfPadded(t, 0, hour, 2);
    NumAtOfPadded(t, 3, minute, 2);
  }

  /** A time of day written `hh:mm:ss` followed by a valid fraction and
      zone is a valid time. */
  lemma FormattedTimeValid(hour: nat, minute: nat, second: nat, rest: string)
    requires hour <= 23 && minute <= 59 && second <= 59
    requires ValidFractionAndZone(rest)
    ensures ValidTime(FormatTime(hour, minute, second) + rest)
  {
    var r := ":" + PadDigits(second, 2) + rest;
    SecondsValid(second, rest);
    ClockValid(hour, minute, r);
    var clock := PadDigits(hour, 2) + ":" + PadDigits(minute, 2);
    Regroup(clock, ":" + PadDigits(second, 2), rest);
    Regroup(clock, ":", PadDigits(second, 2));
  }

  /** No text with a space is a valid date: this is why the collection
      pipeline turns its first space into `T` before parsing. */
  lemma ParsedDateHasNoSpace(s: string)
    requires ParseDate(s).Some?
    ensures ' ' !in s
  {
    var year := NumAt(s, 0, 4).value;
    NoSpaceInDigits(s, 0, 4);
    if |s| == 4 || s[4] != '-' {
      DateTailHasNoSpace(s, 4, YearMonth(year, 0));
    } else {
      NoSpaceInDigits(s, 5, 2);
      var mm := NumAt(s, 5, 2).value;
      if |s| == 7 || s[7] != '-' {
        DateTailHasNoSpace(s, 7, YearMonth(year, mm - 1));
      } else {
        NoSpaceInDigits(s, 8, 2);
        DateTailHasNoSpace(s, 10, YearMonth(year, mm - 1));
      }
    }
  }

  lemma NoSpaceInDigits(s: string, i: nat, n: nat)
    requires NumAt(s, i, n).Some?
    ensures forall k :: i <= k < i + n ==> s[k] != ' '
  {
    assert forall k :: i <= k < i + n ==> s[k] == s[i..i + n][k - i];
  }

  lemma DateTailHasNoSpace(s: string, i: nat, ym: YearMonth)
    requires i <= |s|
    requires forall k :: 0 <= k < i ==> s[k] != ' '
    requires DateTail(s[i..], ym).Some?
    ensures ' ' !in s
  {
    var rest := s[i..];
    if rest != [] {
      TimeHasNoSpace(rest[1..]);
      assert forall k :: i <= k < |s| ==> s[k] == rest[k - i];
      assert forall k :: i + 1 <= k < |s| ==> s[k] == rest[1..][k - i - 1];
    }
  }

  lemma TimeHasNoSpace(t: string)
    requires ValidTime(t)
    ensures ' ' !in t
  {
    NoSpaceInDigits(t, 0, 2);
    NoSpaceInDigits(t, 3, 2);
    var u := t[5..];
    if |u| >= 1 && u[0] == ':' {
      NoSpaceInDigits(u, 1, 2);
      var v := u[3..];
      if |v| >= 2 && v[0] == '.' && IsDigit(v[1]) {
        var k := DigitRun(v[1..]);
        assert forall j :: 1 <= j < 1 + k ==> v[j] == v[1..][..k][j - 1];
        ZoneHasNoSpace(v[1 + k..]);
        assert forall j :: 1 + k <= j < |v| ==> v[j] == v[1 + k..][j - 1 - k];
      } else {
        ZoneHasNoSpace(v);
      }
      assert forall j :: 3 <= j < |u| ==> u[j] == v[j - 3];
    } else {
      ZoneHasNoSpace(u);
    }
    assert forall j :: 5 <= j < |t| ==> t[j] == u[j - 5];
  }

  lemma ZoneHasNoSpace(z: string)
    requires ValidZone(z)
    ensures ' ' !in z
  {
    if |z| == 6 {
      NoSpaceInDigits(z, 1, 2);
      NoSpaceInDigits(z, 4, 2);
    }
  }

  /** The short English month names `toLocaleString` gives in the default
      locale, January first. */
  const MonthNames: seq<string> :=
    ["Jan", "Feb", "Mar", "Apr", "May", "Jun", "Jul", "Aug", "Sep", "Oct", "Nov", "Dec"]

  /** The bucket label `"<Mon> <Year>"`. */
  function Label(ym: YearMonth): string {
    MonthNames[ym.month] + " " + NatToString(ym.year)
  }

  /** The bucket sort key `year * 100 + monthIndex`. */
  function SortKey(ym: YearMonth): nat {
    ym.year * 100 + ym.month
  }

  /** Different months get different labels, so the label map holds one
      bucket per calendar month. */
  lemma LabelInjective(a: YearMonth, b: YearMonth)
    requires Label(a) == Label(b)
    ensures a == b
  {
    assert forall m: Month :: |MonthNames[m]| == 3;
    assert Label(a)[..3] == MonthNames[a.month];
    assert Label(b)[..3] == MonthNames[b.month];
    assert Label(a)[4..] == NatToString(a.year);
    assert Label(b)[4..] == NatToString(b.year);
    NatToStringInjective(a.year, b.year);
  }

  /** The sort key orders months chronologically, the year first, so that
      December of one year comes before January of the next; equal keys
      mean the same month. */
  lemma SortKeyChronological(a: YearMonth, b: YearMonth)
    ensures SortKey(a) < SortKey(b) <==> a.year < b.year || (a.year == b.year && a.month < b.month)
    ensures SortKey(a) == SortKey(b) <==> a == b
  {
  }

  /** The month a sort key stands for. */
  function MonthOfKey(key: nat): (ym: YearMonth)
    requires key % 100 < 12
    ensures SortKey(ym) == key
  {
    YearMonth(key / 100, key % 100)
  }

  lemma MonthOfSortKey(ym: YearMonth)
    ensures SortKey(ym) % 100 < 12 && MonthOfKey(SortKey(ym)) == ym
  {
  }
}
