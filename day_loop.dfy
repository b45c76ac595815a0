/** The day-by-day loop both scrapers use to list dates: from a start date
    through an end date, one day at a time, each date written year first
    with a separator (`%Y/%m/%d` or `%Y-%m-%d`). Stepping past 9999-12-31
    raises `OverflowError` in `datetime`, which is `None` here. */
module DayLoop {
  import opened Wrappers
  import opened Text
  import opened Calendar
  import opened Days

  /** Each date written year first with `sep`. */
  function Written(days: seq<Date>, sep: char): (r: seq<string>)
    requires forall k :: 0 <= k < |days| ==> Valid(days[k])
    ensures |r| == |days|
  {
    seq(|days|, k requires 0 <= k < |days| => YearFirstDate(days[k], sep))
  }

  lemma WrittenSnoc(days: seq<Date>, n: nat, sep: char)
    requires n < |days| && forall k :: 0 <= k < |days| ==> Valid(days[k])
    ensures Written(days[..n + 1], sep) == Written(days[..n], sep) + [YearFirstDate(days[n], sep)]
  {
  }

  /** A day reached by the loop that is not past the end is the next day of
      the range. */
  lemma RangeStep(start: Date, end: Date, current: Date, n: nat)
    requires Valid(start) && Valid(end) && Valid(current)
    requires Ordinal(current) == Ordinal(start) + n && Ordinal(current) <= Ordinal(end)
    ensures n < |DateRange(start, end)| && DateRange(start, end)[n] == current
    ensures current == MaxDate ==> end == MaxDate && Ordinal(start) <= Ordinal(end)
  {
    OrdinalInjective(current, DateRange(start, end)[n]);
    OrdinalAtMostMax(end);
  }

  /** A day past the end ends the loop with the whole range. */
  lemma RangeDone(start: Date, end: Date, current: Date, n: nat)
    requires Valid(start) && Valid(end) && Valid(current)
    requires Ordinal(current) == Ordinal(start) + n && Ordinal(current) > Ordinal(end)
    requires n <= |DateRange(start, end)|
    ensures n == |DateRange(start, end)|
  {
  }

  /** One turn of the loop: the date is appended and the day after it is
      taken, None when there is none. */
  method DayStep(ghost start: Date, ghost end: Date, current: Date, sep: char, dates: seq<string>)
    returns (appended: seq<string>, next: Option<Date>)
    requires Valid(start) && Valid(end) && Valid(current)
    requires Ordinal(current) == Ordinal(start) + |dates| && Ordinal(current) <= Ordinal(end)
    requires dates == Written(DateRange(start, end)[..|dates|], sep)
    ensures |appended| == |dates| + 1 <= |DateRange(start, end)|
    ensures appended == Written(DateRange(start, end)[..|appended|], sep)
    ensures next.None? ==> end == MaxDate && Ordinal(start) <= Ordinal(end)
    ensures next.Some? ==> Valid(next.value) && Ordinal(next.value) == Ordinal(start) + |appended|
  {
    RangeStep(start, end, current, |dates|);
    WrittenSnoc(DateRange(start, end), |dates|, sep);
    appended := dates + [YearFirstDate(current, sep)];
    if current == MaxDate {
      return appended, None;
    }
    next := Some(NextDay(current));
  }

  /** The loop `while current <= end: append; current += 1 day`: every day
      of the range written with `sep`, or None when the range reaches
      9999-12-31, the last day having no successor. */
  method DayByDay(start: Date, end: Date, sep: char) returns (r: Option<seq<string>>)
    requires Valid(start) && Valid(end)
    ensures end == MaxDate && Ordinal(start) <= Ordinal(end) ==> r == None
    ensures !(end == MaxDate && Ordinal(start) <= Ordinal(end)) ==> r == Some(Written(DateRange(start, end), sep))
  {
    ghost var days := DateRange(start, end);
    var dates: seq<string> := [];
    var current := start;
    while Ordinal(current) <= Ordinal(end)
      invariant Valid(current) && Ordinal(current) == Ordinal(start) + |dates|
      invariant |dates| <= |days|
      invariant dates == Written(days[..|dates|], sep)
      decreases Ordinal(end) - Ordinal(current)
    {
      var next;
      dates, next := DayStep(start, end, current, sep, dates);
      if next.None? {
        return None;
      }
      current := next.value;
    }
    RangeDone(start, end, current, |dates|);
    assert days[..|days|] == days;
    r := Some(dates);
  }

  /** Every item reads back, with the same format, as its date. */
  lemma WrittenReadsBack(days: seq<Date>, sep: char)
    requires forall k :: 0 <= k < |days| ==> Valid(days[k])
    requires !IsAsciiDigit(sep)
    ensures forall k :: 0 <= k < |days| ==> Strptime(Written(days, sep)[k], YearFirstFormat(sep)) == Some(days[k])
  {
    forall k | 0 <= k < |days| ensures Strptime(Written(days, sep)[k], YearFirstFormat(sep)) == Some(days[k]) {
      YearFirstRoundTrip(days[k], sep);
    }
  }

  /** A date is named exactly when it lies in the range. */
  lemma WrittenMember(start: Date, end: Date, d: Date, sep: char)
    requires Valid(start) && Valid(end) && Valid(d)
    requires !IsAsciiDigit(sep)
    ensures YearFirstDate(d, sep) in Written(DateRange(start, end), sep) <==> Ordinal(start) <= Ordinal(d) <= Ordinal(end)
  {
    DateRangeMember(start, end, d);
    if YearFirstDate(d, sep) in Written(DateRange(start, end), sep) {
      WrittenOnlyItsDays(DateRange(start, end), d, sep);
    }
    if d in DateRange(start, end) {
      WrittenEveryDay(DateRange(start, end), d, sep);
    }
  }

  /** A date written in the list is one of its days. */
  lemma WrittenOnlyItsDays(days: seq<Date>, d: Date, sep: char)
    requires forall k :: 0 <= k < |days| ==> Valid(days[k])
    requires Valid(d) && !IsAsciiDigit(sep)
    requires YearFirstDate(d, sep) in Written(days, sep)
    ensures d in days
  {
    var r := Written(days, sep);
    var k :| 0 <= k < |r| && r[k] == YearFirstDate(d, sep);
    YearFirstRoundTrip(d, sep);
    YearFirstRoundTrip(days[k], sep);
  }

  /** Every day of the list is written in it. */
  lemma WrittenEveryDay(days: seq<Date>, d: Date, sep: char)
    requires forall k :: 0 <= k < |days| ==> Valid(days[k])
    requires Valid(d) && d in days
    ensures YearFirstDate(d, sep) in Written(days, sep)
  {
    var k :| 0 <= k < |days| && days[k] == d;
    assert Written(days, sep)[k] == YearFirstDate(d, sep);
  }
}
