/** `utils.parse_date`: the date strings of the three news sites brought to
    the ISO 8601 calendar-date extended format YYYY-MM-DD, by a cascade of
    `strptime` attempts that falls back to the input unchanged; and the
    truncation `utils.vectorize_text` applies before embedding. */
module Dates {
  import opened Wrappers
  import opened Text
  import opened Calendar

  /** The lowercase month names whose presence selects the named-month
      formats. */
  const LowerMonths: seq<string> := ["january", "february", "march", "april", "may", "june",
    "july", "august", "september", "october", "november", "december"]

  const DashedFormat: seq<Directive> := [Day, Lit('-'), Month, Lit('-'), Year]
  const DayFirstFormat: seq<Directive> := [Day, Lit('/'), Month, Lit('/'), Year]

  /** The formats tried last, in order. */
  const Formats: seq<seq<Directive>> := [
    IsoFormat,
    DayFirstFormat,
    [Month, Lit('/'), Day, Lit('/'), Year],
    DashedFormat,
    [Year, Lit('/'), Month, Lit('/'), Day],
    [Day, Lit('.'), Month, Lit('.'), Year],
    LongFormat,
    [Day, Gap, MonthName, Gap, Year],
    [Day, Gap, MonthAbbr, Gap, Year],
    [MonthAbbr, Gap, Day, Lit(','), Gap, Year]
  ]

  predicate MentionsMonth(s: string) {
    exists k :: 0 <= k < |LowerMonths| && Contains(Lower(s), LowerMonths[k])
  }

  /** Ten characters shaped `dddd-dd-dd`. */
  predicate IsoDigits(t: string) {
    |t| == 10 && t[4] == '-' && t[7] == '-'
    && forall k :: 0 <= k < 10 && k != 4 && k != 7 ==> IsAsciiDigit(t[k])
  }

  /** `re.match(r'^\d{4}-\d{2}-\d{2}$', s)`; `$` also matches just before a
      final newline. */
  predicate IsoShaped(s: string) {
    IsoDigits(s) || (|s| == 11 && s[10] == '\n' && IsoDigits(s[..10]))
  }

  /** What `strptime` makes of `s` under each format. */
  function Attempts(s: string, fmts: seq<seq<Directive>>): (r: seq<Option<Date>>)
    ensures |r| == |fmts| && forall i :: 0 <= i < |fmts| ==> r[i] == Strptime(s, fmts[i])
  {
    seq(|fmts|, i requires 0 <= i < |fmts| => Strptime(s, fmts[i]))
  }

  /** The index of the first success in `xs[k..]`. */
  function FirstSome<T>(xs: seq<Option<T>>, k: nat): (r: Option<nat>)
    ensures r.Some? ==> k <= r.value < |xs| && xs[r.value].Some?
    ensures r.Some? ==> forall i :: k <= i < r.value ==> xs[i].None?
    ensures r.None? ==> forall i :: k <= i < |xs| ==> xs[i].None?
    decreases |xs| - k
  {
    if k >= |xs| then None
    else if xs[k].Some? then Some(k)
    else FirstSome(xs, k + 1)
  }

  /** The `"08-01-2023 | 7:46 PM"` rule: the stripped text before the first
      `|`, read day first. */
  function PipeDate(s: string): Option<Date> {
    if Contains(s, "|") then Strptime(Strip(Split(s, "|")[0]), DashedFormat) else None
  }

  /** The named-month rule: with a time, then without. */
  function NamedDate(s: string): Option<Date> {
    if MentionsMonth(s) then
      match Strptime(s, LongTimeFormat)
      case Some(d) => Some(d)
      case None => Strptime(s, LongFormat)
    else None
  }

  datatype Normal = AsDate(date: Date) | Unchanged

  /** Which rule decides a non-empty input. */
  function Cascade(s: string): (r: Normal)
    ensures r.AsDate? ==> Valid(r.date)
  {
    match PipeDate(s)
    case Some(d) => AsDate(d)
    case None =>
      match NamedDate(s)
      case Some(d) => AsDate(d)
      case None =>
        if IsoShaped(s) then Unchanged
        else
          var tries := Attempts(s, Formats);
          match FirstSome(tries, 0)
          case Some(j) => AsDate(tries[j].value)
          case None => Unchanged
  }

  /** `parse_date(date_str)`, with `None` for Python's `None`. */
  function ParseDate(input: Option<string>): (r: string)
    ensures input.None? || input == Some("") ==> r == ""
    ensures input.Some? && input.value != "" ==>
              r == input.value || exists d :: Valid(d) && r == IsoDate(d)
  {
    if input.None? || input.value == "" then ""
    else
      match Cascade(input.value)
      case AsDate(d) => IsoDate(d)
      case Unchanged => input.value
  }

  /** `vectorize_text` embeds at most the first 8192 characters. */
  function EmbeddingInput(text: string): (r: string)
    ensures |r| <= 8192 && StartsWith(text, r)
    ensures |text| <= 8192 ==> r == text
  {
    if |text| > 8192 then text[..8192] else text
  }

  /** A text none of whose characters starts `p` does not contain `p`. */
  lemma FirstCharAbsent(t: string, p: string)
    requires |p| > 0 && forall i :: 0 <= i < |t| ==> t[i] != p[0]
    ensures !Contains(t, p)
  {
    forall j ensures !OccursAt(t, p, j) {
      if 0 <= j && j + |p| <= |t| {
        assert t[j..j + |p|][0] == t[j];
      }
    }
  }

  lemma IsoShapedNoMonth(s: string)
    requires IsoShaped(s)
    ensures !MentionsMonth(s) && !Contains(s, "|")
  {
    var t := Lower(s);
    assert forall i :: 0 <= i < |s| ==> IsAsciiDigit(s[i]) || s[i] == '-' || s[i] == '\n';
    NotContainsChar(s, '|');
    assert forall k :: 0 <= k < 12 ==> 'a' <= LowerMonths[k][0] <= 'z';
    forall k | 0 <= k < 12 ensures !Contains(t, LowerMonths[k]) {
      FirstCharAbsent(t, LowerMonths[k]);
    }
  }

  /** A date already shaped `dddd-dd-dd` is returned as it is, without any
      calendar check (so `"2023-13-45"` stays). */
  lemma IsoShapedKept(s: string)
    requires IsoShaped(s)
    ensures ParseDate(Some(s)) == s
  {
    IsoShapedNoMonth(s);
  }

  lemma IsoDateShaped(d: Date)
    requires Valid(d)
    ensures IsoShaped(IsoDate(d))
  {
    assert Pow10(2) == 100 && Pow10(4) == 10000;
    PadWidth(d.year, 4);
    PadWidth(d.month, 2);
    PadWidth(d.day, 2);
  }

  /** Normalising twice is normalising once. */
  lemma ParseDateIdempotent(input: Option<string>)
    ensures ParseDate(Some(ParseDate(input))) == ParseDate(input)
  {
    if input.Some? && input.value != "" {
      match Cascade(input.value)
      case AsDate(d) =>
        IsoDateShaped(d);
        IsoShapedKept(IsoDate(d));
      case Unchanged =>
    }
  }

  lemma MonthNamesLowered()
    ensures forall k :: 0 <= k < 12 ==> Lower(MonthNames[k]) == LowerMonths[k]
  {
  }

  lemma LongDateMentionsMonth(d: Date)
    requires Valid(d)
    ensures MentionsMonth(LongDate(d))
  {
    var s := LongDate(d);
    var name := MonthNames[d.month - 1];
    MonthNamesLowered();
    assert Lower(s)[..|name|] == Lower(name);
    ContainsAt(Lower(s), LowerMonths[d.month - 1], 0);
  }

  lemma LongDateNoPipe(d: Date)
    requires Valid(d)
    ensures !Contains(LongDate(d), "|")
  {
    var name := MonthNames[d.month - 1];
    assert forall k, i :: 0 <= k < 12 && 0 <= i < |MonthNames[k]| ==> MonthNames[k][i] != '|';
    assert forall i :: 0 <= i < |name| ==> name[i] != '|';
    NotContainsChar(LongDate(d), '|');
  }

  /** Round trip with the agent view: the `"%B %d, %Y"` rendering of a date
      normalises back to its ISO form. */
  lemma LongDateNormalises(d: Date)
    requires Valid(d)
    ensures ParseDate(Some(LongDate(d))) == IsoDate(d)
  {
    LongDateNoPipe(d);
    LongDateMentionsMonth(d);
    LongWithoutTime(d);
    LongRoundTrip(d);
  }

  /** `strftime(d, "%d/%m/%Y")` and its `-` and `.` variants, e.g.
      `"08/01/2023"`. */
  function NumericDate(d: Date, sep: char): string
    requires Valid(d)
  {
    Pad(d.day, 2) + [sep] + Pad(d.month, 2) + [sep] + Pad(d.year, 4)
  }

  predicate NumericLayout(s: string, d: Date, sep: char) {
    0 <= d.day && 0 <= d.month && 0 <= d.year && |s| == 10
    && s[..2] == Pad(d.day, 2) && s[2] == sep && s[3..5] == Pad(d.month, 2)
    && s[5] == sep && s[6..] == Pad(d.year, 4)
  }

  lemma NumericDateLayout(d: Date, sep: char)
    requires Valid(d)
    ensures NumericLayout(NumericDate(d, sep), d, sep)
  {
    assert Pow10(2) == 100 && Pow10(4) == 10000;
    PadWidth(d.year, 4);
    PadWidth(d.month, 2);
    PadWidth(d.day, 2);
  }

  lemma NumericChars(s: string, d: Date, sep: char)
    requires NumericLayout(s, d, sep)
    ensures forall i :: 0 <= i < |s| ==> IsAsciiDigit(s[i]) || s[i] == sep
  {
    forall i | 0 <= i < 10 ensures IsAsciiDigit(s[i]) || s[i] == sep {
      if i < 2 {
        assert s[i] == s[..2][i];
      } else if 3 <= i < 5 {
        assert s[i] == s[3..5][i - 3];
      } else if 6 <= i {
        assert s[i] == s[6..][i - 6];
      }
    }
  }

  /** Only digits and slashes: no `|`, no month name, not ISO-shaped. */
  lemma SlashNoOtherRule(s: string, d: Date)
    requires NumericLayout(s, d, '/')
    ensures !Contains(s, "|") && !MentionsMonth(s) && !IsoShaped(s)
  {
    assert s[4] == s[3..5][1];
    NumericChars(s, d, '/');
    NotContainsChar(s, '|');
    var t := Lower(s);
    assert forall k :: 0 <= k < 12 ==> 'a' <= LowerMonths[k][0] <= 'z';
    forall k | 0 <= k < 12 ensures !Contains(t, LowerMonths[k]) {
      FirstCharAbsent(t, LowerMonths[k]);
    }
  }

  /** `%Y-%m-%d` needs four digits first, and a day-first date has two. */
  lemma NumericNotIso(s: string, d: Date, sep: char)
    requires NumericLayout(s, d, sep) && !IsAsciiDigit(sep)
    ensures Strptime(s, IsoFormat) == None
  {
    assert DigitRun(s, 0, 4) <= 2;
  }

  /** `%d<sep>%m<sep>%Y` reads the day, the month and the year. */
  lemma NumericReadsDayFirst(s: string, d: Date, sep: char, fmt: seq<Directive>)
    requires NumericLayout(s, d, sep) && Valid(d) && !IsAsciiDigit(sep)
    requires |fmt| == 5 && fmt[0] == Day && fmt[1] == Lit(sep) && fmt[2] == Month
    requires fmt[3] == Lit(sep) && fmt[4] == Year
    ensures Strptime(s, fmt) == Some(d)
  {
    var f0 := Fields(1900, 1, 1);
    var f1 := f0.(day := d.day);
    var f2 := f1.(month := d.month);
    assert s[0..2] == s[..2];
    ReadDay(s, 0, d.day);
    ScanStep(s, 0, fmt, f0, 2, d.day);
    ScanStep(s, 2, fmt[1..], f1, 3, 0);
    ReadMonth(s, 3, d.month);
    ScanStep(s, 3, fmt[2..], f1, 5, d.month);
    ScanStep(s, 5, fmt[3..], f2, 6, 0);
    assert s[6..10] == s[6..];
    ReadYear(s, 6, d.year);
    ScanStep(s, 6, fmt[4..], f2, 10, d.year);
  }

  /** Ambiguous numeric dates are read day first: `"%d/%m/%Y"` comes before
      `"%m/%d/%Y"` in the list, so `"08/01/2023"` becomes `"2023-01-08"`. */
  lemma SlashDateDayFirst(d: Date)
    requires Valid(d)
    ensures ParseDate(Some(NumericDate(d, '/'))) == IsoDate(d)
  {
    var s := NumericDate(d, '/');
    NumericDateLayout(d, '/');
    SlashNoOtherRule(s, d);
    NumericNotIso(s, d, '/');
    assert Formats[1] == DayFirstFormat;
    NumericReadsDayFirst(s, d, '/', DayFirstFormat);
    var tries := Attempts(s, Formats);
    assert tries[0] == None && tries[1] == Some(d);
    assert FirstSome(tries, 0) == Some(1);
  }

  /** The Newsfirst form `"08-01-2023 | 7:46 PM"`: whatever follows the
      first `|`, the date before it is read day first. */
  lemma PipeDateDayFirst(d: Date, rest: string)
    requires Valid(d)
    ensures ParseDate(Some(NumericDate(d, '-') + " |" + rest)) == IsoDate(d)
  {
    var n := NumericDate(d, '-');
    var s := n + " |" + rest;
    NumericDateLayout(d, '-');
    NumericChars(n, d, '-');
    PipeHead(n, rest);
    assert DashedFormat[1] == Lit('-');
    NumericReadsDayFirst(n, d, '-', DashedFormat);
    assert PipeDate(s) == Some(d);
  }

  /** Before the first `|` of `"<date> |<rest>"` stands the date and a
      space, which `strip` removes. */
  lemma PipeHead(n: string, rest: string)
    requires |n| == 10 && forall i :: 0 <= i < |n| ==> IsAsciiDigit(n[i]) || n[i] == '-'
    ensures Contains(n + " |" + rest, "|")
    ensures Strip(Split(n + " |" + rest, "|")[0]) == n
  {
    var s := n + " |" + rest;
    assert OccursAt(s, "|", 11);
    forall j | 0 <= j < 11 ensures !OccursAt(s, "|", j) {
      assert s[j..j + 1][0] == s[j];
    }
    assert Find(s, "|") == Some(11);
    assert Split(s, "|")[0] == s[..11] == n + " ";
    assert LeadingSpaces(n + " ") == 0;
    assert TrailingSpaces(n + " ") == 1;
  }
}
