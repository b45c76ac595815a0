/** Gregorian calendar dates and the part of Python's `datetime.strptime` /
    `strftime` that the pipeline uses: numeric day, month and year fields,
    English month names and abbreviations, 12-hour times and whitespace. */
module Calendar {
  import opened Wrappers
  import opened Text

  datatype Date = Date(year: int, month: int, day: int)

  predicate IsLeap(y: int) {
    y % 4 == 0 && (y % 100 != 0 || y % 400 == 0)
  }

  function DaysInMonth(y: int, m: int): (n: int)
    requires 1 <= m <= 12
    ensures 28 <= n <= 31
  {
    if m == 2 then (if IsLeap(y) then 29 else 28)
    else if m == 4 || m == 6 || m == 9 || m == 11 then 30
    else 31
  }

  /** What `datetime.date(year, month, day)` accepts. */
  predicate Valid(d: Date) {
    1 <= d.year <= 9999 && 1 <= d.month <= 12 && 1 <= d.day <= DaysInMonth(d.year, d.month)
  }

  /** The C-locale names that `%B` and `%b` print and read. */
  const MonthNames: seq<string> := ["January", "February", "March", "April", "May", "June",
    "July", "August", "September", "October", "November", "December"]
  const MonthAbbrs: seq<string> := ["Jan", "Feb", "Mar", "Apr", "May", "Jun",
    "Jul", "Aug", "Sep", "Oct", "Nov", "Dec"]
  const AmPm: seq<string> := ["AM", "PM"]

  // ---------------------------------------------------------------------
  // Decimal fields

  function Zeros(k: nat): (r: string)
    ensures |r| == k && forall i :: 0 <= i < k ==> r[i] == '0'
  {
    seq(k, _ => '0')
  }

  /** `n` in decimal, zero-padded on the left to at least `width` digits. */
  function Pad(n: nat, width: nat): (r: string)
    ensures |r| >= width
    ensures forall i :: 0 <= i < |r| ==> IsAsciiDigit(r[i])
  {
    var t := NatToString(n);
    if |t| >= width then t else Zeros(width - |t|) + t
  }

  function DigitValue(c: char): nat {
    if IsAsciiDigit(c) then c as int - '0' as int else 0
  }

  /** The number a string of decimal digits denotes. */
  function DecimalValue(t: string): nat {
    if |t| == 0 then 0 else DecimalValue(t[..|t| - 1]) * 10 + DigitValue(t[|t| - 1])
  }

  function Pow10(k: nat): nat {
    if k == 0 then 1 else 10 * Pow10(k - 1)
  }

  lemma {:induction false} NatToStringValue(n: nat)
    ensures DecimalValue(NatToString(n)) == n
  {
    if n >= 10 {
      NatToStringValue(n / 10);
      var t := NatToString(n / 10) + [(48 + n % 10) as char];
      assert t[..|t| - 1] == NatToString(n / 10);
    }
  }

  lemma {:induction false} NatToStringShort(n: nat, k: nat)
    requires 1 <= k && n < Pow10(k)
    ensures |NatToString(n)| <= k
  {
    if n >= 10 {
      NatToStringShort(n / 10, k - 1);
    }
  }

  lemma {:induction false} ZerosValue(k: nat)
    ensures DecimalValue(Zeros(k)) == 0
  {
    if k > 0 {
      ZerosValue(k - 1);
      assert Zeros(k)[..k - 1] == Zeros(k - 1);
    }
  }

  /** Leading zeros do not change the value. */
  lemma {:induction false} ZerosPrefixValue(k: nat, t: string)
    ensures DecimalValue(Zeros(k) + t) == DecimalValue(t)
  {
    if |t| == 0 {
      assert Zeros(k) + t == Zeros(k);
      ZerosValue(k);
    } else {
      var init := t[..|t| - 1];
      ZerosPrefixValue(k, init);
      assert (Zeros(k) + t)[..|Zeros(k) + t| - 1] == Zeros(k) + init;
    }
  }

  lemma PadValue(n: nat, width: nat)
    ensures DecimalValue(Pad(n, width)) == n
  {
    NatToStringValue(n);
    var t := NatToString(n);
    if |t| < width {
      ZerosPrefixValue(width - |t|, t);
    }
  }

  lemma PadWidth(n: nat, width: nat)
    requires 1 <= width && n < Pow10(width)
    ensures |Pad(n, width)| == width
  {
    NatToStringShort(n, width);
  }

  /** `strftime` with `"%Y" + sep + "%m" + sep + "%d"`. */
  function YearFirstDate(d: Date, sep: char): string
    requires Valid(d)
  {
    Pad(d.year, 4) + [sep] + Pad(d.month, 2) + [sep] + Pad(d.day, 2)
  }

  /** `strftime("%Y-%m-%d")`. */
  function IsoDate(d: Date): string
    requires Valid(d)
  {
    YearFirstDate(d, '-')
  }

  /** `strftime("%B %d, %Y")`. */
  function LongDate(d: Date): string
    requires Valid(d)
  {
    MonthNames[d.month - 1] + " " + Pad(d.day, 2) + ", " + Pad(d.year, 4)
  }

  // ---------------------------------------------------------------------
  // strptime

  /** One item of a `strptime` format: `%d %m %Y %B %b %I %M %p`, a run of
      whitespace in the format (which matches one or more whitespace
      characters), or a literal character. */
  datatype Directive = Day | Month | Year | MonthName | MonthAbbr | Hour12 | Minute | Meridian | Gap | Lit(c: char)

  datatype Fields = Fields(year: int, month: int, day: int)

  /** The number of ASCII digits at `s[i..]`, counting at most `max`. */
  function DigitRun(s: string, i: nat, max: nat): (n: nat)
    requires i <= |s|
    ensures n <= max && i + n <= |s|
    ensures forall k :: i <= k < i + n ==> IsAsciiDigit(s[k])
    ensures n == max || i + n == |s| || !IsAsciiDigit(s[i + n])
    decreases max
  {
    if max == 0 || i == |s| || !IsAsciiDigit(s[i]) then 0 else 1 + DigitRun(s, i + 1, max - 1)
  }

  /** A numeric field of `minLen` to `maxLen` digits whose value lies in
      `lo..hi`: the end index and the value. Digits are read greedily; for
      the formats used here every numeric field is followed by a separator
      or ends the format, where this agrees with `strptime`'s regular
      expressions. */
  function Number(s: string, i: nat, minLen: nat, maxLen: nat, lo: int, hi: int): (r: Option<(nat, nat)>)
    requires i <= |s|
    ensures r.Some? ==> i < r.value.0 <= |s| && lo <= r.value.1 <= hi
  {
    var n := DigitRun(s, i, maxLen);
    var v := DecimalValue(s[i..i + n]);
    if n < minLen || n == 0 || v < lo || v > hi then None else Some((i + n, v))
  }

  /** `name` occurs at `s[i..]`, ignoring ASCII case. */
  predicate NameAt(s: string, i: nat, name: string) {
    i + |name| <= |s| && Lower(s[i..i + |name|]) == Lower(name)
  }

  /** The index of the first name in `names[k..]` that occurs at `s[i..]`. */
  function FirstName(s: string, i: nat, names: seq<string>, k: nat): (r: Option<nat>)
    ensures r.Some? ==> k <= r.value < |names| && NameAt(s, i, names[r.value])
    ensures r.Some? ==> forall j :: k <= j < r.value ==> !NameAt(s, i, names[j])
    ensures r.None? ==> forall j :: k <= j < |names| ==> !NameAt(s, i, names[j])
    decreases |names| - k
  {
    if k >= |names| then None
    else if NameAt(s, i, names[k]) then Some(k)
    else FirstName(s, i, names, k + 1)
  }

  function Word(s: string, i: nat, names: seq<string>): (r: Option<(nat, nat)>)
    requires i <= |s|
    ensures r.Some? ==> r.value.0 <= |s| && r.value.1 < |names|
  {
    match FirstName(s, i, names, 0)
    case None => None
    case Some(k) => Some((i + |names[k]|, k))
  }

  /** What directive `d` matches at `s[i..]`: the end index and the value
      read (the day, month or year; 0 for the others). */
  function Read(s: string, i: nat, d: Directive): (r: Option<(nat, nat)>)
    requires i <= |s|
    ensures r.Some? ==> r.value.0 <= |s|
  {
    match d
    case Day =>
      if i + 1 < |s| && s[i] == ' ' && '1' <= s[i + 1] <= '9' then Some((i + 2, DigitValue(s[i + 1])))
      else Number(s, i, 1, 2, 1, 31)
    case Month => Number(s, i, 1, 2, 1, 12)
    case Year => Number(s, i, 4, 4, 0, 9999)
    case MonthName => Word(s, i, MonthNames)
    case MonthAbbr => Word(s, i, MonthAbbrs)
    case Hour12 => Number(s, i, 1, 2, 1, 12)
    case Minute => Number(s, i, 1, 2, 0, 59)
    case Meridian => Word(s, i, AmPm)
    case Gap =>
      var n := RunLength(s[i..], IsSpace);
      if n == 0 then None else Some((i + n, 0))
    case Lit(c) =>
      if i < |s| && s[i] == c then Some((i + 1, 0)) else None
  }

  /** The fields after directive `d` has read `v`. */
  function Assign(f: Fields, d: Directive, v: nat): Fields {
    match d
    case Day => f.(day := v)
    case Month => f.(month := v)
    case Year => f.(year := v)
    case MonthName => f.(month := v + 1)
    case MonthAbbr => f.(month := v + 1)
    case _ => f
  }

  /** Match `fmt` against `s[i..]`, to the very end of `s` (strptime rejects
      unconverted trailing data). */
  function Scan(s: string, i: nat, fmt: seq<Directive>, f: Fields): Option<Fields>
    requires i <= |s|
    decreases |fmt|
  {
    if |fmt| == 0 then (if i == |s| then Some(f) else None)
    else
      match Read(s, i, fmt[0])
      case None => None
      case Some(p) => Scan(s, p.0, fmt[1..], Assign(f, fmt[0], p.1))
  }

  /** `datetime.strptime(s, fmt)` as a date: None where it raises. Fields the
      format does not mention default to 1900-01-01. */
  function Strptime(s: string, fmt: seq<Directive>): (r: Option<Date>)
    ensures r.Some? ==> Valid(r.value)
  {
    match Scan(s, 0, fmt, Fields(1900, 1, 1))
    case None => None
    case Some(f) =>
      var d := Date(f.year, f.month, f.day);
      if Valid(d) then Some(d) else None
  }

  /** The format `"%Y" + sep + "%m" + sep + "%d"`. */
  function YearFirstFormat(sep: char): seq<Directive> {
    [Year, Lit(sep), Month, Lit(sep), Day]
  }

  const IsoFormat: seq<Directive> := YearFirstFormat('-')
  const LongFormat: seq<Directive> := [MonthName, Gap, Day, Lit(','), Gap, Year]
  const LongTimeFormat: seq<Directive> := [MonthName, Gap, Day, Lit(','), Gap, Year, Gap, Hour12, Lit(':'), Minute, Gap, Meridian]

  // ---------------------------------------------------------------------
  // Round trips

  lemma ScanStep(s: string, i: nat, fmt: seq<Directive>, f: Fields, j: nat, v: nat)
    requires i <= |s| && j <= |s| && |fmt| > 0 && Read(s, i, fmt[0]) == Some((j, v))
    ensures Scan(s, i, fmt, f) == Scan(s, j, fmt[1..], Assign(f, fmt[0], v))
  {
  }

  /** A zero-padded field followed by a non-digit reads back as its value. */
  lemma ReadPadded(s: string, i: nat, n: nat, w: nat)
    requires 1 <= w && n < Pow10(w) && i + w <= |s| && s[i..i + w] == Pad(n, w)
    requires i + w == |s| || !IsAsciiDigit(s[i + w])
    ensures DigitRun(s, i, w) == w && DecimalValue(s[i..i + w]) == n
  {
    PadWidth(n, w);
    PadValue(n, w);
    forall t | i <= t < i + w ensures IsAsciiDigit(s[t]) {
      assert s[t] == s[i..i + w][t - i];
    }
  }

  lemma ReadDay(s: string, i: nat, n: nat)
    requires 1 <= n <= 31 && i + 2 <= |s| && s[i..i + 2] == Pad(n, 2)
    requires i + 2 == |s| || !IsAsciiDigit(s[i + 2])
    ensures Read(s, i, Day) == Some((i + 2, n))
  {
    ReadPadded(s, i, n, 2);
    assert IsAsciiDigit(s[i..i + 2][0]);
  }

  lemma ReadMonth(s: string, i: nat, n: nat)
    requires 1 <= n <= 12 && i + 2 <= |s| && s[i..i + 2] == Pad(n, 2)
    requires i + 2 == |s| || !IsAsciiDigit(s[i + 2])
    ensures Read(s, i, Month) == Some((i + 2, n))
  {
    ReadPadded(s, i, n, 2);
  }

  lemma ReadYear(s: string, i: nat, n: nat)
    requires 1 <= n <= 9999 && i + 4 <= |s| && s[i..i + 4] == Pad(n, 4)
    requires i + 4 == |s| || !IsAsciiDigit(s[i + 4])
    ensures Read(s, i, Year) == Some((i + 4, n))
  {
    assert Pow10(4) == 10000;
    ReadPadded(s, i, n, 4);
  }

  /** A single space before a digit is a whitespace gap of length one. */
  lemma ReadGap(s: string, i: nat)
    requires i + 1 < |s| && s[i] == ' ' && IsAsciiDigit(s[i + 1])
    ensures Read(s, i, Gap) == Some((i + 1, 0))
  {
    var n := RunLength(s[i..], IsSpace);
    assert s[i..][0] == ' ';
    assert n >= 2 ==> IsSpace(s[i..][1]);
  }

  /** A date written year first with a non-digit separator reads back as
      itself with the same format. */
  lemma YearFirstRoundTrip(d: Date, sep: char)
    requires Valid(d) && !IsAsciiDigit(sep)
    ensures Strptime(YearFirstDate(d, sep), YearFirstFormat(sep)) == Some(d)
  {
    var s := YearFirstDate(d, sep);
    var fmt := YearFirstFormat(sep);
    assert Pow10(2) == 100 && Pow10(4) == 10000;
    PadWidth(d.year, 4);
    PadWidth(d.month, 2);
    PadWidth(d.day, 2);
    var f0 := Fields(1900, 1, 1);
    var f1 := f0.(year := d.year);
    var f2 := f1.(month := d.month);
    assert s[0..4] == Pad(d.year, 4);
    assert s[5..7] == Pad(d.month, 2);
    assert s[8..10] == Pad(d.day, 2);
    ReadYear(s, 0, d.year);
    ScanStep(s, 0, fmt, f0, 4, d.year);
    ScanStep(s, 4, fmt[1..], f1, 5, 0);
    ReadMonth(s, 5, d.month);
    ScanStep(s, 5, fmt[2..], f1, 7, d.month);
    ScanStep(s, 7, fmt[3..], f2, 8, 0);
    ReadDay(s, 8, d.day);
    ScanStep(s, 8, fmt[4..], f2, 10, d.day);
  }

  /** `strptime(strftime(d, "%Y-%m-%d"), "%Y-%m-%d")` is `d`. */
  lemma IsoRoundTrip(d: Date)
    requires Valid(d)
    ensures Strptime(IsoDate(d), IsoFormat) == Some(d)
  {
    YearFirstRoundTrip(d, '-');
  }

  /** The first three letters, ignoring case, tell the months apart. */
  lemma MonthKeysDistinct(a: nat, b: nat)
    requires a < 12 && b < 12 && a != b
    ensures Lower(MonthNames[a][..3]) != Lower(MonthNames[b][..3])
  {
    var keys := ["jan", "feb", "mar", "apr", "may", "jun", "jul", "aug", "sep", "oct", "nov", "dec"];
    assert forall k :: 0 <= k < 12 ==> Lower(MonthNames[k][..3]) == keys[k];
  }

  /** A name matched at `i` fixes the three characters there, up to case. */
  lemma NameAtKey(s: string, i: nat, name: string)
    ensures NameAt(s, i, name) && |name| >= 3 ==> Lower(s[i..i + 3]) == Lower(name[..3])
  {
    if NameAt(s, i, name) && |name| >= 3 {
      forall k | 0 <= k < 3 ensures Lower(s[i..i + 3])[k] == Lower(name[..3])[k] {
        assert s[i..i + 3][k] == s[i..i + |name|][k];
        assert Lower(s[i..i + |name|])[k] == Lower(name)[k];
      }
    }
  }

  /** A name that is the only one matching is the first one matching. */
  lemma OnlyName(s: string, i: nat, names: seq<string>, k: nat)
    requires k < |names| && NameAt(s, i, names[k])
    requires forall j :: 0 <= j < |names| && j != k ==> !NameAt(s, i, names[j])
    ensures FirstName(s, i, names, 0) == Some(k)
  {
  }

  lemma OtherMonthsAbsent(s: string, m: nat)
    requires 1 <= m <= 12 && StartsWith(s, MonthNames[m - 1])
    ensures forall j :: 0 <= j < 12 && j != m - 1 ==> !NameAt(s, 0, MonthNames[j])
  {
    var name := MonthNames[m - 1];
    assert |name| >= 3;
    assert s[0..3] == name[..3];
    forall j | 0 <= j < 12 && j != m - 1 ensures !NameAt(s, 0, MonthNames[j]) {
      MonthKeysDistinct(j, m - 1);
      NameAtKey(s, 0, MonthNames[j]);
    }
  }

  lemma WordOnly(s: string, i: nat, names: seq<string>, k: nat)
    requires i <= |s| && k < |names| && NameAt(s, i, names[k])
    requires forall j :: 0 <= j < |names| && j != k ==> !NameAt(s, i, names[j])
    ensures Word(s, i, names) == Some((i + |names[k]|, k))
  {
    OnlyName(s, i, names, k);
  }

  lemma ReadIsWord(s: string, i: nat)
    requires i <= |s|
    ensures Read(s, i, MonthName) == Word(s, i, MonthNames)
  {
  }

  /** `%B` reads back the month that `strftime("%B ...")` wrote. */
  lemma ReadMonthName(s: string, m: nat)
    requires 1 <= m <= 12 && StartsWith(s, MonthNames[m - 1])
    ensures Read(s, 0, MonthName) == Some((|MonthNames[m - 1]|, m - 1))
  {
    var name := MonthNames[m - 1];
    assert s[0..|name|] == name;
    OtherMonthsAbsent(s, m);
    WordOnly(s, 0, MonthNames, m - 1);
    ReadIsWord(s, 0);
  }

  /** The layout of `strftime(d, "%B %d, %Y")`, position by position. */
  predicate LongLayout(s: string, L: nat, d: Date) {
    0 <= d.day && 0 <= d.year && |s| == L + 9
    && s[L] == ' ' && s[L + 1..L + 3] == Pad(d.day, 2)
    && s[L + 3] == ',' && s[L + 4] == ' ' && s[L + 5..] == Pad(d.year, 4)
  }

  lemma LongDateLayout(d: Date)
    requires Valid(d)
    ensures LongLayout(LongDate(d), |MonthNames[d.month - 1]|, d)
    ensures StartsWith(LongDate(d), MonthNames[d.month - 1])
  {
    assert Pow10(2) == 100 && Pow10(4) == 10000;
    PadWidth(d.year, 4);
    PadWidth(d.day, 2);
  }

  /** `%B`, a gap and `%d` read the month and the day. */
  lemma LongHead(s: string, L: nat, d: Date, fmt: seq<Directive>, f0: Fields)
    requires LongLayout(s, L, d) && 1 <= d.day <= 31 && 1 <= d.month
    requires Read(s, 0, MonthName) == Some((L, d.month - 1))
    requires |fmt| >= 3 && fmt[0] == MonthName && fmt[1] == Gap && fmt[2] == Day
    ensures Scan(s, 0, fmt, f0) == Scan(s, L + 3, fmt[3..], f0.(month := d.month, day := d.day))
  {
    var f1 := f0.(month := d.month);
    ScanStep(s, 0, fmt, f0, L, d.month - 1);
    assert IsAsciiDigit(s[L + 1..L + 3][0]);
    ReadGap(s, L);
    ScanStep(s, L, fmt[1..], f1, L + 1, 0);
    ReadDay(s, L + 1, d.day);
    ScanStep(s, L + 1, fmt[2..], f1, L + 3, d.day);
    assert fmt[1..][1..][1..] == fmt[3..];
  }

  /** `,`, a gap and `%Y` read the year and reach the end. */
  lemma LongTail(s: string, L: nat, d: Date, fmt: seq<Directive>, f: Fields)
    requires LongLayout(s, L, d) && 1 <= d.year <= 9999
    requires |fmt| >= 3 && fmt[0] == Lit(',') && fmt[1] == Gap && fmt[2] == Year
    ensures Scan(s, L + 3, fmt, f) == Scan(s, |s|, fmt[3..], f.(year := d.year))
  {
    ScanStep(s, L + 3, fmt, f, L + 4, 0);
    assert s[L + 5..L + 9] == Pad(d.year, 4);
    assert IsAsciiDigit(s[L + 5..L + 9][0]);
    ReadGap(s, L + 4);
    ScanStep(s, L + 4, fmt[1..], f, L + 5, 0);
    ReadYear(s, L + 5, d.year);
    ScanStep(s, L + 5, fmt[2..], f, L + 9, d.year);
    assert fmt[1..][1..][1..] == fmt[3..];
  }

  /** Reading `strftime(d, "%B %d, %Y")` with a format that starts with
      `%B %d, %Y` consumes the whole string and recovers `d`. */
  lemma LongPrefixScan(d: Date, fmt: seq<Directive>)
    requires Valid(d) && |fmt| >= 6
    requires fmt[0] == MonthName && fmt[1] == Gap && fmt[2] == Day
    requires fmt[3] == Lit(',') && fmt[4] == Gap && fmt[5] == Year
    ensures Scan(LongDate(d), 0, fmt, Fields(1900, 1, 1))
         == Scan(LongDate(d), |LongDate(d)|, fmt[6..], Fields(d.year, d.month, d.day))
  {
    var s := LongDate(d);
    var L := |MonthNames[d.month - 1]|;
    LongDateLayout(d);
    ReadMonthName(s, d.month);
    LongHead(s, L, d, fmt, Fields(1900, 1, 1));
    LongTail(s, L, d, fmt[3..], Fields(1900, d.month, d.day));
    assert fmt[3..][3..] == fmt[6..];
  }

  /** `strptime(strftime(d, "%B %d, %Y"), "%B %d, %Y")` is `d`. */
  lemma LongRoundTrip(d: Date)
    requires Valid(d)
    ensures Strptime(LongDate(d), LongFormat) == Some(d)
  {
    LongPrefixScan(d, LongFormat);
  }

  /** The same text does not match `%B %d, %Y %I:%M %p`: the time is missing. */
  lemma LongWithoutTime(d: Date)
    requires Valid(d)
    ensures Strptime(LongDate(d), LongTimeFormat) == None
  {
    LongPrefixScan(d, LongTimeFormat);
    var s := LongDate(d);
    GapAtEnd(s, LongTimeFormat[6..], Fields(d.year, d.month, d.day));
  }

  lemma GapAtEnd(s: string, fmt: seq<Directive>, f: Fields)
    requires |fmt| > 0 && fmt[0] == Gap
    ensures Scan(s, |s|, fmt, f) == None
  {
    assert RunLength(s[|s|..], IsSpace) == 0;
  }
}
