/**
 * Divisibility facts behind the Gregorian leap-year rule, in a module of
 * their own so that their proofs see only integers.
 */
module LeapArithmetic {
  /**
   * Counting multiples of 4, 100 and 400 below `y + 1` rather than below `y`
   * adds one exactly when they divide `y`.
   */
  lemma MultiplesStep(y: int)
    ensures (y + 4) / 4 == (y + 3) / 4 + (if y % 4 == 0 then 1 else 0)
    ensures (y + 100) / 100 == (y + 99) / 100 + (if y % 100 == 0 then 1 else 0)
    ensures (y + 400) / 400 == (y + 399) / 400 + (if y % 400 == 0 then 1 else 0)
  {
    var q4, q100, q400 := y / 4, y / 100, y / 400;
    assert y == 4 * q4 + y % 4 && y == 100 * q100 + y % 100 && y == 400 * q400 + y % 400;
  }

  /** Multiples of 400 are multiples of 100, and those are multiples of 4. */
  lemma DivisibilityChain(y: int)
    ensures y % 400 == 0 ==> y % 100 == 0
    ensures y % 100 == 0 ==> y % 4 == 0
  {
    if y % 400 == 0 {
      var q := y / 400;
      assert y == 400 * q;
      assert y == 100 * (4 * q) + 0;
    }
    if y % 100 == 0 {
      var q := y / 100;
      assert y == 100 * q;
      assert y == 4 * (25 * q) + 0;
    }
  }
}

/**
 * Proleptic Gregorian calendar arithmetic on integer milliseconds, as used by
 * JavaScript's `Date` (UTC fields, `toISOString`) and by the
 * ECMAScript date-only string format `YYYY-MM-DD`.
 */
module Calendar {
  import opened Wrappers
  import LeapArithmetic

  const MsPerDay: int := 86_400_000
  const MsPerHour: int := 3_600_000
  const MsPerMinute: int := 60_000

  /** The largest magnitude of a valid JavaScript time value (TimeClip bound). */
  const MaxTime: int := 8_640_000_000_000_000

  /** A valid JavaScript time value: integer milliseconds since 1970-01-01T00:00Z. */
  type TimeValue = t: int | -MaxTime <= t <= MaxTime

  /** Days from 0000-01-01 to 1970-01-01. */
  const EpochDays: int := 719_528

  datatype Date = Date(year: int, month: int, day: int)

  predicate IsLeapYear(y: int) {
    y % 4 == 0 && (y % 100 != 0 || y % 400 == 0)
  }

  function DaysInYear(y: int): int {
    if IsLeapYear(y) then 366 else 365
  }

  function DaysInMonth(y: int, m: int): int
    requires 1 <= m <= 12
  {
    if m == 2 then (if IsLeapYear(y) then 29 else 28)
    else if m == 4 || m == 6 || m == 9 || m == 11 then 30
    else 31
  }

  /** A real calendar date. */
  predicate ValidDate(d: Date) {
    1 <= d.month <= 12 && 1 <= d.day <= DaysInMonth(d.year, d.month)
  }

  /** Days in the months of year `y` before month `m`. */
  function DaysBeforeMonth(y: int, m: int): int
    requires 1 <= m <= 12
  {
    var common :=
      if m == 1 then 0 else if m == 2 then 31 else if m == 3 then 59
      else if m == 4 then 90 else if m == 5 then 120 else if m == 6 then 151
      else if m == 7 then 181 else if m == 8 then 212 else if m == 9 then 243
      else if m == 10 then 273 else if m == 11 then 304 else 334;
    common + (if m > 2 && IsLeapYear(y) then 1 else 0)
  }

  /** Leap years in [0, y) (negative for negative y); `/` is floor division here. */
  function LeapYearsBefore(y: int): int {
    (y + 3) / 4 - (y + 99) / 100 + (y + 399) / 400
  }

  /** Days from 0000-01-01 to y-01-01. */
  function DaysBeforeYear(y: int): int {
    365 * y + LeapYearsBefore(y)
  }

  /** Days since 1970-01-01 of a date (days-from-civil). */
  function DaysFromCivil(d: Date): int
    requires 1 <= d.month <= 12
  {
    DaysBeforeYear(d.year) + DaysBeforeMonth(d.year, d.month) + d.day - 1 - EpochDays
  }

  /** Year `y` adds one to the leap-year count exactly when it is a leap year. */
  lemma LeapYearsStep(y: int)
    ensures LeapYearsBefore(y + 1) == LeapYearsBefore(y) + (if IsLeapYear(y) then 1 else 0)
  {
    LeapArithmetic.MultiplesStep(y);
    LeapArithmetic.DivisibilityChain(y);
    assert LeapYearsBefore(y + 1) == (y + 4) / 4 - (y + 100) / 100 + (y + 400) / 400;
  }

  lemma DaysBeforeNextYear(y: int)
    ensures DaysBeforeYear(y + 1) == DaysBeforeYear(y) + DaysInYear(y)
  {
    LeapYearsStep(y);
  }

  /** A 400-year era holds exactly 146097 days. */
  lemma EraStartDays(k: int)
    ensures DaysBeforeYear(400 * k) == 146097 * k
  {
    assert (400 * k + 3) / 4 == 100 * k;
    assert (400 * k + 99) / 100 == 4 * k;
    assert (400 * k + 399) / 400 == k;
  }

  lemma {:induction false} DaysBeforeYearMonotone(a: int, b: int)
    requires a <= b
    ensures DaysBeforeYear(a) + 365 * (b - a) <= DaysBeforeYear(b)
    decreases b - a
  {
    if a < b {
      DaysBeforeYearMonotone(a, b - 1);
      DaysBeforeNextYear(b - 1);
    }
  }

  lemma DaysBeforeNextMonth(y: int, m: int)
    requires 1 <= m <= 12
    ensures m < 12 ==> DaysBeforeMonth(y, m + 1) == DaysBeforeMonth(y, m) + DaysInMonth(y, m)
    ensures m == 12 ==> DaysBeforeMonth(y, m) + DaysInMonth(y, m) == DaysInYear(y)
  {
  }

  lemma {:induction false} DaysBeforeMonthMonotone(y: int, a: int, b: int)
    requires 1 <= a < b <= 12
    ensures DaysBeforeMonth(y, a) + DaysInMonth(y, a) <= DaysBeforeMonth(y, b)
    decreases b - a
  {
    DaysBeforeNextMonth(y, a);
    if a + 1 < b {
      DaysBeforeMonthMonotone(y, a + 1, b);
    }
  }

  /** The year holding day `n` (counted from 0000-01-01), searched upwards from `y`. */
  function YearContaining(y: int, n: int): (r: int)
    requires DaysBeforeYear(y) <= n
    ensures y <= r
    ensures DaysBeforeYear(r) <= n < DaysBeforeYear(r + 1)
    decreases n - DaysBeforeYear(y)
  {
    DaysBeforeNextYear(y);
    if n < DaysBeforeYear(y + 1) then y else YearContaining(y + 1, n)
  }

  /** The month holding day-of-year `doy` of year `y`, searched upwards from `m`. */
  function MonthContaining(y: int, doy: int, m: int): (r: int)
    requires 1 <= m <= 12
    requires DaysBeforeMonth(y, m) <= doy < DaysInYear(y)
    ensures m <= r <= 12
    ensures DaysBeforeMonth(y, r) <= doy < DaysBeforeMonth(y, r) + DaysInMonth(y, r)
    decreases 12 - m
  {
    DaysBeforeNextMonth(y, m);
    if doy < DaysBeforeMonth(y, m) + DaysInMonth(y, m) then m
    else MonthContaining(y, doy, m + 1)
  }

  /** The calendar date of day `z` since 1970-01-01 (civil-from-days). */
  function CivilFromDays(z: int): (d: Date)
    ensures ValidDate(d)
    ensures DaysFromCivil(d) == z
  {
    var n := z + EpochDays;
    var era := n / 146097;
    EraStartDays(era);
    var y := YearContaining(400 * era, n);
    DaysBeforeNextYear(y);
    var doy := n - DaysBeforeYear(y);
    var m := MonthContaining(y, doy, 1);
    Date(y, m, doy - DaysBeforeMonth(y, m) + 1)
  }

  /** A real date lies inside its own year and month. */
  lemma DateWithinYear(d: Date)
    requires ValidDate(d)
    ensures DaysBeforeYear(d.year) <= DaysFromCivil(d) + EpochDays < DaysBeforeYear(d.year + 1)
  {
    DaysBeforeNextMonth(d.year, d.month);
    if d.month < 12 { DaysBeforeMonthMonotone(d.year, d.month, 12); }
    DaysBeforeNextMonth(d.year, 12);
    DaysBeforeNextYear(d.year);
  }

  /** Distinct real dates fall on distinct days. */
  lemma DaysFromCivilInjective(a: Date, b: Date)
    requires ValidDate(a) && ValidDate(b)
    ensures DaysFromCivil(a) == DaysFromCivil(b) ==> a == b
  {
    if DaysFromCivil(a) == DaysFromCivil(b) {
      DateWithinYear(a);
      DateWithinYear(b);
      if a.year < b.year {
        DaysBeforeYearMonotone(a.year + 1, b.year);
      } else if b.year < a.year {
        DaysBeforeYearMonotone(b.year + 1, a.year);
      }
      assert a.year == b.year;
      if a.month < b.month {
        DaysBeforeMonthMonotone(a.year, a.month, b.month);
      } else if b.month < a.month {
        DaysBeforeMonthMonotone(a.year, b.month, a.month);
      }
    }
  }

  /** Civil-from-days inverts days-from-civil on every real date. */
  lemma CivilFromDaysInverse(d: Date)
    requires ValidDate(d)
    ensures CivilFromDays(DaysFromCivil(d)) == d
  {
    DaysFromCivilInjective(CivilFromDays(DaysFromCivil(d)), d);
  }

  // ---------------------------------------------------------------------------
  // Decimal digits

  predicate IsDigit(c: char) {
    '0' <= c <= '9'
  }

  predicate AllDigits(s: string) {
    forall i :: 0 <= i < |s| ==> IsDigit(s[i])
  }

  function DigitChar(d: int): (c: char)
    requires 0 <= d <= 9
    ensures IsDigit(c) && c as int - '0' as int == d
  {
    ('0' as int + d) as char
  }

  function Pow10(k: nat): nat {
    if k == 0 then 1 else 10 * Pow10(k - 1)
  }

  /** The shortest decimal representation of `n`. */
  function Digits(n: nat): (s: string)
    ensures 1 <= |s| && AllDigits(s)
    decreases n
  {
    if n < 10 then [DigitChar(n)] else Digits(n / 10) + [DigitChar(n % 10)]
  }

  function Zeros(k: nat): (s: string)
    ensures |s| == k && AllDigits(s)
  {
    if k == 0 then "" else Zeros(k - 1) + "0"
  }

  /** `String(n).padStart(width, '0')`. */
  function PadStart(n: nat, width: nat): (s: string)
    ensures AllDigits(s)
    ensures |s| == if width <= |Digits(n)| then |Digits(n)| else width
  {
    if width <= |Digits(n)| then Digits(n) else Zeros(width - |Digits(n)|) + Digits(n)
  }

  /** The number a string of decimal digits denotes. */
  function DigitsValue(s: string): nat
    requires AllDigits(s)
  {
    if |s| == 0 then 0 else DigitsValue(s[..|s| - 1]) * 10 + (s[|s| - 1] as int - '0' as int)
  }

  lemma {:induction false} DigitsLength(n: nat, k: nat)
    requires 1 <= k && n < Pow10(k)
    ensures |Digits(n)| <= k
    decreases k
  {
    if n >= 10 {
      assert n / 10 < Pow10(k - 1);
      if k == 1 {
        assert false;
      }
      DigitsLength(n / 10, k - 1);
    }
  }

  lemma {:induction false} ValueOfDigits(n: nat)
    ensures DigitsValue(Digits(n)) == n
    decreases n
  {
    if n >= 10 {
      var s := Digits(n);
      assert s[..|s| - 1] == Digits(n / 10);
      ValueOfDigits(n / 10);
    }
  }

  lemma {:induction false} ValueOfLeadingZeros(k: nat, s: string)
    requires AllDigits(s)
    ensures DigitsValue(Zeros(k) + s) == DigitsValue(s)
    decreases |s|, k
  {
    var t := Zeros(k) + s;
    if |s| == 0 {
      assert t == Zeros(k);
      if k > 0 {
        assert t[..|t| - 1] == Zeros(k - 1) + "";
        ValueOfLeadingZeros(k - 1, "");
      }
    } else {
      assert t[..|t| - 1] == Zeros(k) + s[..|s| - 1];
      ValueOfLeadingZeros(k, s[..|s| - 1]);
    }
  }

  /** Reading back a zero-padded number gives the number. */
  lemma ValueOfPadStart(n: nat, width: nat)
    ensures DigitsValue(PadStart(n, width)) == n
  {
    var ds := Digits(n);
    ValueOfDigits(n);
    if width > |ds| {
      assert PadStart(n, width) == Zeros(width - |ds|) + ds;
      ValueOfLeadingZeros(width - |ds|, ds);
    }
  }

  /** Appending a digit to a zero-padded number pads the number ten times larger plus that digit. */
  lemma PadStartAppend(w: nat, d: int, k: nat)
    requires 0 <= d <= 9 && 1 <= k
    ensures PadStart(10 * w + d, k + 1) == PadStart(w, k) + [DigitChar(d)]
  {
    var v := 10 * w + d;
    assert v / 10 == w && v % 10 == d;
    if w == 0 {
      assert Digits(v) == [DigitChar(d)];
      assert PadStart(v, k + 1) == Zeros(k) + [DigitChar(d)];
      assert Digits(0) == "0";
      if k > 1 {
        assert PadStart(0, k) == Zeros(k - 1) + "0";
      }
    } else {
      var dw := Digits(w);
      assert Digits(v) == dw + [DigitChar(d)];
      if k > |dw| {
        assert PadStart(v, k + 1) == Zeros(k - |dw|) + (dw + [DigitChar(d)]);
        assert PadStart(w, k) == Zeros(k - |dw|) + dw;
      }
    }
  }

  /** Zero-padding the value of a digit string to its own length gives it back. */
  lemma {:induction false} PadStartOfValue(s: string)
    requires AllDigits(s) && 1 <= |s|
    ensures PadStart(DigitsValue(s), |s|) == s
    decreases |s|
  {
    var init := s[..|s| - 1];
    var c := s[|s| - 1];
    var d := c as int - '0' as int;
    assert DigitChar(d) == c;
    assert DigitsValue(s) == 10 * DigitsValue(init) + d;
    if |s| == 1 {
      assert Digits(d) == [c];
    } else {
      PadStartOfValue(init);
      PadStartAppend(DigitsValue(init), d, |init|);
      assert s == init + [c];
    }
  }

  // ---------------------------------------------------------------------------
  // ISO 8601 formatting, as `Date.prototype.toISOString` and Luxon's `toISODate`

  /** Four digits for years 0..9999, otherwise a sign and six digits. */
  function FormatYear(y: int): string {
    if 0 <= y <= 9999 then PadStart(y, 4)
    else if y < 0 then "-" + PadStart(-y, 6)
    else "+" + PadStart(y, 6)
  }

  /** `YYYY-MM-DD` for a real date. */
  function FormatDate(d: Date): (s: string)
    requires ValidDate(d)
    ensures 10 <= |s|
  {
    FormatYear(d.year) + "-" + PadStart(d.month, 2) + "-" + PadStart(d.day, 2)
  }

  /** The UTC calendar date of a time value. */
  function UtcDate(t: int): Date {
    CivilFromDays(t / MsPerDay)
  }

  /** The `THH:mm:ss.sssZ` part of `toISOString()`. */
  function IsoTime(t: TimeValue): string {
    var ms := t % MsPerDay;
    "T" + PadStart(ms / MsPerHour, 2) + ":" + PadStart(ms / MsPerMinute % 60, 2) + ":"
      + PadStart(ms / 1000 % 60, 2) + "." + PadStart(ms % 1000, 3) + "Z"
  }

  /** `new Date(t).toISOString()`: `YYYY-MM-DDTHH:mm:ss.sssZ` in UTC. */
  function ToIsoString(t: TimeValue): (s: string)
    ensures 10 <= |s|
  {
    FormatDate(UtcDate(t)) + IsoTime(t)
  }

  /** `toISOString().slice(0, 10)`: the UTC day of an instant, as text. */
  function IsoDay(t: TimeValue): string {
    ToIsoString(t)[..10]
  }

  /** The shape `^\d{4}-\d{2}-\d{2}$`. */
  predicate IsYmdShape(s: string) {
    |s| == 10 && s[4] == '-' && s[7] == '-' && AllDigits(s[..4]) && AllDigits(s[5..7]) && AllDigits(s[8..])
  }

  /** The three numbers written in a `YYYY-MM-DD` string (no range check). */
  function ParseYmd(s: string): Date
    requires IsYmdShape(s)
  {
    Date(DigitsValue(s[..4]), DigitsValue(s[5..7]), DigitsValue(s[8..]))
  }

  /**
   * The day, counted from 1970-01-01, that a JavaScript `Date` assigns to
   * `s + "T00:00:00.000Z"`: month 01..12 and day 01..31 are accepted, and a day
   * past the month's end rolls into the next month (as MakeDay does).
   */
  function DateOnlyDay(s: string): (r: Option<int>)
    ensures r.Some? <==> IsYmdShape(s) && 1 <= ParseYmd(s).month <= 12 && 1 <= ParseYmd(s).day <= 31
  {
    if IsYmdShape(s) then
      var d := ParseYmd(s);
      if 1 <= d.month <= 12 && 1 <= d.day <= 31 then
        Some(DaysFromCivil(Date(d.year, d.month, 1)) + d.day - 1)
      else None
    else None
  }

  lemma FormatYearFourDigits(y: int)
    requires 0 <= y <= 9999
    ensures FormatYear(y) == PadStart(y, 4) && |FormatYear(y)| == 4
  {
    assert Pow10(4) == 10000 by {
      assert Pow10(1) == 10 && Pow10(2) == 100 && Pow10(3) == 1000;
    }
    DigitsLength(y, 4);
  }

  lemma PadStartTwoDigits(n: nat)
    requires n <= 99
    ensures |PadStart(n, 2)| == 2
  {
    assert Pow10(2) == 100 by {
      assert Pow10(1) == 10;
    }
    DigitsLength(n, 2);
  }

  /** A real date in years 0000..9999 formats to the `YYYY-MM-DD` shape and parses back. */
  lemma FormatDateRoundTrip(d: Date)
    requires ValidDate(d) && 0 <= d.year <= 9999
    ensures IsYmdShape(FormatDate(d))
    ensures ParseYmd(FormatDate(d)) == d
    ensures DateOnlyDay(FormatDate(d)) == Some(DaysFromCivil(d))
  {
    FormatYearFourDigits(d.year);
    PadStartTwoDigits(d.month);
    PadStartTwoDigits(d.day);
    var y := PadStart(d.year, 4);
    var m := PadStart(d.month, 2);
    var dd := PadStart(d.day, 2);
    var s := FormatDate(d);
    assert s == y + "-" + m + "-" + dd;
    assert s[..4] == y && s[5..7] == m && s[8..] == dd;
    ValueOfPadStart(d.year, 4);
    ValueOfPadStart(d.month, 2);
    ValueOfPadStart(d.day, 2);
  }

  /** Every `YYYY-MM-DD` string naming a real date is the formatting of that date. */
  lemma ParseYmdRoundTrip(s: string)
    requires IsYmdShape(s) && ValidDate(ParseYmd(s))
    ensures FormatDate(ParseYmd(s)) == s
  {
    var d := ParseYmd(s);
    PadStartOfValue(s[..4]);
    PadStartOfValue(s[5..7]);
    PadStartOfValue(s[8..]);
    assert Pow10(4) == 10000 by {
      assert Pow10(1) == 10 && Pow10(2) == 100 && Pow10(3) == 1000;
    }
    assert d.year <= 9999 by {
      LeadingDigitsBound(s[..4]);
    }
    FormatYearFourDigits(d.year);
    assert s == s[..4] + "-" + s[5..7] + "-" + s[8..];
  }

  lemma {:induction false} LeadingDigitsBound(s: string)
    requires AllDigits(s)
    ensures DigitsValue(s) < Pow10(|s|)
    decreases |s|
  {
    if |s| > 0 {
      LeadingDigitsBound(s[..|s| - 1]);
    }
  }

  /**
   * For instants whose UTC year has four digits, the ISO day is the formatted
   * civil date of floor(t / 86 400 000), it has the `YYYY-MM-DD` shape, and
   * reading it as a date-only string gives back that day.
   */
  lemma IsoDayOfFourDigitYear(t: TimeValue)
    requires 0 <= UtcDate(t).year <= 9999
    ensures IsoDay(t) == FormatDate(UtcDate(t))
    ensures IsYmdShape(IsoDay(t))
    ensures DateOnlyDay(IsoDay(t)) == Some(t / MsPerDay)
  {
    var d := UtcDate(t);
    FormatDateRoundTrip(d);
    var f := FormatDate(d);
    assert |f| == 10;
    assert (f + IsoTime(t))[..10] == f;
    assert DaysFromCivil(d) == t / MsPerDay;
  }
}
