/**
 * The date normalisers of `src/common/date.ts`: `normalizeToYMD` (UTC) and
 * `normalizeToYMDWithTZ` (Luxon zones). The JavaScript and Luxon string
 * parsers are parameters; the calendar arithmetic after them is concrete.
 */
module Dates {
  import opened Wrappers
  import opened Calendar

  /** The value of `Number(s)`. */
  datatype JsNumber = NaN | Infinite | Finite(value: real)

  /** The runtime's parsers: `new Date(s)` (when valid) and `Number(s)`. */
  datatype JsHost = JsHost(parseDate: string -> Option<TimeValue>, toNumber: string -> JsNumber)

  /**
   * Luxon's parts: `DateTime.fromISO(s, { setZone: true })` (when valid), and
   * IANA zones as offset functions (ms to add to a UTC instant), `None` for an
   * unknown zone.
   */
  datatype Luxon = Luxon(parseIso: string -> Option<TimeValue>, zone: string -> Option<int -> int>)

  const InvalidDateMessage: string := "Invalid date. Expected YYYY-MM-DD or timestamp"
  const InvalidZonedDateMessage: string := "Invalid date"

  /** Rounding toward zero (ToIntegerOrInfinity on a finite number). */
  function Truncate(x: real): (r: int)
    ensures 0.0 <= x ==> r as real <= x < r as real + 1.0
    ensures x < 0.0 ==> r as real - 1.0 < x <= r as real
  {
    if x >= 0.0 then x.Floor else -((-x).Floor)
  }

  /** `new Date(n)` for a number: TimeClip. */
  function TimeClip(n: JsNumber): (r: Option<TimeValue>)
    ensures r.Some? <==> n.Finite? && -(MaxTime as real) <= n.value <= MaxTime as real
    ensures r.Some? ==> r.value == Truncate(n.value)
  {
    if n.Finite? && -(MaxTime as real) <= n.value <= MaxTime as real then Some(Truncate(n.value))
    else None
  }

  /** The instant `normalizeToYMD` reads from a non-`YYYY-MM-DD` input: the Date parser first, then `Number`. */
  function ChosenInstant(input: string, host: JsHost): Option<TimeValue> {
    if host.parseDate(input).Some? then host.parseDate(input) else TimeClip(host.toNumber(input))
  }

  /** The UTC year of `t` is written with four digits. */
  predicate FourDigitYear(t: TimeValue) {
    0 <= UtcDate(t).year <= 9999
  }

  /** `normalizeToYMD(input)`. */
  function NormalizeToYmd(input: string, host: JsHost): (r: Result<string, string>)
    ensures IsYmdShape(input) ==> r == Ok(input)
    ensures r.Err? <==> !IsYmdShape(input) && host.parseDate(input).None? && TimeClip(host.toNumber(input)).None?
    ensures r.Err? ==> r.error == InvalidDateMessage
    ensures !IsYmdShape(input) && ChosenInstant(input, host).Some? && FourDigitYear(ChosenInstant(input, host).value)
      ==> r.Ok? && r.value == FormatDate(UtcDate(ChosenInstant(input, host).value))
          && IsYmdShape(r.value) && DateOnlyDay(r.value) == Some(ChosenInstant(input, host).value / MsPerDay)
  {
    if IsYmdShape(input) then Ok(input)
    else match ChosenInstant(input, host)
      case Some(t) =>
        if FourDigitYear(t) then IsoDayOfFourDigitYear(t); Ok(IsoDay(t)) else Ok(IsoDay(t))
      case None => Err(InvalidDateMessage)
  }

  /** Re-normalising a normalised date returns it unchanged, whatever the runtime's parsers. */
  lemma NormalizeIdempotent(input: string, host: JsHost, other: JsHost)
    requires IsYmdShape(input) || (ChosenInstant(input, host).Some? && FourDigitYear(ChosenInstant(input, host).value))
    ensures NormalizeToYmd(input, host).Ok?
    ensures NormalizeToYmd(NormalizeToYmd(input, host).value, other) == NormalizeToYmd(input, host)
  {
  }

  /**
   * A string the Date parser rejects but `Number` reads as integer milliseconds
   * `ms` normalises to the civil date of floor(ms / 86 400 000).
   */
  lemma EpochMillisecondsDay(input: string, host: JsHost, ms: TimeValue)
    requires !IsYmdShape(input) && host.parseDate(input).None?
    requires host.toNumber(input) == Finite(ms as real)
    requires FourDigitYear(ms)
    ensures NormalizeToYmd(input, host) == Ok(FormatDate(CivilFromDays(ms / MsPerDay)))
  {
    assert Truncate(ms as real) == ms;
    IsoDayOfFourDigitYear(ms);
  }

  /** The shape test does no range check: "2025-13-45" passes through. */
  lemma NoRangeCheck(host: JsHost)
    ensures NormalizeToYmd("2025-13-45", host) == Ok("2025-13-45")
  {
    var s := "2025-13-45";
    assert s[..4] == "2025" && s[5..7] == "13" && s[8..] == "45";
    assert IsYmdShape(s);
  }

  /** `Number("")` is 0, so an empty input the Date parser rejects becomes "1970-01-01". */
  lemma EmptyInputIsEpochDay(host: JsHost)
    requires host.parseDate("").None? && host.toNumber("") == Finite(0.0)
    ensures NormalizeToYmd("", host) == Ok("1970-01-01")
  {
    assert ChosenInstant("", host) == Some(0);
    EpochDayText();
  }

  /** Instant 0 is 1970-01-01 in UTC. */
  lemma EpochDayText()
    ensures IsoDay(0) == "1970-01-01"
  {
    EpochDate();
    IsoDayOfFourDigitYear(0);
    EpochDateText();
  }

  lemma EpochDate()
    ensures UtcDate(0) == Date(1970, 1, 1)
  {
    var epoch := Date(1970, 1, 1);
    assert DaysBeforeYear(1970) == 719_528;
    assert DaysFromCivil(epoch) == 0;
    CivilFromDaysInverse(epoch);
  }

  lemma EpochDateText()
    ensures FormatDate(Date(1970, 1, 1)) == "1970-01-01"
  {
    assert Digits(19) == "19";
    assert Digits(197) == "197";
    assert Digits(1970) == "1970";
    assert PadStart(1970, 4) == "1970";
    assert FormatYear(1970) == "1970";
    assert Digits(1) == "1";
    assert PadStart(1, 2) == "01";
    assert FormatDate(Date(1970, 1, 1)) == "1970" + "-" + "01" + "-" + "01";
  }

  // ---------------------------------------------------------------------------
  // normalizeToYMDWithTZ

  /** `timezone || 'UTC'`. */
  function ZoneName(timezone: string): string {
    if timezone == "" then "UTC" else timezone
  }

  /** Luxon's `toISODate()` of instant `t` seen in a zone with offsets `offset`. */
  function LocalIsoDate(t: int, offset: int -> int): string {
    FormatDate(CivilFromDays((t + offset(t)) / MsPerDay))
  }

  /** `normalizeToYMDWithTZ(input, timezone)`. */
  function NormalizeToYmdWithTz(input: string, timezone: string, host: JsHost, luxon: Luxon): (r: Result<string, string>)
    ensures r.Err? ==> r.error == InvalidZonedDateMessage
    ensures luxon.zone(ZoneName(timezone)).None? ==> r.Err?
    ensures IsYmdShape(input) && luxon.zone(ZoneName(timezone)).Some?
      ==> (r.Ok? <==> ValidDate(ParseYmd(input))) && (r.Ok? ==> r.value == input)
    ensures !IsYmdShape(input) && !host.toNumber(input).NaN? && TimeClip(host.toNumber(input)).None? ==> r.Err?
  {
    var zone := luxon.zone(ZoneName(timezone));
    if IsYmdShape(input) then
      if ValidDate(ParseYmd(input)) && zone.Some? then
        ParseYmdRoundTrip(input);
        Ok(FormatDate(ParseYmd(input)))
      else Err(InvalidZonedDateMessage)
    else if !host.toNumber(input).NaN? then
      match TimeClip(host.toNumber(input))
      case Some(t) => if zone.Some? then Ok(LocalIsoDate(t, zone.value)) else Err(InvalidZonedDateMessage)
      case None => Err(InvalidZonedDateMessage)
    else
      match luxon.parseIso(input)
      case Some(t) => if zone.Some? then Ok(LocalIsoDate(t, zone.value)) else Err(InvalidZonedDateMessage)
      case None => Err(InvalidZonedDateMessage)
  }

  /** An empty timezone is UTC. */
  lemma EmptyZoneIsUtc(input: string, host: JsHost, luxon: Luxon)
    ensures NormalizeToYmdWithTz(input, "", host, luxon) == NormalizeToYmdWithTz(input, "UTC", host, luxon)
  {
  }

  /**
   * The zoned normaliser tries `Number` before the ISO parser: a numeric input
   * gives the same result whatever the ISO parser would make of it, and it is
   * read as UTC milliseconds before the zone is applied.
   */
  lemma ZonedNumericBeforeIso(input: string, timezone: string, host: JsHost, luxon: Luxon, iso: string -> Option<TimeValue>)
    requires !IsYmdShape(input) && host.toNumber(input).Finite?
    requires TimeClip(host.toNumber(input)).Some? && luxon.zone(ZoneName(timezone)).Some?
    ensures NormalizeToYmdWithTz(input, timezone, host, luxon) == NormalizeToYmdWithTz(input, timezone, host, luxon.(parseIso := iso))
    ensures var t := TimeClip(host.toNumber(input)).value;
      var off := luxon.zone(ZoneName(timezone)).value;
      NormalizeToYmdWithTz(input, timezone, host, luxon) == Ok(FormatDate(CivilFromDays((t + off(t)) / MsPerDay)))
  {
    var other := luxon.(parseIso := iso);
    var t := TimeClip(host.toNumber(input)).value;
    var off := luxon.zone(ZoneName(timezone)).value;
    assert other.zone(ZoneName(timezone)) == Some(off);
    assert NormalizeToYmdWithTz(input, timezone, host, luxon) == Ok(LocalIsoDate(t, off));
    assert NormalizeToYmdWithTz(input, timezone, host, other) == Ok(LocalIsoDate(t, off));
  }

  /**
   * Input that is neither `YYYY-MM-DD` nor a number goes to Luxon's ISO parser:
   * it succeeds exactly when Luxon reads an instant, and the result is that
   * instant's calendar date in the zone (so "2025-06-01T23:30:00-04:00" read
   * in America/New_York is the 1st of June, not the UTC 2nd).
   */
  lemma ZonedIsoBranch(input: string, timezone: string, host: JsHost, luxon: Luxon)
    requires !IsYmdShape(input) && host.toNumber(input).NaN?
    requires luxon.zone(ZoneName(timezone)).Some?
    ensures var r := NormalizeToYmdWithTz(input, timezone, host, luxon);
      && (r.Ok? <==> luxon.parseIso(input).Some?)
      && (r.Ok? ==> var t := luxon.parseIso(input).value;
                    var off := luxon.zone(ZoneName(timezone)).value;
                    r.value == FormatDate(CivilFromDays((t + off(t)) / MsPerDay)))
  {
  }

  /**
   * The UTC normaliser tries the Date parser before `Number`: when both accept
   * an input, the Date parser's instant decides.
   */
  lemma PlainDateParserBeforeNumber(input: string, host: JsHost)
    requires !IsYmdShape(input) && host.parseDate(input).Some?
    ensures NormalizeToYmd(input, host) == Ok(IsoDay(host.parseDate(input).value))
  {
  }
}
