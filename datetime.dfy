/**
 * `normalizeDate` and `normalizeTime` of database/event.model.ts.
 */
module DateTime {
  import opened Wrappers
  import opened Text

  // ---- normalizeDate ----

  predicate IsLeapYear(y: nat) {
    y % 4 == 0 && (y % 100 != 0 || y % 400 == 0)
  }

  function DaysInMonth(y: nat, m: nat): (n: nat)
    requires 1 <= m <= 12
    ensures 28 <= n <= 31
  {
    if m == 2 then (if IsLeapYear(y) then 29 else 28)
    else if m == 4 || m == 6 || m == 9 || m == 11 then 30
    else 31
  }

  datatype CalendarDate = CalendarDate(year: nat, month: nat, day: nat)

  /** A real calendar date with a four-digit year. */
  predicate IsValidDate(d: CalendarDate) {
    d.year < 10000 && 1 <= d.month <= 12 && 1 <= d.day <= DaysInMonth(d.year, d.month)
  }

  /**
   * The `full-date` production of RFC 3339 section 5.6 (`YYYY-MM-DD`), with
   * the day-of-month limits of section 5.7: the format an HTML date input submits.
   */
  predicate IsFullDate(s: string) {
    && |s| == 10 && s[4] == '-' && s[7] == '-'
    && AllDigits(s[..4]) && AllDigits(s[5..7]) && AllDigits(s[8..])
    && IsValidDate(CalendarDate(DigitsValue(s[..4]), DigitsValue(s[5..7]), DigitsValue(s[8..])))
  }

  /** `new Date(s)` for a full-date: ECMA-262 reads it as midnight UTC of that day. */
  function ReadFullDate(s: string): (d: CalendarDate)
    requires IsFullDate(s)
    ensures IsValidDate(d)
  {
    CalendarDate(DigitsValue(s[..4]), DigitsValue(s[5..7]), DigitsValue(s[8..]))
  }

  lemma Pow10Small()
    ensures Pow10(2) == 100 && Pow10(4) == 10000
  {
    assert Pow10(1) == 10;
    assert Pow10(3) == 1000;
  }

  /** `YYYY-MM-DD` assembled from its three fields. */
  function DateText(y: string, m: string, d: string): string {
    y + "-" + m + "-" + d
  }

  lemma DateTextFields(y: string, m: string, d: string)
    requires |y| == 4 && |m| == 2 && |d| == 2
    ensures var s := DateText(y, m, d);
      |s| == 10 && s[4] == '-' && s[7] == '-' && s[..4] == y && s[5..7] == m && s[8..] == d
  {
    var s := DateText(y, m, d);
    assert s == y + ("-" + m + "-" + d);
    assert s[..4] == y;
    assert s[5..] == m + "-" + d;
    assert s[5..][..2] == m;
  }

  lemma DateTextSplit(s: string)
    requires |s| == 10 && s[4] == '-' && s[7] == '-'
    ensures s == DateText(s[..4], s[5..7], s[8..])
  {
  }

  /** `n` in decimal, padded on the left with '0' to `w` characters, as `toISOString` prints date fields. */
  function Field(n: nat, w: nat): (r: string)
    requires w >= 1 && n < Pow10(w)
    ensures |r| == w && AllDigits(r) && DigitsValue(r) == n
  {
    PaddedDecimal(n, w);
    PadStart(DecimalDigits(n), w, '0')
  }

  /** `date.toISOString().split("T")[0]` for a date whose year has four digits. */
  function IsoDate(d: CalendarDate): string
    requires IsValidDate(d)
  {
    Pow10Small();
    DateText(Field(d.year, 4), Field(d.month, 2), Field(d.day, 2))
  }

  /** A UTC calendar day `new Date` can produce that `toISOString` prints with a four-digit year. */
  type EngineDate = d: CalendarDate | IsValidDate(d) witness CalendarDate(1970, 1, 1)

  /**
   * `normalizeDate(dateStr)`. A full-date is parsed as midnight UTC of that
   * day and printed back. How the JavaScript engine parses any other string
   * is implementation-defined and is the parameter `otherDates`: the UTC day
   * it reads (None: `new Date` gave an invalid date); that day is printed by
   * `toISOString` just the same.
   */
  function NormalizeDate(dateStr: string, otherDates: string -> Option<EngineDate>): (r: Result<string, string>)
    ensures otherDates(dateStr).None? && !IsFullDate(dateStr) ==> r == Err("Invalid date format: " + dateStr)
  {
    if IsFullDate(dateStr) then Ok(IsoDate(ReadFullDate(dateStr)))
    else
      match otherDates(dateStr)
      case Some(d) => Ok(IsoDate(d))
      case None => Err("Invalid date format: " + dateStr)
  }

  /** The three fields of a printed date are four and two and two digits that read back as the date's numbers. */
  lemma IsoDateFields(d: CalendarDate)
    requires IsValidDate(d)
    ensures var s := IsoDate(d); |s| == 10 && s[4] == '-' && s[7] == '-'
    ensures var s := IsoDate(d); AllDigits(s[..4]) && AllDigits(s[5..7]) && AllDigits(s[8..])
    ensures var s := IsoDate(d);
      DigitsValue(s[..4]) == d.year && DigitsValue(s[5..7]) == d.month && DigitsValue(s[8..]) == d.day
  {
    Pow10Small();
    DateTextFields(Field(d.year, 4), Field(d.month, 2), Field(d.day, 2));
  }

  /** Printing a valid date gives a full-date that reads back as the same date. */
  lemma IsoDateReadsBack(d: CalendarDate)
    requires IsValidDate(d)
    ensures IsFullDate(IsoDate(d)) && ReadFullDate(IsoDate(d)) == d
  {
    IsoDateFields(d);
    var s := IsoDate(d);
    assert CalendarDate(DigitsValue(s[..4]), DigitsValue(s[5..7]), DigitsValue(s[8..])) == d;
  }

  /** Printing the value of a `w`-digit field back in `w` digits gives the field. */
  lemma FieldReadsBack(f: string, w: nat)
    requires |f| == w >= 1 && AllDigits(f)
    ensures DigitsValue(f) < Pow10(w) && Field(DigitsValue(f), w) == f
  {
    DigitsValueBound(f);
    DigitsValueInjective(Field(DigitsValue(f), w), f);
  }

  /** Reading the three digit fields of a `DDDD-DD-DD` string and printing them back gives the string. */
  lemma FieldsPrintBack(s: string)
    requires |s| == 10 && s[4] == '-' && s[7] == '-'
    requires AllDigits(s[..4]) && AllDigits(s[5..7]) && AllDigits(s[8..])
    ensures DigitsValue(s[..4]) < Pow10(4) && DigitsValue(s[5..7]) < Pow10(2) && DigitsValue(s[8..]) < Pow10(2)
    ensures DateText(Field(DigitsValue(s[..4]), 4), Field(DigitsValue(s[5..7]), 2), Field(DigitsValue(s[8..]), 2)) == s
  {
    Pow10Small();
    FieldReadsBack(s[..4], 4);
    FieldReadsBack(s[5..7], 2);
    FieldReadsBack(s[8..], 2);
    DateTextSplit(s);
  }

  /** A full-date is printed back exactly as it was written. */
  lemma FullDatePrintsBack(s: string)
    requires IsFullDate(s)
    ensures IsoDate(ReadFullDate(s)) == s
  {
    FieldsPrintBack(s);
  }

  /** For a valid `YYYY-MM-DD` input, `normalizeDate` returns the input unchanged, so it is idempotent there. */
  lemma NormalizeDateKeepsFullDates(s: string, otherDates: string -> Option<EngineDate>)
    requires IsFullDate(s)
    ensures NormalizeDate(s, otherDates) == Ok(s)
  {
    FullDatePrintsBack(s);
  }

  /**
   * What `normalizeDate` gives: a full-date comes back unchanged, it throws
   * exactly when the string is no full-date and the engine cannot read it,
   * and whatever it returns is a full-date.
   */
  lemma NormalizeDateOutcome(dateStr: string, otherDates: string -> Option<EngineDate>)
    ensures var r := NormalizeDate(dateStr, otherDates);
      && (IsFullDate(dateStr) ==> r == Ok(dateStr))
      && (r.Err? <==> !IsFullDate(dateStr) && otherDates(dateStr).None?)
      && (r.Err? ==> r.error == "Invalid date format: " + dateStr)
      && (r.Ok? ==> IsFullDate(r.value))
  {
    if IsFullDate(dateStr) {
      NormalizeDateKeepsFullDates(dateStr, otherDates);
    } else if otherDates(dateStr).Some? {
      IsoDateReadsBack(otherDates(dateStr).value);
    }
  }

  /** A string that starts and ends with a digit has no whitespace to trim. */
  lemma DigitEndsTrimmed(s: string)
    requires s != [] && IsDigit(s[0]) && IsDigit(s[|s| - 1])
    ensures Trim(s) == s
  {
    TrimNoop(s);
  }

  /** The `trim` setter leaves a full-date alone: it starts and ends with a digit. */
  lemma FullDateTrimmed(s: string)
    requires |s| == 10 && AllDigits(s[..4]) && AllDigits(s[8..])
    ensures Trim(s) == s
  {
    AllDigitsIff(s[..4]);
    AllDigitsIff(s[8..]);
    assert s[0] == s[..4][0] && s[9] == s[8..][1];
    DigitEndsTrimmed(s);
  }

  /** The `date` path stores a full-date exactly as given: `normalizeDate` and then the `trim` setter keep it. */
  lemma FullDateStored(s: string, otherDates: string -> Option<EngineDate>, v: string)
    requires IsFullDate(s) && NormalizeDate(s, otherDates) == Ok(v)
    ensures Trim(v) == s
  {
    NormalizeDateKeepsFullDates(s, otherDates);
    FullDateTrimmed(s);
  }

  // ---- normalizeTime ----

  /** The optional ` AM`/`PM` tail: at most one whitespace character, then the period in any case. */
  datatype Suffix = Suffix(space: Option<char>, period: string)

  /** The capture groups of `/^(\d{1,2}):(\d{2})(?::(\d{2}))?(?:\s?(AM|PM))?$/i`. */
  datatype TimeMatch = TimeMatch(hours: string, minutes: string, seconds: Option<string>, suffix: Option<Suffix>)

  /** `AM` or `PM` under the `i` flag (only ASCII letters fold to them). */
  predicate IsPeriodText(p: string) {
    |p| == 2 && (p[0] == 'a' || p[0] == 'A' || p[0] == 'p' || p[0] == 'P') && (p[1] == 'm' || p[1] == 'M')
  }

  predicate IsTwoDigits(s: string) {
    |s| == 2 && IsDigit(s[0]) && IsDigit(s[1])
  }

  predicate SecondsOk(seconds: Option<string>) {
    seconds.Some? ==> IsTwoDigits(seconds.value)
  }

  predicate SuffixOk(suffix: Option<Suffix>) {
    suffix.Some? ==>
      (suffix.value.space.Some? ==> IsSpace(suffix.value.space.value)) && IsPeriodText(suffix.value.period)
  }

  /** The captures the regular expression can produce. */
  predicate WellFormed(m: TimeMatch) {
    1 <= |m.hours| <= 2 && AllDigits(m.hours) && IsTwoDigits(m.minutes) && SecondsOk(m.seconds) && SuffixOk(m.suffix)
  }

  function SecondsText(seconds: Option<string>): string {
    if seconds.Some? then ":" + seconds.value else ""
  }

  function SuffixText(suffix: Option<Suffix>): string {
    match suffix
    case None => ""
    case Some(x) => (if x.space.Some? then [x.space.value] else "") + x.period
  }

  function TailText(seconds: Option<string>, suffix: Option<Suffix>): string {
    SecondsText(seconds) + SuffixText(suffix)
  }

  /** The string a given set of captures spells. */
  function TimeText(m: TimeMatch): string {
    m.hours + ":" + (m.minutes + TailText(m.seconds, m.suffix))
  }

  /** Matching `(?:\s?(AM|PM))?$` against the rest of the string. */
  function MatchSuffix(r: string): Option<Option<Suffix>> {
    if r == [] then Some(None)
    else if |r| == 3 && IsSpace(r[0]) && IsPeriodText(r[1..]) then Some(Some(Suffix(Some(r[0]), r[1..])))
    else if IsPeriodText(r) then Some(Some(Suffix(None, r)))
    else None
  }

  /** What `MatchSuffix` accepts is spelled by a well-formed suffix capture. */
  lemma MatchSuffixSound(r: string)
    ensures MatchSuffix(r).Some? ==> SuffixOk(MatchSuffix(r).value) && SuffixText(MatchSuffix(r).value) == r
  {
    if r != [] && |r| == 3 && IsSpace(r[0]) && IsPeriodText(r[1..]) {
      assert r == [r[0]] + r[1..];
    }
  }

  lemma MatchSuffixComplete(suffix: Option<Suffix>)
    requires SuffixOk(suffix)
    ensures MatchSuffix(SuffixText(suffix)) == Some(suffix)
  {
    var r := SuffixText(suffix);
    match suffix
    case None =>
    case Some(x) =>
      if x.space.Some? {
        assert r == [x.space.value] + x.period;
        assert |r| == 3 && r[0] == x.space.value && r[1..] == x.period;
      } else {
        assert r == x.period;
      }
  }

  /** Matching `(?::(\d{2}))?(?:\s?(AM|PM))?$` against what follows the minutes. */
  function MatchTail(r: string): Option<(Option<string>, Option<Suffix>)> {
    var hasSeconds := |r| >= 3 && r[0] == ':' && IsTwoDigits(r[1..3]);
    var seconds := if hasSeconds then Some(r[1..3]) else None;
    var rest := if hasSeconds then r[3..] else r;
    match MatchSuffix(rest)
    case None => None
    case Some(suffix) => Some((seconds, suffix))
  }

  /** What `MatchTail` accepts is spelled by well-formed seconds and suffix captures. */
  lemma MatchTailSound(r: string)
    ensures var o := MatchTail(r);
      o.Some? ==> SecondsOk(o.value.0) && SuffixOk(o.value.1) && TailText(o.value.0, o.value.1) == r
  {
    var hasSeconds := |r| >= 3 && r[0] == ':' && IsTwoDigits(r[1..3]);
    var rest := if hasSeconds then r[3..] else r;
    MatchSuffixSound(rest);
    if hasSeconds {
      assert r == ":" + r[1..3] + rest;
    }
  }

  lemma MatchTailComplete(seconds: Option<string>, suffix: Option<Suffix>)
    requires SecondsOk(seconds) && SuffixOk(suffix)
    ensures MatchTail(TailText(seconds, suffix)) == Some((seconds, suffix))
  {
    var tail := SuffixText(suffix);
    var r := SecondsText(seconds) + tail;
    MatchSuffixComplete(suffix);
    if seconds.Some? {
      assert r[1..3] == seconds.value;
      assert r[3..] == tail;
    } else {
      assert r == tail;
      assert tail == [] || tail[0] != ':';
    }
  }

  /** The length of the hour group `(\d{1,2})` followed by `:`, or 0 when there is none. */
  function HourLength(t: string): (h: nat)
    ensures h <= 2 && (h > 0 ==> |t| > h && AllDigits(t[..h]) && t[h] == ':')
  {
    if |t| >= 3 && IsDigit(t[0]) && IsDigit(t[1]) && t[2] == ':' then
      AllDigitsIff(t[..2]);
      2
    else if |t| >= 2 && IsDigit(t[0]) && t[1] == ':' then
      AllDigitsIff(t[..1]);
      1
    else 0
  }

  /**
   * Matching the time regular expression against the whole of `t`; None when
   * `t.match` returns null. The hour group takes two digits only when a colon
   * follows them, which is where the regular expression's backtracking ends.
   */
  function MatchTime(t: string): Option<TimeMatch> {
    var h := HourLength(t);
    if h == 0 then None
    else
      var rest := t[h + 1..];
      if |rest| < 2 || !IsTwoDigits(rest[..2]) then None
      else
        match MatchTail(rest[2..])
        case None => None
        case Some(tail) => Some(TimeMatch(t[..h], rest[..2], tail.0, tail.1))
  }

  /** The hour, the colon, the minutes and the tail put back together give the matched string. */
  lemma CapturesSpell(t: string, h: nat, rest: string, tail: string)
    requires h < |t| && t[h] == ':' && rest == t[h + 1..] && |rest| >= 2 && tail == rest[2..]
    ensures t == t[..h] + ":" + (rest[..2] + tail)
  {
    assert rest == rest[..2] + tail;
    assert t == t[..h] + [t[h]] + rest;
  }

  /** Whatever `MatchTime` matches is spelled by well-formed captures. */
  lemma MatchTimeSound(t: string)
    ensures MatchTime(t).Some? ==> WellFormed(MatchTime(t).value) && TimeText(MatchTime(t).value) == t
  {
    var h := HourLength(t);
    if h > 0 && |t[h + 1..]| >= 2 {
      var rest := t[h + 1..];
      MatchTailSound(rest[2..]);
      if MatchTime(t).Some? {
        var tail := MatchTail(rest[2..]).value;
        CapturesSpell(t, h, rest, TailText(tail.0, tail.1));
      }
    }
  }

  lemma HourLengthOf(hours: string, rest: string)
    requires 1 <= |hours| <= 2 && AllDigits(hours)
    ensures HourLength(hours + ":" + rest) == |hours|
  {
    var t := hours + ":" + rest;
    AllDigitsIff(hours);
    assert t[|hours|] == ':';
    assert |hours| == 2 ==> IsDigit(t[0]) && IsDigit(t[1]);
    assert |hours| == 1 ==> IsDigit(t[0]) && !IsDigit(t[1]);
  }

  lemma MatchTimeOf(hours: string, minutes: string, tail: string)
    requires 1 <= |hours| <= 2 && AllDigits(hours) && IsTwoDigits(minutes) && MatchTail(tail).Some?
    ensures var x := MatchTail(tail).value;
      MatchTime(hours + ":" + (minutes + tail)) == Some(TimeMatch(hours, minutes, x.0, x.1))
  {
    var rest := minutes + tail;
    var t := hours + ":" + rest;
    HourLengthOf(hours, rest);
    var h := |hours|;
    assert t[..h] == hours && t[h + 1..] == rest;
    assert rest[..2] == minutes && rest[2..] == tail;
  }

  /** Every well-formed set of captures is matched back exactly: the regular expression accepts exactly these strings. */
  lemma MatchTimeComplete(m: TimeMatch)
    requires WellFormed(m)
    ensures MatchTime(TimeText(m)) == Some(m)
  {
    MatchTailComplete(m.seconds, m.suffix);
    MatchTimeOf(m.hours, m.minutes, TailText(m.seconds, m.suffix));
  }

  datatype Period = AM | PM

  /** `match[4]?.toUpperCase()`. */
  function PeriodOf(m: TimeMatch): Option<Period> {
    match m.suffix
    case None => None
    case Some(x) => if x.period != [] && (x.period[0] == 'a' || x.period[0] == 'A') then Some(AM) else Some(PM)
  }

  /** The hour after the 12-hour conversion: PM adds 12 except to 12, and 12 AM is 0. */
  function ClockHour(hours: nat, period: Option<Period>): nat {
    if period == Some(PM) && hours != 12 then hours + 12
    else if period == Some(AM) && hours == 12 then 0
    else hours
  }

  /** `hours.toString().padStart(2, "0")`. */
  function HourText(hours: nat): string {
    PadStart(DecimalDigits(hours), 2, '0')
  }

  /** The printed hour has at least two digits and reads back as the hour, whatever its size. */
  lemma HourTextDigits(n: nat)
    ensures |HourText(n)| >= 2 && AllDigits(HourText(n)) && DigitsValue(HourText(n)) == n
  {
    var d := DecimalDigits(n);
    var r := HourText(n);
    var z := r[..|r| - |d|];
    assert r == z + d;
    DigitsValueLeadingZeros(z, d);
  }

  /** An hour below 100 prints as exactly two digits. */
  lemma HourTextTwoDigits(n: nat)
    requires n < 100
    ensures HourText(n) == [DigitChar(n / 10), DigitChar(n % 10)]
  {
    if n >= 10 {
      assert DecimalDigits(n) == DecimalDigits(n / 10) + [DigitChar(n % 10)];
    }
  }

  /** What `normalizeTime(timeStr)` returns or throws. */
  function TimeNormalization(timeStr: string): Result<string, string> {
    match MatchTime(Trim(timeStr))
    case None => Err("Invalid time format: " + timeStr)
    case Some(m) => Ok(HourText(ClockHour(DigitsValue(m.hours), PeriodOf(m))) + ":" + m.minutes)
  }

  /** `normalizeTime(timeStr)`, with its mutable `hours`. */
  method NormalizeTime(timeStr: string) returns (r: Result<string, string>)
    ensures r == TimeNormalization(timeStr)
  {
    var match_ := MatchTime(Trim(timeStr));
    if match_.None? {
      return Err("Invalid time format: " + timeStr);
    }
    var m := match_.value;
    var hours := DigitsValue(m.hours);
    var minutes := m.minutes;
    var period := PeriodOf(m);
    if period == Some(PM) && hours != 12 {
      hours := hours + 12;
    } else if period == Some(AM) && hours == 12 {
      hours := 0;
    }
    return Ok(HourText(hours) + ":" + minutes);
  }

  /** On the hours of a 12-hour clock the conversion is the usual one: AM gives `h mod 12`, PM gives `h mod 12 + 12`. */
  lemma TwelveHourClock(h: nat)
    requires 1 <= h <= 12
    ensures ClockHour(h, Some(AM)) == h % 12 && ClockHour(h, Some(PM)) == h % 12 + 12
    ensures ClockHour(h, Some(AM)) < 12 <= ClockHour(h, Some(PM)) < 24
  {
  }

  /** The captures behind a successful `normalizeTime`, handed out as a plain value. */
  lemma NormalizedCaptures(timeStr: string, t: string) returns (m: TimeMatch)
    requires TimeNormalization(timeStr) == Ok(t)
    ensures m == MatchTime(Trim(timeStr)).value
    ensures WellFormed(m) && t == HourText(ClockHour(DigitsValue(m.hours), PeriodOf(m))) + ":" + m.minutes
  {
    m := MatchTime(Trim(timeStr)).value;
    MatchTimeSound(Trim(timeStr));
  }

  /** A normalised time is an hour of at least two digits, a colon and the two minute digits copied verbatim. */
  lemma NormalizedTimeShape(timeStr: string, t: string)
    requires TimeNormalization(timeStr) == Ok(t)
    ensures |t| >= 5 && t[|t| - 3] == ':' && AllDigits(t[..|t| - 3]) && IsTwoDigits(t[|t| - 2..])
    ensures t[|t| - 2..] == MatchTime(Trim(timeStr)).value.minutes
  {
    var m := NormalizedCaptures(timeStr, t);
    MatchedClockShape(m, t);
  }

  lemma MatchedClockShape(m: TimeMatch, t: string)
    requires WellFormed(m) && t == HourText(ClockHour(DigitsValue(m.hours), PeriodOf(m))) + ":" + m.minutes
    ensures |t| >= 5 && t[|t| - 3] == ':' && AllDigits(t[..|t| - 3]) && IsTwoDigits(t[|t| - 2..]) && t[|t| - 2..] == m.minutes
  {
    var n := ClockHour(DigitsValue(m.hours), PeriodOf(m));
    HourTextDigits(n);
    ClockTextShape(HourText(n), m.minutes);
  }

  lemma ClockTextShape(hour: string, mm: string)
    requires |hour| >= 2 && AllDigits(hour) && IsTwoDigits(mm)
    ensures var t := hour + ":" + mm;
      |t| >= 5 && t[|t| - 3] == ':' && t[..|t| - 3] == hour && t[|t| - 2..] == mm
  {
    var t := hour + ":" + mm;
    assert t[..|t| - 3] == hour;
    assert t[|t| - 2..] == mm;
  }

  lemma LongHourText(n: nat)
    requires n >= 100
    ensures |HourText(n)| >= 3 && AllDigits(HourText(n))
  {
    HourTextDigits(n);
    assert Pow10(2) == 100;
    DecimalDigitsAtLeast(n, 2);
  }

  /** A clock text whose hour has three or more digits is not accepted. */
  lemma LongHourRejected(hour: string, mm: string)
    requires |hour| >= 3 && AllDigits(hour) && IsTwoDigits(mm)
    ensures TimeNormalization(hour + ":" + mm).Err?
  {
    var t := hour + ":" + mm;
    assert IsDigit(hour[0]) && IsDigit(hour[1]) && IsDigit(hour[2]) by { AllDigitsIff(hour); }
    assert t[0] == hour[0] && t[1] == hour[1] && t[2] == hour[2] && t[|t| - 1] == mm[1];
    assert t[2] != ':' && t[1] != ':';
    assert HourLength(t) == 0;
    TrimNoop(t);
    NoHourRejected(t);
  }

  lemma NoHourRejected(t: string)
    requires Trim(t) == t && HourLength(t) == 0
    ensures TimeNormalization(t).Err?
  {
  }

  /** Once the hour reaches 100 ("99:00 PM" gives "111:00"), the result is rejected when normalised again. */
  lemma NormalizeTimeNotIdempotent(timeStr: string)
    requires TimeNormalization(timeStr).Ok?
    requires var m := MatchTime(Trim(timeStr)).value; ClockHour(DigitsValue(m.hours), PeriodOf(m)) >= 100
    ensures TimeNormalization(TimeNormalization(timeStr).value).Err?
  {
    var m := MatchTime(Trim(timeStr)).value;
    var n := ClockHour(DigitsValue(m.hours), PeriodOf(m));
    LongHourText(n);
    LongHourRejected(HourText(n), m.minutes);
  }

  lemma CanonicalTimeTrimmed(hh: string, mm: string)
    requires |hh| == 2 && AllDigits(hh) && IsTwoDigits(mm)
    ensures Trim(hh + ":" + mm) == hh + ":" + mm
  {
    AllDigitsIff(hh);
    TrimNoop(hh + ":" + mm);
  }

  lemma CanonicalTimeMatched(hh: string, mm: string)
    requires |hh| == 2 && AllDigits(hh) && IsTwoDigits(mm)
    ensures MatchTime(hh + ":" + mm) == Some(TimeMatch(hh, mm, None, None))
  {
    assert MatchTail("") == Some((None, None));
    assert mm + "" == mm;
    MatchTimeOf(hh, mm, "");
  }

  lemma HourTextReadsBack(hh: string)
    requires |hh| == 2 && AllDigits(hh)
    ensures HourText(DigitsValue(hh)) == hh
  {
    FieldReadsBack(hh, 2);
  }

  lemma NormalizeMatched(t: string, hh: string, mm: string)
    requires Trim(t) == t
    requires MatchTime(t) == Some(TimeMatch(hh, mm, None, None))
    requires HourText(DigitsValue(hh)) == hh
    ensures TimeNormalization(t) == Ok(hh + ":" + mm)
  {
  }

  /** The period capture starts with an `a` or `A`. */
  predicate IsAmText(p: string) {
    |p| > 0 && (p[0] == 'a' || p[0] == 'A')
  }

  /**
   * `normalizeTime` on a string the regular expression matches with the
   * captures `m`, whose hour reads as `h`: the result is the captured minutes
   * behind a digit string that reads as `h` without a period, as `h` or 0 (for
   * 12) with AM and as `h + 12` or 12 (for 12) with PM; the seconds are dropped.
   */
  lemma NormalizationOfMatch(t: string, m: TimeMatch)
    requires MatchTime(Trim(t)) == Some(m)
    ensures WellFormed(m) && TimeNormalization(t).Ok?
    ensures var r := TimeNormalization(t).value;
      |r| >= 5 && r[|r| - 3..] == ":" + m.minutes && AllDigits(r[..|r| - 3])
    ensures var r := TimeNormalization(t).value; var h := DigitsValue(m.hours); var hour := DigitsValue(r[..|r| - 3]);
      && (m.suffix.None? ==> hour == h)
      && (m.suffix.Some? && IsAmText(m.suffix.value.period) ==> hour == (if h == 12 then 0 else h))
      && (m.suffix.Some? && !IsAmText(m.suffix.value.period) ==> hour == (if h == 12 then 12 else h + 12))
  {
    var r := HourText(ClockHour(DigitsValue(m.hours), PeriodOf(m))) + ":" + m.minutes;
    assert TimeNormalization(t) == Ok(r);
    var m' := NormalizedCaptures(t, r);
    CapturedClock(m, r);
  }

  /** The clock text built from well-formed captures, read back field by field. */
  lemma CapturedClock(m: TimeMatch, r: string)
    requires WellFormed(m) && r == HourText(ClockHour(DigitsValue(m.hours), PeriodOf(m))) + ":" + m.minutes
    ensures |r| >= 5 && r[|r| - 3..] == ":" + m.minutes && AllDigits(r[..|r| - 3])
    ensures var h := DigitsValue(m.hours); var hour := DigitsValue(r[..|r| - 3]);
      && (m.suffix.None? ==> hour == h)
      && (m.suffix.Some? && IsAmText(m.suffix.value.period) ==> hour == (if h == 12 then 0 else h))
      && (m.suffix.Some? && !IsAmText(m.suffix.value.period) ==> hour == (if h == 12 then 12 else h + 12))
  {
    var c := ClockHour(DigitsValue(m.hours), PeriodOf(m));
    HourTextDigits(c);
    ClockTextSplit(HourText(c), m.minutes, r);
    ClockHourCases(m);
  }

  /** Cutting `hour:mm` three characters from the end gives back the hour and `:mm`. */
  lemma ClockTextSplit(hour: string, mm: string, r: string)
    requires |hour| >= 2 && |mm| == 2 && r == hour + ":" + mm
    ensures |r| >= 5 && r[..|r| - 3] == hour && r[|r| - 3..] == ":" + mm
  {
    assert r == hour + (":" + mm);
  }

  /** The converted hour, case by case on the captured period. */
  lemma ClockHourCases(m: TimeMatch)
    requires WellFormed(m)
    ensures var h := DigitsValue(m.hours); var c := ClockHour(h, PeriodOf(m));
      && (m.suffix.None? ==> c == h)
      && (m.suffix.Some? && IsAmText(m.suffix.value.period) ==> c == (if h == 12 then 0 else h))
      && (m.suffix.Some? && !IsAmText(m.suffix.value.period) ==> c == (if h == 12 then 12 else h + 12))
  {
  }

  /** A 24-hour `HH:MM` string is a fixpoint of `normalizeTime`. */
  lemma CanonicalTimeKept(hh: string, mm: string)
    requires |hh| == 2 && AllDigits(hh) && IsTwoDigits(mm)
    ensures TimeNormalization(hh + ":" + mm) == Ok(hh + ":" + mm)
  {
    CanonicalTimeTrimmed(hh, mm);
    CanonicalTimeMatched(hh, mm);
    HourTextReadsBack(hh);
    NormalizeMatched(hh + ":" + mm, hh, mm);
  }

  /** Normalising a normalised time again changes nothing, as long as the hour stayed below 100. */
  lemma NormalizeTimeIdempotent(timeStr: string)
    requires TimeNormalization(timeStr).Ok?
    requires var m := MatchTime(Trim(timeStr)).value; ClockHour(DigitsValue(m.hours), PeriodOf(m)) < 100
    ensures TimeNormalization(TimeNormalization(timeStr).value) == TimeNormalization(timeStr)
  {
    var m := MatchTime(Trim(timeStr)).value;
    var n := ClockHour(DigitsValue(m.hours), PeriodOf(m));
    Pow10Small();
    var hh := Field(n, 2);
    assert HourText(n) == hh;
    CanonicalTimeKept(hh, m.minutes);
  }

  /** `normalizeTime` on the text of well-formed captures with nothing to trim. */
  lemma NormalizeTimeText(m: TimeMatch)
    requires WellFormed(m) && Trim(TimeText(m)) == TimeText(m)
    ensures TimeNormalization(TimeText(m)) == Ok(HourText(ClockHour(DigitsValue(m.hours), PeriodOf(m))) + ":" + m.minutes)
  {
    MatchTimeComplete(m);
  }

  /** The `trim` setter leaves a normalised time alone. */
  lemma NormalizedTimeTrimmed(timeStr: string, t: string)
    requires TimeNormalization(timeStr) == Ok(t)
    ensures Trim(t) == t
  {
    NormalizedTimeShape(timeStr, t);
    ClockShapeTrimmed(t);
  }

  lemma ClockShapeTrimmed(t: string)
    requires |t| >= 5 && AllDigits(t[..|t| - 3]) && IsTwoDigits(t[|t| - 2..])
    ensures Trim(t) == t
  {
    AllDigitsIff(t[..|t| - 3]);
    assert t[0] == t[..|t| - 3][0] && t[|t| - 1] == t[|t| - 2..][1];
    DigitEndsTrimmed(t);
  }
}
