/**
 * Worked inputs of `normalizeDate` and `normalizeTime`. Each 12-hour example
 * is proved in three steps: the captures spell the input, the captures give
 * the expected hour, and the general `NormalizeTimeText` joins the two.
 */
module DateTimeExamples {
  import opened Wrappers
  import opened Text
  import opened DateTime

  // ---- normalizeDate ----

  /** "2024-03-05" is kept as it is. */
  lemma NormalizeDateExample(otherDates: string -> Option<EngineDate>)
    ensures NormalizeDate("2024-03-05", otherDates) == Ok("2024-03-05")
  {
    var s := "2024-03-05";
    assert s[..4] == "2024" && s[5..7] == "03" && s[8..] == "05";
    FourDigitsValue("2024");
    TwoDigitsValue("03");
    TwoDigitsValue("05");
    NormalizeDateKeepsFullDates(s, otherDates);
  }

  /** 29 February 2024 exists: 2024 is a leap year. */
  lemma LeapDayExample()
    ensures IsFullDate("2024-02-29")
  {
    var s := "2024-02-29";
    assert s[..4] == "2024" && s[5..7] == "02" && s[8..] == "29";
    FourDigitsValue("2024");
    TwoDigitsValue("02");
    TwoDigitsValue("29");
  }

  /** 29 February 2023 does not exist. */
  lemma CommonYearExample()
    ensures !IsFullDate("2023-02-29")
  {
    var s := "2023-02-29";
    assert s[..4] == "2023" && s[5..7] == "02" && s[8..] == "29";
    FourDigitsValue("2023");
    TwoDigitsValue("02");
    TwoDigitsValue("29");
  }

  /** 1900 is divisible by 100 but not by 400, so it has no 29 February. */
  lemma CenturyExample()
    ensures !IsFullDate("1900-02-29")
  {
    var s := "1900-02-29";
    assert s[..4] == "1900" && s[5..7] == "02" && s[8..] == "29";
    FourDigitsValue("1900");
    TwoDigitsValue("02");
    TwoDigitsValue("29");
  }

  /** A string the engine cannot read either is reported with the string. */
  lemma InvalidDateExample(otherDates: string -> Option<EngineDate>)
    requires otherDates("not-a-date").None?
    ensures NormalizeDate("not-a-date", otherDates) == Err("Invalid date format: not-a-date")
  {
    var s := "not-a-date";
    assert s[4] == 'a';
    assert !IsFullDate(s);
    assert "Invalid date format: " + s == "Invalid date format: not-a-date";
  }

  // ---- "2:30 PM" ----

  lemma AfternoonCaptures(m: TimeMatch)
    requires m == TimeMatch("2", "30", None, Some(Suffix(Some(' '), "PM")))
    ensures WellFormed(m) && TimeText(m) == "2:30 PM" && Trim(TimeText(m)) == TimeText(m)
  {
    OneDigitValue("2");
    assert TimeText(m) == "2:30 PM";
    TrimNoop("2:30 PM");
  }

  lemma AfternoonHour(m: TimeMatch)
    requires m == TimeMatch("2", "30", None, Some(Suffix(Some(' '), "PM")))
    requires AllDigits(m.hours)
    ensures HourText(ClockHour(DigitsValue(m.hours), PeriodOf(m))) + ":" + m.minutes == "14:30"
  {
    OneDigitValue("2");
    assert PeriodOf(m) == Some(PM);
    HourTextTwoDigits(14);
  }

  /** "2:30 PM" becomes "14:30". */
  lemma AfternoonExample()
    ensures TimeNormalization("2:30 PM") == Ok("14:30")
  {
    var m := TimeMatch("2", "30", None, Some(Suffix(Some(' '), "PM")));
    AfternoonCaptures(m);
    AfternoonHour(m);
    NormalizeTimeText(m);
  }

  // ---- "12:00 AM" ----

  lemma MidnightCaptures(m: TimeMatch)
    requires m == TimeMatch("12", "00", None, Some(Suffix(Some(' '), "AM")))
    ensures WellFormed(m) && TimeText(m) == "12:00 AM" && Trim(TimeText(m)) == TimeText(m)
  {
    TwoDigitsValue("12");
    assert TimeText(m) == "12:00 AM";
    TrimNoop("12:00 AM");
  }

  lemma MidnightHour(m: TimeMatch)
    requires m == TimeMatch("12", "00", None, Some(Suffix(Some(' '), "AM")))
    requires AllDigits(m.hours)
    ensures HourText(ClockHour(DigitsValue(m.hours), PeriodOf(m))) + ":" + m.minutes == "00:00"
  {
    TwoDigitsValue("12");
    assert PeriodOf(m) == Some(AM);
    HourTextTwoDigits(0);
  }

  /** "12:00 AM" is midnight, hour 0. */
  lemma MidnightExample()
    ensures TimeNormalization("12:00 AM") == Ok("00:00")
  {
    var m := TimeMatch("12", "00", None, Some(Suffix(Some(' '), "AM")));
    MidnightCaptures(m);
    MidnightHour(m);
    NormalizeTimeText(m);
  }

  // ---- "12:00 PM" ----

  lemma NoonCaptures(m: TimeMatch)
    requires m == TimeMatch("12", "00", None, Some(Suffix(Some(' '), "PM")))
    ensures WellFormed(m) && TimeText(m) == "12:00 PM" && Trim(TimeText(m)) == TimeText(m)
  {
    TwoDigitsValue("12");
    assert TimeText(m) == "12:00 PM";
    TrimNoop("12:00 PM");
  }

  lemma NoonHour(m: TimeMatch)
    requires m == TimeMatch("12", "00", None, Some(Suffix(Some(' '), "PM")))
    requires AllDigits(m.hours)
    ensures HourText(ClockHour(DigitsValue(m.hours), PeriodOf(m))) + ":" + m.minutes == "12:00"
  {
    TwoDigitsValue("12");
    assert PeriodOf(m) == Some(PM);
    HourTextTwoDigits(12);
  }

  /** "12:00 PM" is noon, hour 12. */
  lemma NoonExample()
    ensures TimeNormalization("12:00 PM") == Ok("12:00")
  {
    var m := TimeMatch("12", "00", None, Some(Suffix(Some(' '), "PM")));
    NoonCaptures(m);
    NoonHour(m);
    NormalizeTimeText(m);
  }

  // ---- "14:30:00" and "14:30" ----

  lemma SecondsCaptures(m: TimeMatch)
    requires m == TimeMatch("14", "30", Some("00"), None)
    ensures WellFormed(m) && TimeText(m) == "14:30:00" && Trim(TimeText(m)) == TimeText(m)
  {
    TwoDigitsValue("14");
    assert TimeText(m) == "14:30:00";
    TrimNoop("14:30:00");
  }

  lemma SecondsHour(m: TimeMatch)
    requires m == TimeMatch("14", "30", Some("00"), None)
    requires AllDigits(m.hours)
    ensures HourText(ClockHour(DigitsValue(m.hours), PeriodOf(m))) + ":" + m.minutes == "14:30"
  {
    TwoDigitsValue("14");
    HourTextTwoDigits(14);
  }

  /** "14:30:00" becomes "14:30": the seconds are dropped. */
  lemma SecondsDroppedExample()
    ensures TimeNormalization("14:30:00") == Ok("14:30")
  {
    var m := TimeMatch("14", "30", Some("00"), None);
    SecondsCaptures(m);
    SecondsHour(m);
    NormalizeTimeText(m);
  }

  /** "14:30" is already normal. */
  lemma TwentyFourHourExample()
    ensures TimeNormalization("14:30") == Ok("14:30")
  {
    TwoDigitsValue("14");
    assert "14:30" == "14" + ":" + "30";
    CanonicalTimeKept("14", "30");
  }

  /** There is no range check: "25:99" passes through unchanged. */
  lemma UncheckedRangeExample()
    ensures TimeNormalization("25:99") == Ok("25:99")
  {
    TwoDigitsValue("25");
    assert "25:99" == "25" + ":" + "99";
    CanonicalTimeKept("25", "99");
  }

  // ---- "99:00 PM" ----

  lemma LateCaptures(m: TimeMatch)
    requires m == TimeMatch("99", "00", None, Some(Suffix(Some(' '), "PM")))
    ensures WellFormed(m) && TimeText(m) == "99:00 PM" && Trim(TimeText(m)) == TimeText(m)
  {
    TwoDigitsValue("99");
    assert WellFormed(m);
    assert TimeText(m) == "99:00 PM";
    TrimNoop(TimeText(m));
  }

  lemma LateHour(m: TimeMatch)
    requires m == TimeMatch("99", "00", None, Some(Suffix(Some(' '), "PM")))
    requires AllDigits(m.hours)
    ensures HourText(ClockHour(DigitsValue(m.hours), PeriodOf(m))) + ":" + m.minutes == "111:00"
  {
    TwoDigitsValue("99");
    assert DecimalDigits(111) == "111";
  }

  /** "99:00 PM" becomes "111:00": the hour is not range-checked. */
  lemma ThreeDigitHourExample()
    ensures TimeNormalization("99:00 PM") == Ok("111:00")
  {
    var m := TimeMatch("99", "00", None, Some(Suffix(Some(' '), "PM")));
    LateCaptures(m);
    LateHour(m);
    NormalizeTimeText(m);
  }

  /** Two spaces before the period do not match `\s?`. */
  lemma TwoSpacesRejected()
    ensures TimeNormalization("2:30  PM") == Err("Invalid time format: 2:30  PM")
  {
    var t := "2:30  PM";
    assert HourLength(t) == 1;
    assert t[2..] == "30  PM" && t[2..][..2] == "30" && t[2..][2..] == "  PM";
    assert MatchSuffix("  PM") == None;
    assert MatchTail("  PM") == None;
    assert MatchTime(t) == None;
    assert "Invalid time format: " + t == "Invalid time format: 2:30  PM";
    TrimNoop(t);
  }
}
