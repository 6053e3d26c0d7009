/**
 * The date and time strings of the page: `getCurrentDate` (`dd.mm.yyyy`) and
 * `setCurrentTimeRounded` (`HH:MM`, optionally rounded to ten minutes). The clock
 * reading itself is a parameter.
 */
module Clock {
  import opened JsStrings

  /** `Math.round(minutes / 10) * 10`: the nearest multiple of ten, halves rounded up. */
  function RoundMinutes(minutes: nat): (r: nat)
    ensures r % 10 == 0
    ensures minutes - 5 < r <= minutes + 5
  {
    (minutes + 5) / 10 * 10
  }

  datatype Time = Time(hours: nat, minutes: nat)

  /** The hour and minute shown: rounded when asked, 60 minutes becoming the next hour (modulo 24). */
  function ShownTime(hours: nat, minutes: nat, isRound: bool): Time {
    if !isRound then Time(hours, minutes)
    else
      var rounded := RoundMinutes(minutes);
      if rounded == 60 then Time((hours + 1) % 24, 0) else Time(hours, rounded)
  }

  /** `setCurrentTimeRounded`, for the clock reading `hours:minutes`. */
  function TimeText(hours: nat, minutes: nat, isRound: bool): string {
    var t := ShownTime(hours, minutes, isRound);
    Pad2(t.hours) + ":" + Pad2(t.minutes)
  }

  /** Minutes since midnight. */
  function MinuteOfDay(t: Time): int {
    60 * t.hours + t.minutes
  }

  /** The rounded reading: a multiple of ten minutes at most 4 minutes before or 5 minutes after it. */
  lemma RoundedTimeSpec(hours: nat, minutes: nat)
    requires hours < 24 && minutes < 60
    ensures var t := ShownTime(hours, minutes, true);
      && t.hours < 24 && t.minutes < 60 && t.minutes % 10 == 0
      && var d := MinuteOfDay(t) - MinuteOfDay(Time(hours, minutes)); -4 <= d <= 5 || 1 <= d + 1440 <= 5
  {
    var r := RoundMinutes(minutes);
    if r == 60 {
      if hours == 23 {
        assert ShownTime(hours, minutes, true) == Time(0, 0);
      } else {
        assert ShownTime(hours, minutes, true) == Time(hours + 1, 0);
      }
    } else {
      assert ShownTime(hours, minutes, true) == Time(hours, r);
    }
  }

  /**
   * The shown time is a valid clock time: unrounded it is the reading itself; rounded, see
   * `RoundedTimeSpec` (a reading just before midnight rounds up to 00:00).
   */
  lemma ShownTimeSpec(hours: nat, minutes: nat, isRound: bool)
    requires hours < 24 && minutes < 60
    ensures var t := ShownTime(hours, minutes, isRound);
      && t.hours < 24 && t.minutes < 60
      && (!isRound ==> t == Time(hours, minutes))
      && (isRound ==> t.minutes % 10 == 0)
  {
    if isRound {
      RoundedTimeSpec(hours, minutes);
    }
  }

  /** The time string reads back: two digits, a colon, two digits, giving the shown hour and minute. */
  lemma TimeTextReadsBack(hours: nat, minutes: nat, isRound: bool)
    requires hours < 24 && minutes < 60
    ensures var s := TimeText(hours, minutes, isRound);
      var t := ShownTime(hours, minutes, isRound);
      && |s| == 5 && s[2] == ':' && AllDigits(s[..2]) && AllDigits(s[3..])
      && ParseNat(s[..2]) == t.hours && ParseNat(s[3..]) == t.minutes
  {
    ShownTimeSpec(hours, minutes, isRound);
    var t := ShownTime(hours, minutes, isRound);
    var s := TimeText(hours, minutes, isRound);
    assert s[..2] == Pad2(t.hours);
    assert s[3..] == Pad2(t.minutes);
    ParsePad2(t.hours);
    ParsePad2(t.minutes);
  }

  /** `getCurrentDate`: day and month padded to two digits, the year as it is; `month` counts from 0. */
  function DateText(day: nat, month: nat, year: nat): string {
    Pad2(day) + "." + Pad2(month + 1) + "." + NatToString(year)
  }

  lemma SplitNone(s: string, d: char)
    requires d !in s
    ensures Split(s, d) == [s]
  {
  }

  /** The date string splits at its dots into the day, the month (1-based) and the year, each reading back. */
  lemma DateTextReadsBack(day: nat, month: nat, year: nat)
    requires 1 <= day <= 31 && month < 12
    ensures var parts := Split(DateText(day, month, year), '.');
      && parts == [Pad2(day), Pad2(month + 1), NatToString(year)]
      && |parts[0]| == 2 && |parts[1]| == 2
      && ParseNat(parts[0]) == day && ParseNat(parts[1]) == month + 1 && ParseNat(parts[2]) == year
  {
    var dd, mm, yy := Pad2(day), Pad2(month + 1), NatToString(year);
    assert '.' !in dd && '.' !in mm && '.' !in yy by {
      assert forall i :: 0 <= i < |dd| ==> IsDigit(dd[i]);
      assert forall i :: 0 <= i < |mm| ==> IsDigit(mm[i]);
      assert forall i :: 0 <= i < |yy| ==> IsDigit(yy[i]);
    }
    assert DateText(day, month, year) == dd + ['.'] + (mm + ['.'] + yy);
    SplitFirst(dd, '.', mm + ['.'] + yy);
    SplitFirst(mm, '.', yy);
    SplitNone(yy, '.');
    ParsePad2(day);
    ParsePad2(month + 1);
    ParseNatToString(year);
  }
}
