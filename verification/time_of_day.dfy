/** Wall-clock times of day as the application writes them: "HH:mm"
    strings over the minutes 0..1439 of one day. */
module TimeOfDay {
  import opened Text
  import opened Wrappers

  const MinutesPerDay := 1440

  /** A well-formed 24-hour "HH:mm" string (what an `<input type="time">`
      yields). */
  predicate IsTime(s: string) {
    && |s| == 5
    && IsDigit(s[0]) && IsDigit(s[1]) && s[2] == ':' && IsDigit(s[3]) && IsDigit(s[4])
    && 10 * DigitValue(s[0]) + DigitValue(s[1]) <= 23
    && 10 * DigitValue(s[3]) + DigitValue(s[4]) <= 59
  }

  type Time = s: string | IsTime(s) witness "00:00"

  function Hour(t: Time): int {
    10 * DigitValue(t[0]) + DigitValue(t[1])
  }

  function Minute(t: Time): int {
    10 * DigitValue(t[3]) + DigitValue(t[4])
  }

  /** `timeToMinutes`: minutes since midnight. */
  function TimeToMinutes(t: Time): (r: int)
    ensures 0 <= r < MinutesPerDay
  {
    Hour(t) * 60 + Minute(t)
  }

  /** The hour and the minute can be read back off the minute count. */
  lemma TimeToMinutesSplit(t: Time)
    ensures TimeToMinutes(t) / 60 == Hour(t) && TimeToMinutes(t) % 60 == Minute(t)
  {
  }

  /** The zero-padded "HH:mm" of a minute of the day. */
  function FormatTime(m: int): (r: Time)
    requires 0 <= m < MinutesPerDay
    ensures TimeToMinutes(r) == m
  {
    var hh, mm := Pad2(m / 60), Pad2(m % 60);
    DecimalValue2(hh);
    DecimalValue2(mm);
    hh + ":" + mm
  }

  /** Reading a time and writing it back gives the same string. */
  lemma FormatTimeOfMinutes(t: Time)
    ensures FormatTime(TimeToMinutes(t)) == t
  {
    var m := TimeToMinutes(t);
    TimeToMinutesSplit(t);
    TwoDigitsRead(t[0], t[1]);
    TwoDigitsRead(t[3], t[4]);
    Pad2Digits(Hour(t));
    Pad2Digits(Minute(t));
    assert t == [t[0], t[1]] + ":" + [t[3], t[4]];
  }

  /** Writing back the value of two digits gives the same two digits. */
  lemma TwoDigitsRead(a: char, b: char)
    requires IsDigit(a) && IsDigit(b)
    ensures var v := 10 * DigitValue(a) + DigitValue(b);
      DigitChar(v / 10) == a && DigitChar(v % 10) == b
  {
    var v := 10 * DigitValue(a) + DigitValue(b);
    assert v / 10 == DigitValue(a) && v % 10 == DigitValue(b);
  }

  /** Two times are equal exactly when they denote the same minute. */
  lemma TimeToMinutesInjective(a: Time, b: Time)
    ensures TimeToMinutes(a) == TimeToMinutes(b) <==> a == b
  {
    FormatTimeOfMinutes(a);
    FormatTimeOfMinutes(b);
  }

  /** `addMinutesToTime` (context/AppContext.tsx): the time `minutes`
      after `t` on a 24-hour clock, wrapping past midnight in both
      directions. */
  function AddMinutesToTime(t: Time, minutes: int): (r: Time)
    ensures TimeToMinutes(r) == (TimeToMinutes(t) + minutes) % MinutesPerDay
    ensures 0 <= TimeToMinutes(t) + minutes < MinutesPerDay ==>
              TimeToMinutes(r) == TimeToMinutes(t) + minutes
  {
    FormatTime((TimeToMinutes(t) + minutes) % MinutesPerDay)
  }

  /** Adding two durations one after the other is adding their sum. */
  lemma AddMinutesCompose(t: Time, a: int, b: int)
    ensures AddMinutesToTime(AddMinutesToTime(t, a), b) == AddMinutesToTime(t, a + b)
  {
    var m := TimeToMinutes(t);
    ModAddMod(m + a, b);
    assert AddMinutesToTime(t, a) == FormatTime((m + a) % MinutesPerDay);
    assert TimeToMinutes(AddMinutesToTime(t, a)) == (m + a) % MinutesPerDay;
  }

  /** Reducing modulo a day before adding changes nothing modulo a day. */
  lemma ModAddMod(x: int, b: int)
    ensures ((x % MinutesPerDay) + b) % MinutesPerDay == (x + b) % MinutesPerDay
  {
    var q := x / MinutesPerDay;
    assert x == q * MinutesPerDay + x % MinutesPerDay;
    assert x + b == q * MinutesPerDay + ((x % MinutesPerDay) + b);
  }

  /** A full day brings a time back to itself. */
  lemma AddFullDay(t: Time)
    ensures AddMinutesToTime(t, MinutesPerDay) == t
  {
    var m := TimeToMinutes(t);
    assert (m + MinutesPerDay) % MinutesPerDay == m;
    TimeToMinutesInjective(AddMinutesToTime(t, MinutesPerDay), t);
  }

  /** 16:00 plus an hour and a half is 17:30. */
  lemma AddMinutesExample()
    ensures AddMinutesToTime("16:00", 90) == "17:30"
  {
    assert TimeToMinutes("16:00") == 960;
    assert AddMinutesToTime("16:00", 90) == FormatTime(1050);
    assert TimeToMinutes("17:30") == 1050;
    FormatTimeOfMinutes("17:30");
  }

  /** 23:30 plus an hour wraps to 00:30. */
  lemma AddMinutesWrapExample()
    ensures AddMinutesToTime("23:30", 60) == "00:30"
  {
    assert TimeToMinutes("23:30") == 1410;
    assert AddMinutesToTime("23:30", 60) == FormatTime(30);
    assert TimeToMinutes("00:30") == 30;
    FormatTimeOfMinutes("00:30");
  }

  datatype TimeFormat = H12 | H24

  /** Reads a 12-hour display string "h:mm AM|PM" back into minutes since
      midnight; the reference for what `FormatDisplayTime` writes. */
  function From12h(r: string): Option<int> {
    if |r| < 7 then None
    else
      var hh, mm, suffix := r[..|r| - 6], r[|r| - 5..|r| - 3], r[|r| - 2..];
      if r[|r| - 6] != ':' || r[|r| - 3] != ' ' || !(suffix == "AM" || suffix == "PM")
         || |hh| > 2 || !(forall i :: 0 <= i < |hh| ==> IsDigit(hh[i]))
         || !(IsDigit(mm[0]) && IsDigit(mm[1]))
      then None
      else
        var dh := DecimalValue(hh);
        if dh < 1 || dh > 12 then None
        else Some((dh % 12 + (if suffix == "PM" then 12 else 0)) * 60 + DecimalValue(mm))
  }

  /** The hour 1..12 shown for hour `h` of the 24-hour clock; with the
      suffix it gives `h` back. */
  function Hour12(h: int): (dh: int)
    requires 0 <= h < 24
    ensures 1 <= dh <= 12
    ensures dh % 12 + (if h >= 12 then 12 else 0) == h
  {
    assert h >= 12 ==> h % 12 == h - 12;
    assert h < 12 ==> h % 12 == h;
    if h % 12 == 0 then 12 else h % 12
  }

  /** The hour as 12-hour mode writes it, without padding. */
  function HourText(h: int): (r: string)
    requires 0 <= h < 24
    ensures 1 <= |r| <= 2 && forall i :: 0 <= i < |r| ==> IsDigit(r[i])
    ensures DecimalValue(r) == Hour12(h)
  {
    var dh := Hour12(h);
    if dh >= 10 then
      assert Decimal(dh) == Decimal(dh / 10) + [DigitChar(dh % 10)];
      Decimal(dh)
    else Decimal(dh)
  }

  function Suffix12(h: int): string {
    if h >= 12 then "PM" else "AM"
  }

  /** What 12-hour mode writes for hour `h` and minute `m`. */
  function Display12(h: int, m: int): string
    requires 0 <= h < 24 && 0 <= m < 60
  {
    HourText(h) + ":" + Pad2(m) + " " + Suffix12(h)
  }

  /** A string assembled as "h:mm AM|PM" reads back as its parts say. */
  lemma From12hParts(r: string, hh: string, mm: string, suffix: string)
    requires 1 <= |hh| <= 2 && forall i :: 0 <= i < |hh| ==> IsDigit(hh[i])
    requires 1 <= DecimalValue(hh) <= 12
    requires |mm| == 2 && IsDigit(mm[0]) && IsDigit(mm[1])
    requires suffix == "AM" || suffix == "PM"
    requires r == hh + ":" + mm + " " + suffix
    ensures 7 <= |r| <= 8
    ensures r[..|r| - 6] == hh
    ensures r[|r| - 2..] == suffix
    ensures From12h(r) == Some((DecimalValue(hh) % 12 + (if suffix == "PM" then 12 else 0)) * 60
                               + DecimalValue(mm))
  {
    assert r[..|r| - 6] == hh;
    assert r[|r| - 5..|r| - 3] == mm;
    assert r[|r| - 2..] == suffix;
    assert r[|r| - 6] == ':' && r[|r| - 3] == ' ';
  }

  /** The 12-hour form reads back as the same minute of the day. */
  lemma Display12Reads(h: int, m: int)
    requires 0 <= h < 24 && 0 <= m < 60
    ensures var r := Display12(h, m);
      && 7 <= |r| <= 8
      && (r[|r| - 2..] == "PM" <==> h >= 12)
      && DecimalValue(r[..|r| - 6]) == (if h % 12 == 0 then 12 else h % 12)
      && r[..|r| - 6] == Decimal(if h % 12 == 0 then 12 else h % 12)
      && r[|r| - 5..|r| - 3] == Pad2(m)
      && From12h(r) == Some(h * 60 + m)
  {
    var hh, mm, suffix := HourText(h), Pad2(m), Suffix12(h);
    var r := Display12(h, m);
    From12hParts(r, hh, mm, suffix);
    assert r[|r| - 5..|r| - 3] == mm;
    assert Hour12(h) % 12 + (if suffix == "PM" then 12 else 0) == h;
  }

  /** `formatDisplayTime`: the empty string stays empty, 24-hour mode shows
      the stored string, 12-hour mode shows hour 1..12, two-digit minutes
      and an AM/PM suffix. */
  function FormatDisplayTime(format: TimeFormat, s: string): (r: string)
    requires s == "" || format == H24 || IsTime(s)
    ensures s == "" ==> r == ""
    ensures s != "" && format == H24 ==> r == s
    ensures s != "" && format == H12 ==>
      && 7 <= |r| <= 8
      && (r[|r| - 2..] == "PM" <==> Hour(s) >= 12)
      && DecimalValue(r[..|r| - 6]) == (if Hour(s) % 12 == 0 then 12 else Hour(s) % 12)
      && r[..|r| - 6] == Decimal(if Hour(s) % 12 == 0 then 12 else Hour(s) % 12)
      && r[|r| - 5..|r| - 3] == Pad2(Minute(s))
      && From12h(r) == Some(TimeToMinutes(s))
  {
    if s == "" then ""
    else if format == H24 then s
    else
      var h, m := Hour(s), Minute(s);
      assert TimeToMinutes(s) == h * 60 + m;
      Display12Reads(h, m);
      Display12(h, m)
  }

  /** Reads a countdown "HH:MM:SS" back into seconds. */
  function ClockSeconds(r: string): int
    requires |r| == 8
  {
    3600 * DecimalValue(r[0..2]) + 60 * DecimalValue(r[3..5]) + DecimalValue(r[6..8])
  }

  /** `formatCountdown` (components/Dashboard.tsx): the time left until
      `target`, given the seconds elapsed since midnight; "00:00:00" once
      the target has been reached. */
  function FormatCountdown(target: Time, nowSeconds: int): (r: string)
    requires 0 <= nowSeconds < 24 * 3600
    ensures |r| == 8 && r[2] == ':' && r[5] == ':'
    ensures forall i :: i in {0, 1, 3, 4, 6, 7} ==> IsDigit(r[i])
    ensures DecimalValue(r[3..5]) < 60 && DecimalValue(r[6..8]) < 60
    ensures TimeToMinutes(target) * 60 <= nowSeconds ==> r == "00:00:00"
    ensures TimeToMinutes(target) * 60 > nowSeconds ==>
              ClockSeconds(r) == TimeToMinutes(target) * 60 - nowSeconds
  {
    var diff := TimeToMinutes(target) * 60 - nowSeconds;
    if diff <= 0 then
      var z := "00:00:00";
      assert z[3..5] == "00" && z[6..8] == "00";
      DecimalValue2("00");
      z
    else ClockText(diff)
  }

  /** A positive number of seconds under a day as "HH:MM:SS". */
  function ClockText(diff: int): (r: string)
    requires 0 < diff < 24 * 3600
    ensures |r| == 8 && r[2] == ':' && r[5] == ':'
    ensures forall i :: i in {0, 1, 3, 4, 6, 7} ==> IsDigit(r[i])
    ensures DecimalValue(r[3..5]) < 60 && DecimalValue(r[6..8]) < 60
    ensures ClockSeconds(r) == diff
  {
    var h, m, sec := diff / 3600, (diff % 3600) / 60, diff % 60;
    ClockSplit(diff);
    var hh, mm, ss := Pad2(h), Pad2(m), Pad2(sec);
    var r := hh + ":" + mm + ":" + ss;
    assert r[0..2] == hh && r[3..5] == mm && r[6..8] == ss;
    r
  }

  /** Hours, minutes and seconds of a count of seconds under a day. */
  lemma ClockSplit(diff: int)
    requires 0 <= diff < 24 * 3600
    ensures var h, m, sec := diff / 3600, (diff % 3600) / 60, diff % 60;
      0 <= h < 24 && 0 <= m < 60 && 0 <= sec < 60 && 3600 * h + 60 * m + sec == diff
  {
  }
}
