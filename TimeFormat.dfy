/**
 * The two time formats of the poller, in the C locale:
 *   TTP_TIME_FORMAT      "%Y-%m-%dT%H:%M"            (API timestamps and URL bounds)
 *   MESSAGE_TIME_FORMAT  "%A, %B %d, %Y at %I:%M %p"  (the notification text)
 * Parsing follows CPython's strptime for the first format: one regular
 * expression per directive, matched case-insensitively, the whole string
 * consumed, and the date checked against the calendar.
 */
module TimeFormat {
  import opened Strings
  import opened Calendar

  // ---------------------------------------------------------------------------
  // strptime(s, "%Y-%m-%dT%H:%M")
  // ---------------------------------------------------------------------------

  /** %Y: exactly four digits. */
  function ReadYear(s: string): (r: Option<(int, string)>)
    ensures r.Some? ==> 0 <= r.value.0 <= 9999
  {
    if |s| >= 4 && AllDigits(s[..4]) then
      DigitsValueBound(s[..4]);
      assert Pow10(4) == 10000;
      Some((DigitsValue(s[..4]), s[4..]))
    else None
  }

  function TwoDigits(a: char, b: char): (n: int)
    requires IsDigit(a) && IsDigit(b)
    ensures 0 <= n < 100
  {
    10 * DigitValue(a) + DigitValue(b)
  }

  /** %m: the alternatives 1[0-2] | 0[1-9] | [1-9], tried in that order. */
  function ReadMonth(s: string): (r: Option<(int, string)>)
    ensures r.Some? ==> 1 <= r.value.0 <= 12
  {
    if |s| >= 2 && s[0] == '1' && '0' <= s[1] <= '2' then Some((TwoDigits(s[0], s[1]), s[2..]))
    else if |s| >= 2 && s[0] == '0' && '1' <= s[1] <= '9' then Some((TwoDigits(s[0], s[1]), s[2..]))
    else if |s| >= 1 && '1' <= s[0] <= '9' then Some((DigitValue(s[0]), s[1..]))
    else None
  }

  /** %d: the alternatives 3[01] | [12]\d | 0[1-9] | [1-9] | " "[1-9], tried in that order. */
  function ReadDay(s: string): (r: Option<(int, string)>)
    ensures r.Some? ==> 1 <= r.value.0 <= 31
  {
    if |s| >= 2 && s[0] == '3' && '0' <= s[1] <= '1' then Some((TwoDigits(s[0], s[1]), s[2..]))
    else if |s| >= 2 && '1' <= s[0] <= '2' && IsDigit(s[1]) then Some((TwoDigits(s[0], s[1]), s[2..]))
    else if |s| >= 2 && s[0] == '0' && '1' <= s[1] <= '9' then Some((TwoDigits(s[0], s[1]), s[2..]))
    else if |s| >= 1 && '1' <= s[0] <= '9' then Some((DigitValue(s[0]), s[1..]))
    else if |s| >= 2 && s[0] == ' ' && '1' <= s[1] <= '9' then Some((DigitValue(s[1]), s[2..]))
    else None
  }

  /** %H: the alternatives 2[0-3] | [01]\d | \d, tried in that order. */
  function ReadHour(s: string): (r: Option<(int, string)>)
    ensures r.Some? ==> 0 <= r.value.0 <= 23
  {
    if |s| >= 2 && s[0] == '2' && '0' <= s[1] <= '3' then Some((TwoDigits(s[0], s[1]), s[2..]))
    else if |s| >= 2 && '0' <= s[0] <= '1' && IsDigit(s[1]) then Some((TwoDigits(s[0], s[1]), s[2..]))
    else if |s| >= 1 && IsDigit(s[0]) then Some((DigitValue(s[0]), s[1..]))
    else None
  }

  /** %M: the alternatives [0-5]\d | \d, tried in that order. */
  function ReadMinute(s: string): (r: Option<(int, string)>)
    ensures r.Some? ==> 0 <= r.value.0 <= 59
  {
    if |s| >= 2 && '0' <= s[0] <= '5' && IsDigit(s[1]) then Some((TwoDigits(s[0], s[1]), s[2..]))
    else if |s| >= 1 && IsDigit(s[0]) then Some((DigitValue(s[0]), s[1..]))
    else None
  }

  function FoldCase(c: char): char
  {
    if 'A' <= c <= 'Z' then (c as int + 32) as char else c
  }

  /** A literal character of the format, matched ignoring case as strptime's regex is. */
  function ReadLiteral(s: string, c: char): Option<string>
  {
    if |s| >= 1 && FoldCase(s[0]) == FoldCase(c) then Some(s[1..]) else None
  }

  /** "%Y-%m-%dT": year, month and day, and the text after the 'T'. */
  function ReadDate(s: string): (r: Option<(int, int, int, string)>)
    ensures r.Some? ==> 0 <= r.value.0 <= 9999 && 1 <= r.value.1 <= 12 && 1 <= r.value.2 <= 31
  {
    var y :- ReadYear(s);
    var s1 :- ReadLiteral(y.1, '-');
    var mo :- ReadMonth(s1);
    var s2 :- ReadLiteral(mo.1, '-');
    var d :- ReadDay(s2);
    var s3 :- ReadLiteral(d.1, 'T');
    Some((y.0, mo.0, d.0, s3))
  }

  /** "%H:%M": hour and minute, and the text after them. */
  function ReadTime(s: string): (r: Option<(int, int, string)>)
    ensures r.Some? ==> 0 <= r.value.0 <= 23 && 0 <= r.value.1 <= 59
  {
    var h :- ReadHour(s);
    var s1 :- ReadLiteral(h.1, ':');
    var mi :- ReadMinute(s1);
    Some((h.0, mi.0, mi.1))
  }

  /**
   * datetime.strptime(s, "%Y-%m-%dT%H:%M"). None stands for the ValueError
   * strptime raises: text that does not match, text left over after the
   * minutes, year 0, or a day past the end of its month.
   */
  function Parse(s: string): (r: Option<DateTime>)
    ensures r.Some? ==> Valid(r.value)
  {
    var date :- ReadDate(s);
    var time :- ReadTime(date.3);
    var dt := DateTime(date.0, date.1, date.2, time.0, time.1);
    if time.2 != [] then None
    else if !ValidDate(dt) then None
    else Some(dt)
  }

  // ---------------------------------------------------------------------------
  // strftime(dt, "%Y-%m-%dT%H:%M")
  // ---------------------------------------------------------------------------

  /** The canonical date part "YYYY-MM-DDT" followed by rest. */
  function DateText(y: int, mo: int, d: int, rest: string): string
    requires 0 <= y <= 9999 && 1 <= mo <= 12 && 1 <= d <= 31
  {
    Pad4(y) + ("-" + (Pad2(mo) + ("-" + (Pad2(d) + ("T" + rest)))))
  }

  /** The canonical time part "HH:MM" followed by rest. */
  function TimeText(h: int, mi: int, rest: string): string
    requires 0 <= h < 24 && 0 <= mi < 60
  {
    Pad2(h) + (":" + (Pad2(mi) + rest))
  }

  /** The canonical text of the format, followed by extra, for field values its digit groups can hold. */
  function TtpText(y: int, mo: int, d: int, h: int, mi: int, extra: string): string
    requires 0 <= y <= 9999 && 1 <= mo <= 12 && 1 <= d <= 31 && 0 <= h < 24 && 0 <= mi < 60
  {
    DateText(y, mo, d, TimeText(h, mi, extra))
  }

  lemma ReadYearPadded(y: int, rest: string)
    requires 0 <= y <= 9999
    ensures ReadYear(Pad4(y) + rest) == Some((y, rest))
  {
    var s := Pad4(y) + rest;
    assert s[..4] == Pad4(y);
    assert s[4..] == rest;
  }

  lemma ReadMonthPadded(mo: int, rest: string)
    requires 1 <= mo <= 12
    ensures ReadMonth(Pad2(mo) + rest) == Some((mo, rest))
  {
    var s := Pad2(mo) + rest;
    assert s[2..] == rest;
  }

  lemma ReadDayPadded(d: int, rest: string)
    requires 1 <= d <= 31
    ensures ReadDay(Pad2(d) + rest) == Some((d, rest))
  {
    var s := Pad2(d) + rest;
    assert s[2..] == rest;
  }

  lemma ReadHourPadded(h: int, rest: string)
    requires 0 <= h < 24
    ensures ReadHour(Pad2(h) + rest) == Some((h, rest))
  {
    var s := Pad2(h) + rest;
    assert s[2..] == rest;
  }

  lemma ReadMinutePadded(mi: int, rest: string)
    requires 0 <= mi < 60
    ensures ReadMinute(Pad2(mi) + rest) == Some((mi, rest))
  {
    var s := Pad2(mi) + rest;
    assert s[2..] == rest;
  }

  lemma ReadLiteralFirst(c: char, rest: string)
    ensures ReadLiteral([c] + rest, c) == Some(rest)
  {
    assert ([c] + rest)[1..] == rest;
  }

  lemma ReadDateText(y: int, mo: int, d: int, rest: string)
    requires 0 <= y <= 9999 && 1 <= mo <= 12 && 1 <= d <= 31
    ensures ReadDate(DateText(y, mo, d, rest)) == Some((y, mo, d, rest))
  {
    var r1 := "T" + rest;
    var r2 := Pad2(d) + r1;
    var r3 := "-" + r2;
    var r4 := Pad2(mo) + r3;
    var r5 := "-" + r4;
    ReadYearPadded(y, r5);
    ReadLiteralFirst('-', r4);
    ReadMonthPadded(mo, r3);
    ReadLiteralFirst('-', r2);
    ReadDayPadded(d, r1);
    ReadLiteralFirst('T', rest);
  }

  lemma ReadTimeText(h: int, mi: int, rest: string)
    requires 0 <= h < 24 && 0 <= mi < 60
    ensures ReadTime(TimeText(h, mi, rest)) == Some((h, mi, rest))
  {
    var r1 := Pad2(mi) + rest;
    ReadHourPadded(h, ":" + r1);
    ReadLiteralFirst(':', r1);
    ReadMinutePadded(mi, rest);
  }

  /**
   * strptime on canonical text followed by extra: it succeeds exactly when
   * nothing follows and the fields form a calendar date (year 1 or later, day
   * within its month), and then it gives back those very fields.
   */
  lemma ParseTtpText(y: int, mo: int, d: int, h: int, mi: int, extra: string)
    requires 0 <= y <= 9999 && 1 <= mo <= 12 && 1 <= d <= 31 && 0 <= h < 24 && 0 <= mi < 60
    ensures Parse(TtpText(y, mo, d, h, mi, extra))
         == if extra == [] && y >= MINYEAR && d <= DaysInMonth(y, mo)
            then Some(DateTime(y, mo, d, h, mi)) else None
  {
    ReadDateText(y, mo, d, TimeText(h, mi, extra));
    ReadTimeText(h, mi, extra);
  }

  /** datetime.strftime(dt, "%Y-%m-%dT%H:%M"). */
  function FormatTtp(dt: DateTime): string
    requires Valid(dt)
  {
    TtpText(dt.year, dt.month, dt.day, dt.hour, dt.minute, [])
  }

  /** strptime reads a formatted timestamp back unchanged. */
  lemma FormatTtpRoundTrip(dt: DateTime)
    requires Valid(dt)
    ensures Parse(FormatTtp(dt)) == Some(dt)
  {
    ParseTtpText(dt.year, dt.month, dt.day, dt.hour, dt.minute, []);
  }

  /** A formatted timestamp holds no '&', so it ends a URL query value. */
  lemma FormatTtpHasNoAmpersand(dt: DateTime)
    requires Valid(dt)
    ensures '&' !in FormatTtp(dt)
  {
    var p1, p2, p3, p4, p5 := Pad4(dt.year), Pad2(dt.month), Pad2(dt.day), Pad2(dt.hour), Pad2(dt.minute);
    assert '&' !in p1 && '&' !in p2 && '&' !in p3 && '&' !in p4 && '&' !in p5;
  }

  /** Text after a complete timestamp is never accepted ("unconverted data remains"). */
  lemma ParseRejectsTrailing(dt: DateTime, extra: string)
    requires Valid(dt) && extra != []
    ensures Parse(FormatTtp(dt) + extra) == None
  {
    assert FormatTtp(dt) + extra == TtpText(dt.year, dt.month, dt.day, dt.hour, dt.minute, extra);
    ParseTtpText(dt.year, dt.month, dt.day, dt.hour, dt.minute, extra);
  }

  // ---------------------------------------------------------------------------
  // strftime(dt, "%A, %B %d, %Y at %I:%M %p")
  // ---------------------------------------------------------------------------

  const WEEKDAY_NAMES: seq<string> :=
    ["Monday", "Tuesday", "Wednesday", "Thursday", "Friday", "Saturday", "Sunday"]

  const MONTH_NAMES: seq<string> :=
    ["January", "February", "March", "April", "May", "June",
     "July", "August", "September", "October", "November", "December"]

  /** %I: the hour on a 12-hour clock. */
  function Hour12(h: int): (r: int)
    requires 0 <= h < 24
    ensures 1 <= r <= 12 && r % 12 == h % 12
  {
    if h % 12 == 0 then 12 else h % 12
  }

  /** %p in the C locale. */
  function Meridiem(h: int): string
  {
    if h < 12 then "AM" else "PM"
  }

  /** The 24-hour hour that a 12-hour reading and its AM/PM marker denote. */
  function From12(h12: int, p: string): int
  {
    h12 % 12 + (if p == "PM" then 12 else 0)
  }

  /**
   * The 12-hour clock of %I and %p: 01..12, AM exactly for hours 0-11,
   * midnight is 12 AM and noon 12 PM, and the pair determines the hour.
   */
  lemma TwelveHourClock(h: int)
    requires 0 <= h < 24
    ensures 1 <= Hour12(h) <= 12
    ensures Meridiem(h) == "AM" <==> h < 12
    ensures Meridiem(h) == "PM" <==> 12 <= h
    ensures h == 0 ==> Hour12(h) == 12 && Meridiem(h) == "AM"
    ensures h == 12 ==> Hour12(h) == 12 && Meridiem(h) == "PM"
    ensures From12(Hour12(h), Meridiem(h)) == h
  {
  }

  /** The first position of x in names. */
  function IndexOf(names: seq<string>, x: string): (r: Option<nat>)
    ensures r.None? <==> x !in names
    ensures r.Some? ==> r.value < |names| && names[r.value] == x
    ensures r.Some? ==> forall j :: 0 <= j < r.value ==> names[j] != x
  {
    if names == [] then None
    else if names[0] == x then Some(0)
    else
      match IndexOf(names[1..], x)
      case None => None
      case Some(i) => Some(i + 1)
  }

  lemma IndexOfDistinct(names: seq<string>, i: nat)
    requires i < |names|
    requires forall j, k :: 0 <= j < k < |names| ==> names[j] != names[k]
    ensures IndexOf(names, names[i]) == Some(i)
  {
  }

  lemma NamesFacts()
    ensures forall j, k :: 0 <= j < k < |WEEKDAY_NAMES| ==> WEEKDAY_NAMES[j] != WEEKDAY_NAMES[k]
    ensures forall j, k :: 0 <= j < k < |MONTH_NAMES| ==> MONTH_NAMES[j] != MONTH_NAMES[k]
    ensures forall j :: 0 <= j < |WEEKDAY_NAMES| ==> ',' !in WEEKDAY_NAMES[j]
    ensures forall j :: 0 <= j < |MONTH_NAMES| ==> ' ' !in MONTH_NAMES[j]
  {
  }

  /**
   * Reads "DD, YYYY at HH:MM AM" back, for a month already read: the
   * zero-padded day, the year, the 12-hour time and the AM/PM marker.
   */
  function ReadDayTime(t: string, mo: int): Option<DateTime>
  {
    if |t| != 20 || t[2..4] != ", " || t[8..12] != " at " || t[14] != ':' || t[17] != ' ' then None
    else if !AllDigits(t[..2]) || !AllDigits(t[4..8]) || !AllDigits(t[12..14]) || !AllDigits(t[15..17]) then None
    else if t[18..] != "AM" && t[18..] != "PM" then None
    else
      var h12 := DigitsValue(t[12..14]);
      var dt := DateTime(DigitsValue(t[4..8]), mo, DigitsValue(t[..2]), From12(h12, t[18..]), DigitsValue(t[15..17]));
      if 1 <= h12 <= 12 && Valid(dt) then Some(dt) else None
  }

  /** Reads " Month " off the front: the month number and the rest. */
  function ReadMonthName(s: string): Option<(int, string)>
  {
    if |s| == 0 || s[0] != ' ' then None
    else
      var m :- SplitAt(s[1..], ' ');
      var mo :- IndexOf(MONTH_NAMES, m.0);
      Some((mo + 1, m.1))
  }

  /** Reads "Weekday, Month " off the front: the weekday index, the month number and the rest. */
  function ReadNames(s: string): Option<(int, int, string)>
  {
    var w :- SplitAt(s, ',');
    var wd :- IndexOf(WEEKDAY_NAMES, w.0);
    var m :- ReadMonthName(w.1);
    Some((wd as int, m.0, m.1))
  }

  /**
   * Reads the message form of a date-time back: the weekday name, the month
   * name and the rest; it accepts only a date-time whose weekday is the one named.
   */
  function ReadMessageTime(s: string): Option<DateTime>
  {
    var names :- ReadNames(s);
    var dt :- ReadDayTime(names.2, names.1);
    if Weekday(dt) == names.0 then Some(dt) else None
  }

  /** The part of the message form after the month name: "DD, YYYY at HH:MM AM". */
  function DayTimeText(dt: DateTime): (t: string)
    requires Valid(dt)
  {
    Pad2(dt.day) + ", " + Pad4(dt.year) + " at " + Pad2(Hour12(dt.hour)) + ":" + Pad2(dt.minute) + " " + Meridiem(dt.hour)
  }

  lemma ReadDayTimeText(dt: DateTime)
    requires Valid(dt)
    ensures ReadDayTime(DayTimeText(dt), dt.month) == Some(dt)
  {
    var t := DayTimeText(dt);
    assert |t| == 20;
    assert t[..2] == Pad2(dt.day) && t[2..4] == ", " && t[4..8] == Pad4(dt.year) && t[8..12] == " at ";
    assert t[12..14] == Pad2(Hour12(dt.hour)) && t[14] == ':' && t[15..17] == Pad2(dt.minute);
    assert t[17] == ' ' && t[18..] == Meridiem(dt.hour);
    TwelveHourClock(dt.hour);
  }

  lemma WeekdayNameSplit(wd: int, rest: string)
    requires 0 <= wd < 7
    ensures SplitAt(WEEKDAY_NAMES[wd] + (", " + rest), ',') == Some((WEEKDAY_NAMES[wd], " " + rest))
    ensures IndexOf(WEEKDAY_NAMES, WEEKDAY_NAMES[wd]) == Some(wd)
  {
    NamesFacts();
    var name := WEEKDAY_NAMES[wd];
    assert ',' !in name;
    assert name + (", " + rest) == name + [','] + (" " + rest);
    SplitAtFirst(name, ',', " " + rest);
    IndexOfDistinct(WEEKDAY_NAMES, wd);
  }

  lemma MonthNameSplit(mo: int, rest: string)
    requires 1 <= mo <= 12
    ensures SplitAt(MONTH_NAMES[mo - 1] + (" " + rest), ' ') == Some((MONTH_NAMES[mo - 1], rest))
    ensures IndexOf(MONTH_NAMES, MONTH_NAMES[mo - 1]) == Some(mo - 1)
  {
    NamesFacts();
    var name := MONTH_NAMES[mo - 1];
    assert ' ' !in name;
    assert name + (" " + rest) == name + [' '] + rest;
    SplitAtFirst(name, ' ', rest);
    IndexOfDistinct(MONTH_NAMES, mo - 1);
  }

  lemma ReadMonthNameText(mo: int, t: string)
    requires 1 <= mo <= 12
    ensures ReadMonthName(" " + (MONTH_NAMES[mo - 1] + (" " + t))) == Some((mo, t))
  {
    DropSpace(MONTH_NAMES[mo - 1] + (" " + t));
    MonthNameSplit(mo, t);
  }

  lemma DropSpace(s: string)
    ensures |" " + s| > 0 && (" " + s)[0] == ' ' && (" " + s)[1..] == s
  {
  }

  lemma ReadNamesText(wd: int, mo: int, t: string)
    requires 0 <= wd < 7 && 1 <= mo <= 12
    ensures ReadNames(WEEKDAY_NAMES[wd] + (", " + (MONTH_NAMES[mo - 1] + (" " + t)))) == Some((wd, mo, t))
  {
    WeekdayNameSplit(wd, MONTH_NAMES[mo - 1] + (" " + t));
    ReadMonthNameText(mo, t);
  }

  /** datetime.strftime(dt, "%A, %B %d, %Y at %I:%M %p") in the C locale. */
  function FormatMessageTime(dt: DateTime): string
    requires Valid(dt)
  {
    WEEKDAY_NAMES[Weekday(dt)] + (", " + (MONTH_NAMES[dt.month - 1] + (" " + DayTimeText(dt))))
  }

  /**
   * The message form of a date-time loses nothing: reading it back gives dt,
   * so the weekday shown is the Gregorian weekday of the date and every field
   * is shown as its directive says.
   */
  lemma MessageTimeRoundTrip(dt: DateTime)
    requires Valid(dt)
    ensures ReadMessageTime(FormatMessageTime(dt)) == Some(dt)
  {
    ReadNamesText(Weekday(dt), dt.month, DayTimeText(dt));
    ReadDayTimeText(dt);
  }
}
