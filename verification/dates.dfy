/**
 * `format_date`: an ISO timestamp, already split into its fields, printed
 * as `strftime("%B %d, %Y at %I:%M %p")` prints it in the C locale, for
 * example "January 05, 2024 at 03:07 PM". Seconds are dropped.
 */
module Dates {
  import opened Common
  import opened Strings

  /** The fields `strptime("%Y-%m-%dT%H:%M:%SZ")` reads. */
  datatype DateTime = DateTime(year: nat, month: nat, day: nat, hour: nat, minute: nat, second: nat)

  /** A `createdAt`/`updatedAt` value: `None` or `""` (both falsy), or a timestamp. */
  datatype DateField = Missing | Stamp(stamp: DateTime)

  /** `strptime` raises `ValueError` on fields `datetime` rejects. */
  datatype DateError = InvalidDate

  predicate IsLeapYear(y: nat) {
    y % 4 == 0 && (y % 100 != 0 || y % 400 == 0)
  }

  function DaysInMonth(year: nat, month: nat): (r: nat)
    requires 1 <= month <= 12
    ensures 28 <= r <= 31
    ensures r == 29 <==> month == 2 && IsLeapYear(year)
  {
    if month == 2 then (if IsLeapYear(year) then 29 else 28)
    else if month == 4 || month == 6 || month == 9 || month == 11 then 30
    else 31
  }

  /** The ranges `datetime` accepts (no leap seconds). */
  predicate ValidDateTime(d: DateTime) {
    && 1 <= d.year <= 9999
    && 1 <= d.month <= 12
    && 1 <= d.day <= DaysInMonth(d.year, d.month)
    && d.hour < 24 && d.minute < 60 && d.second < 60
  }

  const MonthNames: seq<string> := [
    "January", "February", "March", "April", "May", "June",
    "July", "August", "September", "October", "November", "December"
  ]

  function DigitChar(n: nat): (c: char)
    requires n < 10
    ensures '0' <= c <= '9' && c as int - '0' as int == n
  {
    ('0' as int + n) as char
  }

  function DigitValue(c: char): nat {
    if '0' <= c <= '9' then c as int - '0' as int else 0
  }

  /** The decimal numeral of `n`, without leading zeros. */
  function Decimal(n: nat): (r: string)
    ensures r != [] && forall i :: 0 <= i < |r| ==> '0' <= r[i] <= '9'
  {
    if n < 10 then [DigitChar(n)] else Decimal(n / 10) + [DigitChar(n % 10)]
  }

  predicate AllDigits(s: string) {
    forall i :: 0 <= i < |s| ==> '0' <= s[i] <= '9'
  }

  /** The number a string of decimal digits denotes, most significant first. */
  function ReadDecimal(s: string): nat {
    if s == [] then 0 else 10 * ReadDecimal(s[..|s| - 1]) + DigitValue(s[|s| - 1])
  }

  lemma {:induction false} ReadDecimalOfDecimal(n: nat)
    ensures ReadDecimal(Decimal(n)) == n
  {
    if n >= 10 {
      ReadDecimalOfDecimal(n / 10);
      var s := Decimal(n);
      assert s[..|s| - 1] == Decimal(n / 10);
    }
  }

  /** Two digits, zero-padded (`%d`, `%I`, `%M`). */
  function Pad2(n: nat): (r: string)
    requires n < 100
    ensures |r| == 2 && ReadDecimal(r) == n
    ensures forall i :: 0 <= i < 2 ==> '0' <= r[i] <= '9'
    ensures ' ' !in r
  {
    var r := [DigitChar(n / 10), DigitChar(n % 10)];
    assert r[..1] == [r[0]] && [r[0]][..0] == [];
    assert ReadDecimal([r[0]]) == n / 10;
    assert ReadDecimal(r) == 10 * (n / 10) + n % 10;
    r
  }

  /** `%I`: the hour on a 12-hour clock, where midnight and noon read 12. */
  function Hour12(h: nat): (r: nat)
    requires h < 24
    ensures 1 <= r <= 12 && r % 12 == h % 12
  {
    if h % 12 == 0 then 12 else h % 12
  }

  /** `%p` in the C locale. */
  function Meridiem(h: nat): (r: string)
    ensures r == "PM" <==> h >= 12
    ensures r == "AM" <==> h < 12
  {
    if h < 12 then "AM" else "PM"
  }

  /** What " at HH:MM AM" adds after the year. */
  function ClockText(hour: nat, minute: nat): (r: string)
    requires hour < 24 && minute < 60
    ensures |r| == 12
  {
    " at " + Pad2(Hour12(hour)) + ":" + Pad2(minute) + " " + Meridiem(hour)
  }

  /** "January 05, 2024": month name, zero-padded day and the year. */
  function DayText(d: DateTime): (r: string)
    requires ValidDateTime(d)
  {
    MonthNames[d.month - 1] + " " + Pad2(d.day) + ", " + Decimal(d.year)
  }

  /** `date_obj.strftime("%B %d, %Y at %I:%M %p")`. */
  function Render(d: DateTime): (r: string)
    requires ValidDateTime(d)
  {
    DayText(d) + ClockText(d.hour, d.minute)
  }

  /** `format_date`: `None` for a falsy input, the rendered text for a valid stamp, `ValueError` otherwise. */
  function FormatDate(f: DateField): (r: Result<Option<string>, DateError>)
    ensures r == Ok(None) <==> f.Missing?
    ensures r.Err? <==> f.Stamp? && !ValidDateTime(f.stamp)
    ensures r.Ok? && r.value.Some? ==>
      && ValidDateTime(f.stamp)
      && StartsWith(r.value.value, MonthNames[f.stamp.month - 1] + " ")
      && ReadRendered(r.value.value) == Some(MinuteOf(f.stamp))
  {
    match f
    case Missing => Ok(None)
    case Stamp(d) =>
      if ValidDateTime(d) then
        RenderedReadsBack(d);
        Ok(Some(Render(d)))
      else Err(InvalidDate)
  }

  // ---- Reading the rendered text back -----------------------------------------

  /** What survives rendering: everything but the seconds. */
  datatype Minute = Minute(year: nat, month: nat, day: nat, hour: nat, minute: nat)

  function MinuteOf(d: DateTime): Minute {
    Minute(d.year, d.month, d.day, d.hour, d.minute)
  }

  /** The first month, from index `k` on, whose name and a space begin `t`. */
  function MonthAt(t: string, k: nat): (r: Option<nat>)
    requires k <= 12
    decreases 12 - k
    ensures r.Some? ==> k <= r.value < 12 && StartsWith(t, MonthNames[r.value] + " ")
    ensures r.Some? ==> forall j :: k <= j < r.value ==> !StartsWith(t, MonthNames[j] + " ")
    ensures r.None? ==> forall j :: k <= j < 12 ==> !StartsWith(t, MonthNames[j] + " ")
  {
    if k == 12 then None
    else if StartsWith(t, MonthNames[k] + " ") then Some(k)
    else MonthAt(t, k + 1)
  }

  /** " at HH:MM AM" as the parser accepts it: fixed separators, a 12-hour clock and a meridiem. */
  predicate ClockShaped(c: string) {
    && |c| == 12 && c[..4] == " at " && c[6] == ':' && c[9] == ' '
    && AllDigits(c[4..6]) && AllDigits(c[7..9])
    && 1 <= ReadDecimal(c[4..6]) <= 12 && ReadDecimal(c[7..9]) < 60
    && (c[10..] == "AM" || c[10..] == "PM")
  }

  /** The 24-hour hour a 12-hour clock text denotes. */
  function ClockHour(c: string): nat
    requires |c| == 12
  {
    ReadDecimal(c[4..6]) % 12 + (if c[10..] == "PM" then 12 else 0)
  }

  /** "DD, YYYY", what follows the month name and its space. */
  predicate DayShaped(rest: string) {
    |rest| >= 5 && AllDigits(rest[..2]) && rest[2..4] == ", " && AllDigits(rest[4..])
  }

  /**
   * Parse "Month DD, YYYY at HH:MM AM" back into its fields: the fixed-width
   * clock at the end, the month name up to the first space, then the day and
   * the year. Text of any other shape reads as `None`.
   */
  function ReadRendered(t: string): (r: Option<Minute>) {
    if |t| < 12 then None
    else
      var clock := t[|t| - 12..];
      var head := t[..|t| - 12];
      if !ClockShaped(clock) then None
      else
        match MonthAt(head, 0)
        case None => None
        case Some(m) =>
          var rest := head[|MonthNames[m]| + 1..];
          if !DayShaped(rest) then None
          else Some(Minute(ReadDecimal(rest[4..]), m + 1, ReadDecimal(rest[..2]), ClockHour(clock), ReadDecimal(clock[7..9])))
  }

  predicate SpaceFree(w: string) {
    forall i :: 0 <= i < |w| ==> w[i] != ' '
  }

  /** Words without spaces: if one followed by a space begins the other followed by a space, they are equal. */
  lemma WordPrefix(a: string, b: string, rest: string)
    requires SpaceFree(a) && SpaceFree(b)
    requires StartsWith(b + " " + rest, a + " ")
    ensures a == b
  {
    var s := b + " " + rest;
    assert s[|a|] == ' ';
    assert s[|b|] == ' ';
    assert s[..|a|] == a;
    assert s[..|b|] == b;
  }

  lemma MonthNamesDistinct()
    ensures forall i, j :: 0 <= i < 12 && 0 <= j < 12 && MonthNames[i] == MonthNames[j] ==> i == j
    ensures forall i :: 0 <= i < 12 ==> SpaceFree(MonthNames[i])
  {
  }

  /** The month search finds exactly the month whose name was printed. */
  lemma MonthAtName(m: nat, rest: string)
    requires m < 12
    ensures MonthAt(MonthNames[m] + " " + rest, 0) == Some(m)
  {
    var t := MonthNames[m] + " " + rest;
    MonthNamesDistinct();
    assert StartsWith(t, MonthNames[m] + " ") by {
      assert t[..|MonthNames[m]| + 1] == MonthNames[m] + " ";
    }
    forall j | 0 <= j < 12 && StartsWith(t, MonthNames[j] + " ")
      ensures j == m
    {
      WordPrefix(MonthNames[j], MonthNames[m], rest);
    }
  }

  /** The clock text is well formed and reads back as the hour and the minute. */
  lemma ClockReadsBack(hour: nat, minute: nat)
    requires hour < 24 && minute < 60
    ensures var c := ClockText(hour, minute);
      ClockShaped(c) && ClockHour(c) == hour && ReadDecimal(c[7..9]) == minute
  {
    ClockTextFields(hour, minute);
  }

  /** Splitting `prefix + c` where `c` starts. */
  lemma SplitAtTail(prefix: string, c: string)
    ensures var t := prefix + c; t[..|t| - |c|] == prefix && t[|t| - |c|..] == c
  {
  }

  /** Where the hour, the minute and the meridiem sit in the clock text. */
  lemma ClockTextFields(hour: nat, minute: nat)
    requires hour < 24 && minute < 60
    ensures var c := ClockText(hour, minute);
      && c[..4] == " at " && c[6] == ':' && c[9] == ' '
      && c[4..6] == Pad2(Hour12(hour)) && c[7..9] == Pad2(minute) && c[10..] == Meridiem(hour)
  {
  }

  /** The day text read back gives the year, the month and the day. */
  lemma DayReadsBack(d: DateTime)
    requires ValidDateTime(d)
    ensures var head := DayText(d);
      && MonthAt(head, 0) == Some(d.month - 1)
      && var rest := head[|MonthNames[d.month - 1]| + 1..];
         DayShaped(rest) && ReadDecimal(rest[4..]) == d.year && ReadDecimal(rest[..2]) == d.day
  {
    var name := MonthNames[d.month - 1];
    var after := Pad2(d.day) + ", " + Decimal(d.year);
    var head := DayText(d);
    assert head == name + " " + after;
    MonthAtName(d.month - 1, after);
    assert head[|name| + 1..] == after;
    DayTextPieces(Pad2(d.day), Decimal(d.year));
    ReadDecimalOfDecimal(d.year);
  }

  /** The padded day, the comma and space, and the year digits make a day part of the accepted shape. */
  lemma DayTextPieces(day: string, year: string)
    requires |day| == 2 && AllDigits(day) && year != [] && AllDigits(year)
    ensures var rest := day + ", " + year; DayShaped(rest) && rest[..2] == day && rest[4..] == year
  {
    var rest := day + ", " + year;
    assert rest[..2] == day && rest[2..4] == ", " && rest[4..] == year;
  }

  /** The parser's answer once its pieces are known. */
  lemma ReadRenderedOf(head: string, clock: string, m: nat, when: Minute)
    requires ClockShaped(clock) && ClockHour(clock) == when.hour && ReadDecimal(clock[7..9]) == when.minute
    requires m < 12 && when.month == m + 1 && MonthAt(head, 0) == Some(m)
    requires var rest := head[|MonthNames[m]| + 1..];
      DayShaped(rest) && ReadDecimal(rest[4..]) == when.year && ReadDecimal(rest[..2]) == when.day
    ensures ReadRendered(head + clock) == Some(when)
  {
    SplitAtTail(head, clock);
  }

  /** Reading the rendered text recovers every field but the seconds. */
  lemma RenderedReadsBack(d: DateTime)
    requires ValidDateTime(d)
    ensures ReadRendered(Render(d)) == Some(MinuteOf(d))
  {
    ClockReadsBack(d.hour, d.minute);
    DayReadsBack(d);
    ReadRenderedOf(DayText(d), ClockText(d.hour, d.minute), d.month - 1, MinuteOf(d));
  }

  /** Two digits read and padded again give the same two digits. */
  lemma Pad2OfDigits(s: string)
    requires |s| == 2 && AllDigits(s)
    ensures ReadDecimal(s) < 100 && Pad2(ReadDecimal(s)) == s
  {
    assert ReadDecimal(s[..1]) == DigitValue(s[0]) by {
      assert s[..1][..0] == [];
    }
    var n := ReadDecimal(s);
    assert n == 10 * DigitValue(s[0]) + DigitValue(s[1]);
    var p := Pad2(n);
    assert p[0] as int == s[0] as int && p[1] as int == s[1] as int;
  }

  /** A 12-hour clock reading and its meridiem denote an hour that prints back the same way. */
  lemma HourOfClock(h12: nat, pm: bool)
    requires 1 <= h12 <= 12
    ensures var hour := h12 % 12 + (if pm then 12 else 0);
      hour < 24 && Hour12(hour) == h12 && (Meridiem(hour) == "PM" <==> pm)
  {
  }

  /** A clock-shaped text is its separators around its three fields. */
  lemma ClockPieces(c: string)
    requires |c| == 12 && c[..4] == " at " && c[6] == ':' && c[9] == ' '
    ensures c == " at " + c[4..6] + ":" + c[7..9] + " " + c[10..]
  {
    assert c == c[..4] + c[4..6] + [c[6]] + c[7..9] + [c[9]] + c[10..];
  }

  /** A clock the parser accepts is the clock text of the hour and minute it reads. */
  lemma ClockOfShaped(c: string)
    requires ClockShaped(c)
    ensures ClockHour(c) < 24 && ReadDecimal(c[7..9]) < 60
    ensures ClockText(ClockHour(c), ReadDecimal(c[7..9])) == c
  {
    var hour := ClockHour(c);
    HourOfClock(ReadDecimal(c[4..6]), c[10..] == "PM");
    Pad2OfDigits(c[4..6]);
    Pad2OfDigits(c[7..9]);
    ClockPieces(c);
    assert Meridiem(hour) == c[10..];
  }

  /** A month name and its space begin `head`, so `head` is that name, the space and the rest. */
  lemma MonthSplit(head: string, m: nat)
    requires m < 12 && StartsWith(head, MonthNames[m] + " ")
    ensures head == MonthNames[m] + " " + head[|MonthNames[m]| + 1..]
  {
    assert head == head[..|MonthNames[m]| + 1] + head[|MonthNames[m]| + 1..];
  }

  /** The day part is the padded day, the comma and space, and the year digits. */
  lemma DayPieces(rest: string)
    requires DayShaped(rest)
    ensures rest == rest[..2] + ", " + rest[4..]
  {
    assert rest == rest[..2] + rest[2..4] + rest[4..];
  }

  /** Putting the pieces of an accepted text back together. */
  lemma Assemble(t: string, head: string, clock: string, name: string, rest: string, day: string, year: string)
    requires t == head + clock && head == name + " " + rest && rest == day + ", " + year
    ensures t == name + " " + day + ", " + year + clock
  {
  }

  /** An accepted text, once its month is known. */
  lemma ShapeWithMonth(t: string, m: nat)
    requires |t| >= 12 && ClockShaped(t[|t| - 12..]) && m < 12 && MonthAt(t[..|t| - 12], 0) == Some(m)
    requires DayShaped(t[..|t| - 12][|MonthNames[m]| + 1..])
    ensures var rest := t[..|t| - 12][|MonthNames[m]| + 1..]; var clock := t[|t| - 12..];
      && ReadDecimal(rest[..2]) < 100 && ClockHour(clock) < 24 && ReadDecimal(clock[7..9]) < 60
      && t == MonthNames[m] + " " + Pad2(ReadDecimal(rest[..2])) + ", " + rest[4..]
           + ClockText(ClockHour(clock), ReadDecimal(clock[7..9]))
  {
    var clock := t[|t| - 12..];
    var head := t[..|t| - 12];
    var rest := head[|MonthNames[m]| + 1..];
    ClockOfShaped(clock);
    Pad2OfDigits(rest[..2]);
    MonthSplit(head, m);
    DayPieces(rest);
    assert t == head + clock;
    Assemble(t, head, clock, MonthNames[m], rest, rest[..2], rest[4..]);
  }

  /**
   * The converse of reading back: text the parser accepts has the rendered
   * shape, with the fields it reads, up to leading zeros in the year.
   */
  lemma ReadRenderedShape(t: string)
    requires ReadRendered(t).Some?
    ensures var w := ReadRendered(t).value;
      && 1 <= w.month <= 12 && w.day < 100 && w.hour < 24 && w.minute < 60
      && exists year :: year != [] && AllDigits(year) && ReadDecimal(year) == w.year
           && t == MonthNames[w.month - 1] + " " + Pad2(w.day) + ", " + year + ClockText(w.hour, w.minute)
  {
    var clock := t[|t| - 12..];
    var head := t[..|t| - 12];
    assert MonthAt(head, 0).Some?;
    var m :| MonthAt(head, 0) == Some(m);
    var rest := head[|MonthNames[m]| + 1..];
    var year := rest[4..];
    assert ReadRendered(t) == Some(Minute(ReadDecimal(year), m + 1, ReadDecimal(rest[..2]), ClockHour(clock), ReadDecimal(clock[7..9])));
    ShapeWithMonth(t, m);
    assert year != [] && AllDigits(year);
  }

  /** An hour past twelve on the 12-hour clock reads as nothing. */
  lemma RejectsHourPastTwelve()
    ensures ReadRendered("January 05, 2024 at 15:07 PM") == None
  {
    var t := "January 05, 2024 at 15:07 PM";
    assert t[|t| - 12..] == " at 15:07 PM";
    assert ReadDecimal("15") == 15 by {
      assert "15"[..1] == "1" && "1"[..0] == [];
    }
    assert " at 15:07 PM"[4..6] == "15";
  }

  /** Other separators than the rendered ones read as nothing. */
  lemma RejectsOtherSeparators()
    ensures ReadRendered("January 05xx2024 zz 03:07 PM") == None
  {
    var t := "January 05xx2024 zz 03:07 PM";
    assert t[|t| - 12..] == " zz 03:07 PM";
    assert " zz 03:07 PM"[..4] == " zz ";
  }

  /** An hour or a day without its zero padding reads as nothing. */
  lemma RejectsUnpadded()
    ensures ReadRendered("January  5, 2024 at  3:07 PM") == None
  {
    var t := "January  5, 2024 at  3:07 PM";
    assert t[|t| - 12..] == " at  3:07 PM";
    assert " at  3:07 PM"[4..6][0] == ' ';
  }

  /** Stamps a minute or more apart render differently. */
  lemma RenderInjective(d1: DateTime, d2: DateTime)
    requires ValidDateTime(d1) && ValidDateTime(d2)
    requires Render(d1) == Render(d2)
    ensures MinuteOf(d1) == MinuteOf(d2)
  {
    RenderedReadsBack(d1);
    RenderedReadsBack(d2);
  }

  /** Midnight prints as 12 AM and noon as 12 PM. */
  lemma MidnightAndNoon(minute: nat)
    requires minute < 60
    ensures ClockText(0, minute) == " at 12:" + Pad2(minute) + " AM"
    ensures ClockText(12, minute) == " at 12:" + Pad2(minute) + " PM"
  {
    assert Pad2(12) == "12";
  }
}
