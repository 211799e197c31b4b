/**
 Export timestamps: a local date and time in a declared component order, parsed leniently and
 resolved to an instant in a declared zone. A stamp is the local clock in seconds from 1970-01-01.
 */
module Stamps {
  import opened Calendar
  import opened Numbers
  import opened Text
  import opened Wrappers
  import opened Zones

  datatype DateOrder = DayMonthYear | MonthDayYear

  /** The years the date library holds. */
  const MIN_YEAR: int := -262143
  const MAX_YEAR: int := 262142

  // ---------- Parsing ----------

  function DigitValue(c: char): nat
    requires IsDigit(c)
  {
    c as int - '0' as int
  }

  function ParseDigits(s: string): Option<nat> {
    if s == [] || !IsDigit(s[|s| - 1]) then None
    else if |s| == 1 then Some(DigitValue(s[0]))
    else
      match ParseDigits(s[..|s| - 1])
      case None => None
      case Some(v) => Some(10 * v + DigitValue(s[|s| - 1]))
  }

  /** An optional plus sign and digits, within 32 bits. */
  function ParseU32(s: string): Option<nat> {
    match ParseDigits(if s != [] && s[0] == '+' then s[1..] else s)
    case None => None
    case Some(v) => if v <= U32_MAX then Some(v) else None
  }

  /** An optional sign and digits, within 32 bits. */
  function ParseI32(s: string): Option<int> {
    if s != [] && s[0] == '-' then
      match ParseDigits(s[1..])
      case None => None
      case Some(v) => if v <= 0x8000_0000 then Some(-(v as int)) else None
    else
      match ParseDigits(if s != [] && s[0] == '+' then s[1..] else s)
      case None => None
      case Some(v) => if v < 0x8000_0000 then Some(v) else None
  }

  /** The pieces between separators: always at least one. */
  function Split(s: string, separators: string): (r: seq<string>)
    ensures |r| >= 1
  {
    if s == [] then [[]]
    else
      var rest := Split(s[1..], separators);
      if s[0] in separators then [[]] + rest else [[s[0]] + rest[0]] + rest[1..]
  }

  function ParseDate(s: string, order: DateOrder): Option<Date> {
    var parts := Split(s, "/.-");
    if |parts| != 3 then None
    else
      match (ParseI32(Trim(parts[0])), ParseI32(Trim(parts[1])), ParseI32(Trim(parts[2])))
      case (Some(a), Some(b), Some(c)) =>
        var year := if 0 <= c < 100 then c + 2000 else c;
        var d := if order.DayMonthYear? then Date(year, b, a) else Date(year, a, b);
        if IsDate(d) && MIN_YEAR <= year <= MAX_YEAR then Some(d) else None
      case _ => None
  }

  function Uppercased(s: string): (r: string)
    ensures |r| == |s|
  {
    seq(|s|, i requires 0 <= i < |s| => if 'a' <= s[i] <= 'z' then s[i] - 'a' + 'A' else s[i])
  }

  predicate EndsWith(s: string, suffix: string) {
    |suffix| <= |s| && s[|s| - |suffix|..] == suffix
  }

  datatype HalfDay = Am | Pm

  function ParseTime(s: string): Option<int> {
    var up := Uppercased(s);
    if EndsWith(up, "AM") then ParseClock(Trim(up[..|up| - 2]), Some(Am))
    else if EndsWith(up, "PM") then ParseClock(Trim(up[..|up| - 2]), Some(Pm))
    else ParseClock(up, None)
  }

  /** Hours, minutes and optional seconds; anything after a third colon is ignored. */
  function ParseClock(digits: string, half: Option<HalfDay>): Option<int> {
    var parts := Split(digits, ":");
    if |parts| < 2 then None
    else
      match (ParseU32(Trim(parts[0])), ParseU32(Trim(parts[1])),
             if |parts| > 2 then ParseU32(Trim(parts[2])) else Some(0))
      case (Some(h), Some(minute), Some(second)) =>
        var hour := if half == Some(Pm) && h < 12 then h + 12 else if half == Some(Am) && h == 12 then 0 else h;
        if hour < 24 && minute < 60 && second < 60 then Some(hour * 3600 + minute * 60 + second) else None
      case _ => None
  }

  function ParseStamp(stamp: string, order: DateOrder): Option<int> {
    match Find(stamp, ",")
    case None => None
    case Some(i) =>
      match (ParseDate(Trim(stamp[..i]), order), ParseTime(Trim(stamp[i + 1..])))
      case (Some(date), Some(time)) => Some(DayNumber(date) * SECS_PER_DAY + time)
      case _ => None
  }

  // ---------- Rendering ----------

  /** At least one digit, and nothing else. */
  predicate Plain(s: string) {
    s != [] && forall c <- s :: IsDigit(c)
  }

  function Digit(n: int): (c: char)
    requires 0 <= n <= 9
    ensures IsDigit(c) && DigitValue(c) == n
  {
    '0' + n as char
  }

  function Pad2(n: int): (s: string)
    requires 0 <= n < 100
    ensures |s| == 2 && Plain(s)
  {
    [Digit(n / 10), Digit(n % 10)]
  }

  function Pad4(n: int): (s: string)
    requires 0 <= n < 10000
    ensures |s| == 4 && Plain(s)
  {
    Pad2(n / 100) + Pad2(n % 100)
  }

  datatype Years = FourDigits | TwoDigits

  /** Hours of the whole day, or of half of it with AM or PM; with seconds or without; padded with a zero or not. */
  datatype Clock = Clock(twelveHours: bool, seconds: bool, padded: bool)

  /** How exports of one locale write their stamps, whatever the order of day and month. */
  datatype StampStyle = StampStyle(years: Years, separator: char, padded: bool, clock: Clock)

  /** A year a style can write so that it is read back: two digits are of the years from 2000 on. */
  predicate WritesYear(years: Years, year: int) {
    match years
    case FourDigits => 100 <= year < 10000
    case TwoDigits => 2000 <= year < 2100
  }

  /** A number of at most two digits. */
  function Written(n: int, padded: bool): string
    requires 0 <= n < 100
  {
    if padded || n >= 10 then Pad2(n) else [Digit(n)]
  }

  function RenderYear(year: int, years: Years): string
    requires WritesYear(years, year)
  {
    match years
    case FourDigits => Pad4(year)
    case TwoDigits => Pad2(year % 100)
  }

  function RenderDate(d: Date, order: DateOrder, style: StampStyle): string
    requires 0 <= d.day < 100 && 0 <= d.month < 100 && WritesYear(style.years, d.year)
  {
    var (a, b) := if order.DayMonthYear? then (d.day, d.month) else (d.month, d.day);
    Written(a, style.padded) + [style.separator] + Written(b, style.padded) + [style.separator]
    + RenderYear(d.year, style.years)
  }

  function HourOf(second: int): (h: int)
    requires 0 <= second < SECS_PER_DAY
    ensures 0 <= h < 24
  {
    second / 3600
  }

  function MinuteOf(second: int): (m: int)
    ensures 0 <= m < 60
  {
    second / 60 % 60
  }

  function SecondOf(second: int): (s: int)
    ensures 0 <= s < 60
  {
    second % 60
  }

  function RenderClock(hour: int, minute: int, second: int, clock: Clock): string
    requires 0 <= hour < 100 && 0 <= minute < 100 && 0 <= second < 100
  {
    Written(hour, clock.padded) + ":" + Pad2(minute) + if clock.seconds then ":" + Pad2(second) else ""
  }

  /** The hour as a clock shows it: the twelve-hour one reads twelve at midnight and noon. */
  function ShownHour(second: int, clock: Clock): (h: int)
    requires 0 <= second < SECS_PER_DAY
    ensures 0 <= h < 24
  {
    if !clock.twelveHours then HourOf(second) else if HourOf(second) % 12 == 0 then 12 else HourOf(second) % 12
  }

  function RenderTime(second: int, clock: Clock): string
    requires 0 <= second < SECS_PER_DAY
  {
    RenderClock(ShownHour(second, clock), MinuteOf(second), SecondOf(second), clock)
    + if !clock.twelveHours then "" else if HourOf(second) < 12 then " AM" else " PM"
  }

  /** The calendar day and the second of it that a stamp stands for. */
  function DayOf(local: int): int {
    local / SECS_PER_DAY
  }

  function TimeOf(local: int): (second: int)
    ensures 0 <= second < SECS_PER_DAY
  {
    local % SECS_PER_DAY
  }

  /** A local time that a style writes in full: it has the year, and the second unless that is zero. */
  predicate Writable(local: int, style: StampStyle) {
    && style.separator in "/.-"
    && WritesYear(style.years, DateOf(DayOf(local)).year)
    && (style.clock.seconds || local % 60 == 0)
  }

  function RenderStamp(local: int, order: DateOrder, style: StampStyle): string
    requires Writable(local, style)
  {
    RenderDate(DateOf(DayOf(local)), order, style) + ", " + RenderTime(TimeOf(local), style.clock)
  }

  // ---------- Parsing undoes rendering ----------

  lemma OneMoreDigit(s: string, c: char)
    requires s != [] && ParseDigits(s).Some? && IsDigit(c)
    ensures ParseDigits(s + [c]) == Some(10 * ParseDigits(s).value + DigitValue(c))
  {
    assert (s + [c])[..|s|] == s;
  }

  lemma Pad2Digits(n: int)
    requires 0 <= n < 100
    ensures ParseDigits(Pad2(n)) == Some(n)
  {
    var a, b := Digit(n / 10), Digit(n % 10);
    assert ParseDigits([a]) == Some(n / 10);
    OneMoreDigit([a], b);
    assert [a] + [b] == Pad2(n);
  }

  lemma Pad4Digits(n: int)
    requires 0 <= n < 10000
    ensures ParseDigits(Pad4(n)) == Some(n)
  {
    hide ParseDigits, Pad2, Digit, Plain;
    var a, b, c := Pad2(n / 100), Digit(n % 100 / 10), Digit(n % 10);
    Pad2Digits(n / 100);
    FourDigits(n);
    OneMoreDigit(a, b);
    OneMoreDigit(a + [b], c);
  }

  lemma FourDigits(n: int)
    requires 0 <= n < 10000
    ensures var a, b, c := Pad2(n / 100), Digit(n % 100 / 10), Digit(n % 10);
            && Pad4(n) == a + [b] + [c] && |a| == 2 && IsDigit(b) && IsDigit(c)
            && n == 10 * (10 * (n / 100) + DigitValue(b)) + DigitValue(c)
  {
  }

  /** Plain digits have no sign to strip and no blanks to trim. */
  lemma PlainParses(s: string)
    requires Plain(s)
    ensures Trim(s) == s
    ensures ParseDigits(s).Some? && ParseDigits(s).value < 0x8000_0000 ==>
              ParseI32(s) == Some(ParseDigits(s).value) && ParseU32(s) == Some(ParseDigits(s).value)
  {
    assert s[0] in s && s[|s| - 1] in s;
    hide ParseDigits;
  }

  lemma {:induction false} SplitFirst(piece: string, separator: char, rest: string, separators: string)
    requires separator in separators && forall c <- piece :: c !in separators
    ensures Split(piece + [separator] + rest, separators) == [piece] + Split(rest, separators)
  {
    var s := piece + [separator] + rest;
    if piece == [] {
      assert s[1..] == rest;
    } else {
      SplitFirst(piece[1..], separator, rest, separators);
      assert s[1..] == piece[1..] + [separator] + rest;
      assert piece[0] in piece && [piece[0]] + piece[1..] == piece;
    }
  }

  lemma {:induction false} SplitNone(piece: string, separators: string)
    requires forall c <- piece :: c !in separators
    ensures Split(piece, separators) == [piece]
  {
    if piece != [] {
      SplitNone(piece[1..], separators);
      assert piece[0] in piece && [piece[0]] + piece[1..] == piece;
    }
  }

  lemma SplitThree(a: string, b: string, c: string, separator: char, separators: string)
    requires separator in separators && forall x <- separators :: !IsDigit(x)
    requires Plain(a) && Plain(b) && Plain(c)
    ensures Split(a + [separator] + b + [separator] + c, separators) == [a, b, c]
  {
    assert a + [separator] + b + [separator] + c == a + [separator] + (b + [separator] + c);
    SplitFirst(a, separator, b + [separator] + c, separators);
    SplitFirst(b, separator, c, separators);
    SplitNone(c, separators);
    hide Split;
  }

  lemma DateFromParts(
      x: string, y: string, z: string, a: int, b: int, c: int, year: int, order: DateOrder, separator: char)
    requires Plain(x) && Plain(y) && Plain(z) && separator in "/.-"
    requires ParseI32(x) == Some(a) && ParseI32(y) == Some(b) && ParseI32(z) == Some(c)
    requires 0 <= year <= MAX_YEAR
    requires (c == year && year >= 100) || (0 <= c < 100 && year == 2000 + c)
    ensures var d := if order.DayMonthYear? then Date(year, b, a) else Date(year, a, b);
            ParseDate(x + [separator] + y + [separator] + z, order) == if IsDate(d) then Some(d) else None
  {
    hide Split, ParseI32, ParseU32, ParseDigits, Trim, Plain, IsDate;
    SplitThree(x, y, z, separator, "/.-");
    PlainParses(x);
    PlainParses(y);
    PlainParses(z);
  }

  lemma DaysInMonthIsSmall(d: Date)
    requires IsDate(d)
    ensures 1 <= d.day <= 31 && 1 <= d.month <= 12
  {
  }

  /** A date of two-digit numbers is read as it is written if there is such a date, and rejected if there is not. */
  lemma DateParses(d: Date, order: DateOrder, style: StampStyle)
    requires 0 <= d.day < 100 && 0 <= d.month < 100 && WritesYear(style.years, d.year) && style.separator in "/.-"
    ensures ParseDate(RenderDate(d, order, style), order) == if IsDate(d) then Some(d) else None
  {
    var a, b := if order.DayMonthYear? then d.day else d.month, if order.DayMonthYear? then d.month else d.day;
    hide ParseDate, ParseI32, ParseU32, ParseDigits, Plain, Written, Pad4, IsDate, RenderYear;
    WrittenParses(a, style.padded);
    WrittenParses(b, style.padded);
    var c := YearParses(d.year, style.years);
    var x, y := Written(a, style.padded), Written(b, style.padded);
    DateFromParts(x, y, RenderYear(d.year, style.years), a, b, c, d.year, order, style.separator);
  }

  /** The number a written year parses as. */
  lemma YearParses(year: int, years: Years) returns (c: int)
    requires WritesYear(years, year)
    ensures Plain(RenderYear(year, years)) && ParseI32(RenderYear(year, years)) == Some(c)
    ensures (c == year && year >= 100) || (0 <= c < 100 && year == 2000 + c)
  {
    hide ParseI32, Pad2, Pad4, Plain;
    match years {
      case FourDigits =>
        c := year;
        Pad4Parses(year);
      case TwoDigits =>
        c := year % 100;
        PadParses(c);
    }
  }

  lemma PadIsPlain(n: int)
    requires 0 <= n < 100
    ensures Plain(Pad2(n)) && |Pad2(n)| == 2
  {
  }

  lemma Pad4Parses(n: int)
    requires 0 <= n < 10000
    ensures Plain(Pad4(n)) && |Pad4(n)| == 4 && ParseI32(Pad4(n)) == Some(n)
  {
    Pad4IsPlain(n);
    hide *;
    Pad4Digits(n);
    PlainParses(Pad4(n));
  }

  lemma Pad4IsPlain(n: int)
    requires 0 <= n < 10000
    ensures Plain(Pad4(n)) && |Pad4(n)| == 4
  {
  }

  lemma PadParses(n: int)
    requires 0 <= n < 100
    ensures Plain(Pad2(n)) && ParseI32(Pad2(n)) == Some(n) && ParseU32(Pad2(n)) == Some(n)
  {
    hide *;
    PadIsPlain(n);
    Pad2Digits(n);
    PlainParses(Pad2(n));
  }

  lemma WrittenParses(n: int, padded: bool)
    requires 0 <= n < 100
    ensures var s := Written(n, padded); Plain(s) && ParseI32(s) == Some(n) && ParseU32(s) == Some(n)
  {
    hide ParseI32, ParseU32;
    if padded || n >= 10 {
      PadParses(n);
    } else {
      var s := [Digit(n)];
      assert ParseDigits(s) == Some(n);
      PlainParses(s);
    }
  }

  /** The hour of the day that is meant by a shown one. */
  function HourMeant(hour: int, half: Option<HalfDay>): int {
    if half == Some(Pm) && hour < 12 then hour + 12 else if half == Some(Am) && hour == 12 then 0 else hour
  }

  /** The second of the day at such a time, if there is one. */
  function TimeMeant(hour: int, minute: int, second: int, half: Option<HalfDay>): Option<int> {
    if HourMeant(hour, half) < 24 && minute < 60 && second < 60
    then Some(HourMeant(hour, half) * 3600 + minute * 60 + second) else None
  }

  lemma ClockFromParts(x: string, y: string, z: string, hour: int, minute: int, second: int, half: Option<HalfDay>)
    requires Plain(x) && Plain(y) && Plain(z)
    requires ParseU32(x) == Some(hour) && ParseU32(y) == Some(minute) && ParseU32(z) == Some(second)
    ensures ParseClock(x + ":" + y + ":" + z, half) == TimeMeant(hour, minute, second, half)
  {
    hide Split, ParseU32, ParseI32, ParseDigits, Trim, Plain, IsDigit;
    ColonSplits(x, y, z);
    PlainParses(x);
    PlainParses(y);
    PlainParses(z);
  }

  lemma ColonSplits(x: string, y: string, z: string)
    requires Plain(x) && Plain(y) && Plain(z)
    ensures Split(x + ":" + y + ":" + z, ":") == [x, y, z]
  {
    SplitThree(x, y, z, ':', ":");
  }

  lemma ClockFromTwoParts(x: string, y: string, hour: int, minute: int, half: Option<HalfDay>)
    requires Plain(x) && Plain(y)
    requires ParseU32(x) == Some(hour) && ParseU32(y) == Some(minute)
    ensures ParseClock(x + ":" + y, half) == TimeMeant(hour, minute, 0, half)
  {
    hide Split, ParseU32, ParseI32, ParseDigits, Trim;
    SplitFirst(x, ':', y, ":");
    SplitNone(y, ":");
    hide Plain;
    PlainParses(x);
    PlainParses(y);
  }

  lemma ClockParses(hour: int, minute: int, second: int, clock: Clock, half: Option<HalfDay>)
    requires 0 <= hour < 100 && 0 <= minute < 100 && 0 <= second < 100 && (clock.seconds || second == 0)
    ensures ParseClock(RenderClock(hour, minute, second, clock), half) == TimeMeant(hour, minute, second, half)
  {
    var x, y, z := Written(hour, clock.padded), Pad2(minute), Pad2(second);
    hide ParseClock, ParseU32, ParseI32, Written, Pad2, Plain, TimeMeant;
    WrittenParses(hour, clock.padded);
    PadParses(minute);
    PadParses(second);
    if clock.seconds {
      ClockFromParts(x, y, z, hour, minute, second, half);
      assert RenderClock(hour, minute, second, clock) == x + ":" + y + ":" + z;
    } else {
      ClockFromTwoParts(x, y, hour, minute, half);
      assert RenderClock(hour, minute, second, clock) == x + ":" + y;
    }
  }

  lemma ShownHourIsMeant(second: int, clock: Clock)
    requires 0 <= second < SECS_PER_DAY
    ensures var half := if !clock.twelveHours then None else Some(if HourOf(second) < 12 then Am else Pm);
            HourMeant(ShownHour(second, clock), half) == HourOf(second)
  {
  }

  lemma HourMinuteSecond(second: int)
    requires 0 <= second < SECS_PER_DAY
    ensures second == HourOf(second) * 3600 + MinuteOf(second) * 60 + SecondOf(second)
  {
  }

  predicate HasNoLowercase(s: string) {
    forall c <- s :: !('a' <= c <= 'z')
  }

  lemma UppercaseKeeps(s: string)
    requires HasNoLowercase(s)
    ensures Uppercased(s) == s
  {
    assert forall i :: 0 <= i < |s| ==> s[i] in s;
  }

  lemma TimeWithoutHalf(s: string)
    requires HasNoLowercase(s) && s != [] && IsDigit(s[|s| - 1])
    ensures ParseTime(s) == ParseClock(s, None)
  {
    UppercaseKeeps(s);
    hide ParseClock, Uppercased, HasNoLowercase;
    forall suffix | suffix == "AM" || suffix == "PM"
      ensures !EndsWith(s, suffix)
    {
      assert |s| >= 2 ==> s[|s| - 2..][1] != suffix[1];
    }
  }

  lemma TimeWithHalf(clock: string, half: HalfDay)
    requires HasNoLowercase(clock) && Trim(clock + " ") == clock
    ensures ParseTime(clock + if half.Am? then " AM" else " PM") == ParseClock(clock, Some(half))
  {
    hide ParseClock, Uppercased, Trim, HasNoLowercase, EndsWith;
    var suffix := if half.Am? then "AM" else "PM";
    assert clock + " " + suffix == clock + if half.Am? then " AM" else " PM";
    SuffixIsTold(clock, suffix);
    UppercaseKeeps(clock + " " + suffix);
  }

  lemma SuffixIsTold(clock: string, suffix: string)
    requires HasNoLowercase(clock) && (suffix == "AM" || suffix == "PM")
    ensures var s := clock + " " + suffix;
            && HasNoLowercase(s) && s[..|s| - 2] == clock + " "
            && (EndsWith(s, "AM") <==> suffix == "AM") && (EndsWith(s, "PM") <==> suffix == "PM")
  {
    var s := clock + " " + suffix;
    assert s[|s| - 2..] == suffix;
    assert "AM"[0] != "PM"[0];
  }

  lemma ClockTextIsClean(hour: int, minute: int, second: int, clock: Clock)
    requires 0 <= hour < 100 && 0 <= minute < 100 && 0 <= second < 100
    ensures var s := RenderClock(hour, minute, second, clock);
            && s != [] && IsDigit(s[0]) && IsDigit(s[|s| - 1]) && HasNoLowercase(s)
            && (forall c <- s :: IsDigit(c) || c == ':')
            && Trim(s) == s && Trim(s + " ") == s
  {
    var s, x, y, z := RenderClock(hour, minute, second, clock), Written(hour, clock.padded), Pad2(minute), Pad2(second);
    hide Written, Pad2, Trim, ParseI32, ParseU32;
    WrittenParses(hour, clock.padded);
    PadIsPlain(minute);
    PadIsPlain(second);
    assert x[0] in x && y[1] in y && z[1] in z;
    assert s[0] == x[0] && s[|s| - 1] == if clock.seconds then z[1] else y[1];
    assert forall c <- s :: IsDigit(c) || c == ':';
    TrimmedAtBothEnds(s);
  }

  /** Every time of either clock is read back right, midnight and noon included, with seconds or without. */
  lemma TimeParses(second: int, clock: Clock)
    requires 0 <= second < SECS_PER_DAY && (clock.seconds || SecondOf(second) == 0)
    ensures ParseTime(RenderTime(second, clock)) == Some(second)
  {
    hide *;
    TimeIsClock(second, clock);
    var hour, minute, left := ShownHour(second, clock), MinuteOf(second), SecondOf(second);
    var text := RenderClock(hour, minute, left, clock);
    ClockTextIsClean(hour, minute, left, clock);
    if clock.twelveHours {
      var half := if HourOf(second) < 12 then Am else Pm;
      TimeWithHalf(text, half);
      ClockParses(hour, minute, left, clock, Some(half));
    } else {
      TimeWithoutHalf(text);
      ClockParses(hour, minute, left, clock, None);
    }
  }

  /** A time of two-digit numbers is read as it is written if there is such a time, and rejected if there is not. */
  lemma ImpossibleTimesAreRejected(hour: int, minute: int, second: int, clock: Clock, half: Option<HalfDay>)
    requires 0 <= hour < 100 && 0 <= minute < 100 && 0 <= second < 100 && (clock.seconds || second == 0)
    ensures var text := RenderClock(hour, minute, second, clock);
            ParseTime(match half case None => text case Some(Am) => text + " AM" case Some(Pm) => text + " PM")
              == TimeMeant(hour, minute, second, half)
  {
    hide *;
    ClockTextIsClean(hour, minute, second, clock);
    ClockParses(hour, minute, second, clock, half);
    if half.Some? {
      TimeWithHalf(RenderClock(hour, minute, second, clock), half.value);
    } else {
      TimeWithoutHalf(RenderClock(hour, minute, second, clock));
    }
  }

  lemma TimeIsClock(second: int, clock: Clock)
    requires 0 <= second < SECS_PER_DAY
    ensures var hour, minute, left := ShownHour(second, clock), MinuteOf(second), SecondOf(second);
            && 0 <= hour < 24 && 0 <= minute < 60 && 0 <= left < 60
            && var text, am := RenderClock(hour, minute, left, clock), HourOf(second) < 12;
               var half := if !clock.twelveHours then None else Some(if am then Am else Pm);
               && RenderTime(second, clock)
                    == (if !clock.twelveHours then text else text + if am then " AM" else " PM")
               && TimeMeant(hour, minute, left, half) == Some(second)
  {
    hide RenderClock;
    HourMinuteSecond(second);
    ShownHourIsMeant(second, clock);
    hide HourOf, MinuteOf, SecondOf, ShownHour;
  }

  /** The date and the time of a stamp are what stands on either side of its first comma. */
  lemma StampAtComma(date: string, time: string, order: DateOrder)
    requires forall c <- date :: c != ','
    ensures ParseStamp(date + "," + time, order)
         == match (ParseDate(Trim(date), order), ParseTime(Trim(time)))
            case (Some(d), Some(t)) => Some(DayNumber(d) * SECS_PER_DAY + t)
            case _ => None
  {
    hide ParseDate, ParseTime, Trim, DayNumber;
    var s := date + "," + time;
    assert At(s, ",", |date|);
    forall j | 0 <= j < |date|
      ensures !At(s, ",", j)
    {
      assert s[j] in date;
      assert s[j..j + 1][0] == s[j];
    }
    assert s[..|date|] == date && s[|date| + 1..] == time;
  }

  /** What a stamp is made of: no bracket, and no blank before a dash. */
  ghost predicate StampText(s: string) {
    && (forall c <- s :: IsDigit(c) || c in "/.-,: AMP")
    && (forall j :: 0 <= j < |s| && s[j] == ' ' ==> j + 1 < |s| && s[j + 1] != '-')
  }

  /**
   Parsing a rendered stamp gives the local time back: in either component order, with years of four
   digits or of two, any separator, and either clock with seconds or without.
   */
  lemma StampParses(local: int, order: DateOrder, style: StampStyle)
    requires Writable(local, style)
    ensures ParseStamp(RenderStamp(local, order, style), order) == Some(local)
    ensures var s := RenderStamp(local, order, style);
            s != [] && IsDigit(s[0]) && Trim(s) == s && StampText(s)
  {
    hide *;
    var n, second := DayOf(local), TimeOf(local);
    StampHasTwoParts(local, order, style);
    var date, time := RenderDate(DateOf(n), order, style), RenderTime(second, style.clock);
    RenderedTimeIsClean(second, style.clock);
    DateParses(DateOf(n), order, style);
    RenderedDateIsClean(DateOf(n), order, style);
    TimeParses(second, style.clock);
    JoinedStampIsClean(date, time);
    StampAtComma(date, " " + time, order);
  }

  lemma StampHasTwoParts(local: int, order: DateOrder, style: StampStyle)
    requires Writable(local, style)
    ensures var n, second := DayOf(local), TimeOf(local);
            && 0 <= second < SECS_PER_DAY && (style.clock.seconds || SecondOf(second) == 0)
            && IsDate(DateOf(n)) && 1 <= DateOf(n).day <= 31 && 1 <= DateOf(n).month <= 12
            && WritesYear(style.years, DateOf(n).year) && style.separator in "/.-"
            && RenderStamp(local, order, style)
                 == RenderDate(DateOf(n), order, style) + ", " + RenderTime(second, style.clock)
            && local == DayNumber(DateOf(n)) * SECS_PER_DAY + second
  {
    hide RenderDate, RenderTime, DayNumber, IsDate, DateOf, SecondOf;
    NumberOfDate(DayOf(local));
    DateOfIsDate(DayOf(local));
    DaysInMonthIsSmall(DateOf(DayOf(local)));
    if !style.clock.seconds {
      WholeMinute(local);
    }
  }

  /** The characters of a date, or of a time, as written. */
  ghost predicate DateText(s: string) {
    s != [] && IsDigit(s[0]) && forall c <- s :: IsDigit(c) || c in "/.-"
  }

  ghost predicate TimeText(s: string) {
    && s != [] && IsDigit(s[0]) && !IsWhitespace(s[|s| - 1])
    && (forall c <- s :: IsDigit(c) || c in ": AMP")
  }

  lemma JoinedStampIsClean(date: string, time: string)
    requires DateText(date) && TimeText(time)
    ensures Trim(" " + time) == time && date + ", " + time == date + "," + (" " + time)
    ensures var s := date + ", " + time; s != [] && IsDigit(s[0]) && Trim(s) == s && StampText(s)
    ensures forall c <- date :: c != ','
  {
    hide Trim;
    var s := date + ", " + time;
    TrimmedAtBothEnds(time);
    TrimmedAtBothEnds(s);
    forall j | 0 <= j < |s|
      ensures IsDigit(s[j]) || s[j] in "/.-,: AMP"
      ensures s[j] == ' ' ==> j + 1 < |s| && s[j + 1] != '-'
    {
      var k := j - |date| - 2;
      if j < |date| {
        assert s[j] == date[j] && date[j] in date;
      } else if k >= 0 {
        assert s[j] == time[k] && time[k] in time;
        assert k + 1 < |time| ==> s[j + 1] == time[k + 1] && time[k + 1] in time;
      }
    }
  }

  lemma RenderedTimeIsClean(second: int, clock: Clock)
    requires 0 <= second < SECS_PER_DAY
    ensures TimeText(RenderTime(second, clock))
  {
    hide RenderClock, HourOf, MinuteOf, SecondOf, ShownHour;
    ClockTextIsClean(ShownHour(second, clock), MinuteOf(second), SecondOf(second), clock);
  }

  lemma RenderedDateIsClean(d: Date, order: DateOrder, style: StampStyle)
    requires IsDate(d) && WritesYear(style.years, d.year) && style.separator in "/.-"
    ensures DateText(RenderDate(d, order, style)) && Trim(RenderDate(d, order, style)) == RenderDate(d, order, style)
  {
    hide Written, Pad4, Plain, RenderYear, Trim, DaysInMonth, ParseI32, ParseU32;
    DaysInMonthIsSmall(d);
    WrittenParses(d.day, style.padded);
    WrittenParses(d.month, style.padded);
    var c := YearParses(d.year, style.years);
    var a, b := if order.DayMonthYear? then d.day else d.month, if order.DayMonthYear? then d.month else d.day;
    var x, y := Written(a, style.padded), Written(b, style.padded);
    JoinedDateIsClean(x, y, RenderYear(d.year, style.years), style.separator);
  }

  lemma JoinedDateIsClean(x: string, y: string, z: string, separator: char)
    requires Plain(x) && Plain(y) && Plain(z) && separator in "/.-"
    ensures var s := x + [separator] + y + [separator] + z; DateText(s) && Trim(s) == s
  {
    hide Trim;
    var s := x + [separator] + y + [separator] + z;
    assert x[0] in x && z[|z| - 1] in z;
    assert s[0] == x[0] && s[|s| - 1] == z[|z| - 1];
    assert forall c <- s :: c in x || c in y || c in z || c == separator;
    TrimmedAtBothEnds(s);
  }

  lemma WholeMinute(local: int)
    requires local % 60 == 0
    ensures SecondOf(TimeOf(local)) == 0
  {
    var minutes := local / 60 - SECS_PER_DAY / 60 * DayOf(local);
    assert TimeOf(local) == minutes * 60 + 0;
    QuotientIsUnique(minutes, 0, 60);
  }
}
