/** Timestamps as the graph stores and compares them: ISO 8601 text in UTC.

    `datetime.fromisoformat` followed by the conversion to UTC is a parameter here, so what is
    proved holds for every parser that reads the texts this module itself writes. */
module Timestamps {
  import opened Text

  // ---- calendar ------------------------------------------------------------

  datatype Date = Date(year: int, month: int, day: int)

  /** A UTC moment to the microsecond. */
  datatype Civil = Civil(date: Date, hour: int, minute: int, second: int, micro: int)

  predicate IsLeap(year: int) {
    year % 4 == 0 && (year % 100 != 0 || year % 400 == 0)
  }

  function DaysIn(year: int, month: int): int {
    if month == 2 then (if IsLeap(year) then 29 else 28)
    else if month in {4, 6, 9, 11} then 30
    else 31
  }

  predicate ValidDate(d: Date) {
    1 <= d.year <= 9999 && 1 <= d.month <= 12 && 1 <= d.day <= DaysIn(d.year, d.month)
  }

  predicate Valid(c: Civil) {
    && ValidDate(c.date)
    && 0 <= c.hour < 24 && 0 <= c.minute < 60 && 0 <= c.second < 60 && 0 <= c.micro < 1_000_000
  }

  /** Days of the year before the month starts. */
  function DaysBeforeMonth(year: int, month: int): int
    decreases month
  {
    if month <= 1 then 0 else DaysBeforeMonth(year, month - 1) + DaysIn(year, month - 1)
  }

  function YearLength(year: int): int {
    if IsLeap(year) then 366 else 365
  }

  function DaysBeforeYear(year: int): int
    decreases year
  {
    if year <= 1 then 0 else DaysBeforeYear(year - 1) + YearLength(year - 1)
  }

  function DayNumber(d: Date): int {
    DaysBeforeYear(d.year) + DaysBeforeMonth(d.year, d.month) + d.day
  }

  /** Microseconds since the start of the calendar: physical time. */
  function Instant(c: Civil): int {
    (((DayNumber(c.date) * 24 + c.hour) * 60 + c.minute) * 60 + c.second) * 1_000_000 + c.micro
  }

  function Midnight(d: Date): Civil {
    Civil(d, 0, 0, 0, 0)
  }

  // ---- text ----------------------------------------------------------------

  function Digit(n: int): char
    requires 0 <= n < 10
  {
    ('0' as int + n) as char
  }

  function Power10(width: nat): int {
    if width == 0 then 1 else 10 * Power10(width - 1)
  }

  /** `n` in exactly `width` decimal digits. */
  function Digits(n: int, width: nat): (s: string)
    requires 0 <= n < Power10(width)
    ensures |s| == width
    ensures forall c :: c in s ==> '0' <= c <= '9'
  {
    if width == 0 then "" else Digits(n / 10, width - 1) + [Digit(n % 10)]
  }

  function DateText(d: Date): string
    requires ValidDate(d)
  {
    Widths();
    Digits(d.year, 4) + ("-" + (Digits(d.month, 2) + ("-" + Digits(d.day, 2))))
  }

  /** The time of day to the second, as it follows the date. */
  function SecondText(c: Civil): string
    requires Valid(c)
  {
    Widths();
    "T" + (Digits(c.hour, 2) + (":" + (Digits(c.minute, 2) + (":" + Digits(c.second, 2)))))
  }

  /** `isoformat(timespec="microseconds")` without the offset. */
  function Body(c: Civil): string
    requires Valid(c)
  {
    Widths();
    DateText(c.date) + (SecondText(c) + ("." + Digits(c.micro, 6)))
  }

  /** The canonical stored form. */
  function Format(c: Civil): string
    requires Valid(c)
  {
    Body(c) + "Z"
  }

  lemma Widths()
    ensures Power10(2) == 100 && Power10(4) == 10_000 && Power10(6) == 1_000_000
  {
    assert Power10(3) == 1000;
    assert Power10(5) == 100_000;
  }

  // ---- the normaliser ------------------------------------------------------

  type Moment = c: Civil | Valid(c) witness Civil(Date(1, 1, 1), 0, 0, 0, 0)

  datatype Parsed = Unparseable | At(moment: Moment)

  predicate IsAsciiDigit(c: char) {
    '0' <= c <= '9'
  }

  /** `^\d{4}-\d{2}-\d{2}$` */
  predicate DateOnly(s: string) {
    && |s| == 10 && s[4] == '-' && s[7] == '-'
    && (forall i :: 0 <= i < 10 && i != 4 && i != 7 ==> IsAsciiDigit(s[i]))
  }

  /** `text.replace("Z", "+00:00")` */
  function SpellOutZ(s: string): string {
    if s == [] then [] else (if s[0] == 'Z' then "+00:00" else [s[0]]) + SpellOutZ(s[1..])
  }

  function Canonical(parse: string -> Parsed, value: Option<string>): Option<string> {
    if value.None? then None
    else
      var text := Strip(value.value);
      if text == "" then None
      else if DateOnly(text) then Some(text + "T00:00:00Z")
      else match parse(SpellOutZ(text))
        case Unparseable => Some(text)
        case At(moment) => Some(Format(moment))
  }

  /** What is asked of the parser: it reads back the two forms the normaliser itself writes, and
      takes nothing for a day that is not in the calendar. */
  ghost predicate ReadsCanonical(parse: string -> Parsed) {
    && (forall c | Valid(c) :: parse(Body(c) + "+00:00") == At(c))
    && (forall d | ValidDate(d) :: parse(DateText(d) + "T00:00:00+00:00") == At(Midnight(d)))
    && (forall s | DateOnly(s) && parse(s + "T00:00:00+00:00").At? :: NamesADay(s))
  }

  ghost predicate NamesADay(s: string) {
    exists d :: ValidDate(d) && s == DateText(d)
  }

  // ---- what the normaliser returns -----------------------------------------

  lemma {:induction false} SpellOutFinalZ(s: string)
    requires 'Z' !in s
    ensures SpellOutZ(s + "Z") == s + "+00:00"
  {
    if s != [] {
      assert (s + "Z")[1..] == s[1..] + "Z";
      SpellOutFinalZ(s[1..]);
      assert s + "+00:00" == [s[0]] + (s[1..] + "+00:00");
    } else {
      assert s + "Z" == "Z";
      assert SpellOutZ("Z"[1..]) == "";
    }
  }

  lemma FormatShape(c: Civil)
    requires Valid(c)
    ensures |Format(c)| == 27 && 'Z' !in Body(c) && Stripped(Format(c))
  {
    Widths();
    var year := Digits(c.date.year, 4);
    assert Format(c)[0] == year[0] && year[0] in year;
  }

  lemma DateTextShape(d: Date)
    requires ValidDate(d)
    ensures DateOnly(DateText(d)) && Strip(DateText(d)) == DateText(d)
  {
    Widths();
    var year, month, day := Digits(d.year, 4), Digits(d.month, 2), Digits(d.day, 2);
    var text := DateText(d);
    assert text[4] == '-' && text[7] == '-';
    forall i | 0 <= i < 10 && i != 4 && i != 7 ensures IsAsciiDigit(text[i]) {
      if i < 4 { assert text[i] == year[i] && year[i] in year; }
      else if i < 7 { assert text[i] == month[i - 5] && month[i - 5] in month; }
      else { assert text[i] == day[i - 8] && day[i - 8] in day; }
    }
    StripFixesStripped(text);
  }

  /** A canonical value is never blank and is never stripped further. */
  lemma CanonicalIsStripped(parse: string -> Parsed, value: Option<string>)
    requires Canonical(parse, value).Some?
    ensures var text := Canonical(parse, value).value; text != "" && Stripped(text) && Strip(text) == text
  {
    var _, _ := StripCuts(value.value);
    var text := Canonical(parse, value).value;
    var given := Strip(value.value);
    if !DateOnly(given) && parse(SpellOutZ(given)).At? {
      FormatShape(parse(SpellOutZ(given)).moment);
    }
    StripFixesStripped(text);
  }

  /** A canonical moment is a fixed point. */
  lemma FormatIsFixed(parse: string -> Parsed, c: Civil)
    requires ReadsCanonical(parse) && Valid(c)
    ensures Canonical(parse, Some(Format(c))) == Some(Format(c))
  {
    FormatShape(c);
    StripFixesStripped(Format(c));
    SpellOutFinalZ(Body(c));
  }

  /** What a second pass does to a day: nothing if it is not in the calendar, and otherwise it
      writes out the microseconds. */
  lemma WidenedDay(parse: string -> Parsed, day: string)
    requires ReadsCanonical(parse) && DateOnly(day)
    ensures !NamesADay(day) ==> Canonical(parse, Some(day + "T00:00:00Z")) == Some(day + "T00:00:00Z")
    ensures forall d :: ValidDate(d) && day == DateText(d) ==>
        Canonical(parse, Some(day + "T00:00:00Z")) == Some(Format(Midnight(d)))
  {
    var text := day + "T00:00:00Z";
    StripFixesStripped(text);
    assert text == (day + "T00:00:00") + "Z";
    forall i | 0 <= i < 10 ensures day[i] != 'Z' {
      if i != 4 && i != 7 { assert IsAsciiDigit(day[i]); }
    }
    SpellOutFinalZ(day + "T00:00:00");
    assert (day + "T00:00:00") + "+00:00" == day + "T00:00:00+00:00";
  }

  /** Normalising is idempotent except on a day of the calendar, which takes two passes. */
  lemma CanonicalIdempotentIff(parse: string -> Parsed, value: Option<string>)
    requires ReadsCanonical(parse)
    ensures Canonical(parse, Canonical(parse, value)) == Canonical(parse, value)
       <==> !(value.Some? && DateOnly(Strip(value.value)) && NamesADay(Strip(value.value)))
  {
    if Canonical(parse, value).Some? {
      CanonicalIsStripped(parse, value);
      var given := Strip(value.value);
      if DateOnly(given) {
        WidenedDay(parse, given);
        if NamesADay(given) {
          var d :| ValidDate(d) && given == DateText(d);
          FormatShape(Midnight(d));
        }
      } else if parse(SpellOutZ(given)).At? {
        FormatIsFixed(parse, parse(SpellOutZ(given)).moment);
      }
    }
  }

  /** Nothing changes after the second pass. */
  lemma CanonicalStableAfterTwo(parse: string -> Parsed, value: Option<string>)
    requires ReadsCanonical(parse)
    ensures var twice := Canonical(parse, Canonical(parse, value)); Canonical(parse, twice) == twice
  {
    CanonicalIdempotentIff(parse, value);
    if value.Some? && DateOnly(Strip(value.value)) && NamesADay(Strip(value.value)) {
      var d :| ValidDate(d) && Strip(value.value) == DateText(d);
      WidenedDay(parse, Strip(value.value));
      FormatIsFixed(parse, Midnight(d));
    }
  }

  /** Normalising keeps the moment: blank texts, and only they, become nothing; a day of the calendar
      stands for its midnight, a text the parser reads for what it reads, and any other is kept. */
  lemma CanonicalKeepsTheMoment(parse: string -> Parsed, given: string)
    requires ReadsCanonical(parse)
    ensures Canonical(parse, None) == None && (Canonical(parse, Some(given)).None? <==> Strip(given) == "")
    ensures forall d :: ValidDate(d) && Strip(given) == DateText(d) ==>
      parse(SpellOutZ(Canonical(parse, Some(given)).value)) == At(Midnight(d))
    ensures Strip(given) != "" && !DateOnly(Strip(given)) ==>
      var stored := Canonical(parse, Some(given)).value;
      match parse(SpellOutZ(Strip(given)))
      case At(moment) => parse(SpellOutZ(stored)) == At(moment)
      case Unparseable => stored == Strip(given)
  {
    var text := Strip(given);
    forall d | ValidDate(d) && text == DateText(d)
      ensures parse(SpellOutZ(Canonical(parse, Some(given)).value)) == At(Midnight(d))
    {
      DateTextShape(d);
      DayHasNoZ(text);
      assert text + "T00:00:00Z" == (text + "T00:00:00") + "Z";
      SpellOutFinalZ(text + "T00:00:00");
      assert (text + "T00:00:00") + "+00:00" == text + "T00:00:00+00:00";
    }
    if text != "" && !DateOnly(text) && parse(SpellOutZ(text)).At? {
      var c := parse(SpellOutZ(text)).moment;
      FormatShape(c);
      SpellOutFinalZ(Body(c));
    }
  }

  lemma DayHasNoZ(day: string)
    requires DateOnly(day)
    ensures 'Z' !in day + "T00:00:00"
  {
    forall i | 0 <= i < 10 ensures day[i] != 'Z' {
      if i != 4 && i != 7 { assert IsAsciiDigit(day[i]); }
    }
  }

  /** What decimal digits stand for. */
  function Reading(s: string): int {
    if s == [] then 0 else Reading(s[..|s| - 1]) * 10 + (s[|s| - 1] as int - '0' as int)
  }

  lemma {:induction false} DigitsReadBack(n: int, width: nat)
    requires 0 <= n < Power10(width)
    ensures Reading(Digits(n, width)) == n
  {
    if width > 0 {
      DigitsReadBack(n / 10, width - 1);
      var s := Digits(n, width);
      assert s[..width - 1] == Digits(n / 10, width - 1) && s[width - 1] == Digit(n % 10);
    }
  }

  lemma SliceOfSlice(s: string, from: nat, to: nat, i: nat, j: nat)
    requires i <= j <= to - from && from <= to <= |s|
    ensures s[from..to][i..j] == s[from + i..from + j]
  {
    assert forall k :: 0 <= k < j - i ==> s[from..to][i..j][k] == s[from + i + k] == s[from + i..from + j][k];
  }

  /** The stored form, character by character: `YYYY-MM-DDThh:mm:ss.ffffffZ`. */
  lemma FormatReadsBack(c: Civil)
    requires Valid(c)
    ensures |Format(c)| == 27
    ensures var s := Format(c);
      && s[4] == '-' && s[7] == '-' && s[10] == 'T' && s[13] == ':' && s[16] == ':' && s[19] == '.' && s[26] == 'Z'
      && Reading(s[..4]) == c.date.year && Reading(s[5..7]) == c.date.month && Reading(s[8..10]) == c.date.day
      && Reading(s[11..13]) == c.hour && Reading(s[14..16]) == c.minute && Reading(s[17..19]) == c.second
      && Reading(s[20..26]) == c.micro
  {
    Widths();
    var s := Format(c);
    DigitsReadBack(c.date.year, 4);
    DigitsReadBack(c.date.month, 2);
    DigitsReadBack(c.date.day, 2);
    DigitsReadBack(c.hour, 2);
    DigitsReadBack(c.minute, 2);
    DigitsReadBack(c.second, 2);
    DigitsReadBack(c.micro, 6);
    var date, time := DateText(c.date), SecondText(c);
    assert s == date + (time + ("." + Digits(c.micro, 6))) + "Z";
    assert date[..4] == Digits(c.date.year, 4) && date[5..7] == Digits(c.date.month, 2) && date[8..10] == Digits(c.date.day, 2);
    assert time[1..3] == Digits(c.hour, 2) && time[4..6] == Digits(c.minute, 2) && time[7..9] == Digits(c.second, 2);
    assert s[..4] == date[..4] && s[5..7] == date[5..7] && s[8..10] == date[8..10];
    assert s[10..19] == time;
    SliceOfSlice(s, 10, 19, 1, 3);
    SliceOfSlice(s, 10, 19, 4, 6);
    SliceOfSlice(s, 10, 19, 7, 9);
    assert s[20..26] == Digits(c.micro, 6);
  }

  // ---- string order is time order ------------------------------------------

  /** A well-formed stored value: a day as it is widened on write, or a full moment. */
  datatype Stored = Day(date: Date) | Full(civil: Civil)

  predicate WellFormed(u: Stored) {
    match u
    case Day(d) => ValidDate(d)
    case Full(c) => Valid(c)
  }

  function Written(u: Stored): string
    requires WellFormed(u)
  {
    match u
    case Day(d) => DateText(d) + "T00:00:00Z"
    case Full(c) => Format(c)
  }

  function When(u: Stored): int {
    match u
    case Day(d) => Instant(Midnight(d))
    case Full(c) => Instant(c)
  }

  /** One value is a bare day and the other a full moment in that day's first second. */
  predicate SameFirstSecond(u: Stored, v: Stored) {
    match (u, v)
    case (Day(d), Full(c)) => c.date == d && c.hour == 0 && c.minute == 0 && c.second == 0
    case (Full(c), Day(d)) => c.date == d && c.hour == 0 && c.minute == 0 && c.second == 0
    case _ => false
  }

  /** Stored values are what the normaliser returns for days and for moments. */
  lemma NormaliserWrites(parse: string -> Parsed, u: Stored)
    requires ReadsCanonical(parse) && WellFormed(u)
    ensures exists value :: Canonical(parse, Some(value)) == Some(Written(u))
  {
    match u
    case Day(d) =>
      DateTextShape(d);
      assert Canonical(parse, Some(DateText(d))) == Some(Written(u));
    case Full(c) =>
      FormatIsFixed(parse, c);
  }

  lemma {:induction false} DigitsOrder(n: int, m: int, width: nat)
    requires 0 <= n < Power10(width) && 0 <= m < Power10(width)
    ensures Less(Digits(n, width), Digits(m, width)) <==> n < m
    ensures Digits(n, width) == Digits(m, width) <==> n == m
  {
    if width > 0 {
      DigitsOrder(n / 10, m / 10, width - 1);
      var a, b := Digits(n / 10, width - 1), Digits(m / 10, width - 1);
      LessOfConcat(a, b, [Digit(n % 10)], [Digit(m % 10)]);
      assert Digits(n, width)[..width - 1] == a && Digits(m, width)[..width - 1] == b;
      assert Digits(n, width)[width - 1] == Digit(n % 10) && Digits(m, width)[width - 1] == Digit(m % 10);
    }
  }

  /** A separator between two numbers does not disturb the order. */
  lemma FieldOrder(n: int, m: int, width: nat, mark: char, x: string, y: string)
    requires 0 <= n < Power10(width) && 0 <= m < Power10(width)
    ensures Less(Digits(n, width) + ([mark] + x), Digits(m, width) + ([mark] + y))
       <==> n < m || (n == m && Less(x, y))
    ensures Digits(n, width) + ([mark] + x) == Digits(m, width) + ([mark] + y) <==> n == m && x == y
  {
    DigitsOrder(n, m, width);
    LessOfConcat(Digits(n, width), Digits(m, width), [mark] + x, [mark] + y);
    LessOfConcat([mark], [mark], x, y);
    SameConcat(Digits(n, width), Digits(m, width), [mark] + x, [mark] + y);
    SameConcat([mark], [mark], x, y);
    LessIrreflexive([mark]);
  }

  lemma SameConcat(a: string, b: string, x: string, y: string)
    requires |a| == |b|
    ensures a + x == b + y <==> a == b && x == y
  {
    if a + x == b + y {
      assert (a + x)[..|a|] == a && (b + y)[..|b|] == b;
      assert (a + x)[|a|..] == x && (b + y)[|b|..] == y;
    }
  }

  predicate DateBefore(a: Date, b: Date) {
    a.year < b.year || (a.year == b.year && (a.month < b.month || (a.month == b.month && a.day < b.day)))
  }

  predicate ClockBefore(a: Civil, b: Civil) {
    a.hour < b.hour || (a.hour == b.hour && (a.minute < b.minute || (a.minute == b.minute && a.second < b.second)))
  }

  predicate SameClock(a: Civil, b: Civil) {
    a.hour == b.hour && a.minute == b.minute && a.second == b.second
  }

  lemma DateTextOrder(a: Date, b: Date)
    requires ValidDate(a) && ValidDate(b)
    ensures Less(DateText(a), DateText(b)) <==> DateBefore(a, b)
    ensures DateText(a) == DateText(b) <==> a == b
  {
    Widths();
    DigitsOrder(a.day, b.day, 2);
    FieldOrder(a.month, b.month, 2, '-', Digits(a.day, 2), Digits(b.day, 2));
    FieldOrder(a.year, b.year, 4, '-', Digits(a.month, 2) + ("-" + Digits(a.day, 2)), Digits(b.month, 2) + ("-" + Digits(b.day, 2)));
  }

  lemma SecondTextOrder(a: Civil, b: Civil)
    requires Valid(a) && Valid(b)
    ensures Less(SecondText(a), SecondText(b)) <==> ClockBefore(a, b)
    ensures SecondText(a) == SecondText(b) <==> SameClock(a, b)
  {
    Widths();
    DigitsOrder(a.second, b.second, 2);
    FieldOrder(a.minute, b.minute, 2, ':', Digits(a.second, 2), Digits(b.second, 2));
    var x, y := Digits(a.minute, 2) + (":" + Digits(a.second, 2)), Digits(b.minute, 2) + (":" + Digits(b.second, 2));
    FieldOrder(a.hour, b.hour, 2, ':', x, y);
    LessOfConcat("T", "T", Digits(a.hour, 2) + (":" + x), Digits(b.hour, 2) + (":" + y));
    SameConcat("T", "T", Digits(a.hour, 2) + (":" + x), Digits(b.hour, 2) + (":" + y));
    LessIrreflexive("T");
  }

  /** Date and second first, then whatever follows the second. */
  lemma StampOrder(a: Civil, b: Civil, x: string, y: string)
    requires Valid(a) && Valid(b)
    ensures Less(DateText(a.date) + (SecondText(a) + x), DateText(b.date) + (SecondText(b) + y))
       <==> DateBefore(a.date, b.date)
            || (a.date == b.date && (ClockBefore(a, b) || (SameClock(a, b) && Less(x, y))))
  {
    DateTextOrder(a.date, b.date);
    SecondTextOrder(a, b);
    assert |DateText(a.date)| == |DateText(b.date)| && |SecondText(a)| == |SecondText(b)|;
    LessOfConcat(SecondText(a), SecondText(b), x, y);
    LessOfConcat(DateText(a.date), DateText(b.date), SecondText(a) + x, SecondText(b) + y);
  }

  lemma {:induction false} DaysBeforeMonthGrows(year: int, m: int, n: int)
    requires 1 <= m < n
    ensures DaysBeforeMonth(year, m) + DaysIn(year, m) <= DaysBeforeMonth(year, n)
    decreases n
  {
    if m < n - 1 { DaysBeforeMonthGrows(year, m, n - 1); }
  }

  lemma {:induction false} DaysBeforeYearGrows(a: int, b: int)
    requires 1 <= a < b
    ensures DaysBeforeYear(a) + YearLength(a) <= DaysBeforeYear(b)
    decreases b
  {
    if a < b - 1 { DaysBeforeYearGrows(a, b - 1); }
  }

  lemma WithinYear(d: Date)
    requires ValidDate(d)
    ensures 1 <= DaysBeforeMonth(d.year, d.month) + d.day <= YearLength(d.year)
  {
    assert DaysBeforeMonth(d.year, 12) + DaysIn(d.year, 12) == YearLength(d.year);
    if d.month < 12 { DaysBeforeMonthGrows(d.year, d.month, 12); }
    if 1 < d.month { DaysBeforeMonthGrows(d.year, 1, d.month); }
  }

  lemma DayNumberOrder(a: Date, b: Date)
    requires ValidDate(a) && ValidDate(b) && DateBefore(a, b)
    ensures DayNumber(a) < DayNumber(b)
  {
    if a.year < b.year {
      WithinYear(a);
      WithinYear(b);
      DaysBeforeYearGrows(a.year, b.year);
    } else if a.month < b.month {
      DaysBeforeMonthGrows(a.year, a.month, b.month);
    }
  }

  lemma InstantOrder(a: Civil, b: Civil)
    requires Valid(a) && Valid(b)
    ensures Instant(a) < Instant(b)
       <==> DateBefore(a.date, b.date)
            || (a.date == b.date && (ClockBefore(a, b) || (SameClock(a, b) && a.micro < b.micro)))
  {
    if DateBefore(a.date, b.date) {
      DayNumberOrder(a.date, b.date);
    } else if DateBefore(b.date, a.date) {
      DayNumberOrder(b.date, a.date);
    } else {
      assert a.date == b.date;
    }
  }

  /** The order of canonical texts is the order of time, in both directions, for every pair of
      well-formed values except a bare day against a full moment in its first second. There the
      bare day sorts last, so a statement that ends on a bare day outlives that second. */
  lemma OrderIsTimeIff(u: Stored, v: Stored)
    requires WellFormed(u) && WellFormed(v)
    ensures ((Less(Written(u), Written(v)) <==> When(u) < When(v)) && (Less(Written(v), Written(u)) <==> When(v) < When(u)))
       <==> !SameFirstSecond(u, v)
    ensures SameFirstSecond(u, v) && u.Full? ==> Less(Written(u), Written(v)) && When(v) <= When(u)
  {
    var a, x := Shape(u);
    var b, y := Shape(v);
    StampOrder(a, b, x, y);
    StampOrder(b, a, y, x);
    InstantOrder(a, b);
    InstantOrder(b, a);
    Widths();
    if u.Full? && v.Full? {
      MicroOrder(a.micro, b.micro);
      MicroOrder(b.micro, a.micro);
    }
    if u.Day? && v.Day? { LessIrreflexive("Z"); }
    if u.Day? && v.Full? { assert x[0] == 'Z' && y[0] == '.'; }
    if u.Full? && v.Day? { assert y[0] == 'Z' && x[0] == '.'; }
  }

  lemma Shape(u: Stored) returns (c: Civil, rest: string)
    requires WellFormed(u)
    ensures Valid(c) && Written(u) == DateText(c.date) + (SecondText(c) + rest) && When(u) == Instant(c)
    ensures match u
            case Day(d) => c == Midnight(d) && rest == "Z"
            case Full(f) => c == f && 0 <= c.micro < Power10(6) && rest == "." + (Digits(c.micro, 6) + "Z")
  {
    Widths();
    match u
    case Day(d) =>
      c, rest := Midnight(d), "Z";
      MidnightText(d);
    case Full(f) =>
      c, rest := f, "." + (Digits(f.micro, 6) + "Z");
  }

  lemma MidnightText(d: Date)
    requires ValidDate(d)
    ensures DateText(d) + "T00:00:00Z" == DateText(d) + (SecondText(Midnight(d)) + "Z")
  {
    Widths();
    assert Digits(0, 1) == "0";
    assert Digits(0, 2) == "00";
    assert SecondText(Midnight(d)) + "Z" == "T00:00:00Z";
  }

  lemma MicroOrder(m: int, n: int)
    requires 0 <= m < Power10(6) && 0 <= n < Power10(6)
    ensures Less("." + (Digits(m, 6) + "Z"), "." + (Digits(n, 6) + "Z")) <==> m < n
  {
    LessOfConcat(".", ".", Digits(m, 6) + "Z", Digits(n, 6) + "Z");
    LessOfConcat(Digits(m, 6), Digits(n, 6), "Z", "Z");
    DigitsOrder(m, n, 6);
    LessIrreflexive(".");
    LessIrreflexive("Z");
  }
}
