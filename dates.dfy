/**
 * The calendar-day value of models/date.go: a `Date` is a day of the proleptic
 * Gregorian calendar at midnight UTC, kept as a (year, month, day) triple.
 * It is parsed and formatted with Go's reference layout "2006-01-02".
 */
module Dates {
  import opened Wrappers

  datatype Date = Date(year: int, month: int, day: int)

  /** A point in time in UTC: its calendar day and the nanoseconds elapsed since midnight. */
  datatype Instant = Instant(date: Date, nanoOfDay: nat)

  datatype DateError = Malformed | MonthOutOfRange | DayOutOfRange | NotAJsonString

  /** Go's zero time.Time, January 1 of year 1; a zero `Date` means "no date". */
  const Zero := Date(1, 1, 1)

  predicate IsZero(d: Date) { d == Zero }

  /** The instant at which a day begins; dates built by NewDate and ParseDateOnly carry no time of day. */
  function AtMidnight(d: Date): Instant { Instant(d, 0) }

  predicate IsLeap(year: int) {
    year % 4 == 0 && (year % 100 != 0 || year % 400 == 0)
  }

  function DaysIn(month: int, year: int): (n: int)
    requires 1 <= month <= 12
    ensures 28 <= n <= 31
    ensures n == 29 <==> month == 2 && IsLeap(year)
  {
    if month == 2 then (if IsLeap(year) then 29 else 28)
    else if month == 4 || month == 6 || month == 9 || month == 11 then 30
    else 31
  }

  predicate ValidDate(d: Date) {
    1 <= d.month <= 12 && 1 <= d.day <= DaysIn(d.month, d.year)
  }

  /** Strictly earlier; on valid dates the lexicographic order of the triples is the order of days. */
  predicate Before(a: Date, b: Date) {
    a.year < b.year || (a.year == b.year && (a.month < b.month || (a.month == b.month && a.day < b.day)))
  }

  function NextMonthFirst(d: Date): (r: Date)
    requires ValidDate(d)
    ensures ValidDate(r) && Before(d, r)
  {
    if d.month == 12 then Date(d.year + 1, 1, 1) else Date(d.year, d.month + 1, 1)
  }

  function PrevMonthLast(d: Date): (r: Date)
    requires ValidDate(d)
    ensures ValidDate(r) && Before(r, d)
  {
    if d.month == 1 then Date(d.year - 1, 12, 31)
    else Date(d.year, d.month - 1, DaysIn(d.month - 1, d.year))
  }

  /** The day `n` days after `d` (before it when `n` is negative), stepping a month at a time. */
  function AddDays(d: Date, n: int): (r: Date)
    requires ValidDate(d)
    ensures ValidDate(r)
    ensures n == 0 ==> r == d
    decreases if n >= 0 then n else -n
  {
    if n >= 0 then
      if d.day + n <= DaysIn(d.month, d.year) then Date(d.year, d.month, d.day + n)
      else AddDays(NextMonthFirst(d), n - (DaysIn(d.month, d.year) - d.day + 1))
    else
      if d.day + n >= 1 then Date(d.year, d.month, d.day + n)
      else AddDays(PrevMonthLast(d), n + d.day)
  }

  /**
   * NewDate(year, month, day) is time.Date(year, month, day, 0, 0, 0, 0, UTC):
   * a month outside 1..12 carries into the year, and a day outside the month
   * carries into the neighbouring months ("October 32" is November 1).
   */
  function NewDate(year: int, month: int, day: int): (r: Date)
    ensures ValidDate(r)
    ensures ValidDate(Date(year, month, day)) ==> r == Date(year, month, day)
  {
    var y := year + (month - 1) / 12;
    var m := (month - 1) % 12 + 1;
    AddDays(Date(y, m, 1), day - 1)
  }

  // ---------------------------------------------------------------------------
  // Formatting with the layout "2006-01-02"

  function DigitChar(n: int): (c: char)
    requires 0 <= n <= 9
    ensures '0' <= c <= '9'
  {
    (('0' as int) + n) as char
  }

  predicate IsDigit(c: char) { '0' <= c <= '9' }

  function DigitVal(c: char): (n: int)
    requires IsDigit(c)
    ensures 0 <= n <= 9 && DigitChar(n) == c
  {
    (c as int) - ('0' as int)
  }

  /** The decimal digits of `n`, without leading zeros. */
  function Digits(n: nat): (s: string)
    ensures |s| >= 1
    ensures forall i :: 0 <= i < |s| ==> IsDigit(s[i])
  {
    if n < 10 then [DigitChar(n)] else Digits(n / 10) + [DigitChar(n % 10)]
  }

  function ZeroPad(s: string, width: nat): (r: string)
    ensures |r| >= width && |r| >= |s|
    decreases width - |s|
  {
    if |s| >= width then s else ZeroPad(['0'] + s, width)
  }

  /** Go's time.appendInt: a sign for negative values, then the digits zero-padded to `width`. */
  function AppendInt(x: int, width: nat): (s: string)
    ensures |s| >= width
    ensures 0 <= x < 100 && width == 2 ==> |s| == 2
    ensures 0 <= x < 10000 && width == 4 ==> |s| == 4
  {
    var u := if x < 0 then -x else x;
    var sign := if x < 0 then "-" else "";
    if width == 2 && u < 100 then
      sign + [DigitChar(u / 10), DigitChar(u % 10)]
    else if width == 4 && u < 10000 then
      sign + [DigitChar(u / 1000), DigitChar(u / 100 % 10), DigitChar(u / 10 % 10), DigitChar(u % 10)]
    else
      sign + ZeroPad(Digits(u), width)
  }

  /** d.Format("2006-01-02"): at least ten characters, exactly ten for a four-digit year and two-digit month and day. */
  function Format(d: Date): (s: string)
    ensures |s| >= 10
    ensures 0 <= d.year <= 9999 && 0 <= d.month <= 99 && 0 <= d.day <= 99 ==> |s| == 10
  {
    AppendInt(d.year, 4) + "-" + AppendInt(d.month, 2) + "-" + AppendInt(d.day, 2)
  }

  // ---------------------------------------------------------------------------
  // Parsing with the layout "2006-01-02"

  /** The shape time.Parse demands: four digits, '-', two digits, '-', two digits, nothing more. */
  predicate DateShaped(s: string) {
    |s| == 10 && s[4] == '-' && s[7] == '-'
    && IsDigit(s[0]) && IsDigit(s[1]) && IsDigit(s[2]) && IsDigit(s[3])
    && IsDigit(s[5]) && IsDigit(s[6]) && IsDigit(s[8]) && IsDigit(s[9])
  }

  function YearOf(s: string): int
    requires DateShaped(s)
  {
    1000 * DigitVal(s[0]) + 100 * DigitVal(s[1]) + 10 * DigitVal(s[2]) + DigitVal(s[3])
  }

  function MonthOf(s: string): int
    requires DateShaped(s)
  {
    10 * DigitVal(s[5]) + DigitVal(s[6])
  }

  function DayOf(s: string): int
    requires DateShaped(s)
  {
    10 * DigitVal(s[8]) + DigitVal(s[9])
  }

  /** ParseDateOnly: time.Parse("2006-01-02", s), strict about digits, separators, length and ranges. */
  function ParseDateOnly(s: string): (r: Result<Date, DateError>)
    ensures r.Ok? ==> ValidDate(r.value) && 0 <= r.value.year <= 9999
    ensures r.Ok? <==> DateShaped(s) && ValidDate(Date(YearOf(s), MonthOf(s), DayOf(s)))
  {
    if !DateShaped(s) then Err(Malformed)
    else
      var y, m, d := YearOf(s), MonthOf(s), DayOf(s);
      if m < 1 || 12 < m then Err(MonthOutOfRange)
      else if d < 1 || d > DaysIn(m, y) then Err(DayOutOfRange)
      else Ok(Date(y, m, d))
  }

  // ---------------------------------------------------------------------------
  // Round trips between ParseDateOnly and Format

  lemma DigitRoundTrip(n: int)
    requires 0 <= n <= 9
    ensures IsDigit(DigitChar(n)) && DigitVal(DigitChar(n)) == n
  {
  }

  /** Division by ten is determined by a quotient and a remainder in range. */
  lemma DivBy10(x: int, q: int, r: int)
    requires 0 <= r < 10 && x == 10 * q + r
    ensures x / 10 == q && x % 10 == r
  {
  }

  lemma DivBy100(x: int, q: int, r: int)
    requires 0 <= r < 100 && x == 100 * q + r
    ensures x / 100 == q && x % 100 == r
  {
  }

  lemma DivBy1000(x: int, q: int, r: int)
    requires 0 <= r < 1000 && x == 1000 * q + r
    ensures x / 1000 == q && x % 1000 == r
  {
  }

  /** Four digits read back from their four-digit number. */
  lemma FourDigitJoin(a: int, b: int, c: int, d: int)
    requires 0 <= a <= 9 && 0 <= b <= 9 && 0 <= c <= 9 && 0 <= d <= 9
    ensures var y := 1000 * a + 100 * b + 10 * c + d;
      y / 1000 == a && y / 100 % 10 == b && y / 10 % 10 == c && y % 10 == d
  {
    var y := 1000 * a + 100 * b + 10 * c + d;
    DivBy1000(y, a, 100 * b + 10 * c + d);
    DivBy100(y, 10 * a + b, 10 * c + d);
    DivBy10(10 * a + b, a, b);
    DivBy10(y, 100 * a + 10 * b + c, d);
    DivBy10(100 * a + 10 * b + c, 10 * a + b, c);
  }

  /** A four-digit number is the sum of its digits' place values. */
  lemma FourDigitSplit(y: int)
    requires 0 <= y < 10000
    ensures 1000 * (y / 1000) + 100 * (y / 100 % 10) + 10 * (y / 10 % 10) + y % 10 == y
  {
    var a, r := y / 1000, y % 1000;
    var b, r2 := r / 100, r % 100;
    var c, d := r2 / 10, r2 % 10;
    assert y == 1000 * a + 100 * b + 10 * c + d;
    FourDigitJoin(a, b, c, d);
  }

  /** A valid day of a four-digit year formats as exactly the text ParseDateOnly accepts and reads back. */
  lemma FormatShaped(d: Date)
    requires ValidDate(d) && 0 <= d.year <= 9999
    ensures DateShaped(Format(d))
    ensures YearOf(Format(d)) == d.year && MonthOf(Format(d)) == d.month && DayOf(Format(d)) == d.day
  {
    var y, m, dd := d.year, d.month, d.day;
    DigitRoundTrip(y / 1000);
    DigitRoundTrip(y / 100 % 10);
    DigitRoundTrip(y / 10 % 10);
    DigitRoundTrip(y % 10);
    DigitRoundTrip(m / 10);
    DigitRoundTrip(m % 10);
    DigitRoundTrip(dd / 10);
    DigitRoundTrip(dd % 10);
    FourDigitSplit(y);
    var s := Format(d);
    assert s == [DigitChar(y / 1000), DigitChar(y / 100 % 10), DigitChar(y / 10 % 10), DigitChar(y % 10), '-',
                 DigitChar(m / 10), DigitChar(m % 10), '-', DigitChar(dd / 10), DigitChar(dd % 10)];
  }

  /** Formatting a parsed day gives back the text it was parsed from. */
  lemma ParseThenFormat(s: string)
    requires ParseDateOnly(s).Ok?
    ensures Format(ParseDateOnly(s).value) == s
  {
    var d := ParseDateOnly(s).value;
    var a, b, c, e := DigitVal(s[0]), DigitVal(s[1]), DigitVal(s[2]), DigitVal(s[3]);
    FourDigitJoin(a, b, c, e);
    FourDigitJoin(0, 0, DigitVal(s[5]), DigitVal(s[6]));
    FourDigitJoin(0, 0, DigitVal(s[8]), DigitVal(s[9]));
    assert Format(d) == [s[0], s[1], s[2], s[3], '-', s[5], s[6], '-', s[8], s[9]];
  }

  /** Parsing the formatted text of a valid day of a four-digit year gives back that day. */
  lemma FormatThenParse(d: Date)
    requires ValidDate(d) && 0 <= d.year <= 9999
    ensures ParseDateOnly(Format(d)) == Ok(d)
  {
    FormatShaped(d);
  }

  /** Moving forward by a positive number of days gives a later day. */
  lemma {:induction false} AddDaysForward(d: Date, n: int)
    requires ValidDate(d) && n > 0
    ensures Before(d, AddDays(d, n))
    decreases n
  {
    if d.day + n > DaysIn(d.month, d.year) {
      var next := NextMonthFirst(d);
      var rest := n - (DaysIn(d.month, d.year) - d.day + 1);
      if rest > 0 {
        AddDaysForward(next, rest);
      }
    }
  }

  /** Moving back by a positive number of days gives an earlier day. */
  lemma {:induction false} AddDaysBackward(d: Date, n: int)
    requires ValidDate(d) && n < 0
    ensures Before(AddDays(d, n), d)
    decreases -n
  {
    if d.day + n < 1 {
      var prev := PrevMonthLast(d);
      var rest := n + d.day;
      if rest < 0 {
        AddDaysBackward(prev, rest);
      }
    }
  }

  /** The next calendar day: the following day of the month, or the first of the next month. */
  function Successor(d: Date): (r: Date)
    requires ValidDate(d)
    ensures ValidDate(r) && Before(d, r)
  {
    if d.day < DaysIn(d.month, d.year) then Date(d.year, d.month, d.day + 1) else NextMonthFirst(d)
  }

  /** The previous calendar day: the preceding day of the month, or the last of the previous month. */
  function Predecessor(d: Date): (r: Date)
    requires ValidDate(d)
    ensures ValidDate(r) && Before(r, d)
  {
    if d.day > 1 then Date(d.year, d.month, d.day - 1) else PrevMonthLast(d)
  }

  /** One day on is the next calendar day, and one day back is the previous one. */
  lemma AddOneDay(d: Date)
    requires ValidDate(d)
    ensures AddDays(d, 1) == Successor(d)
    ensures AddDays(d, -1) == Predecessor(d)
  {
  }

  /** Each further day forward is the successor of the day reached so far. */
  lemma {:induction false} AddDaysSuccessor(d: Date, n: int)
    requires ValidDate(d) && n >= 0
    ensures AddDays(d, n + 1) == Successor(AddDays(d, n))
    decreases n
  {
    var last := DaysIn(d.month, d.year);
    if d.day + n > last {
      AddDaysSuccessor(NextMonthFirst(d), n - (last - d.day + 1));
    }
  }

  /** Each further day back is the predecessor of the day reached so far. */
  lemma {:induction false} AddDaysPredecessor(d: Date, n: int)
    requires ValidDate(d) && n <= 0
    ensures AddDays(d, n - 1) == Predecessor(AddDays(d, n))
    decreases -n
  {
    if d.day + n < 1 {
      AddDaysPredecessor(PrevMonthLast(d), n + d.day);
    } else if d.day + n == 1 {
      assert PrevMonthLast(Date(d.year, d.month, 1)) == PrevMonthLast(d);
    }
  }

  /** time.Date's carry: October 32 is November 1, month 0 is December of the year before, March 0 is the last of February. */
  lemma NewDateCarries()
    ensures NewDate(2026, 10, 32) == Date(2026, 11, 1)
    ensures NewDate(2026, 0, 1) == Date(2025, 12, 1)
    ensures NewDate(2028, 3, 0) == Date(2028, 2, 29)
    ensures NewDate(2026, 13, 1) == Date(2027, 1, 1)
  {
    assert AddDays(Date(2026, 10, 1), 31) == AddDays(Date(2026, 11, 1), 0);
    assert AddDays(Date(2028, 3, 1), -1) == AddDays(Date(2028, 2, 29), 0);
    assert (13 - 1) / 12 == 1 && (13 - 1) % 12 == 0;
    assert (0 - 1) / 12 == -1 && (0 - 1) % 12 == 11;
  }

  // ---------------------------------------------------------------------------
  // JSON encoding: MarshalJSON and UnmarshalJSON

  /** d.MarshalJSON(): `null` for the zero date, otherwise the formatted day as a JSON string. */
  function MarshalJSON(d: Date): (r: string)
    ensures r == "null" <==> IsZero(d)
  {
    if IsZero(d) then "null" else "\"" + Format(d) + "\""
  }

  /** A character that stands for itself inside a JSON string literal. */
  predicate PlainJsonChar(c: char) {
    c != '"' && c != '\\' && c >= ' '
  }

  /**
   * json.Unmarshal(data, &s) into a string variable `s` that starts out empty:
   * `null` leaves `s` empty, a string literal gives its contents, anything else is an error.
   */
  function JsonStringValue(data: string): (r: Result<string, DateError>)
    ensures r.Ok? && data != "null" ==> data == "\"" + r.value + "\""
  {
    if data == "null" then Ok("")
    else if |data| >= 2 && data[0] == '"' && data[|data| - 1] == '"'
            && forall i :: 1 <= i < |data| - 1 ==> PlainJsonChar(data[i])
    then Ok(data[1..|data| - 1])
    else Err(NotAJsonString)
  }

  /**
   * (*Date).UnmarshalJSON on a receiver holding `d`: the pair of the receiver's new
   * value and the error returned. An empty string clears the receiver to the zero date.
   */
  function UnmarshalJSON(d: Date, data: string): (r: (Date, Option<DateError>))
    ensures r.1.Some? ==> r.0 == d
    ensures r.1.None? ==> ValidDate(r.0)
    ensures data == "\"\"" ==> r == (Zero, None)
    ensures JsonStringValue(data).Err? ==> r == (d, Some(NotAJsonString))
    ensures JsonStringValue(data).Ok? && JsonStringValue(data).value != "" ==>
              var s := JsonStringValue(data).value;
              r == (if ParseDateOnly(s).Ok? then (ParseDateOnly(s).value, None) else (d, Some(ParseDateOnly(s).error)))
  {
    match JsonStringValue(data)
    case Err(e) => (d, Some(e))
    case Ok(s) =>
      if s == "" then (Zero, None)
      else
        match ParseDateOnly(s)
        case Err(e) => (d, Some(e))
        case Ok(parsed) => (parsed, None)
  }

  /** A JSON string literal of plain characters decodes to its contents. */
  lemma QuotedPlainString(f: string)
    requires forall i :: 0 <= i < |f| ==> PlainJsonChar(f[i])
    ensures JsonStringValue("\"" + f + "\"") == Ok(f)
  {
    var data := "\"" + f + "\"";
    assert data[0] == '"' != 'n';
    assert forall i :: 1 <= i < |data| - 1 ==> data[i] == f[i - 1];
    assert data[1..|data| - 1] == f;
  }

  /** Every valid day of a four-digit year survives MarshalJSON followed by UnmarshalJSON, the zero date included. */
  lemma JsonRoundTrip(d: Date, receiver: Date)
    requires ValidDate(d) && 0 <= d.year <= 9999
    ensures UnmarshalJSON(receiver, MarshalJSON(d)) == (d, None)
  {
    if !IsZero(d) {
      var f := Format(d);
      FormatShaped(d);
      assert forall i :: 0 <= i < |f| ==> PlainJsonChar(f[i]);
      QuotedPlainString(f);
      FormatThenParse(d);
    }
  }

  /** The accepted examples of ParseDateOnly's tests, and a leap day. */
  lemma ParseDateOnlyAccepts()
    ensures ParseDateOnly("2026-02-15") == Ok(Date(2026, 2, 15))
    ensures ParseDateOnly("2026-12-31") == Ok(Date(2026, 12, 31))
    ensures ParseDateOnly("2028-02-29") == Ok(Date(2028, 2, 29))
  {
  }

  /** The rejected examples: wrong shapes, and a 29th of February outside a leap year. */
  lemma ParseDateOnlyRejects()
    ensures ParseDateOnly("invalid") == Err(Malformed)
    ensures ParseDateOnly("2026/02/15") == Err(Malformed)
    ensures ParseDateOnly("15-02-2026") == Err(Malformed)
    ensures ParseDateOnly("2026-02-29") == Err(DayOutOfRange)
  {
  }

  /** The JSON examples: NewDate(2026, 12, 31) encodes as "2026-12-31" and decodes back. */
  lemma DateJsonExamples(receiver: Date)
    ensures MarshalJSON(NewDate(2026, 12, 31)) == "\"2026-12-31\""
    ensures UnmarshalJSON(receiver, "\"2026-12-31\"") == (Date(2026, 12, 31), None)
    ensures Format(UnmarshalJSON(receiver, "\"2026-12-31\"").0) == "2026-12-31"
    ensures MarshalJSON(Zero) == "null"
  {
    var d := Date(2026, 12, 31);
    assert ValidDate(d);
    assert ParseDateOnly("2026-12-31") == Ok(d);
    ParseThenFormat("2026-12-31");
    assert MarshalJSON(d) == "\"2026-12-31\"";
    JsonRoundTrip(d, receiver);
  }

  /** A malformed day inside a JSON string is an error and leaves the receiver as it was. */
  lemma DateJsonMalformed(receiver: Date)
    ensures UnmarshalJSON(receiver, "\"31-12-2026\"") == (receiver, Some(Malformed))
  {
    var data := "\"31-12-2026\"";
    assert data[1..|data| - 1] == "31-12-2026";
    assert forall i :: 1 <= i < |data| - 1 ==> PlainJsonChar(data[i]);
    assert JsonStringValue(data) == Ok("31-12-2026");
  }
}
