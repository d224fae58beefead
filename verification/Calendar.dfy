/**
 Date literals: the closed form that turns year, month and day into a day number, against counting
 days one by one in the proleptic Gregorian calendar, in both directions from 1970-01-01, and the parser
 of ten-byte literals in front of it.
 */
module Calendar {
  import opened LittleEndian
  import opened Sections
  import opened Wrappers

  // ---------- the closed form ----------

  /** Division that truncates toward zero. */
  function TruncDiv(a: int, b: int): int
    requires b > 0
  {
    if a >= 0 then a / b else -(-a / b)
  }

  /** Days from 1970-01-01 to a date, with years that start in March. */
  function DayNumber(year: int, month: nat, day: nat): int {
    var y := year - if month <= 2 then 1 else 0;
    var era := TruncDiv(if y >= 0 then y else y - 399, 400);
    var yoe := y - era * 400;
    var doy := TruncDiv(153 * (month + if month > 2 then -3 else 9) + 2, 5) + day - 1;
    var doe := yoe * 365 + TruncDiv(yoe, 4) - TruncDiv(yoe, 100) + doy;
    era * 146097 + doe - 719468
  }

  // ---------- the calendar ----------

  predicate IsLeap(year: int) {
    year % 4 == 0 && (year % 100 != 0 || year % 400 == 0)
  }

  function DaysIn(year: int, month: nat): nat {
    if month == 2 then if IsLeap(year) then 29 else 28
    else if month == 4 || month == 6 || month == 9 || month == 11 then 30
    else 31
  }

  datatype Date = Date(year: int, month: nat, day: nat)

  predicate Valid(d: Date) {
    1 <= d.month <= 12 && 1 <= d.day <= DaysIn(d.year, d.month)
  }

  function NextDay(d: Date): (n: Date)
    requires Valid(d)
    ensures Valid(n)
  {
    if d.day < DaysIn(d.year, d.month) then d.(day := d.day + 1)
    else if d.month < 12 then Date(d.year, d.month + 1, 1)
    else Date(d.year + 1, 1, 1)
  }

  function PreviousDay(d: Date): (p: Date)
    requires Valid(d)
    ensures Valid(p) && NextDay(p) == d
  {
    if d.day > 1 then d.(day := d.day - 1)
    else if d.month > 1 then Date(d.year, d.month - 1, DaysIn(d.year, d.month - 1))
    else Date(d.year - 1, 12, 31)
  }

  /** The date `n` days after 1970-01-01, or before it when `n` is negative, counted one by one. */
  function Counted(n: int): (d: Date)
    ensures Valid(d)
    decreases if n < 0 then -n else n
  {
    if n == 0 then Date(1970, 1, 1)
    else if n > 0 then NextDay(Counted(n - 1))
    else PreviousDay(Counted(n + 1))
  }

  function Number(d: Date): int {
    DayNumber(d.year, d.month, d.day)
  }

  // ---------- the closed form counts days ----------

  /** Days before the March that starts a year. */
  function MarchStart(y: int): int {
    var era := TruncDiv(if y >= 0 then y else y - 399, 400);
    var yoe := y - era * 400;
    era * 146097 + yoe * 365 + TruncDiv(yoe, 4) - TruncDiv(yoe, 100)
  }

  /** The era is the quotient rounded down, so the year of the era is from 0 to 399. */
  lemma EraRoundsDown(y: int)
    ensures TruncDiv(if y >= 0 then y else y - 399, 400) == y / 400
    ensures 0 <= y - y / 400 * 400 < 400
  {
  }

  lemma MarchStartIs(y: int)
    ensures MarchStart(y) == y / 400 * 146097 + y % 400 * 365 + y % 400 / 4 - y % 400 / 100
  {
    EraRoundsDown(y);
    assert y - y / 400 * 400 == y % 400;
  }

  lemma EraSteps(y: int)
    ensures y % 400 == 0 ==> (y - 1) / 400 == y / 400 - 1 && (y - 1) % 400 == 399
    ensures y % 400 != 0 ==> (y - 1) / 400 == y / 400 && (y - 1) % 400 == y % 400 - 1
  {
  }

  lemma QuarterSteps(r: nat)
    requires r > 0
    ensures r / 4 == (r - 1) / 4 + if r % 4 == 0 then 1 else 0
    ensures r / 100 == (r - 1) / 100 + if r % 100 == 0 then 1 else 0
  {
  }

  lemma Mod4(y: int, k: int, r: int)
    requires y == 4 * k + r && 0 <= r < 4
    ensures y % 4 == r
  {
  }

  /** The leap rule depends only on the year of the era. */
  lemma LeapInEra(y: int, r: int)
    requires r == y % 400
    ensures IsLeap(y) <==> r % 4 == 0 && (r % 100 != 0 || r == 0)
  {
    var q := y / 400;
    assert y == 400 * q + r;
    assert r == 4 * (r / 4) + r % 4 && r == 100 * (r / 100) + r % 100;
    Mod4(y, 100 * q + r / 4, r % 4);
  }

  /** The year before a March has 366 days when it ends in a leap February. */
  lemma MarchToMarch(y: int)
    ensures MarchStart(y) == MarchStart(y - 1) + if IsLeap(y) then 366 else 365
  {
    hide MarchStart, IsLeap;
    var r := y % 400;
    MarchStartIs(y);
    MarchStartIs(y - 1);
    LeapInEra(y, r);
    EraSteps(y);
    if r != 0 { QuarterSteps(r); }
  }

  /** Days from the first of March to the first of a month. */
  function MonthStart(month: nat): int {
    TruncDiv(153 * (month + if month > 2 then -3 else 9) + 2, 5)
  }

  lemma NumberSplits(year: int, month: nat, day: nat)
    ensures DayNumber(year, month, day)
      == MarchStart(year - if month <= 2 then 1 else 0) + MonthStart(month) + day - 1 - 719468
  {
  }

  lemma MonthSteps(year: int, month: nat)
    requires 1 <= month <= 12
    ensures month == 12 ==> MonthStart(1) == MonthStart(12) + 31
    ensures month != 12 && month != 2 ==> MonthStart(month + 1) == MonthStart(month) + DaysIn(year, month)
    ensures month == 2 ==> MonthStart(2) == 337 && MonthStart(3) == 0
  {
  }

  /** The first of the next month comes right after the last of this one. */
  lemma NextMonth(year: int, month: nat)
    requires 1 <= month <= 12
    ensures
      var next := if month < 12 then Date(year, month + 1, 1) else Date(year + 1, 1, 1);
      Number(next) == DayNumber(year, month, 1) + DaysIn(year, month)
  {
    hide DayNumber, MarchStart, MonthStart;
    MonthSteps(year, month);
    MarchToMarch(year);
    NumberSplits(year, month, 1);
    NumberSplits(year, month + 1, 1);
    NumberSplits(year + 1, 1, 1);
  }

  lemma DayInMonth(year: int, month: nat, day: nat)
    ensures DayNumber(year, month, day) == DayNumber(year, month, 1) + day - 1
  {
    hide DayNumber;
    NumberSplits(year, month, day);
    NumberSplits(year, month, 1);
  }

  /** A day later, the number is one more. */
  lemma NextDayNumber(d: Date)
    requires Valid(d)
    ensures Number(NextDay(d)) == Number(d) + 1
  {
    hide DayNumber;
    DayInMonth(d.year, d.month, d.day);
    DayInMonth(d.year, d.month, d.day + 1);
    NextMonth(d.year, d.month);
  }

  /** The closed form is the number of days counted one by one from 1970-01-01, forwards and backwards. */
  lemma {:induction false} NumberCounts(n: int)
    ensures Number(Counted(n)) == n
    decreases if n < 0 then -n else n
  {
    hide Number;
    if n == 0 {
      EpochIsZero();
    } else if n > 0 {
      NumberCounts(n - 1);
      NextDayNumber(Counted(n - 1));
    } else {
      NumberCounts(n + 1);
      NextDayNumber(Counted(n));
    }
  }

  lemma EpochIsZero()
    ensures Number(Date(1970, 1, 1)) == 0
  {
  }

  // ---------- order ----------

  predicate Earlier(a: Date, b: Date) {
    a.year < b.year || (a.year == b.year && (a.month < b.month || (a.month == b.month && a.day < b.day)))
  }

  function MonthIndex(d: Date): int {
    12 * d.year + d.month - 1
  }

  /** The first day of the month with the given index. */
  function FirstOf(index: int): (d: Date)
    ensures Valid(d) && d.day == 1 && MonthIndex(d) == index
  {
    Date(index / 12, index % 12 + 1, 1)
  }

  lemma {:induction false} MonthsAscend(i: int, j: int)
    requires i < j
    ensures Number(FirstOf(j)) >= Number(FirstOf(i)) + DaysIn(FirstOf(i).year, FirstOf(i).month)
    decreases j - i
  {
    hide Number;
    var m := FirstOf(j - 1);
    NextMonth(m.year, m.month);
    NumberOf(m);
    if i < j - 1 { MonthsAscend(i, j - 1); }
  }

  lemma NumberOf(d: Date)
    ensures Number(d) == DayNumber(d.year, d.month, d.day)
  {
  }

  lemma EarlierLess(a: Date, b: Date)
    requires Valid(a) && Valid(b) && Earlier(a, b)
    ensures Number(a) < Number(b)
  {
    hide DayNumber;
    DayInMonth(a.year, a.month, a.day);
    DayInMonth(b.year, b.month, b.day);
    if MonthIndex(a) < MonthIndex(b) {
      MonthsAscend(MonthIndex(a), MonthIndex(b));
    }
  }

  /** Day numbers order valid dates as the calendar does, so different dates have different numbers. */
  lemma NumberOrders(a: Date, b: Date)
    requires Valid(a) && Valid(b)
    ensures Number(a) < Number(b) <==> Earlier(a, b)
    ensures Number(a) == Number(b) <==> a == b
  {
    hide Number;
    if Earlier(a, b) { EarlierLess(a, b); }
    if Earlier(b, a) { EarlierLess(b, a); }
  }

  /** Every valid date is reached by counting. */
  lemma CountedReaches(d: Date)
    requires Valid(d)
    ensures Counted(Number(d)) == d
  {
    hide Number;
    NumberCounts(Number(d));
    NumberOrders(Counted(Number(d)), d);
  }

  // ---------- parsing ----------

  const DASH: byte := 45
  const PLUS: byte := 43

  predicate IsDigit(c: byte) {
    48 <= c <= 57
  }

  function Digits(s: Bytes): Option<nat>
    decreases |s|
  {
    if s == [] then Some(0)
    else
      var front := Digits(s[..|s| - 1]);
      var last := s[|s| - 1];
      if front.None? || !IsDigit(last) then None else Some(10 * front.value + (last - 48))
  }

  /** An unsigned integer: digits, perhaps after a plus sign. */
  function ParseUnsigned(s: Bytes): Option<nat> {
    if s == [] || s == [PLUS] then None
    else if s[0] == PLUS then Digits(s[1..])
    else Digits(s)
  }

  function Negated(v: Option<nat>): Option<int> {
    match v
    case None => None
    case Some(n) => Some(0 - n as int)
  }

  /** A signed integer: digits, perhaps after a sign. */
  function ParseSigned(s: Bytes): Option<int> {
    if s == [] || s == [PLUS] || s == [DASH] then None
    else if s[0] == DASH then Negated(Digits(s[1..]))
    else
      var v := ParseUnsigned(s);
      if v.None? then None else Some(v.value)
  }

  /** The day number of a date literal. */
  function ParseYmd(s: Bytes): Option<int> {
    if |s| != 10 || s[4] != DASH || s[7] != DASH then None
    else
      var year, month, day := ParseSigned(s[0..4]), ParseUnsigned(s[5..7]), ParseUnsigned(s[8..10]);
      if year.None? || month.None? || day.None? then None
      else if !(1 <= month.value <= 12) || !(1 <= day.value <= 31) then None
      else Some(DayNumber(year.value, month.value, day.value))
  }

  /** `width` decimal digits. */
  function Decimal(v: nat, width: nat): (s: Bytes)
    ensures |s| == width
    decreases width
  {
    if width == 0 then [] else Decimal(v / 10, width - 1) + [48 + v % 10]
  }

  function Power10(n: nat): nat {
    if n == 0 then 1 else 10 * Power10(n - 1)
  }

  lemma {:induction false} DecimalDigits(v: nat, width: nat)
    requires v < Power10(width)
    ensures Digits(Decimal(v, width)) == Some(v)
    ensures forall i :: 0 <= i < width ==> IsDigit(Decimal(v, width)[i])
    decreases width
  {
    if width == 0 {
    } else {
      DecimalDigits(v / 10, width - 1);
      assert Decimal(v, width)[..width - 1] == Decimal(v / 10, width - 1);
    }
  }

  /** A full-date as section 5.6 of RFC 3339 writes it. */
  function FullDate(year: nat, month: nat, day: nat): Bytes {
    Decimal(year, 4) + [DASH] + Decimal(month, 2) + [DASH] + Decimal(day, 2)
  }

  /**
   A full-date is accepted exactly when its month is from 1 to 12 and its day from 1 to 31, whatever the month; the
   result is the day number of its numbers.
   */
  lemma FullDateParses(year: nat, month: nat, day: nat)
    requires year < 10000 && month < 100 && day < 100
    ensures ParseYmd(FullDate(year, month, day)) ==
      if 1 <= month <= 12 && 1 <= day <= 31 then Some(DayNumber(year, month, day)) else None
  {
    hide DayNumber, Digits, Decimal;
    DecimalDigits(year, 4);
    DecimalDigits(month, 2);
    DecimalDigits(day, 2);
    var s := FullDate(year, month, day);
    assert s[0..4] == Decimal(year, 4) && s[5..7] == Decimal(month, 2) && s[8..10] == Decimal(day, 2);
    assert IsDigit(Decimal(year, 4)[0]) && IsDigit(Decimal(month, 2)[0]) && IsDigit(Decimal(day, 2)[0]);
  }

  /** A valid date literal becomes the count of days from 1970-01-01, and no other date has that number. */
  lemma DateLiteral(year: nat, month: nat, day: nat, d: Date)
    requires year < 10000 && Valid(Date(year, month, day)) && Valid(d)
    ensures ParseYmd(FullDate(year, month, day)).Some?
    ensures Counted(ParseYmd(FullDate(year, month, day)).value) == Date(year, month, day)
    ensures ParseYmd(FullDate(year, month, day)) == Some(Number(d)) <==> d == Date(year, month, day)
  {
    hide DayNumber, ParseYmd, FullDate, Counted;
    FullDateParses(year, month, day);
    CountedReaches(Date(year, month, day));
    NumberOrders(d, Date(year, month, day));
  }

  /** A day past the end of its month is taken for a day of the next month. */
  lemma DayPastMonth(year: int, month: nat, day: nat)
    requires 1 <= month <= 12 && DaysIn(year, month) < day <= 31
    ensures
      var next := if month < 12 then Date(year, month + 1, day - DaysIn(year, month)) else Date(year + 1, 1, day - 31);
      Valid(next) && DayNumber(year, month, day) == Number(next)
  {
    hide DayNumber;
    NextMonth(year, month);
    DayInMonth(year, month, day);
    DayInMonth(year, month + 1, day - DaysIn(year, month));
  }

  /** Digits, with a sign in place of the first if it is allowed there. */
  predicate SignOrDigits(s: Bytes, signs: set<byte>)
    requires s != []
  {
    (IsDigit(s[0]) || s[0] in signs) && forall i :: 1 <= i < |s| ==> IsDigit(s[i])
  }

  lemma {:induction false} DigitsAccepted(s: Bytes)
    ensures Digits(s).Some? <==> forall i :: 0 <= i < |s| ==> IsDigit(s[i])
    decreases |s|
  {
    if s == [] {
    } else {
      DigitsAccepted(s[..|s| - 1]);
    }
  }

  lemma NumberAccepted(s: Bytes)
    requires |s| >= 2
    ensures ParseUnsigned(s).Some? <==> SignOrDigits(s, {PLUS})
    ensures ParseSigned(s).Some? <==> SignOrDigits(s, {PLUS, DASH})
  {
    hide Digits;
    DigitsAccepted(s);
    DigitsAccepted(s[1..]);
    if SignOrDigits(s, {PLUS, DASH}) {
      forall i | 0 <= i < |s| - 1 ensures IsDigit(s[1..][i]) {
        assert s[1..][i] == s[i + 1];
      }
    } else if forall i :: 0 <= i < |s| - 1 ==> IsDigit(s[1..][i]) {
      forall i | 1 <= i < |s| ensures IsDigit(s[i]) {
        assert s[1..][i - 1] == s[i];
      }
    }
  }

  /** The value of two bytes, of which the first may be a sign. */
  function TwoBytes(s: Bytes): int
    requires |s| == 2
  {
    var tens, ones := s[0] as int, s[1] as int;
    (if s[0] == PLUS then 0 else 10 * (tens - 48)) + ones - 48
  }

  lemma TwoBytesValue(s: Bytes)
    requires |s| == 2 && SignOrDigits(s, {PLUS})
    ensures ParseUnsigned(s) == Some(TwoBytes(s))
  {
    assert s[..1] == [s[0]] && s[..1][..0] == [] && s[1..] == [s[1]] && s[1..][..0] == [];
    assert Digits(s[1..]) == Some(s[1] - 48);
    if s[0] != PLUS { assert Digits(s[..1]) == Some(s[0] - 48); }
  }

  /**
   The inputs that are accepted: ten bytes with dashes behind the year and the month, a plus sign allowed in place
   of the first digit of each number and a minus sign in the year as well, a month from 1 to 12 and a day from 1 to
   31.
   */
  lemma AcceptedLiterals(s: Bytes)
    ensures ParseYmd(s).Some? <==>
      && |s| == 10 && s[4] == DASH && s[7] == DASH
      && SignOrDigits(s[0..4], {PLUS, DASH}) && SignOrDigits(s[5..7], {PLUS}) && SignOrDigits(s[8..10], {PLUS})
      && 1 <= TwoBytes(s[5..7]) <= 12 && 1 <= TwoBytes(s[8..10]) <= 31
  {
    hide ParseSigned, ParseUnsigned, SignOrDigits, DayNumber, TwoBytes;
    if |s| == 10 {
      NumberAccepted(s[0..4]);
      NumberAccepted(s[5..7]);
      NumberAccepted(s[8..10]);
      if SignOrDigits(s[5..7], {PLUS}) { TwoBytesValue(s[5..7]); }
      if SignOrDigits(s[8..10], {PLUS}) { TwoBytesValue(s[8..10]); }
    }
  }

  lemma {:induction false} DigitsBack(s: Bytes)
    requires forall i :: 0 <= i < |s| ==> IsDigit(s[i])
    ensures exists v :: 0 <= v < Power10(|s|) && s == Decimal(v, |s|)
    decreases |s|
  {
    if s == [] {
      assert s == Decimal(0, 0);
    } else {
      var front, last := s[..|s| - 1], s[|s| - 1];
      DigitsBack(front);
      var u :| 0 <= u < Power10(|front|) && front == Decimal(u, |front|);
      var v := 10 * u + (last - 48);
      assert v / 10 == u && v % 10 == last - 48;
      assert s == front + [last] == Decimal(v, |s|);
    }
  }

  /** Of the accepted inputs, those that are no full-date are the ones with a sign. */
  lemma SignsAreLoose(s: Bytes)
    requires ParseYmd(s).Some?
    ensures
      (exists year: nat, month: nat, day: nat ::
        year < 10000 && month < 100 && day < 100 && s == FullDate(year, month, day))
      <==> IsDigit(s[0]) && IsDigit(s[5]) && IsDigit(s[8])
  {
    hide ParseYmd, TwoBytes, Decimal;
    AcceptedLiterals(s);
    if year: nat, month: nat, day: nat :| year < 10000 && month < 100 && day < 100 && s == FullDate(year, month, day) {
      TenThousand();
      DecimalDigits(year, 4);
      DecimalDigits(month, 2);
      DecimalDigits(day, 2);
      assert s[0] == Decimal(year, 4)[0] && s[5] == Decimal(month, 2)[0] && s[8] == Decimal(day, 2)[0];
    }
    if IsDigit(s[0]) && IsDigit(s[5]) && IsDigit(s[8]) {
      TenThousand();
      DigitsBack(s[0..4]);
      DigitsBack(s[5..7]);
      DigitsBack(s[8..10]);
      var year :| 0 <= year < Power10(4) && s[0..4] == Decimal(year, 4);
      var month :| 0 <= month < Power10(2) && s[5..7] == Decimal(month, 2);
      var day :| 0 <= day < Power10(2) && s[8..10] == Decimal(day, 2);
      assert s == s[0..4] + [s[4]] + s[5..7] + [s[7]] + s[8..10];
      assert s == FullDate(year, month, day);
    }
  }

  lemma TenThousand()
    ensures Power10(4) == 10000 && Power10(2) == 100
  {
  }

  /** The 30th of February 2023 is read as the 2nd of March, and signs stand where digits should. */
  lemma LooseLiterals()
    ensures ParseYmd(FullDate(2023, 2, 30)) == Some(Number(Date(2023, 3, 2)))
    ensures ParseYmd([DASH, 48, 48, 49, DASH, PLUS, 50, DASH, PLUS, 51]) == Some(Number(Date(-1, 2, 3)))
  {
    hide DayNumber, Decimal, Digits;
    FullDateParses(2023, 2, 30);
    DayPastMonth(2023, 2, 30);
    var s: Bytes := [DASH, 48, 48, 49, DASH, PLUS, 50, DASH, PLUS, 51];
    assert s[0..4] == [DASH, 48, 48, 49] && s[5..7] == [PLUS, 50] && s[8..10] == [PLUS, 51];
    assert s[0..4][1..] == [48, 48, 49] && s[5..7][1..] == [50] && s[8..10][1..] == [51];
    SmallDigits();
  }

  lemma SmallDigits()
    ensures Digits([48, 48, 49]) == Some(1) && Digits([50]) == Some(2) && Digits([51]) == Some(3)
  {
    var t: Bytes := [48, 48, 49];
    assert t[..2] == [48, 48] && t[..2][..1] == [48] && t[..1][..0] == [];
    assert Digits(t[..1]) == Some(0) && Digits(t[..2]) == Some(0);
    var two: Bytes, three: Bytes := [50], [51];
    assert two[..0] == [] && three[..0] == [];
  }
}
