/** Calendar dates as ten-character strings and as day numbers of the proleptic Gregorian calendar. */
module Calendar {
  import opened Wrappers
  import opened Text
  import opened Decimal

  const DAYS_BEFORE_MONTH: seq<int> := [0, 31, 59, 90, 120, 151, 181, 212, 243, 273, 304, 334]
  const DAYS_IN_MONTH: seq<int> := [31, 28, 31, 30, 31, 30, 31, 31, 30, 31, 30, 31]
  const STEP_BASE_DATE := "1970-01-01"

  datatype ConstraintIssue = Maximum | Minimum | Range | StepAnchor | Step

  predicate MatchesPattern(value: string) {
    && |value| == 10 && value[4] == '-' && value[7] == '-'
    && AllDigits(value[..4]) && AllDigits(value[5..7]) && AllDigits(value[8..])
  }

  datatype Date = Date(year: int, month: int, day: int)

  function Parse(value: string): Option<Date> {
    if !MatchesPattern(value) then None
    else Some(Date(ToNat(value[..4]), ToNat(value[5..7]), ToNat(value[8..])))
  }

  predicate IsLeapYear(year: int) {
    if year % 400 == 0 then true else if year % 100 == 0 then false else year % 4 == 0
  }

  function DaysInMonth(year: int, month: int): int
    requires 1 <= month <= 12
  {
    if month == 2 && IsLeapYear(year) then 29 else DAYS_IN_MONTH[month - 1]
  }

  predicate ValidParts(date: Date) {
    date.year != 0 && 1 <= date.month <= 12 && 1 <= date.day <= DaysInMonth(date.year, date.month)
  }

  predicate IsCalendarDate(value: string) {
    Parse(value).Some? && ValidParts(Parse(value).value)
  }

  predicate IsJsonDateValue(value: string) {
    value == "" || IsCalendarDate(value)
  }

  function DaysBeforeYear(year: int): int {
    var previous := year - 1;
    previous * 365 + previous / 4 - previous / 100 + previous / 400
  }

  function DaysBeforeMonth(year: int, month: int): int
    requires 1 <= month <= 12
  {
    DAYS_BEFORE_MONTH[month - 1] + if month > 2 && IsLeapYear(year) then 1 else 0
  }

  function DayNumber(date: Date): int
    requires 1 <= date.month <= 12
  {
    DaysBeforeYear(date.year) + DaysBeforeMonth(date.year, date.month) + date.day - 1
  }

  /** No number for a string that does not match or names no month. */
  function DateDay(value: string): Option<int> {
    match Parse(value)
    case None => None
    case Some(date) => if 1 <= date.month <= 12 then Some(DayNumber(date)) else None
  }

  /** What a division truncated toward zero leaves over; the step may be any number, negative and fractional ones included. */
  function Remainder(dividend: real, divisor: real): real
    requires divisor != 0.0
  {
    var quotient := dividend / divisor;
    var whole := if quotient >= 0.0 then quotient.Floor else -(-quotient).Floor;
    dividend - whole as real * divisor
  }

  /** The remainder test fails on a missing day number and on step zero. */
  predicate IsDateStepAligned(value: string, minimum: string, step: real) {
    var base := if minimum == "" then STEP_BASE_DATE else minimum;
    && DateDay(value).Some? && DateDay(base).Some? && step != 0.0
    && Remainder((DateDay(value).value - DateDay(base).value) as real, step) == 0.0
  }

  function DateConstraintIssue(value: string, minimum: string, maximum: string, step: real): Option<ConstraintIssue> {
    if minimum != "" && maximum != "" && StringLess(maximum, minimum) then Some(Range)
    else if step > 1.0 && minimum == "" then Some(StepAnchor)
    else if value == "" then None
    else if minimum != "" && StringLess(value, minimum) then Some(Minimum)
    else if maximum != "" && StringLess(maximum, value) then Some(Maximum)
    else if !IsDateStepAligned(value, minimum, step) then Some(Step)
    else None
  }

  // ---------------------------------------------------------------------------------------------
  // Days follow one another.

  function YearLength(year: int): int {
    if IsLeapYear(year) then 366 else 365
  }

  lemma YearStep(year: int)
    ensures DaysBeforeYear(year + 1) == DaysBeforeYear(year) + YearLength(year)
  {
    var p := year - 1;
    assert year / 4 - p / 4 == if year % 4 == 0 then 1 else 0;
    assert year / 100 - p / 100 == if year % 100 == 0 then 1 else 0;
    assert year / 400 - p / 400 == if year % 400 == 0 then 1 else 0;
  }

  lemma MonthStep(year: int, month: int)
    requires 1 <= month <= 12
    ensures DaysBeforeMonth(year, month) + DaysInMonth(year, month) ==
            if month < 12 then DaysBeforeMonth(year, month + 1) else YearLength(year)
  {
  }

  function Next(date: Date): Date
    requires 1 <= date.month <= 12
  {
    if date.day < DaysInMonth(date.year, date.month) then date.(day := date.day + 1)
    else if date.month < 12 then Date(date.year, date.month + 1, 1)
    else Date(date.year + 1, 1, 1)
  }

  /** The day number steps by exactly one from each calendar day to the next. */
  lemma NextDayNumber(date: Date)
    requires ValidParts(date) && date.year > 0
    ensures ValidParts(Next(date)) && DayNumber(Next(date)) == DayNumber(date) + 1
  {
    YearStep(date.year);
    MonthStep(date.year, date.month);
  }

  /** The day number in closed form, told without tables: years counted from March, thirty days and three fifths of a day to a
      month. */
  lemma DayNumberInClosedForm(date: Date)
    requires 1 <= date.month <= 12
    ensures var year, month := if date.month > 2 then date.year else date.year - 1, (date.month + 9) % 12;
            DayNumber(date) == 365 * year + year / 4 - year / 100 + year / 400 + (153 * month + 2) / 5 + date.day - 307
  {
    YearStep(date.year);
    MonthFormula(date.month);
  }

  lemma MonthFormula(month: int)
    requires 1 <= month <= 12
    ensures DAYS_BEFORE_MONTH[month - 1] == (153 * ((month + 9) % 12) + 2) / 5 + if month > 2 then 59 else -306
  {
  }

  /** So are the lengths of the months: the thirty-first day exists where the next month begins a day later. */
  lemma MonthLengths(year: int, month: int)
    requires 1 <= month < 12
    ensures DaysInMonth(year, month) == DayNumber(Date(year, month + 1, 1)) - DayNumber(Date(year, month, 1))
  {
    MonthStep(year, month);
  }

  predicate Before(a: Date, b: Date) {
    a.year < b.year || (a.year == b.year && (a.month < b.month || (a.month == b.month && a.day < b.day)))
  }

  lemma {:induction false} YearsGrow(a: int, b: int)
    requires a <= b
    ensures DaysBeforeYear(a) <= DaysBeforeYear(b)
    decreases b - a
  {
    if a < b {
      YearStep(a);
      YearsGrow(a + 1, b);
    }
  }

  lemma {:induction false} MonthsGrow(year: int, a: int, b: int)
    requires 1 <= a <= b <= 12
    ensures DaysBeforeMonth(year, a) <= DaysBeforeMonth(year, b)
    decreases b - a
  {
    if a < b {
      MonthStep(year, a);
      MonthsGrow(year, a + 1, b);
    }
  }

  /** The day of the year stays within the year. */
  lemma DayOfYear(date: Date)
    requires ValidParts(date)
    ensures 0 <= DaysBeforeMonth(date.year, date.month) + date.day - 1 < YearLength(date.year)
  {
    MonthStep(date.year, date.month);
    MonthsGrow(date.year, 1, date.month);
    if date.month < 12 {
      MonthsGrow(date.year, date.month + 1, 12);
      MonthStep(date.year, 12);
    }
  }

  lemma BeforeIsSmaller(a: Date, b: Date)
    requires ValidParts(a) && ValidParts(b) && Before(a, b)
    ensures DayNumber(a) < DayNumber(b)
  {
    DayOfYear(a);
    DayOfYear(b);
    if a.year < b.year {
      YearStep(a.year);
      YearsGrow(a.year + 1, b.year);
    } else if a.month < b.month {
      MonthStep(a.year, a.month);
      MonthsGrow(a.year, a.month + 1, b.month);
    }
  }

  // ---------------------------------------------------------------------------------------------
  // Strings and numbers order dates alike.

  lemma {:induction false} DigitOrder(s: string, t: string)
    requires |s| == |t| && AllDigits(s) && AllDigits(t)
    ensures StringLess(s, t) <==> ToNat(s) < ToNat(t)
    ensures s == t <==> ToNat(s) == ToNat(t)
  {
    if s != "" {
      var n := |s| - 1;
      DigitOrder(s[..n], t[..n]);
      PrefixOrder(s[..n], t[..n], [s[n]], [t[n]]);
      assert s == s[..n] + [s[n]] && t == t[..n] + [t[n]];
      assert StringLess([s[n]], [t[n]]) <==> s[n] < t[n];
      LastDigitDecides(ToNat(s[..n]), ToNat(t[..n]), (s[n] - '0') as nat, (t[n] - '0') as nat);
    }
  }

  lemma LastDigitDecides(a: nat, b: nat, x: nat, y: nat)
    requires x < 10 && y < 10
    ensures a * 10 + x < b * 10 + y <==> a < b || (a == b && x < y)
    ensures a * 10 + x == b * 10 + y <==> a == b && x == y
  {
  }

  lemma PatternOrder(a: string, b: string)
    requires Parse(a).Some? && Parse(b).Some?
    ensures StringLess(a, b) <==> Before(Parse(a).value, Parse(b).value)
    ensures a == b <==> Parse(a) == Parse(b)
  {
    DigitOrder(a[..4], b[..4]);
    DigitOrder(a[5..7], b[5..7]);
    DigitOrder(a[8..], b[8..]);
    assert a == a[..4] + ("-" + (a[5..7] + ("-" + a[8..])));
    assert b == b[..4] + ("-" + (b[5..7] + ("-" + b[8..])));
    PrefixOrder(a[..4], b[..4], "-" + (a[5..7] + ("-" + a[8..])), "-" + (b[5..7] + ("-" + b[8..])));
    PrefixOrder("-", "-", a[5..7] + ("-" + a[8..]), b[5..7] + ("-" + b[8..]));
    PrefixOrder(a[5..7], b[5..7], "-" + a[8..], "-" + b[8..]);
    PrefixOrder("-", "-", a[8..], b[8..]);
  }

  /** On calendar dates string order, day-number order and their equalities coincide. */
  lemma StringOrderIsDayOrder(a: string, b: string)
    requires IsCalendarDate(a) && IsCalendarDate(b)
    ensures DateDay(a).Some? && DateDay(b).Some?
    ensures StringLess(a, b) <==> DateDay(a).value < DateDay(b).value
    ensures a == b <==> DateDay(a).value == DateDay(b).value
  {
    PatternOrder(a, b);
    var x, y := Parse(a).value, Parse(b).value;
    if Before(x, y) {
      BeforeIsSmaller(x, y);
    } else if Before(y, x) {
      BeforeIsSmaller(y, x);
    }
  }

  // ---------------------------------------------------------------------------------------------
  // The bijection with 0..3652058.

  const LAST_DAY := 3_652_058

  function Format(date: Date): string
    requires 0 <= date.year <= 9999 && 0 <= date.month <= 99 && 0 <= date.day <= 99
  {
    Padded(date.year, 4) + "-" + Padded(date.month, 2) + "-" + Padded(date.day, 2)
  }

  function Power10(n: nat): nat {
    if n == 0 then 1 else 10 * Power10(n - 1)
  }

  /** Exactly `width` digits. */
  function Padded(n: nat, width: nat): (s: string)
    requires n < Power10(width)
    ensures |s| == width && AllDigits(s) && ToNat(s) == n
    decreases width
  {
    if width == 0 then "" else
      var front := Padded(n / 10, width - 1);
      var s := front + [Digit(n % 10)];
      assert s[..|s| - 1] == front;
      s
  }

  lemma FormatParses(date: Date)
    requires ValidParts(date) && 1 <= date.year <= 9999
    ensures date.day <= 31 && Parse(Format(date)) == Some(date) && IsCalendarDate(Format(date))
  {
    PartsParse(date);
  }

  lemma PartsParse(date: Date)
    requires 0 <= date.year <= 9999 && 0 <= date.month <= 99 && 0 <= date.day <= 99
    ensures Parse(Format(date)) == Some(date)
  {
    Widths();
    Slices(Padded(date.year, 4), Padded(date.month, 2), Padded(date.day, 2));
  }

  lemma Widths()
    ensures Power10(2) == 100 && Power10(4) == 10000
  {
    assert Power10(3) == 1000;
  }

  lemma Slices(year: string, month: string, day: string)
    requires |year| == 4 && |month| == 2 && |day| == 2
    requires AllDigits(year) && AllDigits(month) && AllDigits(day)
    ensures Parse(year + "-" + month + "-" + day) == Some(Date(ToNat(year), ToNat(month), ToNat(day)))
  {
    var value := year + "-" + month + "-" + day;
    CutDate(year, month, day);
    assert forall k :: 0 <= k < |value| ==>
                         value[k] == if k == 4 || k == 7 then '-' else if k < 4 then year[k] else if k < 7 then month[k - 5] else day[k - 8];
  }

  lemma CutDate(year: string, month: string, day: string)
    requires |year| == 4 && |month| == 2 && |day| == 2
    ensures var value := year + "-" + month + "-" + day;
            |value| == 10 && value[..4] == year && value[5..7] == month && value[8..] == day && value[4] == value[7] == '-'
  {
  }

  lemma ParsedYear(value: string)
    requires IsCalendarDate(value)
    ensures 1 <= Parse(value).value.year <= 9999
  {
    var s := value[..4];
    assert ToNat(s) == ToNat(s[..3]) * 10 + (s[3] - '0') as nat;
    assert s[..3][..2] == s[..2] && s[..2][..1] == s[..1] && s[..1][..0] == "";
    assert ToNat(s[..3]) == ToNat(s[..2]) * 10 + (s[2] - '0') as nat;
    assert ToNat(s[..2]) == ToNat(s[..1]) * 10 + (s[1] - '0') as nat;
    assert ToNat(s[..1]) == (s[0] - '0') as nat;
  }

  /** Every calendar date has a day number in range; the first is 0 and the last is 3652058. */
  lemma DayInRange(value: string)
    requires IsCalendarDate(value)
    ensures DateDay(value).Some? && 0 <= DateDay(value).value <= LAST_DAY
  {
    ParsedYear(value);
    var date := Parse(value).value;
    DayOfYear(date);
    YearsGrow(1, date.year);
    YearsGrow(date.year + 1, 10000);
    YearStep(date.year);
    assert DaysBeforeYear(1) == 0 && DaysBeforeYear(10000) == LAST_DAY + 1;
  }

  lemma {:induction false} DateOfDay(n: nat) returns (date: Date)
    requires n <= LAST_DAY
    ensures ValidParts(date) && 1 <= date.year <= 9999 && DayNumber(date) == n
  {
    if n == 0 {
      date := Date(1, 1, 1);
    } else {
      var previous := DateOfDay(n - 1);
      NextDayNumber(previous);
      date := Next(previous);
      assert DayNumber(Date(10000, 1, 1)) == LAST_DAY + 1;
    }
  }

  /** Every number in range is the day number of exactly one date string. */
  lemma EveryDayHasOneDate(n: nat) returns (value: string)
    requires n <= LAST_DAY
    ensures IsCalendarDate(value) && DateDay(value) == Some(n)
    ensures forall other :: IsCalendarDate(other) && DateDay(other) == Some(n) ==> other == value
  {
    var date := DateOfDay(n);
    FormatParses(date);
    value := Format(date);
    forall other | IsCalendarDate(other) && DateDay(other) == Some(n) ensures other == value {
      SameDaySameDate(other, value);
    }
  }

  lemma SameDaySameDate(a: string, b: string)
    requires IsCalendarDate(a) && IsCalendarDate(b) && DateDay(a) == DateDay(b)
    ensures a == b
  {
    StringOrderIsDayOrder(a, b);
  }

  // ---------------------------------------------------------------------------------------------
  // Constraints.

  /** Bounds in order, and an anchor for a step of more than a day. */
  predicate StructureValid(minimum: string, maximum: string, step: real)
    requires IsJsonDateValue(minimum) && IsJsonDateValue(maximum)
  {
    && (minimum != "" && maximum != "" ==> DateDay(minimum).value <= DateDay(maximum).value)
    && (step > 1.0 ==> minimum != "")
  }

  predicate InRange(value: string, minimum: string, maximum: string)
    requires IsCalendarDate(value) && IsJsonDateValue(minimum) && IsJsonDateValue(maximum)
  {
    && (minimum != "" ==> DateDay(minimum).value <= DateDay(value).value)
    && (maximum != "" ==> DateDay(value).value <= DateDay(maximum).value)
  }

  /** A whole number of steps from the minimum, or from the first day of 1970 without one. */
  ghost predicate OnStep(value: string, minimum: string, step: real)
    requires IsCalendarDate(value) && IsJsonDateValue(minimum)
  {
    step != 0.0 && Multiple((DateDay(value).value - if minimum == "" then 719_162 else DateDay(minimum).value) as real, step)
  }

  ghost predicate Multiple(x: real, step: real) {
    exists k: int :: x == Times(k, step)
  }

  function Times(k: int, step: real): real {
    k as real * step
  }

  lemma StepBase()
    ensures IsCalendarDate(STEP_BASE_DATE) && DateDay(STEP_BASE_DATE) == Some(719_162)
  {
    var date := Date(1970, 1, 1);
    assert DayNumber(date) == 719_162;
    FormatParses(date);
    BaseText();
  }

  lemma BaseText()
    ensures Power10(2) == 100 && Power10(4) == 10000 && Format(Date(1970, 1, 1)) == STEP_BASE_DATE
  {
    Powers();
    BaseYear(1970, 19, 197, 1);
    BaseMonth(1, 0);
  }

  lemma Powers()
    ensures Power10(1) == 10 && Power10(2) == 100 && Power10(3) == 1000 && Power10(4) == 10000
  {
  }

  lemma NextDigit(n: nat, width: nat)
    requires width > 0 && n < Power10(width)
    ensures n / 10 < Power10(width - 1) && Padded(n, width) == Padded(n / 10, width - 1) + [Digit(n % 10)]
  {
  }

  lemma LastDigit(n: nat)
    requires n < 10
    ensures n < Power10(1) && Padded(n, 1) == [Digit(n)]
  {
    NextDigit(n, 1);
    assert Padded(n / 10, 0) == [];
  }

  /** The digits of 1970 and 1, read off one at a time. */
  lemma BaseYear(year: nat, century: nat, decade: nat, one: nat)
    requires year == 1970 && decade == 197 && century == 19 && one == 1
    ensures year < Power10(4) && Padded(year, 4) == "1970"
  {
    Powers();
    LastDigit(one);
    NextDigit(century, 2);
    NextDigit(decade, 3);
    NextDigit(year, 4);
  }

  lemma BaseMonth(month: nat, zero: nat)
    requires month == 1 && zero == 0
    ensures month < Power10(2) && Padded(month, 2) == "01"
  {
    Powers();
    LastDigit(zero);
    NextDigit(month, 2);
  }

  lemma Divides(difference: real, step: real)
    requires step != 0.0
    ensures Remainder(difference, step) == 0.0 <==> Multiple(difference, step)
  {
    var quotient := difference / step;
    var whole := if quotient >= 0.0 then quotient.Floor else -(-quotient).Floor;
    assert Remainder(difference, step) == difference - Times(whole, step);
    if k: int :| difference == Times(k, step) {
      QuotientOfMultiple(difference, k, step);
      assert (-quotient).Floor == -k;
    }
  }

  lemma QuotientOfMultiple(x: real, k: int, step: real)
    requires step != 0.0 && x == k as real * step
    ensures x / step == k as real
  {
  }

  /** Which issue is reported, told by day numbers: the bounds cross, the step has nothing to count from, the value lies before
      or behind the bounds, or beside the steps. */
  lemma IssueMeaning(value: string, minimum: string, maximum: string, step: real)
    requires IsJsonDateValue(value) && IsJsonDateValue(minimum) && IsJsonDateValue(maximum)
    ensures DateConstraintIssue(value, minimum, maximum, step) ==
            if minimum != "" && maximum != "" && DateDay(maximum).value < DateDay(minimum).value then Some(Range)
            else if minimum == "" && step > 1.0 then Some(StepAnchor)
            else if value == "" then None
            else if minimum != "" && DateDay(value).value < DateDay(minimum).value then Some(Minimum)
            else if maximum != "" && DateDay(maximum).value < DateDay(value).value then Some(Maximum)
            else if OnStep(value, minimum, step) then None else Some(Step)
  {
    DaysDecideOrder(value, minimum, maximum);
    if value != "" {
      StepsAreCounted(value, minimum, step);
    }
  }

  lemma DaysDecideOrder(value: string, minimum: string, maximum: string)
    requires IsJsonDateValue(value) && IsJsonDateValue(minimum) && IsJsonDateValue(maximum)
    ensures minimum != "" && maximum != "" ==> (StringLess(maximum, minimum) <==> DateDay(maximum).value < DateDay(minimum).value)
    ensures value != "" && minimum != "" ==> (StringLess(value, minimum) <==> DateDay(value).value < DateDay(minimum).value)
    ensures value != "" && maximum != "" ==> (StringLess(maximum, value) <==> DateDay(maximum).value < DateDay(value).value)
  {
    if minimum != "" && maximum != "" {
      StringOrderIsDayOrder(maximum, minimum);
    }
    if value != "" && minimum != "" {
      StringOrderIsDayOrder(value, minimum);
    }
    if value != "" && maximum != "" {
      StringOrderIsDayOrder(maximum, value);
    }
  }

  lemma StepsAreCounted(value: string, minimum: string, step: real)
    requires IsJsonDateValue(value) && IsJsonDateValue(minimum) && value != ""
    ensures IsDateStepAligned(value, minimum, step) <==> OnStep(value, minimum, step)
  {
    StepBase();
    if step != 0.0 {
      Divides((DateDay(value).value - if minimum == "" then 719_162 else DateDay(minimum).value) as real, step);
    }
  }

  /** The check reports nothing exactly when the structure is valid and the value is empty, or lies in range by day
      number and on a step. */
  lemma NoIssueMeans(value: string, minimum: string, maximum: string, step: real)
    requires IsJsonDateValue(value) && IsJsonDateValue(minimum) && IsJsonDateValue(maximum)
    ensures DateConstraintIssue(value, minimum, maximum, step).None? <==>
            && StructureValid(minimum, maximum, step)
            && (value == "" || (InRange(value, minimum, maximum) && OnStep(value, minimum, step)))
  {
    IssueMeaning(value, minimum, maximum, step);
  }
}
