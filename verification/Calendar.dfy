/** The civil date of a Unix day count, and the lexical expiry check of
    provisioning profiles that rests on it. */
module Calendar {
  import opened Decimal

  datatype Date = Date(year: int, month: int, day: int)

  /** Integer division of the source language: it truncates toward zero. */
  function TruncDiv(a: int, b: int): int
    requires b > 0
  {
    if a >= 0 then a / b else -(-a / b)
  }

  function CivilFromDays(days: int): Date {
    var z := days + 719468;
    var era := TruncDiv(if z >= 0 then z else z - 146096, 146097);
    var doe := z - era * 146097;
    var yoe := YearOfEra(doe);
    var y := yoe + era * 400;
    var doy := doe - (365 * yoe + TruncDiv(yoe, 4) - TruncDiv(yoe, 100));
    var mp := TruncDiv(5 * doy + 2, 153);
    var d := doy - TruncDiv(153 * mp + 2, 5) + 1;
    var m := if mp < 10 then mp + 3 else mp - 9;
    Date(if m <= 2 then y + 1 else y, m, d)
  }

  function YearOfEra(doe: int): int {
    TruncDiv(doe - TruncDiv(doe, 1460) + TruncDiv(doe, 36524) - TruncDiv(doe, 146096), 365)
  }

  // ----- The Gregorian calendar -----

  predicate IsLeap(y: int) {
    y % 4 == 0 && (y % 100 != 0 || y % 400 == 0)
  }

  function DaysInMonth(y: int, m: int): int {
    if m == 2 then (if IsLeap(y) then 29 else 28)
    else if m == 4 || m == 6 || m == 9 || m == 11 then 30
    else 31
  }

  predicate Valid(date: Date) {
    1 <= date.month <= 12 && 1 <= date.day <= DaysInMonth(date.year, date.month)
  }

  function Successor(date: Date): Date {
    if date.day < DaysInMonth(date.year, date.month) then date.(day := date.day + 1)
    else if date.month < 12 then Date(date.year, date.month + 1, 1)
    else Date(date.year + 1, 1, 1)
  }

  ghost predicate Before(a: Date, b: Date) {
    || a.year < b.year
    || (a.year == b.year && (a.month < b.month || (a.month == b.month && a.day < b.day)))
  }

  /** Days from 0001-01-01 to the first day of year `y`. */
  function DaysBeforeYear(y: int): int {
    365 * (y - 1) + (y - 1) / 4 - (y - 1) / 100 + (y - 1) / 400
  }

  function DaysBeforeMonth(y: int, m: int): int
    requires m >= 1
    decreases m
  {
    if m == 1 then 0 else DaysBeforeMonth(y, m - 1) + DaysInMonth(y, m - 1)
  }

  /** Days from 1970-01-01 to a date, by adding up whole years and months. */
  function DaysFromCivil(date: Date): int
    requires Valid(date)
  {
    DaysBeforeYear(date.year) + DaysBeforeMonth(date.year, date.month) + date.day - 1 - 719162
  }

  // ----- From a day count to a date and back -----

  lemma EraOfDays(z: int)
    ensures var era := TruncDiv(if z >= 0 then z else z - 146096, 146097);
            0 <= z - era * 146097 < 146097
  {
    if z < 0 {
      var k := (146096 - z) / 146097;
      assert 146096 - z == 146097 * k + (146096 - z) % 146097;
    }
  }

  /** A day of an era as centuries, four-year cycles, years and days. */
  lemma SplitEra(doe: int) returns (c: int, q: int, t: int, doy: int)
    requires 0 <= doe < 146097
    ensures 0 <= c <= 3 && 0 <= q <= 24 && 0 <= t <= 3
    ensures doe == 36524 * c + 1461 * q + 365 * t + doy
    ensures 0 <= doy <= 365 && (doy == 365 ==> t == 3 && (q < 24 || c == 3))
    ensures YearOfEra(doe) == 100 * c + 4 * q + t
  {
    if doe == 146096 {
      c, q, t, doy := 3, 24, 3, 365;
    } else {
      c := doe / 36524;
      var r := doe % 36524;
      q := r / 1461;
      var s := r % 1461;
      t := if s == 1460 then 3 else s / 365;
      doy := s - 365 * t;
      NearLeapCycles(c, q, s);
    }
  }

  lemma NearLeapCycles(c: int, q: int, s: int)
    requires 0 <= c <= 3 && 0 <= q <= 24 && 0 <= s <= 1460
    requires 1461 * q + s < 36524
    ensures var doe := 36524 * c + 1461 * q + s;
            YearOfEra(doe) == 100 * c + 4 * q + (if s == 1460 then 3 else s / 365)
  {
    var doe := 36524 * c + 1461 * q + s;
    var e := if 24 * c + q + s >= 1460 then 1 else 0;
    assert doe / 1460 == 25 * c + q + e;
    assert doe / 36524 == c;
    assert doe < 146096 && doe / 146096 == 0;
    var n := doe - doe / 1460 + doe / 36524 - doe / 146096;
    assert n == 365 * (100 * c + 4 * q) + (s - e);
    assert n / 365 == 100 * c + 4 * q + (s - e) / 365;
  }

  /** Days from 0000-03-01 to the first of March of year `y`. */
  function DaysToMarch(y: int): int {
    365 * y + y / 4 - y / 100 + y / 400
  }

  lemma MarchOfEra(era: int, c: int, q: int, t: int)
    requires 0 <= c <= 3 && 0 <= q <= 24 && 0 <= t <= 3
    ensures var yoe := 100 * c + 4 * q + t;
            && yoe / 4 == 25 * c + q && yoe / 100 == c
            && DaysToMarch(yoe + era * 400) == era * 146097 + 36524 * c + 1461 * q + 365 * t
  {
    var y := 100 * c + 4 * q + t + era * 400;
    assert y / 4 == 100 * era + 25 * c + q;
    assert y / 100 == 4 * era + c;
    assert y / 400 == era;
  }

  lemma LeapYearOfEra(era: int, c: int, q: int, t: int)
    requires 0 <= c <= 3 && 0 <= q <= 24 && 0 <= t <= 3
    ensures IsLeap(100 * c + 4 * q + t + era * 400 + 1) <==> t == 3 && (q < 24 || c == 3)
  {
    var y := 100 * c + 4 * q + t + era * 400 + 1;
    var w := 100 * c + 4 * q + t + 1;
    Mod4(y, 100 * era + 25 * c + q, t + 1);
    Mod100(y, 4 * era + c, 4 * q + t + 1);
    Mod400(y, era, w);
  }

  lemma Mod4(n: int, a: int, r: int)
    requires n == 4 * a + r && 0 <= r <= 4
    ensures n % 4 == 0 <==> r == 0 || r == 4
  {
  }

  lemma Mod100(n: int, a: int, r: int)
    requires n == 100 * a + r && 0 <= r <= 100
    ensures n % 100 == 0 <==> r == 0 || r == 100
  {
  }

  lemma Mod400(n: int, a: int, r: int)
    requires n == 400 * a + r && 0 <= r <= 400
    ensures n % 400 == 0 <==> r == 0 || r == 400
  {
  }

  lemma YearStep(y: int)
    ensures DaysBeforeYear(y + 1) == DaysBeforeYear(y) + (if IsLeap(y) then 366 else 365)
  {
    Carries(y);
  }

  lemma Carries(y: int)
    ensures y / 4 == (y - 1) / 4 + (if y % 4 == 0 then 1 else 0)
    ensures y / 100 == (y - 1) / 100 + (if y % 100 == 0 then 1 else 0)
    ensures y / 400 == (y - 1) / 400 + (if y % 400 == 0 then 1 else 0)
    ensures y % 400 == 0 ==> y % 100 == 0
    ensures y % 100 == 0 ==> y % 4 == 0
  {
    Carry(y, y / 4, y % 4, 4);
    Carry(y, y / 100, y % 100, 100);
    Carry(y, y / 400, y % 400, 400);
    if y % 400 == 0 {
      Mod100(y, 4 * (y / 400), 0);
    }
    if y % 100 == 0 {
      Mod4(y, 25 * (y / 100), 0);
    }
  }

  lemma Carry(y: int, a: int, r: int, k: int)
    requires k == 4 || k == 100 || k == 400
    requires y == k * a + r && 0 <= r < k
    ensures (y - 1) / k == if r == 0 then a - 1 else a
  {
  }

  lemma MarchIsMarch(y: int)
    ensures DaysBeforeYear(y) + (if IsLeap(y) then 60 else 59) == DaysToMarch(y) - 306
  {
    Carries(y);
  }

  lemma MonthTable(y: int)
    ensures var f := if IsLeap(y) then 1 else 0;
            && DaysBeforeMonth(y, 1) == 0 && DaysBeforeMonth(y, 2) == 31
            && DaysBeforeMonth(y, 3) == 59 + f && DaysBeforeMonth(y, 4) == 90 + f
            && DaysBeforeMonth(y, 5) == 120 + f && DaysBeforeMonth(y, 6) == 151 + f
            && DaysBeforeMonth(y, 7) == 181 + f && DaysBeforeMonth(y, 8) == 212 + f
            && DaysBeforeMonth(y, 9) == 243 + f && DaysBeforeMonth(y, 10) == 273 + f
            && DaysBeforeMonth(y, 11) == 304 + f && DaysBeforeMonth(y, 12) == 334 + f
  {
    assert DaysBeforeMonth(y, 2) == DaysBeforeMonth(y, 1) + 31;
    assert DaysBeforeMonth(y, 4) == DaysBeforeMonth(y, 3) + 31;
    assert DaysBeforeMonth(y, 6) == DaysBeforeMonth(y, 5) + 31;
    assert DaysBeforeMonth(y, 8) == DaysBeforeMonth(y, 7) + 31;
    assert DaysBeforeMonth(y, 10) == DaysBeforeMonth(y, 9) + 30;
    assert DaysBeforeMonth(y, 12) == DaysBeforeMonth(y, 11) + 30;
  }

  /** The month and day of the `doy`-th day of the year that starts in March. */
  function MarchDate(y: int, doy: int): Date {
    var mp := (5 * doy + 2) / 153;
    Date(if mp < 10 then y else y + 1, if mp < 10 then mp + 3 else mp - 9, doy - (153 * mp + 2) / 5 + 1)
  }

  /** Days from the first of March to the first of the `mp`-th month after it. */
  function MonthOffset(mp: int): int {
    (153 * mp + 2) / 5
  }

  lemma DateOfMarchYear(y: int, doy: int)
    requires 0 <= doy <= 365 && (doy == 365 ==> IsLeap(y + 1))
    ensures Valid(MarchDate(y, doy))
    ensures DaysFromCivil(MarchDate(y, doy)) == DaysToMarch(y) + doy - 719468
  {
    var mp := (5 * doy + 2) / 153;
    var date := MarchDate(y, doy);
    assert 0 <= mp <= 11 && MonthOffset(mp) <= doy < MonthOffset(mp + 1);
    hide IsLeap;
    hide DaysToMarch;
    hide DaysBeforeYear;
    MarchIsMarch(y);
    if mp < 10 {
      MonthTable(y);
    } else {
      MonthTable(y + 1);
      YearStep(y);
    }
  }

  /** The code's date is a day of a year counted from the first of March. */
  lemma CivilIsMarchDate(n: int) returns (y: int, doy: int)
    ensures CivilFromDays(n) == MarchDate(y, doy)
    ensures 0 <= doy <= 365 && (doy == 365 ==> IsLeap(y + 1))
    ensures n == DaysToMarch(y) + doy - 719468
  {
    hide YearOfEra;
    hide DaysToMarch;
    hide IsLeap;
    hide CivilFromDays;
    hide MarchDate;
    var z := n + 719468;
    var era := TruncDiv(if z >= 0 then z else z - 146096, 146097);
    var doe := z - era * 146097;
    EraOfDays(z);
    var yoe, day := YearInEra(era, doe);
    y, doy := yoe + era * 400, day;
    CivilUnfolded(n, era, doe, yoe, doy);
  }

  lemma YearInEra(era: int, doe: int) returns (yoe: int, doy: int)
    requires 0 <= doe < 146097
    ensures yoe == YearOfEra(doe) >= 0 && doy == doe - (365 * yoe + yoe / 4 - yoe / 100)
    ensures 0 <= doy <= 365 && (doy == 365 ==> IsLeap(yoe + era * 400 + 1))
    ensures DaysToMarch(yoe + era * 400) + doy == era * 146097 + doe
  {
    hide YearOfEra;
    hide DaysToMarch;
    hide IsLeap;
    var c, q, t, day := SplitEra(doe);
    MarchOfEra(era, c, q, t);
    LeapYearOfEra(era, c, q, t);
    yoe, doy := 100 * c + 4 * q + t, day;
  }

  lemma CivilUnfolded(n: int, era: int, doe: int, yoe: nat, doy: nat)
    requires var z := n + 719468; era == TruncDiv(if z >= 0 then z else z - 146096, 146097) && doe == z - era * 146097
    requires YearOfEra(doe) == yoe && doy == doe - (365 * yoe + yoe / 4 - yoe / 100) <= 365
    ensures CivilFromDays(n) == MarchDate(yoe + era * 400, doy)
  {
    hide YearOfEra;
    var mp := (5 * doy + 2) / 153;
    assert mp >= 0 && TruncDiv(5 * doy + 2, 153) == mp;
    assert TruncDiv(153 * mp + 2, 5) == (153 * mp + 2) / 5;
    assert TruncDiv(yoe, 4) == yoe / 4 && TruncDiv(yoe, 100) == yoe / 100;
    assert doy == doe - (365 * yoe + TruncDiv(yoe, 4) - TruncDiv(yoe, 100));
  }

  /** Every day count gives a valid date whose day count it is. */
  lemma DaysOfCivil(n: int)
    ensures Valid(CivilFromDays(n)) && DaysFromCivil(CivilFromDays(n)) == n
  {
    hide CivilFromDays;
    hide MarchDate;
    hide Valid;
    hide IsLeap;
    hide DaysToMarch;
    var y, doy := CivilIsMarchDate(n);
    DateOfMarchYear(y, doy);
  }

  lemma MonthStep(y: int, m: int)
    requires 1 <= m <= 12
    ensures m < 12 ==> DaysBeforeMonth(y, m + 1) == DaysBeforeMonth(y, m) + DaysInMonth(y, m)
    ensures m == 12 ==> DaysBeforeMonth(y, m) + 31 == if IsLeap(y) then 366 else 365
  {
    if m == 12 {
      MonthTable(y);
    }
  }

  /** The next day of the calendar is one day later. */
  lemma DaysOfSuccessor(date: Date)
    requires Valid(date)
    ensures Valid(Successor(date)) && DaysFromCivil(Successor(date)) == DaysFromCivil(date) + 1
  {
    MonthStep(date.year, date.month);
    YearStep(date.year);
  }

  lemma {:induction false} YearsApart(y: int, k: nat)
    ensures DaysBeforeYear(y + k) >= DaysBeforeYear(y) + 365 * k
    decreases k
  {
    if k > 0 {
      YearsApart(y, k - 1);
      YearStep(y + k - 1);
    }
  }

  lemma {:induction false} MonthsApart(y: int, m: int, k: int)
    requires 1 <= m <= k <= 12
    ensures m < k ==> DaysBeforeMonth(y, k) >= DaysBeforeMonth(y, m) + DaysInMonth(y, m)
    ensures 0 <= DaysBeforeMonth(y, k) && DaysBeforeMonth(y, k) + DaysInMonth(y, k) <= (if IsLeap(y) then 366 else 365)
    decreases k - m
  {
    MonthTable(y);
  }

  /** Day counts order valid dates. */
  lemma DaysOrderDates(a: Date, b: Date)
    requires Valid(a) && Valid(b)
    ensures Before(a, b) <==> DaysFromCivil(a) < DaysFromCivil(b)
    ensures a == b <==> DaysFromCivil(a) == DaysFromCivil(b)
  {
    if Before(a, b) {
      EarlierHasFewerDays(a, b);
    } else if Before(b, a) {
      EarlierHasFewerDays(b, a);
    }
  }

  lemma EarlierHasFewerDays(a: Date, b: Date)
    requires Valid(a) && Valid(b) && Before(a, b)
    ensures DaysFromCivil(a) < DaysFromCivil(b)
  {
    hide DaysBeforeYear;
    hide IsLeap;
    MonthsApart(a.year, a.month, a.month);
    MonthsApart(b.year, b.month, b.month);
    if a.year < b.year {
      YearStep(a.year);
      YearsApart(a.year + 1, b.year - a.year - 1);
    } else if a.month < b.month {
      MonthsApart(a.year, a.month, b.month);
    }
  }

  /** The date computation and the day count are inverse to each other. */
  lemma CivilOfDays(date: Date)
    requires Valid(date)
    ensures CivilFromDays(DaysFromCivil(date)) == date
  {
    hide CivilFromDays;
    hide Valid;
    hide DaysFromCivil;
    var n := DaysFromCivil(date);
    DaysOfCivil(n);
    DaysOrderDates(CivilFromDays(n), date);
  }

  lemma Epoch()
    ensures CivilFromDays(0) == Date(1970, 1, 1)
  {
  }

  /** One day more is the calendar successor, from the epoch in both directions. */
  lemma CivilSteps(n: int)
    ensures CivilFromDays(0) == Date(1970, 1, 1)
    ensures CivilFromDays(n + 1) == Successor(CivilFromDays(n))
  {
    hide Valid;
    hide DaysFromCivil;
    hide Successor;
    Epoch();
    hide CivilFromDays;
    DaysOfCivil(n);
    DaysOfSuccessor(CivilFromDays(n));
    CivilOfDays(Successor(CivilFromDays(n)));
  }

  // ----- The expiry check -----

  /** `{n:0w}` for a number that is not negative. */
  function ZeroPad(n: nat, w: nat): string {
    var digits := Show(n);
    seq(if |digits| < w then w - |digits| else 0, _ => '0') + digits
  }

  function Iso(date: Date): string
    requires date.year >= 0 && date.month >= 0 && date.day >= 0
  {
    ZeroPad(date.year, 4) + "-" + ZeroPad(date.month, 2) + "-" + ZeroPad(date.day, 2)
  }

  /** `<` on strings of ASCII characters. */
  predicate LexLess(a: string, b: string) {
    b != "" && (a == "" || a[0] < b[0] || (a[0] == b[0] && LexLess(a[1..], b[1..])))
  }

  /** The date comparison: the first ten characters against today. */
  predicate Expired(date: string, today: string) {
    LexLess(if |date| >= 10 then date[..10] else date, today)
  }

  lemma TwoDigits(n: nat)
    requires n < 100
    ensures ZeroPad(n, 2) == [Digit(n / 10), Digit(n % 10)]
  {
    if n >= 10 {
      assert Show(n) == Show(n / 10) + [Digit(n % 10)];
    }
  }

  lemma FourDigits(n: nat)
    requires n < 10000
    ensures ZeroPad(n, 4) == [Digit(n / 1000), Digit(n / 100 % 10), Digit(n / 10 % 10), Digit(n % 10)]
  {
    ShowSnoc(n);
    ShowSnoc(n / 10);
    ShowSnoc(n / 100);
    ShowSnoc(n / 1000);
    assert n / 10 / 10 == n / 100 && n / 100 / 10 == n / 1000;
  }

  lemma ShowSnoc(n: nat)
    ensures Show(n) == (if n < 10 then "" else Show(n / 10)) + [Digit(n % 10)]
  {
  }

  lemma {:induction false} LexConcat(a: string, b: string, c: string, d: string)
    requires |a| == |c|
    ensures LexLess(a + b, c + d) <==> LexLess(a, c) || (a == c && LexLess(b, d))
    decreases |a|
  {
    if a == "" {
      assert a + b == b && c + d == d;
    } else {
      assert (a + b)[1..] == a[1..] + b && (c + d)[1..] == c[1..] + d;
      assert a == [a[0]] + a[1..] && c == [c[0]] + c[1..];
      LexConcat(a[1..], b, c[1..], d);
    }
  }

  lemma LexTwo(m: nat, n: nat)
    requires m < 100 && n < 100
    ensures LexLess(ZeroPad(m, 2), ZeroPad(n, 2)) <==> m < n
    ensures ZeroPad(m, 2) == ZeroPad(n, 2) <==> m == n
  {
    TwoDigits(m);
    TwoDigits(n);
    LexPair(Digit(m / 10), Digit(m % 10), Digit(n / 10), Digit(n % 10));
  }

  lemma LexPair(a: char, b: char, c: char, d: char)
    ensures LexLess([a, b], [c, d]) <==> a < c || (a == c && b < d)
  {
    assert [a, b][1..] == [b] && [c, d][1..] == [d];
    assert [b][1..] == "" && [d][1..] == "";
    assert LexLess([b], [d]) <==> b < d;
  }

  lemma LexFour(m: nat, n: nat)
    requires m < 10000 && n < 10000
    ensures LexLess(ZeroPad(m, 4), ZeroPad(n, 4)) <==> m < n
    ensures ZeroPad(m, 4) == ZeroPad(n, 4) <==> m == n
  {
    hide ZeroPad;
    SplitFour(m);
    SplitFour(n);
    LexTwo(m / 100, n / 100);
    LexTwo(m % 100, n % 100);
    TwoDigits(m / 100);
    TwoDigits(n / 100);
    LexConcat(ZeroPad(m / 100, 2), ZeroPad(m % 100, 2), ZeroPad(n / 100, 2), ZeroPad(n % 100, 2));
    SamePrefix(ZeroPad(m / 100, 2), ZeroPad(m % 100, 2), ZeroPad(n / 100, 2), ZeroPad(n % 100, 2));
  }

  lemma SplitFour(n: nat)
    requires n < 10000
    ensures ZeroPad(n, 4) == ZeroPad(n / 100, 2) + ZeroPad(n % 100, 2)
  {
    hide ZeroPad;
    hide Digit;
    FourDigits(n);
    TwoDigits(n / 100);
    TwoDigits(n % 100);
    DigitsOfFour(n);
  }

  lemma DigitsOfFour(n: nat)
    requires n < 10000
    ensures n / 100 / 10 == n / 1000
    ensures n % 100 / 10 == n / 10 % 10 && n % 100 % 10 == n % 10
  {
  }

  lemma SamePrefix(a: string, b: string, c: string, d: string)
    requires |a| == |c|
    ensures a + b == c + d <==> a == c && b == d
  {
    assert (a + b)[..|a|] == a && (a + b)[|a|..] == b;
    assert (c + d)[..|c|] == c && (c + d)[|c|..] == d;
  }

  // ----- The order of the strings -----

  function Width(year: nat): nat { |ZeroPad(year, 4)| }

  /** A number without its last `d` digits. */
  function Leading(n: nat, d: nat): nat {
    if d == 0 then n else Leading(n / 10, d - 1)
  }

  /** Two years whose strings compare as the years do: they are as wide as each
      other, or the narrower one is at most the leading digits of the other. */
  predicate Comparable(m: nat, n: nat) {
    if Width(m) == Width(n) then true
    else if Width(m) < Width(n) then m <= Leading(n, Width(n) - Width(m))
    else n <= Leading(m, Width(m) - Width(n))
  }

  lemma WideYears(n: nat)
    ensures if n < 10000 then Width(n) == 4 else Width(n) >= 5 && ZeroPad(n, 4) == Show(n)
    ensures n >= 1000 ==> ZeroPad(n, 4) == Show(n)
  {
    ShowSnoc(n);
    ShowSnoc(n / 10);
    ShowSnoc(n / 100);
    ShowSnoc(n / 1000);
    ShowSnoc(n / 10000);
    assert n / 10 / 10 == n / 100 && n / 100 / 10 == n / 1000 && n / 1000 / 10 == n / 10000;
    if n >= 1000 {
      assert ZeroPad(n, 4) == "" + Show(n) == Show(n);
    } else {
      FourDigits(n);
    }
  }

  lemma LexDigit(m: nat, n: nat)
    requires m < 10 && n < 10
    ensures LexLess([Digit(m)], [Digit(n)]) <==> m < n
    ensures [Digit(m)] == [Digit(n)] <==> m == n
  {
    assert [Digit(m)][0] == Digit(m) && [Digit(n)][0] == Digit(n);
    assert [Digit(m)][1..] == "" && [Digit(n)][1..] == "";
  }

  lemma {:induction false} LexShow(m: nat, n: nat)
    requires |Show(m)| == |Show(n)|
    ensures LexLess(Show(m), Show(n)) <==> m < n
    ensures Show(m) == Show(n) <==> m == n
  {
    hide LexLess;
    hide Digit;
    ShowSnoc(m);
    ShowSnoc(n);
    LexDigit(m % 10, n % 10);
    ShowSome(m / 10);
    ShowSome(n / 10);
    if m >= 10 && n >= 10 {
      LexShow(m / 10, n / 10);
      LexConcat(Show(m / 10), [Digit(m % 10)], Show(n / 10), [Digit(n % 10)]);
      SamePrefix(Show(m / 10), [Digit(m % 10)], Show(n / 10), [Digit(n % 10)]);
    } else {
      assert "" + [Digit(m % 10)] == [Digit(m % 10)] && "" + [Digit(n % 10)] == [Digit(n % 10)];
    }
  }

  lemma ShowSome(n: nat)
    ensures Show(n) != ""
  {
  }

  lemma LexPads(m: nat, n: nat)
    requires Width(m) == Width(n)
    ensures LexLess(ZeroPad(m, 4), ZeroPad(n, 4)) <==> m < n
    ensures ZeroPad(m, 4) == ZeroPad(n, 4) <==> m == n
  {
    hide LexLess;
    hide ZeroPad;
    WideYears(m);
    WideYears(n);
    if m < 10000 {
      LexFour(m, n);
    } else {
      LexShow(m, n);
    }
  }

  lemma {:induction false} ShowLeading(n: nat, d: nat)
    requires d < |Show(n)|
    ensures Show(n)[..|Show(n)| - d] == Show(Leading(n, d))
    ensures forall i | 0 <= i < |Show(n)| :: '0' <= Show(n)[i]
    decreases d
  {
    ShowSnoc(n);
    ParseOfShow(n);
    if d > 0 {
      ShowLeading(n / 10, d - 1);
      assert Show(n)[..|Show(n)| - d] == Show(n / 10)[..|Show(n / 10)| - (d - 1)];
    } else {
      assert Show(n)[..|Show(n)|] == Show(n);
    }
  }

  /** The wider of two years begins with the digits that count. */
  lemma WiderYear(m: nat, n: nat) returns (tail: string)
    requires Width(m) < Width(n)
    ensures var lead := Leading(n, Width(n) - Width(m));
            Width(lead) == Width(m) && ZeroPad(n, 4) == ZeroPad(lead, 4) + tail
    ensures tail != "" && '-' < tail[0]
  {
    hide ZeroPad;
    WideYears(m);
    WideYears(n);
    var w := Width(m);
    var d := Width(n) - w;
    var lead := Leading(n, d);
    ShowLeading(n, d);
    ParseOfShow(n);
    NarrowShow(lead, w);
    tail := Show(n)[w..];
    assert Show(n) == Show(n)[..w] + tail;
  }

  lemma NarrowShow(n: nat, w: nat)
    requires |Show(n)| == w >= 4
    ensures ZeroPad(n, 4) == Show(n) && Width(n) == w
  {
    assert ZeroPad(n, 4) == "" + Show(n) == Show(n);
  }

  lemma LexHyphen(a: string, r: string, p: string, tail: string)
    requires |a| == |p| && tail != "" && '-' < tail[0]
    ensures LexLess(a + ("-" + r), p + tail) <==> LexLess(a, p) || a == p
    ensures LexLess(p + tail, a + ("-" + r)) <==> LexLess(p, a)
  {
    assert ("-" + r)[0] == '-';
    LexConcat(a, "-" + r, p, tail);
    LexConcat(p, tail, a, "-" + r);
  }

  /** A date whose year is written without a sign. */
  ghost predicate Unsigned(date: Date) {
    Valid(date) && date.year >= 0
  }

  lemma IsoParts(date: Date) returns (rest: string)
    requires Unsigned(date)
    ensures Iso(date) == ZeroPad(date.year, 4) + ("-" + rest)
    ensures rest == ZeroPad(date.month, 2) + ("-" + ZeroPad(date.day, 2))
  {
    hide ZeroPad;
    rest := ZeroPad(date.month, 2) + ("-" + ZeroPad(date.day, 2));
  }

  lemma IsoSameWidth(a: Date, b: Date)
    requires Unsigned(a) && Unsigned(b) && Width(a.year) == Width(b.year)
    ensures LexLess(Iso(a), Iso(b)) <==> DaysFromCivil(a) < DaysFromCivil(b)
  {
    hide ZeroPad;
    hide LexLess;
    hide Iso;
    hide DaysFromCivil;
    DaysOrderDates(a, b);
    var ar := IsoParts(a);
    var br := IsoParts(b);
    LexPads(a.year, b.year);
    LexTwo(a.month, b.month);
    LexTwo(a.day, b.day);
    TwoDigits(a.month);
    TwoDigits(b.month);
    var am, bm := ZeroPad(a.month, 2), ZeroPad(b.month, 2);
    var ad, bd := ZeroPad(a.day, 2), ZeroPad(b.day, 2);
    LexConcat(ZeroPad(a.year, 4), "-" + ar, ZeroPad(b.year, 4), "-" + br);
    LexConcat("-", ar, "-", br);
    LexConcat(am, "-" + ad, bm, "-" + bd);
    LexConcat("-", ad, "-", bd);
    LexSelf("-");
  }

  /** With a narrower year, the earlier date's string is the smaller one exactly
      when its year is at most the leading digits of the other. */
  lemma IsoNarrower(a: Date, b: Date)
    requires Unsigned(a) && Unsigned(b) && Width(a.year) < Width(b.year)
    ensures LexLess(Iso(a), Iso(b)) <==> a.year <= Leading(b.year, Width(b.year) - Width(a.year))
    ensures LexLess(Iso(b), Iso(a)) <==> a.year > Leading(b.year, Width(b.year) - Width(a.year))
    ensures DaysFromCivil(a) < DaysFromCivil(b)
  {
    hide ZeroPad;
    hide LexLess;
    hide Iso;
    hide DaysFromCivil;
    var ar := IsoParts(a);
    var br := IsoParts(b);
    var tail := WiderYear(a.year, b.year);
    var lead := Leading(b.year, Width(b.year) - Width(a.year));
    LexPads(a.year, lead);
    LexPads(lead, a.year);
    assert ZeroPad(lead, 4) + tail + ("-" + br) == ZeroPad(lead, 4) + (tail + ("-" + br));
    LexHyphen(ZeroPad(a.year, 4), ar, ZeroPad(lead, 4), tail + ("-" + br));
    WideYears(a.year);
    WideYears(b.year);
    NarrowerIsEarlier(a.year, b.year);
    DaysOrderDates(a, b);
  }

  lemma {:induction false} NarrowerIsEarlier(m: nat, n: nat)
    requires Width(m) < Width(n)
    ensures m < n
  {
    hide ZeroPad;
    WideYears(m);
    WideYears(n);
    if m >= 10000 {
      LongerIsLarger(m, n);
    }
  }

  lemma {:induction false} LongerIsLarger(m: nat, n: nat)
    requires |Show(m)| < |Show(n)|
    ensures m < n
  {
    ShowSnoc(m);
    ShowSnoc(n);
    if m >= 10 {
      LongerIsLarger(m / 10, n / 10);
    }
  }

  /** For years that carry no sign, two date strings compare as their days do
      exactly when their years are comparable. */
  lemma IsoOrderIff(a: Date, b: Date)
    requires Unsigned(a) && Unsigned(b)
    ensures (LexLess(Iso(a), Iso(b)) <==> DaysFromCivil(a) < DaysFromCivil(b)) <==> Comparable(a.year, b.year)
  {
    hide LexLess;
    hide Iso;
    hide DaysFromCivil;
    hide Width;
    hide Leading;
    if Width(a.year) == Width(b.year) {
      IsoSameWidth(a, b);
    } else if Width(a.year) < Width(b.year) {
      IsoNarrower(a, b);
    } else {
      IsoNarrower(b, a);
    }
  }

  ghost predicate InRange(date: Date) {
    Valid(date) && 0 <= date.year <= 9999
  }

  lemma IsoForm(date: Date)
    requires InRange(date)
    ensures |ZeroPad(date.year, 4)| == 4 && |ZeroPad(date.month, 2)| == 2 && |ZeroPad(date.day, 2)| == 2
    ensures |Iso(date)| == 10
    ensures Iso(date) == ZeroPad(date.year, 4) + ("-" + (ZeroPad(date.month, 2) + ("-" + ZeroPad(date.day, 2))))
  {
    FourDigits(date.year);
    TwoDigits(date.month);
    TwoDigits(date.day);
  }

  /** For years 0 to 9999 the padded strings are ordered as the days are. */
  lemma IsoOrdersDays(a: Date, b: Date)
    requires InRange(a) && InRange(b)
    ensures LexLess(Iso(a), Iso(b)) <==> DaysFromCivil(a) < DaysFromCivil(b)
  {
    hide ZeroPad;
    hide LexLess;
    hide Iso;
    hide DaysFromCivil;
    WideYears(a.year);
    WideYears(b.year);
    IsoSameWidth(a, b);
  }

  lemma LexSelf(s: string)
    ensures !LexLess(s, s)
  {
  }

  lemma IsoLength(date: Date)
    requires Unsigned(date)
    ensures |Iso(date)| == Width(date.year) + 6 >= 10
    ensures date.year >= 10000 ==> |Iso(date)| >= 11
  {
    hide ZeroPad;
    WideYears(date.year);
    TwoDigits(date.month);
    TwoDigits(date.day);
  }

  /** The first ten characters of a later date with a wider year decide against a
      four-digit year just as the whole string does. */
  lemma CutWiderYear(date: Date, now: Date)
    requires Unsigned(date) && Unsigned(now) && now.year <= 9999 < date.year
    ensures |Iso(date)| >= 10
    ensures LexLess(Iso(date)[..10], Iso(now)) <==> !Comparable(date.year, now.year)
    ensures DaysFromCivil(now) < DaysFromCivil(date)
  {
    hide ZeroPad;
    hide LexLess;
    hide Iso;
    hide DaysFromCivil;
    IsoNarrowerYears(now, date);
    var nr := IsoParts(now);
    var dr := IsoParts(date);
    var tail := WiderYear(now.year, date.year);
    var lead := Leading(date.year, Width(date.year) - Width(now.year));
    var p, q := ZeroPad(lead, 4), tail + ("-" + dr);
    IsoLength(date);
    assert p + tail + ("-" + dr) == p + q;
    assert Iso(date)[..10] == p + q[..6] && q[..6][0] == tail[0];
    LexHyphen(ZeroPad(now.year, 4), nr, p, q[..6]);
    LexPads(lead, now.year);
  }

  lemma IsoNarrowerYears(now: Date, date: Date)
    requires Unsigned(date) && Unsigned(now) && now.year <= 9999 < date.year
    ensures Width(now.year) == 4 < Width(date.year) && DaysFromCivil(now) < DaysFromCivil(date)
  {
    hide ZeroPad;
    hide DaysFromCivil;
    hide Iso;
    hide LexLess;
    WideYears(now.year);
    WideYears(date.year);
    IsoNarrower(now, date);
  }

  /** Two strings longer than ten characters, the first one cut. */
  lemma CutAtTen(d: string, n: string)
    requires |d| >= 10 && |n| >= 11
    ensures d[..10] == n[..10] ==> LexLess(d[..10], n)
    ensures d[..10] != n[..10] ==> (LexLess(d[..10], n) <==> LexLess(d, n))
  {
    var a, b := d[..10], n[..10];
    assert a + "" == a && a + d[10..] == d && b + n[10..] == n;
    LexConcat(a, "", b, n[10..]);
    LexConcat(a, d[10..], b, n[10..]);
    assert LexLess("", n[10..]);
  }

  /** When the check is right: among five-digit years and beyond the ten characters
      no longer hold the whole day, and dates that agree in them count as past. */
  ghost predicate RightlyChecked(date: Date, now: Date)
    requires Unsigned(date) && Unsigned(now)
  {
    IsoLength(date);
    IsoLength(now);
    if date.year >= 10000 && now.year >= 10000 && Iso(date)[..10] == Iso(now)[..10] then Before(date, now)
    else Comparable(date.year, now.year)
  }

  /** The check on any two dates without a sign. */
  lemma CheckIff(date: Date, now: Date)
    requires Unsigned(date) && Unsigned(now)
    ensures (Expired(Iso(date), Iso(now)) <==> DaysFromCivil(date) < DaysFromCivil(now)) <==> RightlyChecked(date, now)
  {
    hide LexLess;
    hide Iso;
    hide Comparable;
    hide DaysFromCivil;
    IsoLength(date);
    IsoLength(now);
    DaysOrderDates(date, now);
    if date.year <= 9999 {
      IsoForm(date);
      assert Iso(date)[..10] == Iso(date);
      IsoOrderIff(date, now);
    } else if now.year <= 9999 {
      CutWiderYear(date, now);
    } else {
      CutAtTen(Iso(date), Iso(now));
      IsoOrderIff(date, now);
    }
  }

  /** Of a profile that expires on `date`, whatever follows the date in it, the
      check rightly says whether that day is past exactly when `RightlyChecked`
      holds: for every date without a sign, on every day from 1970 on. */
  lemma ExpiryIff(date: Date, rest: string, today: nat)
    requires Unsigned(date)
    ensures var now := CivilFromDays(today);
            && Unsigned(now)
            && ((Expired(Iso(date) + rest, Iso(now)) <==> DaysFromCivil(date) < today) <==> RightlyChecked(date, now))
  {
    hide CivilFromDays;
    hide LexLess;
    hide Iso;
    hide RightlyChecked;
    var now := CivilFromDays(today);
    NoSignAfterEpoch(today);
    DaysOfCivil(today);
    IsoLength(date);
    assert (Iso(date) + rest)[..10] == Iso(date)[..10];
    CheckIff(date, now);
  }

  lemma NoSignAfterEpoch(today: nat)
    ensures Unsigned(CivilFromDays(today))
  {
    hide CivilFromDays;
    DaysOfCivil(today);
    CivilSteps(0);
    DaysOfCivil(0);
    DaysOrderDates(CivilFromDays(today), CivilFromDays(0));
  }

  /** In particular on every day until the end of the year 9999. */
  lemma ExpiryIsDayOrder(date: Date, rest: string, today: nat)
    requires InRange(date) && CivilFromDays(today).year <= 9999
    ensures Unsigned(CivilFromDays(today))
    ensures Expired(Iso(date) + rest, Iso(CivilFromDays(today))) <==> DaysFromCivil(date) < today
  {
    hide CivilFromDays;
    hide ZeroPad;
    hide Expired;
    hide Iso;
    ExpiryIff(date, rest, today);
    WideYears(date.year);
    WideYears(CivilFromDays(today).year);
  }

  /** A profile that expires in the year 10000 is reported as expired in 2025. */
  lemma YearTenThousand()
    ensures var date, now := Date(10000, 1, 1), Date(2025, 6, 1);
            && Unsigned(date) && Unsigned(now)
            && Iso(date) == "10000-01-01" && Iso(now) == "2025-06-01"
            && Expired(Iso(date), Iso(now)) && DaysFromCivil(now) < DaysFromCivil(date)
            && !Comparable(date.year, now.year)
  {
    var date, now := Date(10000, 1, 1), Date(2025, 6, 1);
    TenThousand();
    DaysOrderDates(now, date);
    TwoDigits(1);
    TwoDigits(6);
    FourDigits(2025);
    assert Iso(now) == "2025-06-01" && Iso(date) == "10000-01-01";
  }

  /** In the year 10000 the check cannot tell the days of a decade apart. */
  lemma SameDecade()
    ensures var date, now := Date(10000, 1, 9), Date(10000, 1, 5);
            && Unsigned(date) && Unsigned(now) && Comparable(date.year, now.year)
            && Iso(date) == "10000-01-09" && Iso(now) == "10000-01-05"
            && Expired(Iso(date), Iso(now)) && DaysFromCivil(now) < DaysFromCivil(date)
            && !RightlyChecked(date, now)
  {
    var date, now := Date(10000, 1, 9), Date(10000, 1, 5);
    FiveDigitIso(1, 9);
    FiveDigitIso(1, 5);
    hide Iso;
    hide LexLess;
    hide ZeroPad;
    CutAtTen(Iso(date), Iso(now));
    DaysOrderDates(now, date);
  }

  lemma FiveDigitIso(month: nat, day: nat)
    requires month < 10 && day < 10
    ensures Iso(Date(10000, month, day)) == "10000-0" + [Digit(month)] + "-0" + [Digit(day)]
  {
    TenThousand();
    TwoDigits(month);
    TwoDigits(day);
  }

  lemma TenThousand()
    ensures ZeroPad(10000, 4) == "10000" && Leading(10000, 1) == 1000
  {
    ShowSnoc(10000);
    ShowSnoc(1000);
    ShowSnoc(100);
    ShowSnoc(10);
    ShowSnoc(1);
  }
}
