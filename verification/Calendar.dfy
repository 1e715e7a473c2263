/**
 The calendar days of activity_store.py: datetime.date, its text in the full-date format
 of section 5.6 of RFC 3339, and the list of day partitions a query walks.
 */
module Calendar {
  import opened Wrappers
  import opened TextOrder

  datatype Date = Date(y: int, m: int, d: int)

  predicate Leap(y: int) {
    y % 4 == 0 && (y % 100 != 0 || y % 400 == 0)
  }

  function DaysInMonth(y: int, m: int): int {
    if m == 2 then (if Leap(y) then 29 else 28)
    else if m == 4 || m == 6 || m == 9 || m == 11 then 30
    else 31
  }

  /** What datetime.date accepts. */
  predicate Valid(x: Date) {
    1 <= x.y <= 9999 && 1 <= x.m <= 12 && 1 <= x.d <= DaysInMonth(x.y, x.m)
  }

  predicate Before(a: Date, b: Date) {
    a.y < b.y || (a.y == b.y && (a.m < b.m || (a.m == b.m && a.d < b.d)))
  }

  /** The dates that exist, month by month. */
  lemma MonthLengths(y: int, m: int)
    requires 1 <= y <= 9999 && 1 <= m <= 12
    ensures forall d | 1 <= d <= 28 :: Valid(Date(y, m, d))
    ensures Valid(Date(y, m, 29)) <==> m != 2 || y % 400 == 0 || (y % 4 == 0 && y % 100 != 0)
    ensures Valid(Date(y, m, 30)) <==> m != 2
    ensures Valid(Date(y, m, 31)) <==> m in {1, 3, 5, 7, 8, 10, 12}
    ensures forall d | d < 1 || d > 31 :: !Valid(Date(y, m, d))
  {
  }

  // --- day numbers -----------------------------------------------------------------

  /** The day before; None is the OverflowError before 0001-01-01. */
  function Prev(x: Date): (r: Option<Date>)
    requires Valid(x)
    ensures r.Some? ==> Valid(r.value) && Before(r.value, x)
  {
    if x.d > 1 then Some(Date(x.y, x.m, x.d - 1))
    else if x.m > 1 then Some(Date(x.y, x.m - 1, DaysInMonth(x.y, x.m - 1)))
    else if x.y > 1 then Some(Date(x.y - 1, 12, 31))
    else None
  }

  /** date.toordinal: the number of days from 0001-01-01, itself day 1, up to x. */
  function Ordinal(x: Date): (n: nat)
    requires Valid(x)
    ensures n >= 1
    decreases x.y, x.m, x.d
  {
    if Prev(x).None? then 1 else Ordinal(Prev(x).value) + 1
  }

  /** No date lies between a date and the day before it. */
  lemma PrevIsAdjacent(a: Date, b: Date)
    requires Valid(a) && Valid(b) && Before(a, b)
    ensures Prev(b).Some?
    ensures a == Prev(b).value || Before(a, Prev(b).value)
  {
  }

  lemma {:induction false} BeforeLowersOrdinal(a: Date, b: Date)
    requires Valid(a) && Valid(b) && Before(a, b)
    ensures Ordinal(a) < Ordinal(b)
    decreases b.y, b.m, b.d
  {
    PrevIsAdjacent(a, b);
    if a != Prev(b).value { BeforeLowersOrdinal(a, Prev(b).value); }
  }

  /** The order of dates is the order of their day numbers. */
  lemma DateOrder(a: Date, b: Date)
    requires Valid(a) && Valid(b)
    ensures Before(a, b) <==> Ordinal(a) < Ordinal(b)
    ensures a == b <==> Ordinal(a) == Ordinal(b)
  {
    if Before(a, b) { BeforeLowersOrdinal(a, b); }
    if Before(b, a) { BeforeLowersOrdinal(b, a); }
  }

  lemma {:induction false} AtLeastOneDayAYear(x: Date)
    requires Valid(x)
    ensures Ordinal(x) >= x.y
    decreases x.y, x.m, x.d
  {
    if Prev(x).Some? { AtLeastOneDayAYear(Prev(x).value); }
  }

  // --- text --------------------------------------------------------------------------

  function Digit(n: int): (c: char)
    requires 0 <= n <= 9
    ensures '0' <= c <= '9'
  {
    ['0', '1', '2', '3', '4', '5', '6', '7', '8', '9'][n]
  }

  function TwoDigits(n: int): string
    requires 0 <= n <= 99
  {
    [Digit(n / 10), Digit(n % 10)]
  }

  /** strftime("%Y-%m-%d"), as of the days that the query computes itself.  A year before 1000
      comes out without padding. */
  function Format(x: Date): string
    requires Valid(x)
  {
    YearText(x.y) + "-" + TwoDigits(x.m) + "-" + TwoDigits(x.d)
  }

  function YearText(y: int): string
    requires 1 <= y <= 9999
  {
    if y >= 1000 then TwoDigits(y / 100) + TwoDigits(y % 100)
    else if y >= 100 then [Digit(y / 100)] + TwoDigits(y % 100)
    else if y >= 10 then TwoDigits(y)
    else [Digit(y)]
  }

  /** int() of a text of decimal digits. */
  function Number(s: string): int {
    if s == "" then 0 else 10 * Number(s[..|s| - 1]) + s[|s| - 1] as int - '0' as int
  }

  predicate AreDigits(s: string) {
    s != "" && forall i | 0 <= i < |s| :: '0' <= s[i] <= '9'
  }

  lemma NumberOfOneMore(s: string, n: int)
    requires 0 <= n <= 9
    ensures Number(s + [Digit(n)]) == 10 * Number(s) + n && '0' <= Digit(n) <= '9'
  {
    assert (s + [Digit(n)])[..|s|] == s;
  }

  lemma NumberOfTwoMore(s: string, n: int)
    requires 0 <= n <= 99
    ensures Number(s + TwoDigits(n)) == 100 * Number(s) + n && AreDigits(TwoDigits(n))
  {
    NumberOfOneMore(s, n / 10);
    NumberOfOneMore(s + [Digit(n / 10)], n % 10);
    assert s + TwoDigits(n) == s + [Digit(n / 10)] + [Digit(n % 10)];
  }

  lemma NumberOfTwo(n: int)
    requires 0 <= n <= 99
    ensures Number(TwoDigits(n)) == n && AreDigits(TwoDigits(n))
  {
    NumberOfTwoMore("", n);
    assert "" + TwoDigits(n) == TwoDigits(n);
  }

  lemma NumberOfOne(n: int)
    requires 0 <= n <= 9
    ensures Number([Digit(n)]) == n && AreDigits([Digit(n)])
  {
    NumberOfOneMore("", n);
    assert "" + [Digit(n)] == [Digit(n)];
  }

  lemma NumberOfFour(a: int, b: int)
    requires 0 <= a <= 99 && 0 <= b <= 99
    ensures Number(TwoDigits(a) + TwoDigits(b)) == 100 * a + b && AreDigits(TwoDigits(a) + TwoDigits(b))
  {
    NumberOfTwo(a);
    NumberOfTwoMore(TwoDigits(a), b);
  }

  lemma NumberOfThree(a: int, b: int)
    requires 0 <= a <= 9 && 0 <= b <= 99
    ensures Number([Digit(a)] + TwoDigits(b)) == 100 * a + b && AreDigits([Digit(a)] + TwoDigits(b))
  {
    NumberOfOne(a);
    NumberOfTwoMore([Digit(a)], b);
  }

  lemma YearReadsBack(y: int)
    requires 1 <= y <= 9999
    ensures Number(YearText(y)) == y && AreDigits(YearText(y))
  {
    if y >= 1000 {
      NumberOfFour(y / 100, y % 100);
    } else if y >= 100 {
      NumberOfThree(y / 100, y % 100);
    } else if y >= 10 {
      NumberOfTwo(y);
    } else {
      NumberOfOne(y);
    }
  }

  /** The text is the year, the month and the day, the last two with two digits, and splitting it
      at the dashes and reading the three numbers gives the date back. */
  lemma FormatReadsBack(x: Date) returns (year: string, month: string, day: string)
    requires Valid(x)
    ensures Format(x) == year + "-" + month + "-" + day
    ensures AreDigits(year) && AreDigits(month) && AreDigits(day) && |month| == 2 && |day| == 2
    ensures x == Date(Number(year), Number(month), Number(day))
  {
    year, month, day := YearText(x.y), TwoDigits(x.m), TwoDigits(x.d);
    YearReadsBack(x.y);
    NumberOfTwo(x.m);
    NumberOfTwo(x.d);
  }

  lemma DigitOrder(a: int, b: int)
    requires 0 <= a <= 9 && 0 <= b <= 9
    ensures Digit(a) < Digit(b) <==> a < b
    ensures Digit(a) == Digit(b) <==> a == b
  {
  }

  lemma TwoDigitsOrder(a: int, b: int)
    requires 0 <= a <= 99 && 0 <= b <= 99
    ensures Less(TwoDigits(a), TwoDigits(b)) <==> a < b
    ensures TwoDigits(a) == TwoDigits(b) <==> a == b
  {
    DigitOrder(a / 10, b / 10);
    DigitOrder(a % 10, b % 10);
    var s, t := TwoDigits(a), TwoDigits(b);
    assert Less(s[1..], t[1..]) <==> Digit(a % 10) < Digit(b % 10) by {
      assert !Less(s[1..][1..], t[1..][1..]);
    }
    assert s == t ==> s[0] == t[0] && s[1] == t[1];
  }

  /** For four-digit years the text comparisons in `query` are date comparisons. */
  lemma TextOrderIsDateOrder(a: Date, b: Date)
    requires Valid(a) && Valid(b) && a.y >= 1000 && b.y >= 1000
    ensures Less(Format(a), Format(b)) <==> Before(a, b)
    ensures Format(a) == Format(b) <==> a == b
  {
    var ax, bx := MonthAndDay(a), MonthAndDay(b);
    var a1, a2 := TwoDigits(a.y / 100), TwoDigits(a.y % 100);
    var b1, b2 := TwoDigits(b.y / 100), TwoDigits(b.y % 100);
    assert Format(a) == a1 + (a2 + ax) && Format(b) == b1 + (b2 + bx);
    LessByHead(a1, b1, a2 + ax, b2 + bx);
    LessByHead(a2, b2, ax, bx);
    TwoDigitsOrder(a.y / 100, b.y / 100);
    TwoDigitsOrder(a.y % 100, b.y % 100);
    MonthAndDayOrder(a, b);
    YearFromHalves(a.y, b.y);
    LessIrreflexive(Format(a));
    if Format(a) == Format(b) { DifferentDatesDifferentText(a, b); }
  }

  function MonthAndDay(x: Date): string
    requires Valid(x)
  {
    "-" + (TwoDigits(x.m) + ("-" + TwoDigits(x.d)))
  }

  lemma MonthAndDayOrder(a: Date, b: Date)
    requires Valid(a) && Valid(b)
    ensures Less(MonthAndDay(a), MonthAndDay(b)) <==> a.m < b.m || (a.m == b.m && a.d < b.d)
  {
    LessByHead("-", "-", TwoDigits(a.m) + ("-" + TwoDigits(a.d)), TwoDigits(b.m) + ("-" + TwoDigits(b.d)));
    LessByHead(TwoDigits(a.m), TwoDigits(b.m), "-" + TwoDigits(a.d), "-" + TwoDigits(b.d));
    LessByHead("-", "-", TwoDigits(a.d), TwoDigits(b.d));
    LessIrreflexive("-");
    TwoDigitsOrder(a.m, b.m);
    TwoDigitsOrder(a.d, b.d);
  }

  lemma DifferentDatesDifferentText(a: Date, b: Date)
    requires Valid(a) && Valid(b) && a.y >= 1000 && b.y >= 1000 && Format(a) == Format(b)
    ensures a == b
  {
    var s, t := Format(a), Format(b);
    assert s[0..2] == TwoDigits(a.y / 100) && t[0..2] == TwoDigits(b.y / 100);
    assert s[2..4] == TwoDigits(a.y % 100) && t[2..4] == TwoDigits(b.y % 100);
    assert s[5..7] == TwoDigits(a.m) && t[5..7] == TwoDigits(b.m);
    assert s[8..10] == TwoDigits(a.d) && t[8..10] == TwoDigits(b.d);
    TwoDigitsOrder(a.y / 100, b.y / 100);
    TwoDigitsOrder(a.y % 100, b.y % 100);
    TwoDigitsOrder(a.m, b.m);
    TwoDigitsOrder(a.d, b.d);
  }

  lemma YearFromHalves(a: int, b: int)
    requires 0 <= a <= 9999 && 0 <= b <= 9999
    ensures a < b <==> a / 100 < b / 100 || (a / 100 == b / 100 && a % 100 < b % 100)
  {
  }

  /** Shorter years break the agreement: the year 999 sorts after the year 1000. */
  lemma ShortYearsSortWrongly()
    ensures Before(Date(999, 12, 31), Date(1000, 1, 1))
    ensures Less(Format(Date(1000, 1, 1)), Format(Date(999, 12, 31)))
  {
    assert Format(Date(1000, 1, 1))[0] == '1' && Format(Date(999, 12, 31))[0] == '9';
  }

  predicate OrdersAgree(a: Date, b: Date)
    requires Valid(a) && Valid(b)
  {
    Less(Format(a), Format(b)) <==> Before(a, b)
  }

  /** Text order is date order on all dates from a year on exactly if that year has four digits. */
  lemma OrdersAgreeExactlyFrom(year: int)
    requires 1 <= year <= 9999
    ensures (forall a, b | Valid(a) && Valid(b) && a.y >= year && b.y >= year :: OrdersAgree(a, b)) <==> year >= 1000
  {
    if year >= 1000 {
      forall a, b | Valid(a) && Valid(b) && a.y >= year && b.y >= year ensures OrdersAgree(a, b) {
        TextOrderIsDateOrder(a, b);
      }
    } else {
      var a, b := Date(999, 12, 31), Date(1000, 1, 1);
      ShortYearsSortWrongly();
      assert !OrdersAgree(a, b);
    }
  }

  // --- the day partitions of a query --------------------------------------------------

  const MAX_DAYS: nat := 366

  /** Day number k of the list that starts at x and goes back in time. */
  ghost predicate IsDay(text: string, x: Date, k: nat)
    requires Valid(x)
  {
    exists z: Date {:trigger Format(z)} | Valid(z) ::
      text == Format(z) && Ordinal(z) == Ordinal(x) - k
  }

  /** The consecutive days from `to` back to `from`, MAX_DAYS at most; None exactly when the
      day before the first day of the calendar is needed. */
  ghost predicate IsDayRange(r: Option<seq<string>>, from: Date, to: Date)
    requires Valid(from) && Valid(to)
  {
    && (r.None? <==> Ordinal(from) == 1 && Ordinal(to) <= MAX_DAYS)
    && (r.Some? ==>
          && |r.value| == (var n := Ordinal(to) - Ordinal(from) + 1;
                           if n <= 0 then 0 else if n <= MAX_DAYS then n else MAX_DAYS)
          && forall k | 0 <= k < |r.value| :: IsDay(r.value[k], to, k))
  }

  /** _day_range_desc: None is the OverflowError. */
  method DayRangeDesc(from: Date, to: Date) returns (r: Option<seq<string>>)
    requires Valid(from) && Valid(to)
    ensures IsDayRange(r, from, to)
  {
    var cur := to;
    var out: seq<string> := [];
    var guard := 0;
    DateOrder(cur, from);
    while !Before(cur, from) && guard < MAX_DAYS
      invariant Valid(cur) && Ordinal(cur) == Ordinal(to) - guard
      invariant 0 <= guard == |out| <= MAX_DAYS
      invariant guard > 0 ==> Ordinal(cur) + 1 >= Ordinal(from)
      invariant Before(cur, from) <==> Ordinal(cur) < Ordinal(from)
      invariant forall k | 0 <= k < |out| :: IsDay(out[k], to, k)
    {
      assert IsDay(Format(cur), to, guard);
      out := out + [Format(cur)];
      var p := Prev(cur);
      if p.None? { return None; }
      cur := p.value;
      guard := guard + 1;
      DateOrder(cur, from);
    }
    return Some(out);
  }

  ghost predicate Descending(days: seq<string>) {
    forall i, j | 0 <= i < j < |days| :: Less(days[j], days[i])
  }

  /** Between four-digit years the list is strictly descending as text. */
  lemma DayListDescends(days: seq<string>, from: Date, to: Date)
    requires Valid(from) && Valid(to) && from.y >= 1000
    requires |days| <= Ordinal(to) - Ordinal(from) + 1
    requires forall k | 0 <= k < |days| :: IsDay(days[k], to, k)
    ensures Descending(days)
  {
    forall i, j | 0 <= i < j < |days| ensures Less(days[j], days[i]) {
      assert IsDay(days[i], to, i) && IsDay(days[j], to, j);
      LaterDayIsLess(days[i], days[j], from, to, i, j);
    }
  }

  lemma LaterDayIsLess(s: string, t: string, from: Date, to: Date, i: nat, j: nat)
    requires Valid(from) && Valid(to) && from.y >= 1000
    requires i < j <= Ordinal(to) - Ordinal(from)
    requires IsDay(s, to, i) && IsDay(t, to, j)
    ensures Less(t, s)
  {
    var a: Date :| Valid(a) && s == Format(a) && Ordinal(a) == Ordinal(to) - i;
    var b: Date :| Valid(b) && t == Format(b) && Ordinal(b) == Ordinal(to) - j;
    DateOrder(b, a);
    DateOrder(a, from);
    DateOrder(b, from);
    TextOrderIsDateOrder(b, a);
  }

  lemma FormatHasNoBar(z: Date)
    requires Valid(z)
    ensures '|' !in Format(z)
  {
  }

  lemma NoBarInDays(days: seq<string>, to: Date)
    requires Valid(to) && forall k | 0 <= k < |days| :: IsDay(days[k], to, k)
    ensures forall k | 0 <= k < |days| :: '|' !in days[k]
  {
    forall k | 0 <= k < |days| ensures '|' !in days[k] {
      assert IsDay(days[k], to, k);
      var z: Date :| Valid(z) && days[k] == Format(z) && Ordinal(z) == Ordinal(to) - k;
      FormatHasNoBar(z);
    }
  }

  /** _days_ago: None is the OverflowError. */
  function DaysAgo(x: Date, n: nat): (r: Option<Date>)
    requires Valid(x)
    ensures r.Some? ==> Valid(r.value)
    decreases n
  {
    if n == 0 then Some(x)
    else if Prev(x).None? then None
    else DaysAgo(Prev(x).value, n - 1)
  }

  lemma {:induction false} DaysAgoIsNDays(x: Date, n: nat)
    requires Valid(x)
    ensures DaysAgo(x, n).Some? <==> Ordinal(x) > n
    ensures DaysAgo(x, n).Some? ==> Ordinal(DaysAgo(x, n).value) == Ordinal(x) - n
    decreases n
  {
    if n > 0 && Prev(x).Some? { DaysAgoIsNDays(Prev(x).value, n - 1); }
  }

  const DEFAULT_WINDOW: nat := 90

  /** The days of a query from the later end of its range back to the earlier one, at most
      MAX_DAYS of them. */
  ghost predicate DaysOfRange(days: seq<string>, oldest: Date, newest: Date)
    requires Valid(oldest) && Valid(newest)
  {
    var n := Ordinal(newest) - Ordinal(oldest) + 1;
    && n >= 1
    && |days| == (if n <= MAX_DAYS then n else MAX_DAYS)
    && (forall k | 0 <= k < |days| :: IsDay(days[k], newest, k) && '|' !in days[k])
    && Descending(days)
  }

  /** A day as the caller wrote it, padded or not, and the date that it reads as. */
  datatype DayText = DayText(text: string, date: Date)

  /** The day as strftime writes it. */
  function Written(date: Date): DayText
    requires Valid(date)
  {
    DayText(Format(date), date)
  }

  function LaterEnd(today: Date, dayTo: Option<DayText>): DayText
    requires Valid(today)
  {
    if dayTo.Some? then dayTo.value else Written(today)
  }

  function EarlierEnd(to: DayText, dayFrom: Option<DayText>): Option<DayText>
    requires Valid(to.date)
  {
    if dayFrom.Some? then dayFrom
    else if DaysAgo(to.date, DEFAULT_WINDOW).Some? then Some(Written(DaysAgo(to.date, DEFAULT_WINDOW).value))
    else None
  }

  /** day_to defaults to today and day_from to 90 days before; ends in the wrong order are swapped.
      What is compared is the caller's own text, and strftime's for a default. */
  method QueryDays(today: Date, dayFrom: Option<DayText>, dayTo: Option<DayText>) returns (r: Option<seq<string>>)
    requires Valid(today) && (dayFrom.Some? ==> Valid(dayFrom.value.date)) && (dayTo.Some? ==> Valid(dayTo.value.date))
    ensures var to := LaterEnd(today, dayTo);
            var from := EarlierEnd(to, dayFrom);
            && (from.None? ==> r.None?)
            && (from.Some? ==> if Less(to.text, from.value.text) then IsDayRange(r, to.date, from.value.date)
                               else IsDayRange(r, from.value.date, to.date))
    ensures var to := LaterEnd(today, dayTo);
            var from := EarlierEnd(to, dayFrom);
            from.Some? && from.value.date.y >= 1000 && to.date.y >= 1000
            && from.value == Written(from.value.date) && to == Written(to.date) ==>
              && r.Some?
              && DaysOfRange(r.value, if Before(to.date, from.value.date) then to.date else from.value.date,
                                      if Before(to.date, from.value.date) then from.value.date else to.date)
  {
    var to := LaterEnd(today, dayTo);
    var from := EarlierEnd(to, dayFrom);
    if from.None? { return None; }
    var older, newer := from.value, to;
    if Less(newer.text, older.text) {
      older, newer := newer, older;
    }
    r := DayRangeDesc(older.date, newer.date);
    if from.value.date.y >= 1000 && to.date.y >= 1000 && from.value == Written(from.value.date) && to == Written(to.date) {
      TextOrderIsDateOrder(to.date, from.value.date);
      RangeIsWellFormed(older.date, newer.date, r);
    }
  }

  lemma RangeIsWellFormed(older: Date, newer: Date, r: Option<seq<string>>)
    requires Valid(older) && Valid(newer) && older.y >= 1000 && newer.y >= 1000 && !Before(newer, older)
    requires IsDayRange(r, older, newer)
    ensures r.Some? && DaysOfRange(r.value, older, newer)
  {
    DateOrder(newer, older);
    AtLeastOneDayAYear(older);
    DayListDescends(r.value, older, newer);
    NoBarInDays(r.value, newer);
  }
}
