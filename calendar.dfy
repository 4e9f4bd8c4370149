/** The month calendar the bot draws for choosing a pickup date, and the parser
    for the callbacks its buttons send. Dates are proleptic Gregorian, compared
    through their ordinal (day 1 is 0001-01-01), as Python's `date` does. */
module Calendar {
  import opened Wrappers
  import opened Text
  import opened Callbacks

  // ---------------------------------------------------------------------------
  // Dates
  // ---------------------------------------------------------------------------

  datatype Date = Date(year: int, month: int, day: int)

  predicate IsLeap(y: int) {
    y % 4 == 0 && (y % 100 != 0 || y % 400 == 0)
  }

  function DaysInMonth(y: int, m: int): (n: int)
    requires 1 <= m <= 12
    ensures 28 <= n <= 31
  {
    [31, 28, 31, 30, 31, 30, 31, 31, 30, 31, 30, 31][m - 1] + (if m == 2 && IsLeap(y) then 1 else 0)
  }

  /** The days of the year before the first of month `m`. */
  function DaysBeforeMonth(y: int, m: int): int
    requires 1 <= m <= 12
  {
    [0, 31, 59, 90, 120, 151, 181, 212, 243, 273, 304, 334][m - 1] + (if m > 2 && IsLeap(y) then 1 else 0)
  }

  function DaysInYear(y: int): int {
    if IsLeap(y) then 366 else 365
  }

  /** The days before the first of January of year `y`, year by year. */
  function DaysBeforeYear(y: int): int
    requires y >= 1
    decreases y
  {
    if y == 1 then 0 else DaysBeforeYear(y - 1) + DaysInYear(y - 1)
  }

  /** The closed formula `datetime` uses for the days before year `y`. */
  function DaysBeforeYearFormula(y: int): int
    requires y >= 1
  {
    var p := y - 1;
    p * 365 + p / 4 - p / 100 + p / 400
  }

  /** `date(y, m, d)` accepts the day: years 1 to 9999, a real month, a day of it. */
  predicate ValidDate(d: Date) {
    1 <= d.year <= 9999 && 1 <= d.month <= 12 && 1 <= d.day <= DaysInMonth(d.year, d.month)
  }

  /** `date.toordinal()`. */
  function Ordinal(y: int, m: int, d: int): int
    requires y >= 1 && 1 <= m <= 12
  {
    DaysBeforeYear(y) + DaysBeforeMonth(y, m) + d
  }

  function OrdinalOf(d: Date): int
    requires d.year >= 1 && 1 <= d.month <= 12
  {
    Ordinal(d.year, d.month, d.day)
  }

  /** `date.weekday()`: Monday is 0, Sunday 6. */
  function Weekday(y: int, m: int, d: int): (w: int)
    requires y >= 1 && 1 <= m <= 12
    ensures 0 <= w < 7
  {
    (Ordinal(y, m, d) + 6) % 7
  }

  /** Stepping a positive number down by one steps its quotient by `k` down
      exactly when the number is a multiple of `k`. */
  lemma StepQuotient4(y: int)
    requires y >= 1
    ensures y / 4 == (y - 1) / 4 + (if y % 4 == 0 then 1 else 0)
  {
  }

  lemma StepQuotient100(y: int)
    requires y >= 1
    ensures y / 100 == (y - 1) / 100 + (if y % 100 == 0 then 1 else 0)
  {
  }

  lemma StepQuotient400(y: int)
    requires y >= 1
    ensures y / 400 == (y - 1) / 400 + (if y % 400 == 0 then 1 else 0)
  {
  }

  lemma MultipleOf100(k: int)
    ensures (100 * k) % 100 == 0
  {
  }

  lemma MultipleOf4(k: int)
    ensures (4 * k) % 4 == 0
  {
  }

  /** Multiples of 400 are multiples of 100, which are multiples of 4. */
  lemma Divisors(y: int)
    ensures y % 400 == 0 ==> y % 100 == 0
    ensures y % 100 == 0 ==> y % 4 == 0
  {
    if y % 400 == 0 {
      assert y == 100 * (4 * (y / 400));
      MultipleOf100(4 * (y / 400));
    }
    if y % 100 == 0 {
      assert y == 4 * (25 * (y / 100));
      MultipleOf4(25 * (y / 100));
    }
  }

  /** The closed formula grows by the length of each year. */
  lemma FormulaStep(y: int)
    requires y >= 1
    ensures DaysBeforeYearFormula(y + 1) == DaysBeforeYearFormula(y) + DaysInYear(y)
  {
    StepQuotient4(y);
    StepQuotient100(y);
    StepQuotient400(y);
    Divisors(y);
  }

  /** The year-by-year count is the closed formula. */
  lemma {:induction false} DaysBeforeYearIsFormula(y: int)
    requires y >= 1
    ensures DaysBeforeYear(y) == DaysBeforeYearFormula(y)
    decreases y
  {
    if y > 1 {
      DaysBeforeYearIsFormula(y - 1);
      FormulaStep(y - 1);
    }
  }

  /** The month after (y, m), wrapping December to January of the next year. */
  function NextMonth(y: int, m: int): (r: (int, int))
    requires 1 <= m <= 12
    ensures 1 <= r.1 <= 12
    ensures m < 12 ==> r == (y, m + 1)
    ensures m == 12 ==> r == (y + 1, 1)
  {
    if m + 1 > 12 then (y + 1, 1) else (y, m + 1)
  }

  /** The month before (y, m), wrapping January to December of the year before. */
  function PrevMonth(y: int, m: int): (r: (int, int))
    requires 1 <= m <= 12
    ensures 1 <= r.1 <= 12
    ensures m > 1 ==> r == (y, m - 1)
    ensures m == 1 ==> r == (y - 1, 12)
  {
    if m - 1 < 1 then (y - 1, 12) else (y, m - 1)
  }

  /** The two wrap-arounds undo each other. */
  lemma MonthStepsInverse(y: int, m: int)
    requires 1 <= m <= 12
    ensures var n := NextMonth(y, m); PrevMonth(n.0, n.1) == (y, m)
    ensures var p := PrevMonth(y, m); NextMonth(p.0, p.1) == (y, m)
  {
  }

  /** The first of the next month is the day after the last of this month. */
  lemma NextMonthFollows(y: int, m: int)
    requires 1 <= y && 1 <= m <= 12
    ensures var n := NextMonth(y, m);
      n.0 >= 1 && Ordinal(n.0, n.1, 1) == Ordinal(y, m, DaysInMonth(y, m)) + 1
  {
  }

  /** Python orders dates by year, then month, then day. */
  predicate Before(a: Date, b: Date) {
    a.year < b.year || (a.year == b.year && (a.month < b.month || (a.month == b.month && a.day < b.day)))
  }

  lemma {:induction false} YearsIncrease(y1: int, y2: int)
    requires 1 <= y1 <= y2
    ensures DaysBeforeYear(y1) <= DaysBeforeYear(y2)
    decreases y2 - y1
  {
    if y1 < y2 {
      YearsIncrease(y1 + 1, y2);
    }
  }

  /** A date lies after the days before its year and no later than the last day
      of its year. */
  lemma WithinYear(a: Date)
    requires ValidDate(a)
    ensures DaysBeforeYear(a.year) < OrdinalOf(a) <= DaysBeforeYear(a.year + 1)
  {
  }

  /** A day of an earlier month of the same year comes before every day of a
      later month. */
  lemma EarlierMonth(y: int, m1: int, d1: int, m2: int)
    requires 1 <= m1 < m2 <= 12 && 1 <= d1 <= DaysInMonth(y, m1)
    ensures DaysBeforeMonth(y, m1) + d1 <= DaysBeforeMonth(y, m2)
  {
  }

  /** Every day of an earlier year comes before every day of a later year. */
  lemma EarlierYear(a: Date, b: Date)
    requires ValidDate(a) && ValidDate(b) && a.year < b.year
    ensures OrdinalOf(a) < OrdinalOf(b)
  {
    WithinYear(a);
    WithinYear(b);
    YearsIncrease(a.year + 1, b.year);
  }

  /** Comparing ordinals is comparing dates. */
  lemma OrdinalOrder(a: Date, b: Date)
    requires ValidDate(a) && ValidDate(b)
    ensures Before(a, b) <==> OrdinalOf(a) < OrdinalOf(b)
  {
    if a.year < b.year {
      EarlierYear(a, b);
    } else if b.year < a.year {
      EarlierYear(b, a);
    } else if a.month < b.month {
      EarlierMonth(a.year, a.month, a.day, b.month);
    } else if b.month < a.month {
      EarlierMonth(a.year, b.month, b.day, a.month);
    }
  }

  // ---------------------------------------------------------------------------
  // The month grid (`calendar.monthcalendar`)
  // ---------------------------------------------------------------------------

  /** Day `n` of the month, or 0 for a cell outside it. */
  function Cell(n: int, days: int): int {
    if 1 <= n <= days then n else 0
  }

  /** The weeks of the month, Monday first; cells before the first and after the
      last day hold 0. */
  function MonthGrid(y: int, m: int): (weeks: seq<seq<int>>)
    requires y >= 1 && 1 <= m <= 12
    ensures var offset := Weekday(y, m, 1);
      && |weeks| == (offset + DaysInMonth(y, m) + 6) / 7
      && forall w :: 0 <= w < |weeks| ==> |weeks[w]| == 7
  {
    var offset := Weekday(y, m, 1);
    var days := DaysInMonth(y, m);
    seq((offset + days + 6) / 7, w =>
      seq(7, c => Cell(w * 7 + c - offset + 1, days)))
  }

  lemma ShiftMod7(a: int, b: int)
    ensures (a + b) % 7 == (a % 7 + b) % 7
  {
  }

  /** Moving on `n - 1` days within a month moves the weekday on by as many,
      modulo 7. */
  lemma WeekdayOfDay(y: int, m: int, n: int)
    requires y >= 1 && 1 <= m <= 12
    ensures Weekday(y, m, n) == (Weekday(y, m, 1) + n - 1) % 7
  {
    var o := Ordinal(y, m, 1);
    assert Ordinal(y, m, n) == o + n - 1;
    ShiftMod7(o + 6, n - 1);
  }

  /** The cell of day `n`: its week and its column. */
  function Slot(y: int, m: int, n: int): (s: (int, int))
    requires y >= 1 && 1 <= m <= 12
    ensures 0 <= s.1 < 7
  {
    var i := Weekday(y, m, 1) + n - 1;
    (i / 7, i % 7)
  }

  /** Every non-zero cell of the grid is a day of the month, in its weekday's
      column. */
  lemma GridCellsAreDays(y: int, m: int, weeks: seq<seq<int>>)
    requires y >= 1 && 1 <= m <= 12 && weeks == MonthGrid(y, m)
    ensures forall w, c :: 0 <= w < |weeks| && 0 <= c < 7 && weeks[w][c] != 0 ==>
      1 <= weeks[w][c] <= DaysInMonth(y, m) && Weekday(y, m, weeks[w][c]) == c
  {
    forall w, c | 0 <= w < |weeks| && 0 <= c < 7 && weeks[w][c] != 0
      ensures 1 <= weeks[w][c] <= DaysInMonth(y, m) && Weekday(y, m, weeks[w][c]) == c
    {
      CellIsDay(y, m, w, c);
    }
  }

  lemma CellIsDay(y: int, m: int, w: int, c: int)
    requires y >= 1 && 1 <= m <= 12
    requires 0 <= w < |MonthGrid(y, m)| && 0 <= c < 7 && MonthGrid(y, m)[w][c] != 0
    ensures var n := MonthGrid(y, m)[w][c]; 1 <= n <= DaysInMonth(y, m) && Weekday(y, m, n) == c
  {
    var offset := Weekday(y, m, 1);
    var n := w * 7 + c - offset + 1;
    assert MonthGrid(y, m)[w][c] == Cell(n, DaysInMonth(y, m));
    WeekdayOfDay(y, m, n);
    assert offset + n - 1 == w * 7 + c;
    ColumnOf(w, c);
  }

  lemma ColumnOf(w: int, c: int)
    requires 0 <= c < 7
    ensures (w * 7 + c) % 7 == c
  {
  }

  /** Every day of the month sits in the grid, in the cell Slot names. */
  lemma GridHoldsEveryDay(y: int, m: int, weeks: seq<seq<int>>)
    requires y >= 1 && 1 <= m <= 12 && weeks == MonthGrid(y, m)
    ensures forall n :: 1 <= n <= DaysInMonth(y, m) ==>
      0 <= Slot(y, m, n).0 < |weeks| && weeks[Slot(y, m, n).0][Slot(y, m, n).1] == n
  {
    forall n | 1 <= n <= DaysInMonth(y, m)
      ensures 0 <= Slot(y, m, n).0 < |weeks| && weeks[Slot(y, m, n).0][Slot(y, m, n).1] == n
    {
      DayInSlot(y, m, n);
    }
  }

  lemma DayInSlot(y: int, m: int, n: int)
    requires y >= 1 && 1 <= m <= 12 && 1 <= n <= DaysInMonth(y, m)
    ensures var s := Slot(y, m, n); 0 <= s.0 < |MonthGrid(y, m)| && MonthGrid(y, m)[s.0][s.1] == n
  {
    var offset := Weekday(y, m, 1);
    var days := DaysInMonth(y, m);
    var i := offset + n - 1;
    var w, c := i / 7, i % 7;
    assert i == w * 7 + c;
    assert w < (offset + days + 6) / 7;
    assert MonthGrid(y, m)[w][c] == Cell(w * 7 + c - offset + 1, days);
  }

  // ---------------------------------------------------------------------------
  // The keyboard (`create_calendar`)
  // ---------------------------------------------------------------------------

  const MonthNames: seq<string> := [
    "Январь", "Февраль", "Март", "Апрель", "Май", "Июнь",
    "Июль", "Август", "Сентябрь", "Октябрь", "Ноябрь", "Декабрь"]
  const Ignore: string := "ignore"
  const Blank: Button := Button(" ", Ignore)
  const WeekdayRow: seq<Button> := [
    Button("Пн", Ignore), Button("Вт", Ignore), Button("Ср", Ignore), Button("Чт", Ignore),
    Button("Пт", Ignore), Button("Сб", Ignore), Button("Вс", Ignore)]
  const CancelRow: seq<Button> := [Button("❌ Отменить бронирование", "cancel_booking")]

  /** How far ahead a pickup date may be chosen. */
  const Horizon: int := 30

  /** `calendar_day_{y}_{m}_{d}`. */
  function DayData(y: int, m: int, d: int): string {
    "calendar_day_" + IntToString(y) + "_" + IntToString(m) + "_" + IntToString(d)
  }

  /** `calendar_month_{y}_{m}`. */
  function MonthData(y: int, m: int): string {
    "calendar_month_" + IntToString(y) + "_" + IntToString(m)
  }

  function Header(y: int, m: int): seq<Button>
    requires 1 <= m <= 12
  {
    [Button("📅 " + MonthNames[m - 1] + " " + IntToString(y), Ignore)]
  }

  /** One cell: blank for a padding cell and for a day before today or more than
      30 days ahead, otherwise the day's number, sending the day. */
  function DayButton(y: int, m: int, n: int, today: Date): Button
    requires y >= 1 && 1 <= m <= 12 && ValidDate(today)
  {
    if n == 0 then Blank
    else if Ordinal(y, m, n) < OrdinalOf(today) then Blank
    else if Ordinal(y, m, n) > OrdinalOf(today) + Horizon then Blank
    else Button(IntToString(n), DayData(y, m, n))
  }

  function WeekRow(y: int, m: int, week: seq<int>, today: Date): (row: seq<Button>)
    requires y >= 1 && 1 <= m <= 12 && ValidDate(today)
    ensures |row| == |week|
    ensures forall c :: 0 <= c < |week| ==> row[c] == DayButton(y, m, week[c], today)
  {
    seq(|week|, c requires 0 <= c < |week| => DayButton(y, m, week[c], today))
  }

  function WeekRows(y: int, m: int, weeks: seq<seq<int>>, today: Date): (rows: seq<seq<Button>>)
    requires y >= 1 && 1 <= m <= 12 && ValidDate(today)
    ensures |rows| == |weeks|
    ensures forall w :: 0 <= w < |weeks| ==> rows[w] == WeekRow(y, m, weeks[w], today)
  {
    seq(|weeks|, w requires 0 <= w < |weeks| => WeekRow(y, m, weeks[w], today))
  }

  /** The previous-month button is offered only for a month after today's. */
  predicate ShowsPrev(y: int, m: int, today: Date) {
    y > today.year || (y == today.year && m > today.month)
  }

  /** The next-month button is offered only when the first of the next month is
      within the horizon. */
  predicate ShowsNext(y: int, m: int, today: Date)
    requires y >= 1 && 1 <= m <= 12 && ValidDate(today)
  {
    var n := NextMonth(y, m);
    Ordinal(n.0, n.1, 1) <= OrdinalOf(today) + Horizon
  }

  function NavRow(y: int, m: int, today: Date): seq<Button>
    requires y >= 1 && 1 <= m <= 12 && ValidDate(today)
  {
    var p := PrevMonth(y, m);
    var n := NextMonth(y, m);
    (if ShowsPrev(y, m, today) then [Button("◀️", MonthData(p.0, p.1))] else [])
    + (if ShowsNext(y, m, today) then [Button("▶️", MonthData(n.0, n.1))] else [])
  }

  /** The whole keyboard, or the exception `create_calendar` raises: IndexError
      from the month-name lookup for a month above 12 or below -11, ValueError
      from `monthcalendar` for any other month outside 1..12, ValueError from
      `date` for a year outside 1..9999, and for December 9999, whose next month
      does not exist. */
  function CalendarKeyboard(y: int, m: int, today: Date): (r: Outcome<Keyboard>)
    requires ValidDate(today)
    ensures r.Ok? <==> 1 <= m <= 12 && 1 <= y <= 9999 && !(y == 9999 && m == 12)
  {
    if m > 12 || m < -11 then Raised(IndexError)
    else if m < 1 then Raised(ValueError)
    else if y < 1 || y > 9999 then Raised(ValueError)
    else if y == 9999 && m == 12 then Raised(ValueError)
    else
      Ok(Assemble(y, m, WeekRows(y, m, MonthGrid(y, m), today), NavRow(y, m, today)))
  }

  /** The rows in their order: header, weekdays, the weeks, the navigation row
      when it is not empty, and the cancel row. */
  function Assemble(y: int, m: int, weeks: seq<seq<Button>>, nav: seq<Button>): Keyboard
    requires 1 <= m <= 12
  {
    [Header(y, m), WeekdayRow] + weeks + (if nav == [] then [] else [nav]) + [CancelRow]
  }

  /** The date rows of `create_calendar`: for each week a row, built cell by
      cell. */
  method FillWeeks(y: int, m: int, weeks: seq<seq<int>>, today: Date) returns (rows: seq<seq<Button>>)
    requires y >= 1 && 1 <= m <= 12 && ValidDate(today)
    ensures |rows| == |weeks|
    ensures forall w :: 0 <= w < |weeks| ==> |rows[w]| == |weeks[w]|
    ensures forall w, c :: 0 <= w < |weeks| && 0 <= c < |weeks[w]| ==> rows[w][c] == DayButton(y, m, weeks[w][c], today)
  {
    rows := [];
    var w := 0;
    while w < |weeks|
      invariant 0 <= w <= |weeks| && |rows| == w
      invariant forall k :: 0 <= k < w ==> rows[k] == WeekRow(y, m, weeks[k], today)
    {
      var week := weeks[w];
      var row: seq<Button> := [];
      var c := 0;
      while c < |week|
        invariant 0 <= c <= |week| && |row| == c
        invariant forall j :: 0 <= j < c ==> row[j] == DayButton(y, m, week[j], today)
      {
        row := row + [DayButton(y, m, week[c], today)];
        c := c + 1;
      }
      assert row == WeekRow(y, m, week, today);
      rows := rows + [row];
      w := w + 1;
    }
  }

  /** `create_calendar(year, month)` with the clock reading `today`; a missing
      year or month is today's. The header and weekday rows, then one row per
      week filled cell by cell, then the navigation row when it has a button,
      then the cancel row. */
  method CreateCalendar(year: Option<int>, month: Option<int>, today: Date) returns (r: Outcome<Keyboard>)
    requires ValidDate(today)
    ensures r == CalendarKeyboard(year.GetOr(today.year), month.GetOr(today.month), today)
    ensures year == None && month == None ==> r.Ok? || (today.year == 9999 && today.month == 12)
  {
    var y := if year.Some? then year.value else today.year;
    var m := if month.Some? then month.value else today.month;
    assert y == year.GetOr(today.year) && m == month.GetOr(today.month);
    if m > 12 || m < -11 {
      return Raised(IndexError);
    }
    if m < 1 {
      return Raised(ValueError);
    }
    if y < 1 || y > 9999 {
      return Raised(ValueError);
    }
    var weeks := MonthGrid(y, m);
    var rows := FillWeeks(y, m, weeks, today);
    forall w | 0 <= w < |weeks|
      ensures rows[w] == WeekRow(y, m, weeks[w], today)
    {
      assert rows[w] == WeekRow(y, m, weeks[w], today);
    }
    assert rows == WeekRows(y, m, weeks, today);
    if y == 9999 && m == 12 {
      return Raised(ValueError);
    }
    var keyboard: Keyboard := [Header(y, m), WeekdayRow] + rows;
    var nav := NavRow(y, m, today);
    if nav != [] {
      keyboard := keyboard + [nav];
    }
    keyboard := keyboard + [CancelRow];
    assert keyboard == Assemble(y, m, rows, nav);
    r := Ok(keyboard);
  }

  // ---------------------------------------------------------------------------
  // What the keyboard promises
  // ---------------------------------------------------------------------------

  /** The header and weekday rows come first, one row per week follows, and the
      cancel row is always last. */
  lemma CalendarFrame(y: int, m: int, today: Date)
    requires ValidDate(today)
    requires CalendarKeyboard(y, m, today).Ok?
    ensures var k := CalendarKeyboard(y, m, today).value;
      var weeks := MonthGrid(y, m);
      && k[0] == Header(y, m) && k[1] == WeekdayRow
      && |k| == 3 + |weeks| + (if NavRow(y, m, today) == [] then 0 else 1)
      && (forall w :: 0 <= w < |weeks| ==> k[2 + w] == WeekRow(y, m, weeks[w], today))
      && k[|k| - 1] == CancelRow
  {
    var weeks := MonthGrid(y, m);
    AssembleShape(y, m, WeekRows(y, m, weeks, today), NavRow(y, m, today));
  }

  lemma AssembleShape(y: int, m: int, rows: seq<seq<Button>>, nav: seq<Button>)
    requires 1 <= m <= 12
    ensures var k := Assemble(y, m, rows, nav);
      && k[0] == Header(y, m) && k[1] == WeekdayRow
      && |k| == 3 + |rows| + (if nav == [] then 0 else 1)
      && (forall w :: 0 <= w < |rows| ==> k[2 + w] == rows[w])
      && k[|k| - 1] == CancelRow
  {
  }

  /** Day `n` of the displayed month is offered iff it lies between today and 30
      days ahead, and then it sends that very day; every other cell is blank. */
  lemma DaySelectableIffInWindow(y: int, m: int, n: int, today: Date)
    requires y >= 1 && 1 <= m <= 12 && ValidDate(today)
    requires 1 <= n <= DaysInMonth(y, m)
    ensures var b := DayButton(y, m, n, today);
      var inWindow := OrdinalOf(today) <= Ordinal(y, m, n) <= OrdinalOf(today) + Horizon;
      && (b.data != Ignore <==> inWindow)
      && (inWindow ==> b == Button(IntToString(n), DayData(y, m, n)))
      && (!inWindow ==> b == Blank)
  {
    var s := DayData(y, m, n);
    assert s[..9] == "calendar_";
    assert |s| > |Ignore|;
  }

  /** Padding cells are always blank. */
  lemma PaddingBlank(y: int, m: int, today: Date)
    requires y >= 1 && 1 <= m <= 12 && ValidDate(today)
    ensures DayButton(y, m, 0, today) == Blank
  {
  }

  /** The previous-month button exists iff the month shown is after today's month,
      and it asks for the month before, January wrapping to December. */
  lemma PrevButtonIff(y: int, m: int, today: Date)
    requires y >= 1 && 1 <= m <= 12 && ValidDate(today)
    ensures var nav := NavRow(y, m, today);
      var p := PrevMonth(y, m);
      (exists i :: 0 <= i < |nav| && nav[i].text == "◀️") <==> ShowsPrev(y, m, today)
    ensures ShowsPrev(y, m, today) ==>
      var p := PrevMonth(y, m);
      NavRow(y, m, today)[0] == Button("◀️", MonthData(p.0, p.1))
  {
    var nav := NavRow(y, m, today);
    if ShowsPrev(y, m, today) {
      assert nav[0].text == "◀️";
    } else {
      assert forall i :: 0 <= i < |nav| ==> nav[i].text == "▶️";
      assert "▶️" != "◀️" by {
        assert "▶️"[0] != "◀️"[0];
      }
    }
  }

  /** The next-month button exists iff the first of the next month is at most 30
      days ahead, and it asks for the month after, December wrapping to January. */
  lemma NextButtonIff(y: int, m: int, today: Date)
    requires y >= 1 && 1 <= m <= 12 && ValidDate(today)
    ensures var nav := NavRow(y, m, today);
      (exists i :: 0 <= i < |nav| && nav[i].text == "▶️") <==> ShowsNext(y, m, today)
    ensures ShowsNext(y, m, today) ==>
      var n := NextMonth(y, m);
      var nav := NavRow(y, m, today);
      nav[|nav| - 1] == Button("▶️", MonthData(n.0, n.1))
  {
    var nav := NavRow(y, m, today);
    assert "▶️" != "◀️" by {
      assert "▶️"[0] != "◀️"[0];
    }
    if ShowsNext(y, m, today) {
      assert nav[|nav| - 1].text == "▶️";
    } else {
      assert forall i :: 0 <= i < |nav| ==> nav[i].text == "◀️";
    }
  }

  /** When the next-month button is missing, no day of the next month could be
      chosen anyway: its first day is already past the horizon. */
  lemma NoNextMeansNothingAhead(y: int, m: int, today: Date, d: int)
    requires y >= 1 && 1 <= m <= 12 && ValidDate(today)
    requires !ShowsNext(y, m, today) && d >= 1
    ensures var n := NextMonth(y, m); Ordinal(n.0, n.1, d) > OrdinalOf(today) + Horizon
  {
  }

  // ---------------------------------------------------------------------------
  // Reading a calendar callback (`parse_calendar_callback`)
  // ---------------------------------------------------------------------------

  datatype CalendarAction = PickDay(year: int, month: int, day: int) | ShowMonth(year: int, month: int)

  /** A text that starts with "calendar_" splits into at least two fields, the
      first being "calendar". */
  lemma CalendarPrefixFields(data: string)
    requires StartsWith(data, "calendar_")
    ensures var parts := Split(data, '_'); |parts| >= 2 && parts[0] == "calendar"
  {
    var rest := data[9..];
    assert data == "calendar" + ['_'] + rest;
    SplitConcat("calendar", rest, '_');
  }

  /** None for a foreign callback; a day for exactly five fields with action
      "day"; a month for exactly four with action "month"; None for any other
      shape; ValueError when a numeric field does not read as an integer. */
  function ParseCalendarCallback(data: string): (r: Outcome<Option<CalendarAction>>)
    ensures !StartsWith(data, "calendar_") ==> r == Ok(None)
    ensures r.Raised? ==> r.error == ValueError
    ensures r.Ok? && r.value.Some? && r.value.value.PickDay? ==>
      var parts := Split(data, '_');
      StartsWith(data, "calendar_") && |parts| == 5 && parts[1] == "day"
      && ParseInt(parts[2]) == Ok(r.value.value.year) && ParseInt(parts[3]) == Ok(r.value.value.month)
      && ParseInt(parts[4]) == Ok(r.value.value.day)
    ensures r.Ok? && r.value.Some? && r.value.value.ShowMonth? ==>
      var parts := Split(data, '_');
      StartsWith(data, "calendar_") && |parts| == 4 && parts[1] == "month"
      && ParseInt(parts[2]) == Ok(r.value.value.year) && ParseInt(parts[3]) == Ok(r.value.value.month)
    ensures StartsWith(data, "calendar_") ==>
      var parts := Split(data, '_');
      && |parts| >= 2
      && (!((parts[1] == "day" && |parts| == 5) || (parts[1] == "month" && |parts| == 4)) ==> r == Ok(None))
      && (parts[1] == "day" && |parts| == 5 ==>
            (r.Ok? <==> ParseInt(parts[2]).Ok? && ParseInt(parts[3]).Ok? && ParseInt(parts[4]).Ok?))
      && (parts[1] == "month" && |parts| == 4 ==>
            (r.Ok? <==> ParseInt(parts[2]).Ok? && ParseInt(parts[3]).Ok?))
  {
    if !StartsWith(data, "calendar_") then Ok(None)
    else
      CalendarPrefixFields(data);
      ParseFields(Split(data, '_'))
  }

  /** The fields after the prefix: the action is the second field. */
  function ParseFields(parts: seq<string>): (r: Outcome<Option<CalendarAction>>)
    requires |parts| >= 2
    ensures r.Raised? ==> r.error == ValueError
    ensures parts[1] == "day" && |parts| == 5 ==>
      && (r.Ok? <==> ParseInt(parts[2]).Ok? && ParseInt(parts[3]).Ok? && ParseInt(parts[4]).Ok?)
      && (r.Ok? ==> r.value == Some(PickDay(ParseInt(parts[2]).value, ParseInt(parts[3]).value, ParseInt(parts[4]).value)))
    ensures parts[1] == "month" && |parts| == 4 ==>
      && (r.Ok? <==> ParseInt(parts[2]).Ok? && ParseInt(parts[3]).Ok?)
      && (r.Ok? ==> r.value == Some(ShowMonth(ParseInt(parts[2]).value, ParseInt(parts[3]).value)))
    ensures !((parts[1] == "day" && |parts| == 5) || (parts[1] == "month" && |parts| == 4)) ==> r == Ok(None)
  {
    if parts[1] == "day" && |parts| == 5 then
      match ParseInt(parts[2])
      case Raised(e) => Raised(e)
      case Ok(year) =>
        match ParseInt(parts[3])
        case Raised(e) => Raised(e)
        case Ok(month) =>
          match ParseInt(parts[4])
          case Raised(e) => Raised(e)
          case Ok(day) => Ok(Some(PickDay(year, month, day)))
    else if parts[1] == "month" && |parts| == 4 then
      match ParseInt(parts[2])
      case Raised(e) => Raised(e)
      case Ok(year) =>
        match ParseInt(parts[3])
        case Raised(e) => Raised(e)
        case Ok(month) => Ok(Some(ShowMonth(year, month)))
    else Ok(None)
  }

  /** A day callback whose numbers are texts `int` reads as given reads as
      that day. */
  lemma DayTextRoundTrip(ys: string, ms: string, ds: string, y: int, m: int, d: int)
    requires ParseInt(ys) == Ok(y) && ParseInt(ms) == Ok(m) && ParseInt(ds) == Ok(d)
    requires '_' !in ys && '_' !in ms && '_' !in ds
    ensures ParseCalendarCallback("calendar_day_" + ys + "_" + ms + "_" + ds) == Ok(Some(PickDay(y, m, d)))
  {
    DayTextViaFields(ys, ms, ds);
    DayTextsParse(ys, ms, ds, y, m, d);
  }

  lemma DayTextViaFields(ys: string, ms: string, ds: string)
    requires '_' !in ys && '_' !in ms && '_' !in ds
    ensures ParseCalendarCallback("calendar_day_" + ys + "_" + ms + "_" + ds) == ParseFields(["calendar", "day", ys, ms, ds])
  {
    DayTextFields(ys, ms, ds);
    ParseViaFields("calendar_day_" + ys + "_" + ms + "_" + ds, ["calendar", "day", ys, ms, ds]);
  }

  /** A month callback whose numbers are texts `int` reads as given reads as
      that month. */
  lemma MonthTextRoundTrip(ys: string, ms: string, y: int, m: int)
    requires ParseInt(ys) == Ok(y) && ParseInt(ms) == Ok(m)
    requires '_' !in ys && '_' !in ms
    ensures ParseCalendarCallback("calendar_month_" + ys + "_" + ms) == Ok(Some(ShowMonth(y, m)))
  {
    MonthTextViaFields(ys, ms);
    MonthTextsParse(ys, ms, y, m);
  }

  lemma MonthTextViaFields(ys: string, ms: string)
    requires '_' !in ys && '_' !in ms
    ensures ParseCalendarCallback("calendar_month_" + ys + "_" + ms) == ParseFields(["calendar", "month", ys, ms])
  {
    MonthTextFields(ys, ms);
    ParseViaFields("calendar_month_" + ys + "_" + ms, ["calendar", "month", ys, ms]);
  }

  lemma DayTextFields(ys: string, ms: string, ds: string)
    requires '_' !in ys && '_' !in ms && '_' !in ds
    ensures Split("calendar_day_" + ys + "_" + ms + "_" + ds, '_') == ["calendar", "day", ys, ms, ds]
  {
    var parts := ["calendar", "day", ys, ms, ds];
    JoinQuad("day", ys, ms, ds, '_');
    assert "calendar_day_" + ys + "_" + ms + "_" + ds == "calendar" + ['_'] + Join(parts[1..], '_');
    SplitJoin(parts, '_');
  }

  lemma MonthTextFields(ys: string, ms: string)
    requires '_' !in ys && '_' !in ms
    ensures Split("calendar_month_" + ys + "_" + ms, '_') == ["calendar", "month", ys, ms]
  {
    JoinQuad("calendar", "month", ys, ms, '_');
    assert "calendar_month_" + ys + "_" + ms == "calendar" + ['_'] + "month" + ['_'] + ys + ['_'] + ms;
    SplitJoin(["calendar", "month", ys, ms], '_');
  }

  /** Every day button the calendar draws reads back as the same day. */
  lemma DayDataRoundTrip(y: int, m: int, d: int)
    ensures ParseCalendarCallback(DayData(y, m, d)) == Ok(Some(PickDay(y, m, d)))
  {
    IntRoundTrip(y);
    IntRoundTrip(m);
    IntRoundTrip(d);
    IntToStringHasNo(y, '_');
    IntToStringHasNo(m, '_');
    IntToStringHasNo(d, '_');
    DayTextRoundTrip(IntToString(y), IntToString(m), IntToString(d), y, m, d);
  }

  /** Every month button the calendar draws reads back as the same month. */
  lemma MonthDataRoundTrip(y: int, m: int)
    ensures ParseCalendarCallback(MonthData(y, m)) == Ok(Some(ShowMonth(y, m)))
  {
    IntRoundTrip(y);
    IntRoundTrip(m);
    IntToStringHasNo(y, '_');
    IntToStringHasNo(m, '_');
    MonthTextRoundTrip(IntToString(y), IntToString(m), y, m);
  }

  lemma DayTextsParse(ys: string, ms: string, ds: string, y: int, m: int, d: int)
    requires ParseInt(ys) == Ok(y) && ParseInt(ms) == Ok(m) && ParseInt(ds) == Ok(d)
    ensures ParseFields(["calendar", "day", ys, ms, ds]) == Ok(Some(PickDay(y, m, d)))
  {
    var parts := ["calendar", "day", ys, ms, ds];
    assert parts[1] == "day" && parts[2] == ys && parts[3] == ms && parts[4] == ds;
    DayFieldsParse(parts, y, m, d);
  }

  lemma MonthTextsParse(ys: string, ms: string, y: int, m: int)
    requires ParseInt(ys) == Ok(y) && ParseInt(ms) == Ok(m)
    ensures ParseFields(["calendar", "month", ys, ms]) == Ok(Some(ShowMonth(y, m)))
  {
    var parts := ["calendar", "month", ys, ms];
    assert parts[1] == "month" && parts[2] == ys && parts[3] == ms;
    MonthFieldsParse(parts, y, m);
  }

  lemma DayFieldsParse(parts: seq<string>, y: int, m: int, d: int)
    requires |parts| == 5 && parts[1] == "day"
    requires ParseInt(parts[2]) == Ok(y) && ParseInt(parts[3]) == Ok(m) && ParseInt(parts[4]) == Ok(d)
    ensures ParseFields(parts) == Ok(Some(PickDay(y, m, d)))
  {
  }

  lemma MonthFieldsParse(parts: seq<string>, y: int, m: int)
    requires |parts| == 4 && parts[1] == "month"
    requires ParseInt(parts[2]) == Ok(y) && ParseInt(parts[3]) == Ok(m)
    ensures ParseFields(parts) == Ok(Some(ShowMonth(y, m)))
  {
  }

  /** A text whose first field is "calendar" is read field by field. */
  lemma ParseViaFields(data: string, parts: seq<string>)
    requires Split(data, '_') == parts && |parts| >= 2 && parts[0] == "calendar"
    ensures ParseCalendarCallback(data) == ParseFields(parts)
  {
    JoinSplit(data, '_');
    assert data == "calendar" + ['_'] + Join(parts[1..], '_');
    assert data[..9] == "calendar_";
  }
}
