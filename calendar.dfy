// The month calendar: a grid of weeks, Monday first, with one selected
// day that the arrow keys move (writelightly/calendar.py, and the same grid
// and moves in calendar.py, wl.py and cal.py).

module MonthCalendar {
  import opened Wrappers
  import opened Dates

  /** One day on screen: its column and line, its emphasis, its day of the month. */
  datatype Cell = Cell(x: int, y: int, active: bool, day: int)

  /** A position in the grid, `(d_ind, w_ind)`: the weekday column and the week row. */
  datatype Pos = Pos(col: int, row: int)

  /** Weeks of seven slots; `None` pads the days before the 1st and after the last. */
  type Grid = seq<seq<Option<Cell>>>

  /** The day of the month shown at `p` when the 1st falls in column `lead`. */
  function DayAt(lead: int, p: Pos): int {
    7 * p.row + p.col - lead + 1
  }

  /** Where day `day` is shown. */
  function PosOf(lead: int, day: int): Pos
    requires lead + day >= 1
  {
    Pos((lead + day - 1) % 7, (lead + day - 1) / 7)
  }

  /** The number of weeks shown: the padded slots, rounded up to whole weeks. */
  function Rows(lead: int, last: int): int {
    (lead + last + 6) / 7
  }

  predicate InGrid(g: Grid, p: Pos) {
    0 <= p.row < |g| && 0 <= p.col < 7 && |g[p.row]| == 7
  }

  /** The cell at `p` shows day `k`. */
  predicate ShowsDay(g: Grid, p: Pos, k: int) {
    InGrid(g, p) && g[p.row][p.col].Some? && g[p.row][p.col].value.day == k
  }

  /** The slot `(i, w)` of the grid `Calendar.__init__` builds, with its top-left corner at `(x0, y0)`. */
  function Expected(year: int, month: int, lead: int, last: int, x0: int, y0: int, flag: Date -> bool, w: int, i: int): Option<Cell> {
    var k := DayAt(lead, Pos(i, w));
    if 1 <= k <= last then Some(Cell(x0 + 3 * i, y0 + 1 + w, flag(Date(year, month, k)), k)) else None
  }

  /**
    A month's grid: whole weeks, day `k` in slot `PosOf(lead, k)` at column
    `x0 + 3 * i` and line `y0 + 1 + w` (the weekday names take line `y0`),
    every other slot empty.
  */
  predicate Shaped(g: Grid, lead: int, last: int, x0: int, y0: int) {
    0 <= lead < 7 && 28 <= last <= 31 && |g| == Rows(lead, last) &&
    (forall w | 0 <= w < |g| :: |g[w]| == 7) &&
    forall w, i | 0 <= w < |g| && 0 <= i < 7 ::
      (g[w][i].Some? <==> 1 <= DayAt(lead, Pos(i, w)) <= last) &&
      (g[w][i].Some? ==>
         g[w][i].value.day == DayAt(lead, Pos(i, w)) &&
         g[w][i].value.x == x0 + 3 * i && g[w][i].value.y == y0 + 1 + w)
  }

  lemma RowsBounds(lead: int, last: int)
    requires 0 <= lead < 7 && 28 <= last <= 31
    ensures 4 <= Rows(lead, last) <= 6
    ensures 7 * (Rows(lead, last) - 1) < lead + last <= 7 * Rows(lead, last)
  {
  }

  /** Day `k` of the month is shown exactly at `PosOf(lead, k)`. */
  lemma ShowsDayAt(g: Grid, lead: int, last: int, x0: int, y0: int, p: Pos, k: int)
    requires Shaped(g, lead, last, x0, y0) && 1 <= k <= last
    ensures ShowsDay(g, p, k) <==> p == PosOf(lead, k)
  {
    PosOfShows(g, lead, last, x0, y0, k);
    var q := PosOf(lead, k);
    if ShowsDay(g, p, k) {
      SameDaySamePos(g, lead, last, x0, y0, p, q);
    }
  }

  lemma PosOfShows(g: Grid, lead: int, last: int, x0: int, y0: int, k: int)
    requires Shaped(g, lead, last, x0, y0) && 1 <= k <= last
    ensures ShowsDay(g, PosOf(lead, k), k)
  {
    RowsBounds(lead, last);
    var q := PosOf(lead, k);
    assert 7 * q.row + q.col == lead + k - 1;
    assert DayAt(lead, q) == k;
  }

  /** Two slots showing the same day are the same slot. */
  lemma SameDaySamePos(g: Grid, lead: int, last: int, x0: int, y0: int, p: Pos, q: Pos)
    requires Shaped(g, lead, last, x0, y0) && InGrid(g, p) && InGrid(g, q)
    requires g[p.row][p.col].Some? && g[q.row][q.col].Some?
    ensures g[p.row][p.col].value.day == g[q.row][q.col].value.day <==> p == q
  {
    if g[p.row][p.col].value.day == g[q.row][q.col].value.day {
      assert 7 * p.row + p.col == 7 * q.row + q.col;
    }
  }

  /** The 1st is in the column of its weekday. */
  function Lead(year: int, month: int): (lead: int)
    requires 1 <= year <= 9999 && 1 <= month <= 12
    ensures 0 <= lead < 7
  {
    Weekday(Date(year, month, 1))
  }

  /** Every day is shown in the column of its weekday, Monday first. */
  lemma ColumnIsWeekday(year: int, month: int, k: int)
    requires 1 <= year <= 9999 && 1 <= month <= 12 && 1 <= k <= DaysInMonth(year, month)
    ensures PosOf(Lead(year, month), k).col == Weekday(Date(year, month, k))
  {
    var o := Ordinal(Date(year, month, 1));
    assert Ordinal(Date(year, month, k)) == o + k - 1;
    ModAdd(o + 6, k - 1);
  }

  lemma ModAdd(a: int, n: int)
    ensures (a % 7 + n) % 7 == (a + n) % 7
  {
    var q := a / 7;
    assert a + n == (a % 7 + n) + 7 * q;
  }

  // ---------------------------------------------------------------------
  // Building the grid

  /**
    The grid-building loop of `Calendar.__init__` (and of `Calendar.draw` in
    calendar.py and `main` in wl.py and cal.py), with the top-left corner at
    `(x0, y0)`; `flag` marks the days shown emphasised.
  */
  method BuildGrid(year: int, month: int, x0: int, y0: int, flag: Date -> bool) returns (g: Grid)
    requires 1 <= year <= 9999 && 1 <= month <= 12
    ensures Shaped(g, Lead(year, month), DaysInMonth(year, month), x0, y0)
    ensures forall w, i | 0 <= w < |g| && 0 <= i < 7 ::
      g[w][i] == Expected(year, month, Lead(year, month), DaysInMonth(year, month), x0, y0, flag, w, i)
  {
    var lead := Lead(year, month);
    var last := DaysInMonth(year, month);
    var x, y := x0 + 3 * lead, y0 + 1;
    var week: seq<Option<Cell>> := seq(lead, _ => None);
    var day := 1;
    g := [];
    while day <= last
      invariant 1 <= day <= last + 1
      invariant 7 * |g| + |week| == lead + day - 1 && |week| < 7
      invariant x == x0 + 3 * |week| && y == y0 + 1 + |g|
      invariant RowsAsExpected(g, year, month, lead, last, x0, y0, flag)
      invariant WeekAsExpected(week, |g|, year, month, lead, last, x0, y0, flag)
    {
      WeekSnoc(week, |g|, year, month, lead, last, x0, y0, flag);
      week := week + [Some(Cell(x, y, flag(Date(year, month, day)), day))];
      if |week| == 7 {
        RowsSnoc(g, week, year, month, lead, last, x0, y0, flag);
        g := g + [week];
        week := [];
        y := y + 1;
        x := x0;
      } else {
        x := x + 3;
      }
      day := day + 1;
    }
    if |week| > 0 {
      var padded := week + seq(7 - |week|, _ => None);
      assert forall i | |week| <= i < 7 :: padded[i] == Expected(year, month, lead, last, x0, y0, flag, |g|, i);
      RowsSnoc(g, padded, year, month, lead, last, x0, y0, flag);
      g := g + [padded];
    }
    RowsBounds(lead, last);
    ExpectedShaped(g, year, month, lead, last, x0, y0, flag);
  }

  /** Every finished week of `g` holds the slots `Expected` names. */
  ghost predicate RowsAsExpected(g: Grid, year: int, month: int, lead: int, last: int, x0: int, y0: int, flag: Date -> bool) {
    (forall w | 0 <= w < |g| :: |g[w]| == 7) &&
    forall w, i | 0 <= w < |g| && 0 <= i < 7 :: g[w][i] == Expected(year, month, lead, last, x0, y0, flag, w, i)
  }

  /** The week being filled holds the first slots of week `row`. */
  ghost predicate WeekAsExpected(week: seq<Option<Cell>>, row: int, year: int, month: int, lead: int, last: int, x0: int, y0: int, flag: Date -> bool) {
    forall i | 0 <= i < |week| :: week[i] == Expected(year, month, lead, last, x0, y0, flag, row, i)
  }

  /** The next day of the month goes into the next slot of the week. */
  lemma WeekSnoc(week: seq<Option<Cell>>, row: int, year: int, month: int, lead: int, last: int, x0: int, y0: int, flag: Date -> bool)
    requires WeekAsExpected(week, row, year, month, lead, last, x0, y0, flag)
    requires 1 <= DayAt(lead, Pos(|week|, row)) <= last
    ensures var day := DayAt(lead, Pos(|week|, row));
      WeekAsExpected(week + [Some(Cell(x0 + 3 * |week|, y0 + 1 + row, flag(Date(year, month, day)), day))], row, year, month, lead, last, x0, y0, flag)
  {
  }

  /** A finished week is the next row of the grid. */
  lemma RowsSnoc(g: Grid, week: seq<Option<Cell>>, year: int, month: int, lead: int, last: int, x0: int, y0: int, flag: Date -> bool)
    requires RowsAsExpected(g, year, month, lead, last, x0, y0, flag)
    requires |week| == 7 && forall i | 0 <= i < 7 :: week[i] == Expected(year, month, lead, last, x0, y0, flag, |g|, i)
    ensures RowsAsExpected(g + [week], year, month, lead, last, x0, y0, flag)
  {
  }

  lemma ExpectedShaped(g: Grid, year: int, month: int, lead: int, last: int, x0: int, y0: int, flag: Date -> bool)
    requires 0 <= lead < 7 && 28 <= last <= 31 && |g| == Rows(lead, last)
    requires RowsAsExpected(g, year, month, lead, last, x0, y0, flag)
    ensures Shaped(g, lead, last, x0, y0)
  {
  }

  /** `r` is a slot showing `day`, or there is none. */
  predicate Found(g: Grid, day: int, r: Option<Pos>) {
    (r.Some? ==> ShowsDay(g, r.value, day)) &&
    (r.None? ==> forall w, i | 0 <= w < |g| && 0 <= i < 7 :: !ShowsDay(g, Pos(i, w), day))
  }

  /** In a month's grid the slot found for a day of the month is `PosOf`'s, and no other day is found. */
  lemma FoundPosOf(g: Grid, lead: int, last: int, x0: int, y0: int, day: int, r: Option<Pos>)
    requires Shaped(g, lead, last, x0, y0) && Found(g, day, r)
    ensures r.Some? <==> 1 <= day <= last
    ensures r.Some? ==> r.value == PosOf(lead, day)
  {
    if 1 <= day <= last {
      var p := PosOf(lead, day);
      PosOfShows(g, lead, last, x0, y0, day);
      assert ShowsDay(g, Pos(p.col, p.row), day);
      SameDaySamePos(g, lead, last, x0, y0, r.value, p);
    }
  }

  /**
    The selection loop of `draw`: the slot showing `day`, if any (the last
    match wins; days are unique).
  */
  method FindDay(g: Grid, day: int) returns (r: Option<Pos>)
    requires forall w | 0 <= w < |g| :: |g[w]| == 7
    ensures Found(g, day, r)
  {
    r := None;
    for w := 0 to |g|
      invariant r.Some? ==> ShowsDay(g, r.value, day)
      invariant r.None? ==> forall v, i | 0 <= v < w && 0 <= i < 7 :: !ShowsDay(g, Pos(i, v), day)
    {
      for i := 0 to 7
        invariant r.Some? ==> ShowsDay(g, r.value, day)
        invariant r.None? ==> forall v, j | (0 <= v < w && 0 <= j < 7) || (v == w && 0 <= j < i) :: !ShowsDay(g, Pos(j, v), day)
      {
        if g[w][i].Some? && g[w][i].value.day == day {
          r := Some(Pos(i, w));
        }
      }
    }
  }

  // ---------------------------------------------------------------------
  // Moving the selection

  /** `move_left`'s target: the slot before, across a week boundary, unless it is empty. */
  function LeftTarget(g: Grid, p: Pos): (r: Pos)
    requires InGrid(g, p) && forall w | 0 <= w < |g| :: |g[w]| == 7
  {
    if p.col == 0 then
      if p.row != 0 && g[p.row - 1][6].Some? then Pos(6, p.row - 1) else p
    else if g[p.row][p.col - 1].Some? then Pos(p.col - 1, p.row) else p
  }

  /** `move_right`'s target: the slot after, across a week boundary, unless it is empty. */
  function RightTarget(g: Grid, p: Pos): (r: Pos)
    requires InGrid(g, p) && forall w | 0 <= w < |g| :: |g[w]| == 7
  {
    if p.col == 6 then
      if p.row != |g| - 1 && g[p.row + 1][0].Some? then Pos(0, p.row + 1) else p
    else if g[p.row][p.col + 1].Some? then Pos(p.col + 1, p.row) else p
  }

  /** `move_up`'s target: the week above, or from the top the lowest filled slot of the column. */
  function UpTarget(g: Grid, p: Pos): (r: Pos)
    requires InGrid(g, p) && |g| >= 2 && forall w | 0 <= w < |g| :: |g[w]| == 7
  {
    if p.row != 0 && g[p.row - 1][p.col].Some? then Pos(p.col, p.row - 1)
    else if g[|g| - 1][p.col].None? then Pos(p.col, |g| - 2)
    else Pos(p.col, |g| - 1)
  }

  /** `move_down`'s target: the week below, or from the bottom the highest filled slot of the column. */
  function DownTarget(g: Grid, p: Pos): (r: Pos)
    requires InGrid(g, p) && |g| >= 2 && forall w | 0 <= w < |g| :: |g[w]| == 7
  {
    if p.row != |g| - 1 && g[p.row + 1][p.col].Some? then Pos(p.col, p.row + 1)
    else Pos(p.col, if g[0][p.col].Some? then 0 else 1)
  }

  /** A shown day lies in the month, and its slot is the one `DayAt` names. */
  lemma ShownDay(g: Grid, lead: int, last: int, x0: int, y0: int, p: Pos, k: int)
    requires Shaped(g, lead, last, x0, y0) && ShowsDay(g, p, k)
    ensures 1 <= k <= last && DayAt(lead, p) == k
  {
  }

  /** Left goes to the previous day, and stays on the 1st. */
  lemma LeftDay(g: Grid, lead: int, last: int, x0: int, y0: int, p: Pos, k: int)
    requires Shaped(g, lead, last, x0, y0) && ShowsDay(g, p, k)
    ensures ShowsDay(g, LeftTarget(g, p), if k > 1 then k - 1 else k)
  {
    ShownDay(g, lead, last, x0, y0, p, k);
    if p.col == 0 && p.row != 0 {
      assert DayAt(lead, Pos(6, p.row - 1)) == k - 1;
    } else if p.col != 0 {
      assert DayAt(lead, Pos(p.col - 1, p.row)) == k - 1;
    }
  }

  /** Right goes to the next day, and stays on the last one. */
  lemma RightDay(g: Grid, lead: int, last: int, x0: int, y0: int, p: Pos, k: int)
    requires Shaped(g, lead, last, x0, y0) && ShowsDay(g, p, k)
    ensures ShowsDay(g, RightTarget(g, p), if k < last then k + 1 else k)
  {
    ShownDay(g, lead, last, x0, y0, p, k);
    RowsBounds(lead, last);
    if p.col == 6 && p.row != |g| - 1 {
      assert DayAt(lead, Pos(0, p.row + 1)) == k + 1;
    } else if p.col != 6 {
      assert DayAt(lead, Pos(p.col + 1, p.row)) == k + 1;
    }
  }

  /** The day `UpTarget` selects: a week earlier, or from the first week the last same weekday of the month. */
  function UpDay(k: int, last: int): (d: int)
    requires 1 <= k <= last
    ensures d % 7 == k % 7 && 1 <= d <= last
    ensures k > 7 ==> d == k - 7
    ensures k <= 7 ==> last < d + 7
  {
    if k > 7 then k - 7 else k + 7 * ((last - k) / 7)
  }

  /** The day `DownTarget` selects: a week later, or from the last week the first same weekday of the month. */
  function DownDay(k: int, last: int): (d: int)
    requires 1 <= k <= last
    ensures d % 7 == k % 7 && 1 <= d <= last
    ensures k + 7 <= last ==> d == k + 7
    ensures k + 7 > last ==> d <= 7
  {
    if k + 7 <= last then k + 7 else (k - 1) % 7 + 1
  }

  lemma WeeksBetween(a: int, j: int)
    requires 0 <= 7 * j <= a < 7 * j + 7
    ensures a / 7 == j
  {
  }

  /** Up keeps the weekday: the week before, or from the first week the month's last such day. */
  lemma UpDayLemma(g: Grid, lead: int, last: int, x0: int, y0: int, p: Pos, k: int)
    requires Shaped(g, lead, last, x0, y0) && ShowsDay(g, p, k)
    ensures |g| >= 2 && ShowsDay(g, UpTarget(g, p), UpDay(k, last))
  {
    ShownDay(g, lead, last, x0, y0, p, k);
    RowsBounds(lead, last);
    if p.row != 0 && g[p.row - 1][p.col].Some? {
      assert DayAt(lead, Pos(p.col, p.row - 1)) == k - 7;
    } else {
      UpWrap(g, lead, last, x0, y0, p, k);
    }
  }

  /** From the first week, up lands on the last week that has the same weekday. */
  lemma UpWrap(g: Grid, lead: int, last: int, x0: int, y0: int, p: Pos, k: int)
    requires Shaped(g, lead, last, x0, y0) && ShowsDay(g, p, k) && 1 <= k <= last && DayAt(lead, p) == k
    requires 4 <= |g| <= 6 && 7 * (|g| - 1) < lead + last <= 7 * |g|
    requires !(p.row != 0 && g[p.row - 1][p.col].Some?)
    ensures k <= 7 && ShowsDay(g, UpTarget(g, p), k + 7 * ((last - k) / 7))
  {
    if p.row != 0 {
      Slot(g, lead, last, x0, y0, p.row - 1, p.col);
    }
    Slot(g, lead, last, x0, y0, |g| - 1, p.col);
    UpWrapDay(lead, last, |g|, p.row, p.col, k);
    var q := UpTarget(g, p);
    Slot(g, lead, last, x0, y0, q.row, q.col);
  }

  /** The arithmetic of `UpWrap`: the bottom slot of the column, or the one above it, is the month's last such day. */
  lemma UpWrapDay(lead: int, last: int, rows: int, row: int, col: int, k: int)
    requires 0 <= lead < 7 && 28 <= last <= 31
    requires 4 <= rows <= 6 && 7 * (rows - 1) < lead + last <= 7 * rows
    requires 0 <= row < rows && 0 <= col < 7 && k == 7 * row + col - lead + 1 && 1 <= k <= last
    requires row != 0 ==> k - 7 < 1
    ensures k <= 7
    ensures var t := if 7 * (rows - 1) + col - lead + 1 <= last then rows - 1 else rows - 2;
      1 <= 7 * t + col - lead + 1 <= last && 7 * t + col - lead + 1 == k + 7 * ((last - k) / 7)
  {
    var t := if 7 * (rows - 1) + col - lead + 1 <= last then rows - 1 else rows - 2;
    WeeksBetween(last - k, t - row);
  }

  /** Down keeps the weekday: the week after, or from the last week the month's first such day. */
  lemma DownDayLemma(g: Grid, lead: int, last: int, x0: int, y0: int, p: Pos, k: int)
    requires Shaped(g, lead, last, x0, y0) && ShowsDay(g, p, k)
    ensures |g| >= 2 && ShowsDay(g, DownTarget(g, p), DownDay(k, last))
  {
    ShownDay(g, lead, last, x0, y0, p, k);
    RowsBounds(lead, last);
    if p.row != |g| - 1 && g[p.row + 1][p.col].Some? {
      assert DayAt(lead, Pos(p.col, p.row + 1)) == k + 7;
    } else {
      DownWrap(g, lead, last, x0, y0, p, k);
    }
  }

  /** From the last week, down lands on the first week that has the same weekday. */
  lemma DownWrap(g: Grid, lead: int, last: int, x0: int, y0: int, p: Pos, k: int)
    requires Shaped(g, lead, last, x0, y0) && ShowsDay(g, p, k) && 1 <= k <= last && DayAt(lead, p) == k
    requires 4 <= |g| <= 6 && 7 * (|g| - 1) < lead + last <= 7 * |g|
    requires !(p.row != |g| - 1 && g[p.row + 1][p.col].Some?)
    ensures k + 7 > last && ShowsDay(g, DownTarget(g, p), (k - 1) % 7 + 1)
  {
    if p.row != |g| - 1 {
      Slot(g, lead, last, x0, y0, p.row + 1, p.col);
    }
    Slot(g, lead, last, x0, y0, 0, p.col);
    DownWrapDay(lead, last, |g|, p.row, p.col, k);
    var q := DownTarget(g, p);
    Slot(g, lead, last, x0, y0, q.row, q.col);
  }

  /** The arithmetic of `DownWrap`: the top slot of the column, or the one below it, is the month's first such day. */
  lemma DownWrapDay(lead: int, last: int, rows: int, row: int, col: int, k: int)
    requires 0 <= lead < 7 && 28 <= last <= 31
    requires 4 <= rows <= 6 && 7 * (rows - 1) < lead + last <= 7 * rows
    requires 0 <= row < rows && 0 <= col < 7 && k == 7 * row + col - lead + 1 && 1 <= k <= last
    requires row != rows - 1 ==> k + 7 > last
    ensures k + 7 > last
    ensures var t := if col - lead + 1 >= 1 then 0 else 1;
      1 <= 7 * t + col - lead + 1 <= last && 7 * t + col - lead + 1 == (k - 1) % 7 + 1
  {
    var t := if col - lead + 1 >= 1 then 0 else 1;
    WeeksBetween(k - 1, row - t);
  }

  /** One slot of a month's grid, as `Shaped` describes it. */
  lemma Slot(g: Grid, lead: int, last: int, x0: int, y0: int, w: int, i: int)
    requires Shaped(g, lead, last, x0, y0) && 0 <= w < |g| && 0 <= i < 7
    ensures |g[w]| == 7
    ensures g[w][i].Some? <==> 1 <= DayAt(lead, Pos(i, w)) <= last
    ensures g[w][i].Some? ==> g[w][i].value.day == DayAt(lead, Pos(i, w))
  {
  }

  /** Up undoes down and down undoes up away from the edges. */
  lemma UpDownInverse(k: int, last: int)
    requires 1 <= k <= last
    ensures k + 7 <= last ==> UpDay(DownDay(k, last), last) == k
    ensures k > 7 ==> DownDay(UpDay(k, last), last) == k
  {
  }

  // ---------------------------------------------------------------------
  // Keys in wl.py and cal.py

  const KEY_DOWN := 258
  const KEY_UP := 259
  const KEY_LEFT := 260
  const KEY_RIGHT := 261

  /** The slot a key of the main loop of wl.py or cal.py selects: h/l/j/k or the arrows; other keys keep it. */
  function KeyTarget(g: Grid, p: Pos, c: int): Pos
    requires InGrid(g, p) && |g| >= 2 && forall w | 0 <= w < |g| :: |g[w]| == 7
  {
    if c == 'h' as int || c == KEY_LEFT then LeftTarget(g, p)
    else if c == 'l' as int || c == KEY_RIGHT then RightTarget(g, p)
    else if c == 'j' as int || c == KEY_DOWN then DownTarget(g, p)
    else if c == 'k' as int || c == KEY_UP then UpTarget(g, p)
    else p
  }

  /** The day a key of wl.py or cal.py selects, from day `k`. */
  function KeyDay(k: int, last: int, c: int): (d: int)
    requires 1 <= k <= last
    ensures 1 <= d <= last
  {
    if c == 'h' as int || c == KEY_LEFT then (if k > 1 then k - 1 else k)
    else if c == 'l' as int || c == KEY_RIGHT then (if k < last then k + 1 else k)
    else if c == 'j' as int || c == KEY_DOWN then DownDay(k, last)
    else if c == 'k' as int || c == KEY_UP then UpDay(k, last)
    else k
  }

  /** Every key leaves the selection on a day of the month: the one `KeyDay` names. */
  lemma KeyTargetDay(g: Grid, lead: int, last: int, x0: int, y0: int, p: Pos, k: int, c: int)
    requires Shaped(g, lead, last, x0, y0) && ShowsDay(g, p, k)
    ensures |g| >= 2 && ShowsDay(g, KeyTarget(g, p, c), KeyDay(k, last, c))
  {
    LeftDay(g, lead, last, x0, y0, p, k);
    RightDay(g, lead, last, x0, y0, p, k);
    UpDayLemma(g, lead, last, x0, y0, p, k);
    DownDayLemma(g, lead, last, x0, y0, p, k);
  }

  /** Replacing the flag of one shown day keeps the grid's shape (`set_active`, Enter in wl.py). */
  function SetFlag(g: Grid, p: Pos, flag: bool): (r: Grid)
    requires InGrid(g, p) && g[p.row][p.col].Some?
    ensures |r| == |g| && forall w | 0 <= w < |g| :: |r[w]| == |g[w]|
    ensures r[p.row][p.col] == Some(g[p.row][p.col].value.(active := flag))
    ensures forall w, i | 0 <= w < |g| && 0 <= i < |g[w]| && Pos(i, w) != p :: r[w][i] == g[w][i]
  {
    g[p.row := g[p.row][p.col := Some(g[p.row][p.col].value.(active := flag))]]
  }

  lemma SetFlagShaped(g: Grid, lead: int, last: int, x0: int, y0: int, p: Pos, flag: bool)
    requires Shaped(g, lead, last, x0, y0) && InGrid(g, p) && g[p.row][p.col].Some?
    ensures Shaped(SetFlag(g, p, flag), lead, last, x0, y0)
  {
  }

  // ---------------------------------------------------------------------
  // Neighbouring months

  function NextMonth(year: int, month: int): (int, int) {
    if month != 12 then (year, month + 1) else (year + 1, 1)
  }

  function PrevMonth(year: int, month: int): (int, int) {
    if month != 1 then (year, month - 1) else (year - 1, 12)
  }

  /** Going forward and back, or back and forward, returns to the same month. */
  lemma NextPrevInverse(year: int, month: int)
    requires 1 <= month <= 12
    ensures PrevMonth(NextMonth(year, month).0, NextMonth(year, month).1) == (year, month)
    ensures NextMonth(PrevMonth(year, month).0, PrevMonth(year, month).1) == (year, month)
    ensures 1 <= NextMonth(year, month).1 <= 12 && 1 <= PrevMonth(year, month).1 <= 12
  {
  }

  /** A calendar of one month with one selected day. */
  class Calendar {
    const year: int
    const month: int
    const initDay: int
    const isActive: Date -> bool
    var data: Grid
    var selected: Option<Pos>

    /** `Calendar.minx` */
    const minx := 20

    function Last(): int
      requires 1 <= month <= 12
    {
      DaysInMonth(year, month)
    }

    ghost predicate Valid()
      reads this
    {
      1 <= year <= 9999 && 1 <= month <= 12 &&
      Shaped(data, Lead(year, month), Last(), 0, 0) &&
      (selected.Some? ==> exists k :: 1 <= k <= Last() && ShowsDay(data, selected.value, k))
    }

    /**
      `Calendar.__init__`: the initial day is today's when none is given
      (`0` stands for `None`), and at most the month's last day.
    */
    constructor(year: int, month: int, initDay: int, today: int, isActive: Date -> bool)
      requires 1 <= year <= 9999 && 1 <= month <= 12
      ensures Valid() && selected.None?
      ensures this.year == year && this.month == month && this.isActive == isActive
      ensures var d := if initDay == 0 then today else initDay;
        this.initDay == if d > DaysInMonth(year, month) then DaysInMonth(year, month) else d
      ensures forall w, i | 0 <= w < |data| && 0 <= i < 7 ::
        data[w][i] == Expected(year, month, Lead(year, month), DaysInMonth(year, month), 0, 0, isActive, w, i)
    {
      var last := DaysInMonth(year, month);
      var d := if initDay == 0 then today else initDay;
      if d > last {
        d := last;
      }
      this.year, this.month, this.initDay, this.isActive := year, month, d, isActive;
      var g := BuildGrid(year, month, 0, 0, isActive);
      data := g;
      selected := None;
    }

    /** `self.miny`: a line per week and one for the weekday names. */
    function MinY(): int
      reads this
    {
      |data| + 1
    }

    /** `enough_space` */
    function EnoughSpace(y: int, x: int): (r: bool)
      reads this
      ensures r <==> y >= MinY() && x >= minx
    {
      y >= MinY() && x >= minx
    }

    /** Every month fits in 7 lines and 20 columns, and none in 4 lines. */
    lemma SevenLinesSuffice()
      requires Valid()
      ensures EnoughSpace(7, 20) && !EnoughSpace(4, 20)
    {
      RowsBounds(Lead(year, month), Last());
    }

    /** `get_current_day` */
    function CurrentDay(): (r: Option<int>)
      reads this
      requires Valid()
      ensures r.Some? <==> selected.Some?
      ensures r.Some? ==> 1 <= r.value <= Last() && ShowsDay(data, selected.value, r.value)
    {
      if selected.None? then None
      else Some(data[selected.value.row][selected.value.col].value.day)
    }

    /** `get_current_date` */
    function CurrentDate(): (r: Option<Date>)
      reads this
      requires Valid()
      ensures r.Some? <==> selected.Some?
      ensures r.Some? ==> ValidDate(r.value) && r.value == Date(year, month, CurrentDay().value)
    {
      match CurrentDay()
      case None => None
      case Some(d) => Some(Date(year, month, d))
    }

    /** The selection part of `draw`: the current day again, or else the initial day. */
    method Draw()
      requires Valid()
      modifies this
      ensures Valid() && data == old(data)
      ensures old(selected).Some? ==> selected == old(selected)
      ensures old(selected).None? ==>
        selected == if 1 <= initDay <= Last() then Some(PosOf(Lead(year, month), initDay)) else None
    {
      var day := if selected.Some? then CurrentDay().value else initDay;
      var lead := Lead(year, month);
      var r := FindDay(data, day);
      FoundPosOf(data, lead, Last(), 0, 0, day, r);
      if selected.Some? {
        ShowsDayAt(data, lead, Last(), 0, 0, selected.value, day);
      }
      if r.Some? {
        assert ShowsDay(data, r.value, day);
        selected := r;
      }
    }

    /**
      `_move`: selects `p`, reporting whether the selection changed; both the
      old selection and `p` are filled slots, since `_change` unpacks them.
    */
    method Move(p: Pos) returns (moved: bool)
      requires selected.Some? && InGrid(data, selected.value) && data[selected.value.row][selected.value.col].Some?
      requires InGrid(data, p) && data[p.row][p.col].Some?
      modifies this
      ensures data == old(data)
      ensures selected == Some(p)
      ensures moved <==> old(selected) != Some(p)
    {
      moved := Some(p) != selected;
      selected := Some(p);
    }

    /** `move_left`: the previous day; nothing happens on the 1st. */
    method MoveLeft() returns (moved: bool)
      requires Valid() && selected.Some?
      modifies this
      ensures Valid() && data == old(data)
      ensures var k := old(CurrentDay()).value;
        CurrentDay() == Some(if k > 1 then k - 1 else k) && (moved <==> k > 1)
    {
      var k := CurrentDay().value;
      LeftDay(data, Lead(year, month), Last(), 0, 0, selected.value, k);
      SameDaySamePos(data, Lead(year, month), Last(), 0, 0, selected.value, LeftTarget(data, selected.value));
      moved := Move(LeftTarget(data, selected.value));
    }

    /** `move_right`: the next day; nothing happens on the last one. */
    method MoveRight() returns (moved: bool)
      requires Valid() && selected.Some?
      modifies this
      ensures Valid() && data == old(data)
      ensures var k := old(CurrentDay()).value;
        CurrentDay() == Some(if k < Last() then k + 1 else k) && (moved <==> k < Last())
    {
      var k := CurrentDay().value;
      RightDay(data, Lead(year, month), Last(), 0, 0, selected.value, k);
      SameDaySamePos(data, Lead(year, month), Last(), 0, 0, selected.value, RightTarget(data, selected.value));
      moved := Move(RightTarget(data, selected.value));
    }

    /** `move_up`: the same weekday a week earlier, wrapping round to the month's last one. */
    method MoveUp() returns (moved: bool)
      requires Valid() && selected.Some?
      modifies this
      ensures Valid() && data == old(data)
      ensures CurrentDay() == Some(UpDay(old(CurrentDay()).value, Last())) && moved
    {
      var k := CurrentDay().value;
      UpDayLemma(data, Lead(year, month), Last(), 0, 0, selected.value, k);
      SameDaySamePos(data, Lead(year, month), Last(), 0, 0, selected.value, UpTarget(data, selected.value));
      moved := Move(UpTarget(data, selected.value));
    }

    /** `move_down`: the same weekday a week later, wrapping round to the month's first one. */
    method MoveDown() returns (moved: bool)
      requires Valid() && selected.Some?
      modifies this
      ensures Valid() && data == old(data)
      ensures CurrentDay() == Some(DownDay(old(CurrentDay()).value, Last())) && moved
    {
      var k := CurrentDay().value;
      DownDayLemma(data, Lead(year, month), Last(), 0, 0, selected.value, k);
      SameDaySamePos(data, Lead(year, month), Last(), 0, 0, selected.value, DownTarget(data, selected.value));
      moved := Move(DownTarget(data, selected.value));
    }

    /** `set_active`: changes the emphasis of the selected day only. */
    method SetActive(active: bool)
      requires Valid() && selected.Some?
      modifies this
      ensures Valid() && selected == old(selected) && CurrentDay() == old(CurrentDay())
      ensures data == SetFlag(old(data), selected.value, active)
    {
      var k := CurrentDay().value;
      SetFlagShaped(data, Lead(year, month), Last(), 0, 0, selected.value, active);
      data := SetFlag(data, selected.value, active);
      assert ShowsDay(data, selected.value, k);
    }

    /** `get_next_calendar`: the following month, on the given day or the 1st. */
    method NextCalendar(day: int, today: int) returns (c: Calendar)
      requires 1 <= year && 1 <= month <= 12 && NextMonth(year, month).0 <= 9999
      ensures fresh(c) && c.Valid() && c.selected.None? && c.isActive == isActive
      ensures (c.year, c.month) == NextMonth(year, month)
      ensures var d := if day == 0 then 1 else day;
        c.initDay == if d > c.Last() then c.Last() else d
    {
      var (y, m) := NextMonth(year, month);
      c := new Calendar(y, m, if day == 0 then 1 else day, today, isActive);
    }

    /** `get_previous_calendar`: the preceding month, on the given day or its last one. */
    method PreviousCalendar(day: int, today: int) returns (c: Calendar)
      requires year <= 9999 && 1 <= month <= 12 && PrevMonth(year, month).0 >= 1
      ensures fresh(c) && c.Valid() && c.selected.None? && c.isActive == isActive
      ensures (c.year, c.month) == PrevMonth(year, month)
      ensures c.initDay == if day == 0 || day > c.Last() then c.Last() else day
    {
      var (y, m) := PrevMonth(year, month);
      c := new Calendar(y, m, if day == 0 then DaysInMonth(y, m) else day, today, isActive);
    }
  }
}
