/** The history dialog of the standalone page (src/components/HistoryDialog.tsx):
    a month grid over the stored record, month navigation limited to six months
    either side of the month it was opened in, and toggle/remove on the todos of
    a selected day. */
module HistoryDialog {
  import opened Common
  import opened Strings
  import opened LocalTodos

  /** Month lengths by month index (0 = January), as the dialog's table has them. */
  function DaysInMonth(m: nat): (d: nat)
    requires m < 12
    ensures 28 <= d <= 31
    ensures d == 28 <==> m == 1
    ensures d == 30 <==> m == 3 || m == 5 || m == 8 || m == 10
  {
    [31, 28, 31, 30, 31, 30, 31, 31, 30, 31, 30, 31][m]
  }

  /** The Gregorian leap-year rule. */
  predicate IsLeapYear(y: int)
  {
    y % 4 == 0 && (y % 100 != 0 || y % 400 == 0)
  }

  /** The number of days of a month in the Gregorian calendar. */
  function GregorianDays(y: int, m: nat): nat
    requires m < 12
  {
    if m == 1 then (if IsLeapYear(y) then 29 else 28)
    else if m == 3 || m == 5 || m == 8 || m == 10 then 30
    else 31
  }

  /** The table agrees with the calendar except for February of a leap year,
      whose 29th day the grid never lists; every day it lists exists. */
  lemma DaysInMonthAgainstCalendar(y: int, m: nat)
    requires m < 12
    ensures DaysInMonth(m) <= GregorianDays(y, m)
    ensures DaysInMonth(m) == GregorianDays(y, m) <==> !(m == 1 && IsLeapYear(y))
  {
  }

  /** A calendar month: a year and a month index (0 = January). */
  datatype YearMonth = YearMonth(year: int, month: nat)
  {
    ghost predicate Valid() { month < 12 }

    /** Months since the start of year 0. */
    function Index(): int { year * 12 + month }
  }

  /** `clone().add(k, "month")`: the month `k` months later (earlier when `k` is negative). */
  function AddMonths(ym: YearMonth, k: int): (r: YearMonth)
    ensures r.Valid() && r.Index() == ym.Index() + k
  {
    var total := ym.Index() + k;
    YearMonth(total / 12, total % 12)
  }

  /** One month back and one month forward lands on the month it started from. */
  lemma PrevThenNext(ym: YearMonth)
    requires ym.Valid()
    ensures AddMonths(AddMonths(ym, -1), 1) == ym
    ensures AddMonths(AddMonths(ym, 1), -1) == ym
  {
    var a := AddMonths(AddMonths(ym, -1), 1);
    var b := AddMonths(AddMonths(ym, 1), -1);
    assert a.year * 12 + a.month == ym.year * 12 + ym.month;
    assert b.year * 12 + b.month == ym.year * 12 + ym.month;
  }

  /** `format("YYYY-MM-DD")` of a day: four-digit year, two-digit month and day. */
  function DateKey(year: nat, month: nat, day: nat): string
  {
    PadZero(year, 4) + "-" + PadZero(month + 1, 2) + "-" + PadZero(day, 2)
  }

  /** A number below one hundred padded to two digits is its two decimal digits. */
  lemma PadTwo(n: nat)
    requires n < 100
    ensures PadZero(n, 2) == [DigitChar(n / 10), DigitChar(n % 10)]
  {
    if n < 10 {
      assert NatToString(n) == [DigitChar(n)];
      assert DigitChar(0) == '0';
    } else {
      assert NatToString(n / 10) == [DigitChar(n / 10)];
    }
  }

  /** Different days of the same month have different keys. */
  lemma DateKeyInjective(year: nat, month: nat, d1: nat, d2: nat)
    requires d1 < 100 && d2 < 100 && d1 != d2
    ensures DateKey(year, month, d1) != DateKey(year, month, d2)
  {
    var prefix := PadZero(year, 4) + "-" + PadZero(month + 1, 2) + "-";
    var x, y := PadZero(d1, 2), PadZero(d2, 2);
    PadTwo(d1);
    PadTwo(d2);
    assert d1 / 10 != d2 / 10 || d1 % 10 != d2 % 10;
    assert x[0] != y[0] || x[1] != y[1];
    assert DateKey(year, month, d1) == prefix + x && DateKey(year, month, d2) == prefix + y;
    assert (prefix + x)[|prefix|..] == x && (prefix + y)[|prefix|..] == y;
  }

  /** calendarDays: one key per day of the shown month, day `d` at index `d - 1`;
      the keys are pairwise distinct. */
  method CalendarDays(ym: YearMonth) returns (days: seq<string>)
    requires ym.Valid() && ym.year >= 0
    ensures |days| == DaysInMonth(ym.month)
    ensures forall i :: 0 <= i < |days| ==> days[i] == DateKey(ym.year, ym.month, i + 1)
    ensures forall i, j :: 0 <= i < j < |days| ==> days[i] != days[j]
  {
    var daysInCurrentMonth := DaysInMonth(ym.month);
    days := [];
    var day := 1;
    while day <= daysInCurrentMonth
      invariant 1 <= day <= daysInCurrentMonth + 1
      invariant |days| == day - 1
      invariant forall i :: 0 <= i < |days| ==> days[i] == DateKey(ym.year, ym.month, i + 1)
    {
      days := days + [DateKey(ym.year, ym.month, day)];
      day := day + 1;
    }
    forall i, j | 0 <= i < j < |days| ensures days[i] != days[j] {
      DateKeyInjective(ym.year, ym.month, i + 1, j + 1);
    }
  }

  datatype Direction = Prev | Next

  /** The dialog's state; `origin` is the month the dialog was opened in. */
  datatype DialogState = DialogState(
    history: History, selectedDate: Option<string>, currentMonth: YearMonth, origin: YearMonth, direction: Direction)
  {
    /** How many calendar months the shown month lies after the opening month. */
    function Offset(): int { currentMonth.Index() - origin.Index() }

    /** `currentMonth.diff(moment(), "months")` at the time of a render. The shown
        month is the opening instant moved by whole months, and the clock has
        moved on since; `lag` says it has moved past the shown month's instant
        within its month (by less than a month). moment truncates the month
        difference toward zero, so a lag costs one month ahead of the origin and
        nothing at or before it. */
    function MonthsDiff(lag: bool): (d: int)
      ensures Offset() <= 0 || !lag ==> d == Offset()
      ensures Offset() > 0 && lag ==> d == Offset() - 1
    {
      if lag && Offset() > 0 then Offset() - 1 else Offset()
    }

    /** The grid is shown (no day selected) and the button is not disabled. */
    predicate PrevEnabled(lag: bool) { selectedDate.None? && MonthsDiff(lag) > -6 }

    /** The grid is shown and the button is not disabled. */
    predicate NextEnabled(lag: bool) { selectedDate.None? && MonthsDiff(lag) < 6 }

    /** The shown month stays between six months before and seven months after
        the opening month, and a selected day is one the record has an entry for. */
    ghost predicate Valid()
    {
      && currentMonth.Valid()
      && -6 <= Offset() <= 7
      && (selectedDate.Some? ==> selectedDate.value in history)
    }
  }

  /** The dialog as it opens: the saved record, no day selected, the current month. */
  function Open(saved: History, now: YearMonth): DialogState
  {
    DialogState(saved, None, now, now, Next)
  }

  /** handleMonthChange */
  function MonthChange(s: DialogState, dir: Direction): DialogState
  {
    s.(direction := dir, currentMonth := AddMonths(s.currentMonth, if dir == Prev then -1 else 1))
  }

  /** A click on the left or right arrow, rendered with clock lag `lag`: a
      disabled button does nothing. */
  function ClickArrow(s: DialogState, dir: Direction, lag: bool): DialogState
  {
    if (dir == Prev && s.PrevEnabled(lag)) || (dir == Next && s.NextEnabled(lag)) then MonthChange(s, dir) else s
  }

  /** A click on a day of the grid: `history[day] && setSelectedDate(day)`. */
  function SelectDay(s: DialogState, day: string): DialogState
  {
    if s.selectedDate.None? && day in s.history then s.(selectedDate := Some(day)) else s
  }

  /** "Back to Grid" */
  function BackToGrid(s: DialogState): DialogState
  {
    s.(selectedDate := None)
  }

  /** toggleTodo on the selected day. A record without that day makes the `map`
      throw before any state is set. */
  function ToggleSelected(s: DialogState, id: string): DialogState
    requires s.selectedDate.Some?
  {
    var date := s.selectedDate.value;
    if date !in s.history then s else s.(history := s.history[date := Toggled(s.history[date], id)])
  }

  /** removeTodo on the selected day. */
  function RemoveSelected(s: DialogState, id: string): DialogState
    requires s.selectedDate.Some?
  {
    var date := s.selectedDate.value;
    if date !in s.history then s else s.(history := s.history[date := Without(s.history[date], id)])
  }

  /** The user's actions in the dialog. */
  datatype Event = Arrow(dir: Direction, lag: bool) | Select(day: string) | Back | ToggleTodo(id: string) | RemoveTodo(id: string)

  function Step(s: DialogState, e: Event): DialogState
  {
    match e
    case Arrow(dir, lag) => ClickArrow(s, dir, lag)
    case Select(day) => SelectDay(s, day)
    case Back => BackToGrid(s)
    case ToggleTodo(id) => if s.selectedDate.Some? then ToggleSelected(s, id) else s
    case RemoveTodo(id) => if s.selectedDate.Some? then RemoveSelected(s, id) else s
  }

  /** The dialog opens in a valid state and every action keeps it valid: the shown
      month never leaves the range from six months back to seven months ahead, and
      only a day with an entry can be selected. */
  lemma {:induction false} StepPreservesValid(s: DialogState, e: Event)
    requires s.Valid()
    ensures Step(s, e).Valid()
  {
    match e
    case Arrow(dir, lag) =>
      var r := Step(s, e);
      assert r.Offset() == s.Offset() || r.Offset() == s.Offset() + (if dir == Prev then -1 else 1);
    case _ =>
  }

  lemma OpenIsValid(saved: History, now: YearMonth)
    requires now.Valid()
    ensures Open(saved, now).Valid() && Open(saved, now).Offset() == 0
  {
  }

  /** An enabled arrow moves exactly one month; a disabled one leaves the state alone. */
  lemma ArrowMovesOneMonth(s: DialogState, dir: Direction, lag: bool)
    ensures var r := ClickArrow(s, dir, lag);
      if (dir == Prev && s.PrevEnabled(lag)) || (dir == Next && s.NextEnabled(lag))
      then r.Offset() == s.Offset() + (if dir == Prev then -1 else 1) && r.direction == dir && r.history == s.history
      else r == s
  {
  }

  /** When the arrows are enabled, in months from the opening month: Prev down
      to six months back; Next up to six months ahead without a lag and up to
      seven with one. So the grid can show the seventh month ahead, never the
      eighth, and never the seventh month back. */
  lemma {:induction false} ArrowBounds(s: DialogState, lag: bool)
    requires s.selectedDate.None?
    ensures s.PrevEnabled(lag) <==> s.Offset() > -6
    ensures s.NextEnabled(lag) <==> s.Offset() < 6 || (lag && s.Offset() == 6)
    ensures s.Offset() == 6 && lag ==> ClickArrow(s, Next, lag).Offset() == 7
    ensures s.Offset() >= 7 ==> ClickArrow(s, Next, lag) == s
  {
    var d := s.MonthsDiff(lag);
    if s.Offset() > 0 {
      assert d > -6;
    }
    if s.Offset() == 6 && lag {
      assert s.NextEnabled(lag);
      assert ClickArrow(s, Next, lag) == MonthChange(s, Next);
    }
  }

  /** Toggling and removing on the selected day leave every other day alone;
      toggling twice restores the record. */
  lemma SelectedDayEdits(s: DialogState, id: string)
    requires s.selectedDate.Some?
    ensures OtherDatesUnchanged(s.history, ToggleSelected(s, id).history, s.selectedDate.value)
    ensures OtherDatesUnchanged(s.history, RemoveSelected(s, id).history, s.selectedDate.value)
    ensures ToggleSelected(ToggleSelected(s, id), id) == s
    ensures s.selectedDate.value in s.history ==>
      (forall t :: t in RemoveSelected(s, id).history[s.selectedDate.value] <==>
        t in s.history[s.selectedDate.value] && t.id != id)
  {
    var date := s.selectedDate.value;
    if date in s.history {
      ToggledTwice(s.history[date], id);
      assert s.history[date := s.history[date]] == s.history;
      WithoutMembers(s.history[date], id);
    }
  }

  /** The dialog component. */
  class HistoryDialog {
    var history: History
    var selectedDate: Option<string>
    var currentMonth: YearMonth
    var direction: Direction
    const origin: YearMonth

    function State(): DialogState
      reads this
    {
      DialogState(history, selectedDate, currentMonth, origin, direction)
    }

    ghost predicate Valid()
      reads this
    {
      State().Valid()
    }

    /** Mount, followed by the effect that loads the saved record. */
    constructor (saved: History, now: YearMonth)
      requires now.Valid()
      ensures State() == Open(saved, now) && Valid()
    {
      history := saved;
      selectedDate := None;
      currentMonth := now;
      origin := now;
      direction := Next;
    }

    /** A click on an arrow; `lag` as in `DialogState.MonthsDiff`. */
    method HandleArrow(dir: Direction, lag: bool)
      requires Valid()
      modifies this
      ensures State() == ClickArrow(old(State()), dir, lag) && Valid()
    {
      var offset := currentMonth.Index() - origin.Index();
      var diff := if lag && offset > 0 then offset - 1 else offset;
      var enabled := if dir == Prev then selectedDate.None? && diff > -6
                     else selectedDate.None? && diff < 6;
      if enabled {
        direction := dir;
        currentMonth := AddMonths(currentMonth, if dir == Prev then -1 else 1);
      }
      StepPreservesValid(old(State()), Arrow(dir, lag));
    }

    method HandleSelectDay(day: string)
      requires Valid()
      modifies this
      ensures State() == SelectDay(old(State()), day) && Valid()
    {
      if selectedDate.None? && day in history {
        selectedDate := Some(day);
      }
    }

    method HandleBack()
      requires Valid()
      modifies this
      ensures State() == BackToGrid(old(State())) && Valid()
    {
      selectedDate := None;
    }

    method ToggleTodo(id: string)
      requires Valid() && selectedDate.Some?
      modifies this
      ensures State() == ToggleSelected(old(State()), id) && Valid()
    {
      var date := selectedDate.value;
      if date in history {
        history := history[date := Toggled(history[date], id)];
      }
    }

    method RemoveTodo(id: string)
      requires Valid() && selectedDate.Some?
      modifies this
      ensures State() == RemoveSelected(old(State()), id) && Valid()
    {
      var date := selectedDate.value;
      if date in history {
        history := history[date := Without(history[date], id)];
      }
    }

    /** The keys of the grid for the month shown. */
    method ShownDays() returns (days: seq<string>)
      requires Valid() && currentMonth.year >= 0
      ensures |days| == DaysInMonth(currentMonth.month)
      ensures forall i :: 0 <= i < |days| ==> days[i] == DateKey(currentMonth.year, currentMonth.month, i + 1)
    {
      days := CalendarDays(currentMonth);
    }
  }
}
