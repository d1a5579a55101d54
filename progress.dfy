/**
 * The day progress indicator: the status each day of the game is shown
 * with, which days may be clicked, the cells of the calendar view and the
 * two lines of text the linear view writes.  Days are numbered from 0
 * inside and shown to the player numbered from 1.
 */
module Progress {
  import opened Wrappers
  import JsText

  datatype DayStatus = Completed | Current | Available | Locked

  /**
   * `getDayStatus(day)`: a day is shown completed exactly when it is in
   * the completed list, whether or not it lies in the future; any other
   * day is current, available or locked as it equals, precedes or follows
   * today.
   */
  function GetDayStatus(day: int, currentDay: int, completedDays: seq<int>): (r: DayStatus)
    ensures r == Completed <==> day in completedDays
    ensures day !in completedDays ==>
      (r == Current <==> day == currentDay) && (r == Available <==> day < currentDay) && (r == Locked <==> day > currentDay)
  {
    if day in completedDays then Completed
    else if day == currentDay then Current
    else if day < currentDay then Available
    else Locked
  }

  /** The name a status has in the component (its style class and the key of its text) */
  function StatusName(s: DayStatus): string {
    match s
    case Completed => "completed"
    case Current => "current"
    case Available => "available"
    case Locked => "locked"
  }

  /** `getStatusText(status)`: exactly the names of the four statuses have a text; anything else reads "unknown". */
  function GetStatusText(status: string): (r: string)
    ensures r == "未知" <==> forall s: DayStatus :: StatusName(s) != status
  {
    assert StatusName(Completed) == "completed" && StatusName(Current) == "current";
    assert StatusName(Available) == "available" && StatusName(Locked) == "locked";
    if status == "completed" then "已完成"
    else if status == "current" then "当前进行"
    else if status == "available" then "可访问"
    else if status == "locked" then "未解锁"
    else "未知"
  }

  /**
   * `getDayLabel(day, status)`: the short label under the day number; a
   * day neither completed nor current is labelled with its number,
   * counted from 1, between `第` and `天`.
   */
  function GetDayLabel(day: int, status: string): (r: string)
    ensures status == "completed" ==> r == "完成"
    ensures status == "current" ==> r == "当前"
    ensures status != "completed" && status != "current" && day >= 0 ==>
      |r| >= 3 && r[0] == '第' && r[|r| - 1] == '天' &&
      JsText.AllDigits(r[1..|r| - 1]) && JsText.DigitsValue(r[1..|r| - 1]) == day + 1
  {
    if status == "completed" then "完成"
    else if status == "current" then "当前"
    else
      var t := JsText.NumText(day + 1);
      var r := "第" + t + "天";
      assert r[1..|r| - 1] == t;
      if day >= 0 then JsText.NatTextRoundTrip(day + 1); r else r
  }

  /** The `disabled` attribute of a day's button */
  predicate Disabled(day: int, currentDay: int) {
    day > currentDay
  }

  /**
   * `handleDayClick(day)`: the callback runs, with the day clicked,
   * exactly when there is one and the day's button is enabled.
   */
  function HandleDayClick(day: int, currentDay: int, hasCallback: bool): (r: Option<int>)
    ensures r.Some? <==> hasCallback && !Disabled(day, currentDay)
    ensures r.Some? ==> r.value == day
  {
    if hasCallback && day <= currentDay then Some(day) else None
  }

  /** One button of the calendar view */
  datatype Cell = Cell(day: int, status: DayStatus, disabled: bool, number: string, dayLabel: string, ariaLabel: string)

  function MakeCell(day: int, currentDay: int, completedDays: seq<int>): (c: Cell)
    ensures c.day == day && c.status == GetDayStatus(day, currentDay, completedDays)
    ensures c.disabled <==> day > currentDay
    ensures day >= 0 ==> JsText.AllDigits(c.number) && JsText.DigitsValue(c.number) == day + 1
    ensures c.ariaLabel == "第" + c.number + "天 - " + GetStatusText(StatusName(c.status))
  {
    var status := GetDayStatus(day, currentDay, completedDays);
    assert day >= 0 ==> JsText.AllDigits(JsText.NumText(day + 1)) && JsText.DigitsValue(JsText.NumText(day + 1)) == day + 1 by {
      if day >= 0 {
        JsText.NatTextRoundTrip(day + 1);
      }
    }
    Cell(day, status, Disabled(day, currentDay), JsText.NumText(day + 1),
         GetDayLabel(day, StatusName(status)),
         "第" + JsText.NumText(day + 1) + "天 - " + GetStatusText(StatusName(status)))
  }

  /**
   * `Array.from({ length: totalDays }, ...)`: one cell per day, in order
   * (a negative length making none), each numbered from 1, with the status
   * of its day, disabled exactly after today and with a label for screen
   * readers naming the day and its status.
   */
  function Calendar(currentDay: int, completedDays: seq<int>, totalDays: int): (r: seq<Cell>)
    ensures |r| == if totalDays > 0 then totalDays else 0
    ensures forall i :: 0 <= i < |r| ==>
      r[i].day == i && r[i].status == GetDayStatus(i, currentDay, completedDays) &&
      (r[i].disabled <==> i > currentDay) &&
      JsText.AllDigits(r[i].number) && JsText.DigitsValue(r[i].number) == i + 1 &&
      r[i].ariaLabel == "第" + r[i].number + "天 - " + GetStatusText(StatusName(r[i].status))
  {
    seq(if totalDays > 0 then totalDays else 0, i => MakeCell(i, currentDay, completedDays))
  }

  /** The progress line of the linear view: completed days out of all days */
  function ProgressText(completedDays: seq<int>, totalDays: int): string {
    "进度: " + JsText.NumText(|completedDays|) + "/" + JsText.NumText(totalDays) + " 天"
  }

  /** The current-day line of the linear view: the day's number, counted from 1, between `当前: 第` and `天` */
  function CurrentDayText(currentDay: int): (r: string)
    ensures |r| >= 7 && r[..5] == "当前: 第" && r[|r| - 1] == '天'
    ensures currentDay >= 0 ==> JsText.AllDigits(r[5..|r| - 1]) && JsText.DigitsValue(r[5..|r| - 1]) == currentDay + 1
  {
    var t := JsText.NumText(currentDay + 1);
    var r := "当前: 第" + t + "天";
    assert r[..5] == "当前: 第" && r[5..|r| - 1] == t;
    if currentDay >= 0 then JsText.NatTextRoundTrip(currentDay + 1); r else r
  }

  // ------------------------------------------------------------- statuses

  /** Every status has its own text, and none of them reads "unknown". */
  lemma StatusTextKnown(s: DayStatus, t: DayStatus)
    ensures GetStatusText(StatusName(s)) != "未知"
    ensures GetStatusText(StatusName(s)) == GetStatusText(StatusName(t)) <==> s == t
  {
  }

  /** A day that is neither completed nor current is labelled with its number, so such labels tell days apart. */
  lemma DayLabelNumbered(day: int, other: int, currentDay: int, completedDays: seq<int>)
    requires GetDayStatus(day, currentDay, completedDays) !in {Completed, Current}
    requires GetDayStatus(other, currentDay, completedDays) !in {Completed, Current}
    ensures GetDayLabel(day, StatusName(GetDayStatus(day, currentDay, completedDays)))
            == "第" + JsText.NumText(day + 1) + "天"
    ensures day != other ==>
      GetDayLabel(day, StatusName(GetDayStatus(day, currentDay, completedDays)))
      != GetDayLabel(other, StatusName(GetDayStatus(other, currentDay, completedDays)))
  {
    var s := GetDayStatus(day, currentDay, completedDays);
    var t := GetDayStatus(other, currentDay, completedDays);
    var a := JsText.NumText(day + 1);
    var b := JsText.NumText(other + 1);
    if day != other && GetDayLabel(day, StatusName(s)) == GetDayLabel(other, StatusName(t)) {
      var x := "第" + a + "天";
      var y := "第" + b + "天";
      assert x == y;
      assert |a| == |b|;
      assert a == x[1..|x| - 1] == y[1..|y| - 1] == b;
      JsText.NumTextInjective(day + 1, other + 1);
    }
  }

  // ------------------------------------------------------------- clicking

  /** For a day not yet completed, being locked and having a disabled button are the same thing. */
  lemma LockedIffDisabled(day: int, currentDay: int, completedDays: seq<int>)
    requires day !in completedDays
    ensures GetDayStatus(day, currentDay, completedDays) == Locked <==> Disabled(day, currentDay)
  {
  }

  /** A day completed ahead of today is shown completed, yet its button stays disabled and a click does nothing. */
  lemma CompletedFutureDayInert(day: int, currentDay: int, completedDays: seq<int>, hasCallback: bool)
    requires day in completedDays && day > currentDay
    ensures GetDayStatus(day, currentDay, completedDays) == Completed
    ensures Disabled(day, currentDay) && HandleDayClick(day, currentDay, hasCallback) == None
  {
  }

  // ------------------------------------------------------------- calendar

  /** No two cells of the calendar show the same number. */
  lemma CalendarNumbersDistinct(currentDay: int, completedDays: seq<int>, totalDays: int, i: int, j: int)
    requires 0 <= i < j < |Calendar(currentDay, completedDays, totalDays)|
    ensures Calendar(currentDay, completedDays, totalDays)[i].number != Calendar(currentDay, completedDays, totalDays)[j].number
  {
    var cells := Calendar(currentDay, completedDays, totalDays);
    var a, b := JsText.NumText(i + 1), JsText.NumText(j + 1);
    assert cells[i].number == a && cells[j].number == b;
    if a == b {
      JsText.NumTextInjective(i + 1, j + 1);
    }
  }

  /** Clicking a cell reports its own day when the cell is enabled and a callback is given, and nothing otherwise. */
  lemma CalendarClicks(currentDay: int, completedDays: seq<int>, totalDays: int, hasCallback: bool)
    ensures forall c :: c in Calendar(currentDay, completedDays, totalDays) ==>
      HandleDayClick(c.day, currentDay, hasCallback) == if hasCallback && !c.disabled then Some(c.day) else None
  {
  }

  /** Day 4 of 8 with the first three completed: eight cells, three completed, one current, four locked */
  lemma CalendarExample()
    ensures |Calendar(3, [0, 1, 2], 8)| == 8
    ensures forall i :: 0 <= i < 3 ==> Calendar(3, [0, 1, 2], 8)[i].status == Completed
    ensures Calendar(3, [0, 1, 2], 8)[3].status == Current
    ensures forall i :: 4 <= i < 8 ==> Calendar(3, [0, 1, 2], 8)[i].status == Locked
    ensures forall i :: 4 <= i < 8 ==> Calendar(3, [0, 1, 2], 8)[i].disabled
  {
    var done := [0, 1, 2];
    assert forall i :: 0 <= i < 3 ==> i in done;
    assert forall i :: 3 <= i < 8 ==> i !in done;
  }

  // ------------------------------------------------------------- linear view

  /** The current-day line names a different day for every current day. */
  lemma CurrentDayTextInjective(a: int, b: int)
    requires CurrentDayText(a) == CurrentDayText(b)
    ensures a == b
  {
    var x := JsText.NumText(a + 1);
    var y := JsText.NumText(b + 1);
    var s := "当前: 第";
    assert |x| == |y|;
    assert x == CurrentDayText(a)[|s|..|s| + |x|] == CurrentDayText(b)[|s|..|s| + |y|] == y;
    JsText.NumTextInjective(a + 1, b + 1);
  }

  /** The progress line tells apart any two counts of completed days and any two totals. */
  lemma ProgressTextInjective(done: seq<int>, total: int, done': seq<int>, total': int)
    requires ProgressText(done, total) == ProgressText(done', total')
    ensures |done| == |done'| && total == total'
  {
    var x, y := JsText.NumText(|done|), JsText.NumText(|done'|);
    var u, v := JsText.NumText(total), JsText.NumText(total');
    SplitAtSlash("进度: ", x, u, y, v, " 天");
    JsText.NumTextInjective(|done|, |done'|);
    JsText.NumTextInjective(total, total');
  }

  /** Two runs of digits, each followed by a slash, are split at the same place. */
  lemma SplitAtSlash(p: string, x: string, u: string, y: string, v: string, q: string)
    requires JsText.AllDigits(x) && JsText.AllDigits(y)
    requires p + x + "/" + u + q == p + y + "/" + v + q
    ensures x == y && u == v
  {
    var a := p + x + "/" + u + q;
    var b := p + y + "/" + v + q;
    assert a == p + x + "/" + (u + q) && b == p + y + "/" + (v + q);
    SlashAfterDigits(p, x, u + q);
    SlashAfterDigits(p, y, v + q);
    assert |x| == |y|;
    assert x == a[|p|..|p| + |x|] && y == b[|p|..|p| + |y|];
    var k := |p| + |x| + 1;
    assert u == a[k..|a| - |q|] && v == b[k..|b| - |q|];
  }

  /** Right after a run of digits comes the first slash. */
  lemma SlashAfterDigits(p: string, x: string, r: string)
    requires JsText.AllDigits(x)
    ensures var s := p + x + "/" + r;
      s[|p| + |x|] == '/' && forall i :: |p| <= i < |p| + |x| ==> s[i] != '/'
  {
    var s := p + x + "/" + r;
    forall i | |p| <= i < |p| + |x|
      ensures s[i] != '/'
    {
      assert s[i] == x[i - |p|];
    }
  }

  /** Three of eight days completed, the fourth day current: the texts the linear view shows */
  lemma LinearTextsExample()
    ensures ProgressText([0, 1, 2], 8) == "进度: 3/8 天"
    ensures CurrentDayText(3) == "当前: 第4天"
    ensures ProgressText([], 8) == "进度: 0/8 天"
    ensures CurrentDayText(0) == "当前: 第1天"
  {
  }
}
