/**
 * The report: today's per-task minutes (a map and a filter over the task
 * rows), this week's total (a summing loop), and the weekday arithmetic that
 * finds the most recent Monday. Times are integers in milliseconds, so the
 * 0.1-minute floor is exactly 6000 ms and no floating point is needed.
 */
module Report {
  import opened Wrappers
  import opened Records
  import TodoList

  /** The columns the today query selects: `id, title, started_at, ended_at`. */
  datatype TodayRow = TodayRow(id: Id, title: string, startedAt: Option<Time>, endedAt: Option<Time>)

  /** The columns the weekly query selects: `started_at, ended_at`. */
  datatype Log = Log(startedAt: Option<Time>, endedAt: Option<Time>)

  /** A slice of the today chart: the task title and its minutes, held in ms. */
  datatype Entry = Entry(name: string, valueMs: int)

  /** The one slice of the weekly chart, with its total in ms. */
  datatype WeekEntry = WeekEntry(name: string, totalMs: int)

  const MsPerMinute: int := 60000

  /** `Math.max(value, 0.1)` on minutes is a floor of 6000 ms. */
  const MinVisibleMs: int := 6000

  function Max(a: int, b: int): int {
    if a >= b then a else b
  }

  /** `t.started_at && t.ended_at`: both ends of the work interval are set. */
  predicate IsClosed(startedAt: Option<Time>, endedAt: Option<Time>) {
    startedAt.Some? && endedAt.Some?
  }

  // ---------------------------------------------------------------------------
  // Today

  /** The `map` callback: the elapsed time of a closed interval floored to the
      visible minimum (so a reversed interval still shows), 0 otherwise. */
  function EntryOf(t: TodayRow): (e: Entry)
    ensures e.name == t.title
    ensures !IsClosed(t.startedAt, t.endedAt) ==> e.valueMs == 0
    ensures IsClosed(t.startedAt, t.endedAt) ==>
      var d := t.endedAt.value - t.startedAt.value;
      && e.valueMs >= MinVisibleMs && e.valueMs >= d
      && (d >= MinVisibleMs ==> e.valueMs == d)
      && (d < MinVisibleMs ==> e.valueMs == MinVisibleMs)
  {
    var value := if IsClosed(t.startedAt, t.endedAt)
      then Max(t.endedAt.value - t.startedAt.value, MinVisibleMs)
      else 0;
    Entry(t.title, value)
  }

  /** `rows.map(EntryOf)`. */
  function MapEntries(ts: seq<TodayRow>): (r: seq<Entry>)
    ensures |r| == |ts|
    ensures forall i :: 0 <= i < |ts| ==> r[i] == EntryOf(ts[i])
  {
    if ts == [] then [] else [EntryOf(ts[0])] + MapEntries(ts[1..])
  }

  /** `.filter(t => t.value > 0)`: exactly the positive entries. */
  function KeepPositive(es: seq<Entry>): (r: seq<Entry>)
    ensures |r| <= |es|
    ensures forall e :: e in r ==> e in es && e.valueMs > 0
    ensures forall e :: e in es && e.valueMs > 0 ==> e in r
  {
    if es == [] then []
    else if es[0].valueMs > 0 then [es[0]] + KeepPositive(es[1..])
    else KeepPositive(es[1..])
  }

  /** The filter keeps input order: filtering a concatenation is the
      concatenation of the filtered parts. */
  lemma {:induction false} KeepPositiveAppend(a: seq<Entry>, b: seq<Entry>)
    ensures KeepPositive(a + b) == KeepPositive(a) + KeepPositive(b)
  {
    if a != [] {
      assert (a + b)[0] == a[0];
      assert (a + b)[1..] == a[1..] + b;
      KeepPositiveAppend(a[1..], b);
    } else {
      assert a + b == b;
    }
  }

  /** `todayData`: map, then filter; at most one entry per row, each with a
      positive value. */
  function TodayEntries(ts: seq<TodayRow>): (r: seq<Entry>)
    ensures |r| <= |ts|
    ensures forall e :: e in r ==> e.valueMs > 0
  {
    KeepPositive(MapEntries(ts))
  }

  /** The rows with both timestamps set, in input order: none is dropped. */
  function ClosedRows(ts: seq<TodayRow>): (r: seq<TodayRow>)
    ensures |r| <= |ts|
    ensures forall t :: t in ts && IsClosed(t.startedAt, t.endedAt) ==> t in r
  {
    if ts == [] then []
    else if IsClosed(ts[0].startedAt, ts[0].endedAt) then [ts[0]] + ClosedRows(ts[1..])
    else ClosedRows(ts[1..])
  }

  /** The today chart holds one entry per row with both timestamps, in input
      order, and nothing for any other row. */
  lemma {:induction false} TodayEntriesAreClosedRows(ts: seq<TodayRow>)
    ensures TodayEntries(ts) == MapEntries(ClosedRows(ts))
  {
    if ts != [] {
      TodayEntriesAreClosedRows(ts[1..]);
      assert MapEntries(ts)[1..] == MapEntries(ts[1..]);
      if IsClosed(ts[0].startedAt, ts[0].endedAt) {
        assert MapEntries([ts[0]] + ClosedRows(ts[1..]))[1..] == MapEntries(ClosedRows(ts[1..]));
      }
    }
  }

  /** Every kept value is at least 0.1 minute. */
  lemma TodayEntriesAreVisible(ts: seq<TodayRow>, e: Entry)
    requires e in TodayEntries(ts)
    ensures e.valueMs >= MinVisibleMs
  {
    TodayEntriesAreClosedRows(ts);
    ClosedRowsAreClosed(ts);
  }

  lemma {:induction false} ClosedRowsAreClosed(ts: seq<TodayRow>)
    ensures forall t :: t in ClosedRows(ts) ==> t in ts && IsClosed(t.startedAt, t.endedAt)
  {
    if ts != [] {
      ClosedRowsAreClosed(ts[1..]);
    }
  }

  // ---------------------------------------------------------------------------
  // This week

  /** What one row adds to `totalMs`: the raw, unclamped duration of a closed
      interval, and nothing for an open one. */
  function Duration(l: Log): (r: int)
    ensures IsClosed(l.startedAt, l.endedAt) ==> r == l.endedAt.value - l.startedAt.value
    ensures !IsClosed(l.startedAt, l.endedAt) ==> r == 0
  {
    if IsClosed(l.startedAt, l.endedAt) then l.endedAt.value - l.startedAt.value else 0
  }

  /** The sum of the durations, accumulated front to back; rows that are all
      open add up to nothing. */
  function SumDurations(ls: seq<Log>): (r: int)
    ensures (forall i :: 0 <= i < |ls| ==> !IsClosed(ls[i].startedAt, ls[i].endedAt)) ==> r == 0
  {
    if ls == [] then 0 else SumDurations(ls[..|ls| - 1]) + Duration(ls[|ls| - 1])
  }

  /** The `forEach` loop that accumulates `totalMs`. */
  method WeeklyTotalMs(logs: seq<Log>) returns (totalMs: int)
    ensures totalMs == SumDurations(logs)
  {
    totalMs := 0;
    var i := 0;
    while i < |logs|
      invariant 0 <= i <= |logs|
      invariant totalMs == SumDurations(logs[..i])
    {
      var t := logs[i];
      if t.startedAt.Some? && t.endedAt.Some? {
        totalMs := totalMs + (t.endedAt.value - t.startedAt.value);
      }
      i := i + 1;
      assert logs[..i][..i - 1] == logs[..i - 1];
    }
    assert logs[..i] == logs;
  }

  lemma {:induction false} SumAppend(a: seq<Log>, b: seq<Log>)
    ensures SumDurations(a + b) == SumDurations(a) + SumDurations(b)
    decreases |b|
  {
    if b != [] {
      var b' := b[..|b| - 1];
      assert (a + b)[..|a + b| - 1] == a + b';
      SumAppend(a, b');
    } else {
      assert a + b == a;
    }
  }

  /** A row missing either timestamp adds nothing, wherever it stands. */
  lemma OpenRowAddsNothing(a: seq<Log>, l: Log, b: seq<Log>)
    requires !IsClosed(l.startedAt, l.endedAt)
    ensures SumDurations(a + [l] + b) == SumDurations(a + b)
  {
    SumAppend(a + [l], b);
    SumAppend(a, [l]);
    SumAppend(a, b);
    assert SumDurations([l]) == SumDurations([]) + Duration(l);
  }

  /** When no closed interval is reversed the weekly total is not negative. */
  lemma {:induction false} SumNonNegative(ls: seq<Log>)
    requires forall i :: 0 <= i < |ls| ==> Duration(ls[i]) >= 0
    ensures SumDurations(ls) >= 0
  {
    if ls != [] {
      SumNonNegative(ls[..|ls| - 1]);
    }
  }

  /** Reversed intervals are not clamped: they lower the total. */
  lemma ReversedIntervalLowersTotal(a: seq<Log>, l: Log)
    requires IsClosed(l.startedAt, l.endedAt) && l.endedAt.value < l.startedAt.value
    ensures SumDurations(a + [l]) < SumDurations(a)
  {
    assert (a + [l])[..|a + [l]| - 1] == a;
  }

  /** `[{ name: '今週の合計時間 (h)', value }]`: always exactly one slice. */
  function WeekSeries(totalMs: int): (r: seq<WeekEntry>)
    ensures |r| == 1 && r[0].totalMs == totalMs
  {
    [WeekEntry("今週の合計時間 (h)", totalMs)]
  }

  // ---------------------------------------------------------------------------
  // The most recent Monday

  /** `Date.getDay()`: 0 is Sunday, 6 is Saturday. */
  type Weekday = d: int | 0 <= d <= 6

  /** `diff - d.getDate()` in `startOfWeek`: `-day + (day === 0 ? -6 : 1)`,
      the number of days from today back to the most recent Monday. */
  function MondayOffset(day: Weekday): (r: int)
    ensures -6 <= r <= 0
    ensures (day + r) % 7 == 1
    ensures r == -((day + 6) % 7)
  {
    -(day as int) + (if day == 0 then -6 else 1)
  }

  /** That Monday is the most recent one: no later day in the past week is a Monday. */
  lemma MondayOffsetIsMostRecent(day: Weekday, k: int)
    requires -6 <= k <= 0 && (day + k) % 7 == 1
    ensures k == MondayOffset(day)
  {
  }

  // ---------------------------------------------------------------------------
  // Where the rows come from

  /** The today query's columns of a task. */
  function TodayRowOf(t: Todo): (r: TodayRow)
    ensures r.id == t.id && r.title == t.title
    ensures r.startedAt == t.startedAt && r.endedAt == t.endedAt
  {
    TodayRow(t.id, t.title, t.startedAt, t.endedAt)
  }

  /** The weekly query's columns of a task. */
  function LogOf(t: Todo): (r: Log)
    ensures r.startedAt == t.startedAt && r.endedAt == t.endedAt
  {
    Log(t.startedAt, t.endedAt)
  }

  /** Neither aggregation looks at the break columns, so break time is never
      subtracted. */
  lemma BreaksNotSubtracted(t: Todo, bs: Option<Time>, be: Option<Time>)
    ensures EntryOf(TodayRowOf(t.(breakStartedAt := bs, breakEndedAt := be))) == EntryOf(TodayRowOf(t))
    ensures Duration(LogOf(t.(breakStartedAt := bs, breakEndedAt := be))) == Duration(LogOf(t))
  {
  }

  /** The two charts agree on a task: its today value is its weekly duration
      floored to 0.1 minute when both timestamps are set, and 0 otherwise. */
  lemma TodayValueIsFlooredDuration(t: Todo)
    ensures IsClosed(t.startedAt, t.endedAt) ==>
      EntryOf(TodayRowOf(t)).valueMs == Max(Duration(LogOf(t)), MinVisibleMs)
    ensures !IsClosed(t.startedAt, t.endedAt) ==>
      EntryOf(TodayRowOf(t)).valueMs == 0 == Duration(LogOf(t))
  {
  }

  /** A task started at `t0`, on a break from 10 to 15 minutes in and stopped
      at 40 minutes counts 40 minutes in both charts: the break is included. */
  lemma ReadBookScenario(t0: Time)
    ensures
      var m := MsPerMinute;
      var idle := Todo("1", "Read book", None, None, None, None, None, None, None);
      var started := Apply(idle, TodoList.StartPatch(t0));
      var onBreak := Apply(started, TodoList.BreakStartPatch(t0 + 10 * m));
      var back := Apply(onBreak, TodoList.BreakEndPatch(t0 + 15 * m));
      var stopped := Apply(back, TodoList.StopPatch(t0 + 40 * m));
      && TodoList.Start in TodoList.Offered(idle, false)
      && TodoList.BreakStart in TodoList.Offered(started, false)
      && TodoList.BreakEnd in TodoList.Offered(onBreak, false)
      && TodoList.Stop in TodoList.Offered(back, false)
      && TodayEntries([TodayRowOf(stopped)]) == [Entry("Read book", 40 * m)]
      && SumDurations([LogOf(stopped)]) == 40 * m
  {
    var m := MsPerMinute;
    var idle := Todo("1", "Read book", None, None, None, None, None, None, None);
    var started := Apply(idle, TodoList.StartPatch(t0));
    var onBreak := Apply(started, TodoList.BreakStartPatch(t0 + 10 * m));
    var back := Apply(onBreak, TodoList.BreakEndPatch(t0 + 15 * m));
    var stopped := Apply(back, TodoList.StopPatch(t0 + 40 * m));
    assert TodoList.Start in TodoList.Offered(idle, false);
    assert TodoList.BreakStart in TodoList.Offered(started, false);
    assert TodoList.BreakEnd in TodoList.Offered(onBreak, false);
    assert TodoList.Stop in TodoList.Offered(back, false);
    var row := TodayRowOf(stopped);
    assert [row][1..] == [];
    assert MapEntries([row]) == [Entry("Read book", 40 * m)];
    assert [Entry("Read book", 40 * m)][1..] == [];
    var e := Entry("Read book", 40 * m);
    assert e.valueMs > 0;
    assert KeepPositive([e]) == [e] + KeepPositive([]);
    assert TodayEntries([row]) == [e];
    assert [LogOf(stopped)][..0] == [];
    assert SumDurations([LogOf(stopped)]) == 40 * m;
  }

  // ---------------------------------------------------------------------------
  // The component

  /** The report component's state: the two chart series. */
  class ReportView {
    var todayData: seq<Entry>
    var weekData: seq<WeekEntry>

    constructor ()
      ensures todayData == [] && weekData == []
    {
      todayData, weekData := [], [];
    }

    /** `fetchReport`, with the session and the two queries' answers as
        inputs: each series is replaced only when its own query succeeds. */
    method FetchReport(session: Session, today: Reply<TodayRow>, week: Reply<Log>)
      modifies this
      ensures session.SignedOut? ==> todayData == old(todayData) && weekData == old(weekData)
      ensures session.SignedIn? ==>
        todayData == if today.Failed? then old(todayData) else TodayEntries(today.rows)
      ensures session.SignedIn? ==>
        weekData == if week.Failed? then old(weekData) else WeekSeries(SumDurations(week.rows))
    {
      if session.SignedOut? {
        return;
      }
      if today.Rows? {
        todayData := TodayEntries(today.rows);
      }
      if week.Rows? {
        var totalMs := WeeklyTotalMs(week.rows);
        weekData := WeekSeries(totalMs);
      }
    }
  }
}
