/** The analytics of utils/statsUtils.ts: counts over the task list and over
    the day metadata, and the rating streak. Today's date, the dates of the
    days before it and the weekday of a date come from the clock and are
    parameters; `dayBefore(i)` is the date `i` days before today. */
module Stats {
  import opened Types
  import opened Strings
  import opened Seqs
  import opened DateUtils
  import TodoList
  import TodoItem

  // ---- status distribution ----

  datatype StatusCounts = StatusCounts(completed: nat, active: nat, missed: nat)

  /** Not completed, and dated before today. */
  predicate IsMissed(t: Todo, today: string) {
    !IsDone(t) && IsDatePast(t.dateString, today)
  }

  /** Not completed, and dated today or later. */
  predicate IsActive(t: Todo, today: string) {
    !IsDone(t) && !IsDatePast(t.dateString, today)
  }

  /** `getStatusDistribution`: each task counts once, as completed, as missed
      when not completed and past, or else as active. */
  function StatusDistribution(todos: seq<Todo>, today: string): (r: StatusCounts)
    ensures r.completed + r.active + r.missed == |todos|
    ensures r.completed == Count(todos, IsDone)
    ensures r.missed == Count(todos, (t: Todo) => IsMissed(t, today))
    ensures r.active == Count(todos, (t: Todo) => IsActive(t, today))
  {
    if |todos| == 0 then StatusCounts(0, 0, 0)
    else
      var rest := StatusDistribution(todos[1..], today);
      var t := todos[0];
      if IsDone(t) then rest.(completed := rest.completed + 1)
      else if IsDatePast(t.dateString, today) then rest.(missed := rest.missed + 1)
      else rest.(active := rest.active + 1)
  }

  /** The chart and the task rows agree: the missed slice counts the rows that
      show missed, the completed slice the rows that show done. */
  lemma DistributionMatchesRows(todos: seq<Todo>, today: string)
    ensures StatusDistribution(todos, today).missed ==
      Count(todos, (t: Todo) => TodoItem.ItemLook(IsDatePast(t.dateString, today), t.status) == TodoItem.Missed)
    ensures StatusDistribution(todos, today).completed ==
      Count(todos, (t: Todo) => TodoItem.ItemLook(IsDatePast(t.dateString, today), t.status) in {TodoItem.PastDone, TodoItem.Done})
  {
    FilterCongruent(todos, (t: Todo) => IsMissed(t, today),
      (t: Todo) => TodoItem.ItemLook(IsDatePast(t.dateString, today), t.status) == TodoItem.Missed);
    FilterCongruent(todos, IsDone,
      (t: Todo) => TodoItem.ItemLook(IsDatePast(t.dateString, today), t.status) in {TodoItem.PastDone, TodoItem.Done});
  }

  // ---- the last seven days ----

  datatype DayPerformance = DayPerformance(date: string, completed: nat, missed: nat, total: nat)

  /** One bar of `getLast7DaysPerformance`: the tasks of `date`, how many of
      them are completed, and the rest. */
  function DayPerf(todos: seq<Todo>, date: string): (r: DayPerformance)
    ensures r.date == date
    ensures r.total == Count(todos, (t: Todo) => t.dateString == date)
    ensures r.completed == Count(todos, (t: Todo) => t.dateString == date && IsDone(t))
    ensures r.completed + r.missed == r.total
  {
    var day := Filter(todos, (t: Todo) => t.dateString == date);
    var completed := Count(day, IsDone);
    FilterFilter(todos, (t: Todo) => t.dateString == date, IsDone, (t: Todo) => t.dateString == date && IsDone(t));
    DayPerformance(date, completed, |day| - completed, |day|)
  }

  /** The `missed` part of a bar is exactly the day's tasks that are not
      completed. */
  lemma DayMissedAreNotDone(todos: seq<Todo>, date: string)
    ensures DayPerf(todos, date).missed == Count(todos, (t: Todo) => t.dateString == date && !IsDone(t))
  {
    var day := Filter(todos, (t: Todo) => t.dateString == date);
    FilterPartition(day, IsDone, (t: Todo) => !IsDone(t));
    FilterFilter(todos, (t: Todo) => t.dateString == date, (t: Todo) => !IsDone(t),
      (t: Todo) => t.dateString == date && !IsDone(t));
  }

  /** `getLast7DaysPerformance`: seven bars, six days ago first, today last. */
  function Last7DaysPerformance(todos: seq<Todo>, dayBefore: nat -> string): (r: seq<DayPerformance>)
    ensures |r| == 7
    ensures forall i | 0 <= i < 7 :: r[i].date == dayBefore(6 - i)
    ensures forall i | 0 <= i < 7 ::
      && r[i].total == Count(todos, (t: Todo) => t.dateString == dayBefore(6 - i))
      && r[i].completed == Count(todos, (t: Todo) => t.dateString == dayBefore(6 - i) && IsDone(t))
      && r[i].completed + r[i].missed == r[i].total
  {
    seq(7, i requires 0 <= i < 7 => DayPerf(todos, dayBefore(6 - i)))
  }

  // ---- volume trend ----

  datatype VolumePoint = VolumePoint(date: string, count: nat)

  function DateStrings(todos: seq<Todo>): (r: seq<string>)
    ensures |r| == |todos|
    ensures forall i | 0 <= i < |todos| :: r[i] == todos[i].dateString
  {
    seq(|todos|, i requires 0 <= i < |todos| => todos[i].dateString)
  }

  /** `slice(-n)`: the last `n` elements, or all of them when there are fewer. */
  function LastN<T>(s: seq<T>, n: nat): (r: seq<T>)
    ensures |r| == if |s| > n then n else |s|
    ensures r == s[|s| - |r|..]
  {
    if |s| > n then s[|s| - n..] else s
  }

  /** A task on the date makes the date's count positive. */
  lemma CountPositive(todos: seq<Todo>, t: Todo)
    requires t in todos
    ensures Count(todos, (x: Todo) => x.dateString == t.dateString) >= 1
  {
    assert t in Filter(todos, (x: Todo) => x.dateString == t.dateString);
  }

  /** The dates the trend shows: the latest fourteen dates that have tasks. */
  function VolumeDates(todos: seq<Todo>): seq<string> {
    LastN(SortedDates(DateStrings(todos), false), 14)
  }

  /** The shown dates are at most fourteen, ascending, and each has a task. */
  lemma VolumeDatesFacts(todos: seq<Todo>)
    ensures |VolumeDates(todos)| <= 14
    ensures forall i, j | 0 <= i < j < |VolumeDates(todos)| :: LexLess(VolumeDates(todos)[i], VolumeDates(todos)[j])
    ensures forall i | 0 <= i < |VolumeDates(todos)| ::
      Count(todos, (t: Todo) => t.dateString == VolumeDates(todos)[i]) >= 1
  {
    var dates := SortedDates(DateStrings(todos), false);
    var sliced := VolumeDates(todos);
    forall i | 0 <= i < |sliced|
      ensures Count(todos, (t: Todo) => t.dateString == sliced[i]) >= 1
    {
      assert sliced[i] == dates[|dates| - |sliced| + i];
      assert sliced[i] in DateStrings(todos);
      var k :| 0 <= k < |todos| && DateStrings(todos)[k] == sliced[i];
      CountPositive(todos, todos[k]);
    }
  }

  /** `getTaskVolumeTrend`: the number of tasks on each of the latest fourteen
      dates that have tasks, earliest of them first. */
  function TaskVolumeTrend(todos: seq<Todo>): (r: seq<VolumePoint>)
    ensures |r| <= 14
    ensures forall i, j | 0 <= i < j < |r| :: LexLess(r[i].date, r[j].date)
    ensures forall i | 0 <= i < |r| ::
      r[i].count == Count(todos, (t: Todo) => t.dateString == r[i].date) && r[i].count >= 1
    ensures |r| == |VolumeDates(todos)| && forall i | 0 <= i < |r| :: r[i].date == VolumeDates(todos)[i]
  {
    var sliced := VolumeDates(todos);
    VolumeDatesFacts(todos);
    seq(|sliced|, i requires 0 <= i < |sliced| =>
      VolumePoint(sliced[i], Count(todos, (t: Todo) => t.dateString == sliced[i])))
  }

  /** In an ascending list, an element is among the last fourteen or comes
      before all fourteen of them. */
  lemma LastNCovers(dates: seq<string>, k: nat)
    requires k < |dates|
    requires forall i, j | 0 <= i < j < |dates| :: LexLess(dates[i], dates[j])
    ensures var r := LastN(dates, 14);
      || (exists i | 0 <= i < |r| :: r[i] == dates[k])
      || (|r| == 14 && LexLess(dates[k], r[0]))
  {
    var r := LastN(dates, 14);
    var off := |dates| - |r|;
    if k >= off {
      assert r[k - off] == dates[k];
    } else {
      assert r[0] == dates[off];
    }
  }

  /** Every date that has tasks is shown, unless fourteen later dates are. */
  lemma VolumeTrendCoversLatestDates(todos: seq<Todo>, t: Todo)
    requires t in todos
    ensures var r := TaskVolumeTrend(todos);
      || (exists i | 0 <= i < |r| :: r[i].date == t.dateString)
      || (|r| == 14 && LexLess(t.dateString, r[0].date))
  {
    var dates := SortedDates(DateStrings(todos), false);
    var k0 :| 0 <= k0 < |todos| && todos[k0] == t;
    assert DateStrings(todos)[k0] == t.dateString;
    assert t.dateString in dates;
    var k :| 0 <= k < |dates| && dates[k] == t.dateString;
    LastNCovers(dates, k);
    var shown := VolumeDates(todos);
    var r := TaskVolumeTrend(todos);
    if exists i | 0 <= i < |shown| :: shown[i] == t.dateString {
      var i :| 0 <= i < |shown| && shown[i] == t.dateString;
      assert r[i].date == t.dateString;
    }
  }

  // ---- weekday efficiency ----

  /** A day of the week, Sunday = 0, as `getDay` returns it. */
  type Weekday = d: int | 0 <= d < 7

  const DayNames: seq<string> := ["Sun", "Mon", "Tue", "Wed", "Thu", "Fri", "Sat"]

  datatype DayTally = DayTally(total: nat, completed: nat)

  /** The `forEach` of `getDayEfficiency`: each task adds one to the total of
      its weekday, and one to that day's completed count when completed. The
      additions commute, so they are made from the front here. */
  function Tally(todos: seq<Todo>, weekdayOf: string -> Weekday): (r: seq<DayTally>)
    ensures |r| == 7
    ensures forall d | 0 <= d < 7 :: r[d].completed <= r[d].total
  {
    if |todos| == 0 then seq(7, _ => DayTally(0, 0))
    else
      var rest := Tally(todos[1..], weekdayOf);
      var t := todos[0];
      var d := weekdayOf(t.dateString);
      rest[d := DayTally(rest[d].total + 1, rest[d].completed + if IsDone(t) then 1 else 0)]
  }

  /** Each weekday's tally is the number of tasks on that weekday, and of
      those the completed ones. */
  lemma {:induction false} TallyCounts(todos: seq<Todo>, weekdayOf: string -> Weekday, d: Weekday)
    ensures Tally(todos, weekdayOf)[d].total == Count(todos, (t: Todo) => weekdayOf(t.dateString) == d)
    ensures Tally(todos, weekdayOf)[d].completed == Count(todos, (t: Todo) => weekdayOf(t.dateString) == d && IsDone(t))
  {
    if |todos| > 0 {
      TallyCounts(todos[1..], weekdayOf, d);
    }
  }

  function SumTotals(ts: seq<DayTally>): nat {
    if |ts| == 0 then 0 else ts[0].total + SumTotals(ts[1..])
  }

  lemma {:induction false} SumTotalsUpdate(ts: seq<DayTally>, d: int, x: DayTally)
    requires 0 <= d < |ts|
    ensures SumTotals(ts[d := x]) + ts[d].total == SumTotals(ts) + x.total
  {
    if d > 0 {
      assert ts[d := x][1..] == ts[1..][d - 1 := x];
      SumTotalsUpdate(ts[1..], d - 1, x);
    }
  }

  lemma {:induction false} SumTotalsZero(ts: seq<DayTally>)
    requires forall i | 0 <= i < |ts| :: ts[i].total == 0
    ensures SumTotals(ts) == 0
  {
    if |ts| > 0 {
      SumTotalsZero(ts[1..]);
    }
  }

  /** Every task lands on exactly one weekday: the totals add up to the list. */
  lemma {:induction false} TallyTotalsSum(todos: seq<Todo>, weekdayOf: string -> Weekday)
    ensures SumTotals(Tally(todos, weekdayOf)) == |todos|
  {
    if |todos| == 0 {
      SumTotalsZero(Tally(todos, weekdayOf));
    } else {
      var rest := Tally(todos[1..], weekdayOf);
      TallyTotalsSum(todos[1..], weekdayOf);
      var d := weekdayOf(todos[0].dateString);
      SumTotalsUpdate(rest, d, DayTally(rest[d].total + 1, rest[d].completed + if IsDone(todos[0]) then 1 else 0));
    }
  }

  /** `Math.round(c / t * 100)` in exact arithmetic, half-way values rounding
      up, and 0 for an empty total. */
  function Percent(c: nat, t: nat): (r: nat)
    ensures t == 0 ==> r == 0
    ensures c <= t ==> r <= 100
    ensures 0 < t && c == t ==> r == 100
    ensures c == 0 ==> r == 0
  {
    if t == 0 then 0
    else
      PercentBounds(c, t);
      (200 * c + t) / (2 * t)
  }

  lemma PercentBounds(c: nat, t: nat)
    requires t > 0
    ensures c <= t ==> (200 * c + t) / (2 * t) <= 100
    ensures c == t ==> (200 * c + t) / (2 * t) == 100
    ensures c == 0 ==> (200 * c + t) / (2 * t) == 0
  {
    var a, b := 200 * c + t, 2 * t;
    var r := a / b;
    DivisionBounds(a, b);
    if c <= t {
      QuotientBelow(a, b, r, 101);
    }
    if c == t {
      QuotientAbove(a, b, r, 100);
    }
    if c == 0 {
      QuotientBelow(a, b, r, 1);
    }
  }

  lemma DivisionBounds(a: nat, b: nat)
    requires b > 0
    ensures b * (a / b) <= a < b * (a / b + 1)
  {
  }

  /** A quotient `q` of `a` by `b` with `a < b * m` is below `m`. */
  lemma QuotientBelow(a: nat, b: nat, q: nat, m: nat)
    requires b > 0 && b * q <= a && a < b * m
    ensures q < m
  {
    if q >= m {
      MulMonotone(b, m, q);
    }
  }

  /** A quotient `q` of `a` by `b` with `a < b * (q + 1)` and `b * m <= a` is at least `m`. */
  lemma QuotientAbove(a: nat, b: nat, q: nat, m: nat)
    requires b > 0 && a < b * (q + 1) && b * m <= a
    ensures q >= m
  {
    if q < m {
      MulMonotone(b, q + 1, m);
    }
  }

  lemma MulMonotone(b: nat, x: nat, y: nat)
    requires x <= y
    ensures b * x <= b * y
  {
  }

  /** The percentage is the integer nearest to `100 c / t`, half-way rounding up. */
  lemma PercentIsNearest(c: nat, t: nat)
    requires t > 0
    ensures 2 * t * Percent(c, t) <= 200 * c + t < 2 * t * (Percent(c, t) + 1)
  {
    DivisionBounds(200 * c + t, 2 * t);
  }

  datatype Efficiency = Efficiency(subject: string, efficiency: nat)

  /** `getDayEfficiency`: one entry per weekday, Sunday first. */
  function DayEfficiency(todos: seq<Todo>, weekdayOf: string -> Weekday): (r: seq<Efficiency>)
    ensures |r| == 7
    ensures forall d | 0 <= d < 7 :: r[d].subject == DayNames[d] && r[d].efficiency <= 100
    ensures forall d: Weekday | Count(todos, (t: Todo) => weekdayOf(t.dateString) == d) == 0 :: r[d].efficiency == 0
    ensures forall d: Weekday |
      Count(todos, (t: Todo) => weekdayOf(t.dateString) == d && IsDone(t)) == Count(todos, (t: Todo) => weekdayOf(t.dateString) == d) > 0
      :: r[d].efficiency == 100
    ensures forall d: Weekday :: r[d].efficiency == Percent(
      Count(todos, (t: Todo) => weekdayOf(t.dateString) == d && IsDone(t)),
      Count(todos, (t: Todo) => weekdayOf(t.dateString) == d))
  {
    var tally := Tally(todos, weekdayOf);
    forall d: Weekday
      ensures tally[d].total == Count(todos, (t: Todo) => weekdayOf(t.dateString) == d)
      ensures tally[d].completed == Count(todos, (t: Todo) => weekdayOf(t.dateString) == d && IsDone(t))
    {
      TallyCounts(todos, weekdayOf, d);
    }
    seq(7, d requires 0 <= d < 7 => Efficiency(DayNames[d], Percent(tally[d].completed, tally[d].total)))
  }

  // ---- satisfaction ----

  datatype Satisfaction = Satisfaction(good: nat, neutral: nat, bad: nat)

  /** The days whose rating is `rating`. */
  function RatedWith(meta: Metadata, rating: DailyRating): set<string> {
    set d | d in meta && meta[d].rating == Some(rating)
  }

  /** The days that carry any rating. */
  function RatedDays(meta: Metadata): set<string> {
    set d | d in meta && meta[d].rating.Some?
  }

  /** `getSatisfactionTrends`: the number of days rated GOOD, NEUTRAL and BAD. */
  function SatisfactionTrends(meta: Metadata): (r: Satisfaction)
    ensures r.good == |RatedWith(meta, Good)| && r.neutral == |RatedWith(meta, Neutral)| && r.bad == |RatedWith(meta, Bad)|
    ensures r.good + r.neutral + r.bad == |RatedDays(meta)|
    ensures |RatedDays(meta)| <= |meta|
  {
    var g, n, b := RatedWith(meta, Good), RatedWith(meta, Neutral), RatedWith(meta, Bad);
    RatedDaysSplit(meta);
    DisjointUnion(g, n);
    DisjointUnion(g + n, b);
    SubsetSize(RatedDays(meta), meta.Keys);
    Satisfaction(|g|, |n|, |b|)
  }

  /** The rated days are the days of the three ratings, which do not overlap. */
  lemma RatedDaysSplit(meta: Metadata)
    ensures RatedDays(meta) == RatedWith(meta, Good) + RatedWith(meta, Neutral) + RatedWith(meta, Bad)
    ensures RatedWith(meta, Good) * RatedWith(meta, Neutral) == {}
    ensures (RatedWith(meta, Good) + RatedWith(meta, Neutral)) * RatedWith(meta, Bad) == {}
    ensures RatedDays(meta) <= meta.Keys
  {
    forall d | d in RatedDays(meta)
      ensures d in RatedWith(meta, Good) + RatedWith(meta, Neutral) + RatedWith(meta, Bad)
    {
      match meta[d].rating.value
      case Good =>
      case Neutral =>
      case Bad =>
    }
  }

  lemma DisjointUnion(a: set<string>, b: set<string>)
    requires a * b == {}
    ensures |a + b| == |a| + |b|
  {
  }

  lemma SubsetSize(a: set<string>, b: set<string>)
    requires a <= b
    ensures |a| <= |b|
  {
    assert b == a + (b - a);
    DisjointUnion(a, b - a);
  }

  /** Rating a day moves exactly that day between the counts: the same rating
      again takes it out, a new rating puts it in and takes it out of the
      others. */
  lemma RateDayMovesOneDay(meta: Metadata, date: string, rating: DailyRating, other: DailyRating)
    requires other != rating
    ensures var after := TodoList.RateDay(meta, date, rating);
      && (DayOf(meta, date).rating == Some(rating) ==> RatedWith(after, rating) == RatedWith(meta, rating) - {date})
      && (DayOf(meta, date).rating != Some(rating) ==> RatedWith(after, rating) == RatedWith(meta, rating) + {date})
      && RatedWith(after, other) == RatedWith(meta, other) - {date}
  {
  }

  // ---- priority breakdown ----

  datatype PriorityRow = PriorityRow(name: string, total: nat, completed: nat, completionRate: nat)

  /** One bar of `getPriorityStats`. */
  function PriorityRowOf(todos: seq<Todo>, p: Priority): (r: PriorityRow)
    ensures r.name == TodoItem.PriorityLabel(p)
    ensures r.total == Count(todos, (t: Todo) => t.priority == p)
    ensures r.completed == Count(todos, (t: Todo) => t.priority == p && IsDone(t))
    ensures r.completed <= r.total <= |todos| && r.completionRate <= 100
    ensures r.total == 0 ==> r.completionRate == 0
    ensures r.completionRate == Percent(r.completed, r.total)
  {
    var total := Count(todos, (t: Todo) => t.priority == p);
    var completed := Count(todos, (t: Todo) => t.priority == p && IsDone(t));
    CountMonotone(todos, (t: Todo) => t.priority == p && IsDone(t), (t: Todo) => t.priority == p);
    PriorityRow(TodoItem.PriorityLabel(p), total, completed, Percent(completed, total))
  }

  /** The order of the bars of `getPriorityStats`. */
  const BarOrder: seq<Priority> := [High, Medium, Low]

  /** `getPriorityStats`: HIGH, MED and LOW bars. */
  function PriorityStats(todos: seq<Todo>): (r: seq<PriorityRow>)
    ensures |r| == 3
    ensures r[0].name == "HIGH" && r[1].name == "MED" && r[2].name == "LOW"
    ensures forall i | 0 <= i < 3 ::
      && r[i].total == Count(todos, (t: Todo) => t.priority == BarOrder[i])
      && r[i].completed == Count(todos, (t: Todo) => t.priority == BarOrder[i] && IsDone(t))
      && r[i].completionRate == Percent(r[i].completed, r[i].total)
    ensures forall i | 0 <= i < 3 ::
      r[i].completed <= r[i].total <= |todos| && r[i].completionRate <= 100 &&
      (r[i].total == 0 ==> r[i].completionRate == 0)
  {
    [PriorityRowOf(todos, High), PriorityRowOf(todos, Medium), PriorityRowOf(todos, Low)]
  }

  /** Every task is in exactly one bar: the totals add up to the list and the
      completed counts to the completed tasks. */
  lemma PriorityTotalsSum(todos: seq<Todo>)
    ensures var r := PriorityStats(todos);
      && r[0].total + r[1].total + r[2].total == |todos|
      && r[0].completed + r[1].completed + r[2].completed == Count(todos, IsDone)
  {
    RowTotalsSum(todos);
    assert PriorityStats(todos) == [PriorityRowOf(todos, High), PriorityRowOf(todos, Medium), PriorityRowOf(todos, Low)];
  }

  lemma {:induction false} RowTotalsSum(todos: seq<Todo>)
    ensures PriorityRowOf(todos, High).total + PriorityRowOf(todos, Medium).total + PriorityRowOf(todos, Low).total == |todos|
    ensures PriorityRowOf(todos, High).completed + PriorityRowOf(todos, Medium).completed
          + PriorityRowOf(todos, Low).completed == Count(todos, IsDone)
  {
    if |todos| > 0 {
      RowTotalsSum(todos[1..]);
    }
  }

  /** A stored task without a priority is counted in the LOW bar once loaded. */
  lemma MissingPriorityCountsAsLow(raws: seq<RawTodo>)
    ensures PriorityStats(TodoList.MigrateAll(raws))[2].total ==
      Count(raws, (x: RawTodo) => x.priority == None || x.priority == Some(Low))
  {
    LowRowCountsMissing(raws);
    assert PriorityStats(TodoList.MigrateAll(raws))[2] == PriorityRowOf(TodoList.MigrateAll(raws), Low);
  }

  lemma {:induction false} LowRowCountsMissing(raws: seq<RawTodo>)
    ensures PriorityRowOf(TodoList.MigrateAll(raws), Low).total ==
      Count(raws, (x: RawTodo) => x.priority == None || x.priority == Some(Low))
  {
    if |raws| > 0 {
      LowRowCountsMissing(raws[1..]);
      assert TodoList.MigrateAll(raws)[1..] == TodoList.MigrateAll(raws[1..]);
    }
  }

  // ---- streak ----

  /** A day counts for the streak when it carries a rating. */
  predicate Rated(meta: Metadata, date: string) {
    date in meta && meta[date].rating.Some?
  }

  /** The number of consecutive rated days from `i` days back, within the
      365-day window. */
  function RunFrom(meta: Metadata, dayBefore: nat -> string, i: nat): (r: nat)
    ensures r <= 365 - i || i > 365
    decreases 365 - i
  {
    if i >= 365 || !Rated(meta, dayBefore(i)) then 0
    else 1 + RunFrom(meta, dayBefore, i + 1)
  }

  /** The streak: today counts when rated and is skipped otherwise; then the
      run of rated days from yesterday back. */
  function Streak(meta: Metadata, dayBefore: nat -> string): nat {
    (if Rated(meta, dayBefore(0)) then 1 else 0) + RunFrom(meta, dayBefore, 1)
  }

  /** `calculateStreak`: walks back from today for at most 365 days. */
  method CalculateStreak(meta: Metadata, dayBefore: nat -> string) returns (streak: nat)
    ensures streak == Streak(meta, dayBefore)
    ensures streak <= 365
  {
    streak := 0;
    var i := 0;
    while i < 365
      invariant 0 <= i <= 365
      invariant streak <= i
      invariant i == 0 ==> streak == 0
      invariant i >= 1 ==> streak + RunFrom(meta, dayBefore, i) == Streak(meta, dayBefore)
    {
      if Rated(meta, dayBefore(i)) {
        streak := streak + 1;
      } else if i == 0 {
      } else {
        break;
      }
      i := i + 1;
    }
  }

  /** An unrated earlier day ends the streak: no day at or beyond it counts. */
  lemma {:induction false} StreakStopsAtGap(meta: Metadata, dayBefore: nat -> string, k: nat)
    requires 1 <= k < 365 && !Rated(meta, dayBefore(k))
    ensures Streak(meta, dayBefore) <= k
  {
    RunStopsAtGap(meta, dayBefore, 1, k);
  }

  lemma {:induction false} RunStopsAtGap(meta: Metadata, dayBefore: nat -> string, i: nat, k: nat)
    requires i <= k < 365 && !Rated(meta, dayBefore(k))
    ensures RunFrom(meta, dayBefore, i) <= k - i
    decreases k - i
  {
    if i < k && Rated(meta, dayBefore(i)) {
      RunStopsAtGap(meta, dayBefore, i + 1, k);
    }
  }

  /** Rated days from yesterday back to `k` days ago count in full, whether or
      not today is rated yet. */
  lemma {:induction false} StreakCountsRun(meta: Metadata, dayBefore: nat -> string, k: nat)
    requires k < 365
    requires forall j | 1 <= j <= k :: Rated(meta, dayBefore(j))
    ensures Streak(meta, dayBefore) >= k
  {
    RunCounts(meta, dayBefore, 1, k);
  }

  lemma {:induction false} RunCounts(meta: Metadata, dayBefore: nat -> string, i: nat, k: nat)
    requires 1 <= i && k < 365
    requires forall j | i <= j <= k :: Rated(meta, dayBefore(j))
    ensures RunFrom(meta, dayBefore, i) >= k - i + 1 || i > k
    decreases k + 1 - i
  {
    if i <= k {
      RunCounts(meta, dayBefore, i + 1, k);
    }
  }
}
