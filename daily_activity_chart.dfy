/** The activity charts: completions per day in a seven-day window around today, and
    completions per hour of the day. Turning a completion timestamp into its local day and hour
    keys, and today's date plus an offset into a day key, are date-library calls; they are
    parameters here (`dayOf`, `hourOf`, `dayAt`). */
module DailyActivityChart {
  import opened Seqs
  import opened Text
  import opened Model
  import opened Dicts

  /** Counted: checked and with a completion time. */
  predicate IsLogged(t: TodoItem) {
    t.status == Checked && Truthy(t.completedAt)
  }

  function Logged(jobs: seq<Job>): seq<TodoItem> {
    Filter(IsLogged, AllTodos(jobs))
  }

  /** The completion timestamps of the counted todos, in order. */
  function Stamps(todos: seq<TodoItem>): (r: seq<string>)
    ensures |r| == |Filter(IsLogged, todos)|
  {
    if todos == [] then []
    else
      var last := todos[|todos| - 1];
      FilterSnoc(IsLogged, todos[..|todos| - 1], last);
      assert todos[..|todos| - 1] + [last] == todos;
      Stamps(todos[..|todos| - 1]) + (if IsLogged(last) then [last.completedAt.value] else [])
  }

  lemma {:induction false} StampsConcat(s: seq<TodoItem>, u: seq<TodoItem>)
    ensures Stamps(s + u) == Stamps(s) + Stamps(u)
  {
    if u != [] {
      var last := u[|u| - 1];
      assert (s + u)[..|s + u| - 1] == s + u[..|u| - 1];
      StampsConcat(s, u[..|u| - 1]);
    } else {
      assert s + u == s;
    }
  }

  lemma StampsPrefix(todos: seq<TodoItem>, k: nat)
    requires k < |todos|
    ensures Stamps(todos[..k + 1])
         == Stamps(todos[..k]) + (if IsLogged(todos[k]) then [todos[k].completedAt.value] else [])
  {
    assert todos[..k + 1][..k] == todos[..k];
  }

  function CompletionStamps(jobs: seq<Job>): (r: seq<string>)
    ensures |r| == |Logged(jobs)|
  {
    Stamps(AllTodos(jobs))
  }

  /** The nested loop filling `dailyCounts` and `hourlyCounts` from the counted todos' local day
      (`yyyy-MM-dd`) and hour (`HH`) keys. Every counted todo adds one to exactly one day and one
      hour, so both tallies add up to the number of counted todos. */
  method TallyCompletions(jobs: seq<Job>, dayOf: string -> string, hourOf: string -> string)
    returns (dailyCounts: Tally, hourlyCounts: Tally)
    ensures dailyCounts.Valid() && hourlyCounts.Valid()
    ensures forall k :: dailyCounts.Get(k) == |Filter(KeyIs(dayOf, k), CompletionStamps(jobs))|
    ensures forall k :: hourlyCounts.Get(k) == |Filter(KeyIs(hourOf, k), CompletionStamps(jobs))|
    ensures SumOf(CountOf(dailyCounts), dailyCounts.keys) == |Logged(jobs)|
    ensures SumOf(CountOf(hourlyCounts), hourlyCounts.keys) == |Logged(jobs)|
  {
    dailyCounts, hourlyCounts := NoCounts(), NoCounts();
    ghost var stamps: seq<string> := [];
    for i := 0 to |jobs|
      invariant stamps == Stamps(AllTodos(jobs[..i]))
      invariant Tallies(dailyCounts, dayOf, stamps)
      invariant Tallies(hourlyCounts, hourOf, stamps)
    {
      var todos := jobs[i].todos;
      dailyCounts, hourlyCounts := TallyJob(todos, dayOf, hourOf, dailyCounts, hourlyCounts, stamps);
      AllTodosPrefix(jobs, i);
      StampsConcat(AllTodos(jobs[..i]), todos);
      stamps := stamps + Stamps(todos);
    }
    assert jobs[..|jobs|] == jobs;
    CountsAddUp(dailyCounts, dayOf, stamps);
    CountsAddUp(hourlyCounts, hourOf, stamps);
  }

  /** The inner loop, over the todos of one job. */
  method TallyJob(todos: seq<TodoItem>, dayOf: string -> string, hourOf: string -> string,
                  daily0: Tally, hourly0: Tally, ghost stamps0: seq<string>)
    returns (dailyCounts: Tally, hourlyCounts: Tally)
    requires Tallies(daily0, dayOf, stamps0) && Tallies(hourly0, hourOf, stamps0)
    ensures Tallies(dailyCounts, dayOf, stamps0 + Stamps(todos))
    ensures Tallies(hourlyCounts, hourOf, stamps0 + Stamps(todos))
  {
    dailyCounts, hourlyCounts := daily0, hourly0;
    assert stamps0 + Stamps(todos[..0]) == stamps0;
    for k := 0 to |todos|
      invariant Tallies(dailyCounts, dayOf, stamps0 + Stamps(todos[..k]))
      invariant Tallies(hourlyCounts, hourOf, stamps0 + Stamps(todos[..k]))
    {
      var todo := todos[k];
      TallyTodo(dailyCounts, dayOf, stamps0, todos, k);
      TallyTodo(hourlyCounts, hourOf, stamps0, todos, k);
      if todo.status == Checked && Truthy(todo.completedAt) {
        var dateKey := dayOf(todo.completedAt.value);
        var hourKey := hourOf(todo.completedAt.value);
        dailyCounts := dailyCounts.Inc(dateKey);
        hourlyCounts := hourlyCounts.Inc(hourKey);
      }
    }
    assert todos[..|todos|] == todos;
  }

  /** One step of the inner loop for one tally: a counted todo adds its key, any other todo
      leaves the tally as it is. */
  lemma TallyTodo(t: Tally, f: string -> string, stamps0: seq<string>, todos: seq<TodoItem>, k: nat)
    requires k < |todos| && Tallies(t, f, stamps0 + Stamps(todos[..k]))
    ensures IsLogged(todos[k]) ==>
      Tallies(t.Inc(f(todos[k].completedAt.value)), f, stamps0 + Stamps(todos[..k + 1]))
    ensures !IsLogged(todos[k]) ==> Tallies(t, f, stamps0 + Stamps(todos[..k + 1]))
  {
    StampsPrefix(todos, k);
    var before := stamps0 + Stamps(todos[..k]);
    if IsLogged(todos[k]) {
      assert stamps0 + Stamps(todos[..k + 1]) == before + [todos[k].completedAt.value];
      TallyStep(t, f, before, todos[k].completedAt.value);
    } else {
      assert stamps0 + Stamps(todos[..k + 1]) == before;
    }
  }

  datatype DailyActivityData = DailyActivityData(date: string, count: nat)

  /** The `for` loop over offsets -3 to 3: seven entries, in order, each with its day's count or
      0 for a day with no completions. */
  method SevenDayWindow(dailyCounts: Tally, dayAt: int -> string) returns (window: seq<DailyActivityData>)
    ensures |window| == 7
    ensures forall j | 0 <= j < 7 :: window[j].date == dayAt(j - 3)
    ensures forall j | 0 <= j < 7 :: window[j].count == dailyCounts.Get(dayAt(j - 3))
    ensures forall j | 0 <= j < 7 :: dayAt(j - 3) !in dailyCounts.counts ==> window[j].count == 0
  {
    window := [];
    for i := -3 to 4
      invariant |window| == i + 3
      invariant forall j | 0 <= j < i + 3 :: window[j] == DailyActivityData(dayAt(j - 3), dailyCounts.Get(dayAt(j - 3)))
    {
      var dateKey := dayAt(i);
      window := window + [DailyActivityData(dateKey, dailyCounts.Get(dateKey))];
    }
  }

  datatype HourlyActivityData = HourlyActivityData(hour: string, count: nat)

  /** The `HH` key of hour `i`: `String(i).padStart(2, '0')`. */
  function HourKey(i: nat): string { TwoDigits(i) }

  function HourKeys(): (r: seq<string>)
    ensures |r| == 24 && forall i | 0 <= i < 24 :: r[i] == HourKey(i)
  {
    seq(24, i requires 0 <= i < 24 => HourKey(i))
  }

  /** The 24 hour keys are all different. */
  lemma HourKeysDistinct()
    ensures Distinct(HourKeys())
  {
    forall i, j | 0 <= i < j < 24 ensures HourKeys()[i] != HourKeys()[j] {
      if HourKey(i) == HourKey(j) {
        TwoDigitsInjective(i, j);
      }
    }
  }

  /** The hour of `i` on a 12-hour clock: 12 for midnight and noon. */
  function Hour12(i: nat): (h: nat)
    ensures 1 <= h <= 12
    ensures h % 12 == i % 12
  {
    if i % 12 == 0 then 12 else i % 12
  }

  function Meridiem(i: nat): string { if i < 12 then "AM" else "PM" }

  /** The `h:mm a` label of hour `i`. */
  function HourLabel(i: nat): (r: string)
    requires i < 24
    ensures |r| >= 7 && r[|r| - 6..] == ":00 " + Meridiem(i)
  {
    Decimal(Hour12(i)) + ":00 " + Meridiem(i)
  }

  /** Each hour has its own label. */
  lemma HourLabelInjective(i: nat, j: nat)
    requires i < 24 && j < 24 && HourLabel(i) == HourLabel(j)
    ensures i == j
  {
    var l := HourLabel(i);
    LabelParts(i);
    LabelParts(j);
    ParseDecimalOfDecimal(Hour12(i));
    ParseDecimalOfDecimal(Hour12(j));
    MeridiemDecides(i, j);
    Hour12Decides(i, j);
  }

  lemma LabelParts(i: nat)
    requires i < 24
    ensures var l := HourLabel(i);
            l[..|l| - 6] == Decimal(Hour12(i)) && l[|l| - 2..] == Meridiem(i)
  {
    var l := HourLabel(i);
    assert l == Decimal(Hour12(i)) + (":00 " + Meridiem(i));
  }

  lemma MeridiemDecides(i: nat, j: nat)
    requires Meridiem(i) == Meridiem(j)
    ensures (i < 12) == (j < 12)
  {
    assert Meridiem(i)[0] == Meridiem(j)[0];
  }

  lemma Hour12Decides(i: nat, j: nat)
    requires i < 24 && j < 24 && (i < 12) == (j < 12) && Hour12(i) == Hour12(j)
    ensures i == j
  {
  }

  /** `Array.from({ length: 24 }, ...)`: one entry per hour with its label and count. */
  function HourlySeries(hourlyCounts: Tally): (r: seq<HourlyActivityData>)
    ensures |r| == 24
    ensures forall i | 0 <= i < 24 :: r[i].hour == HourLabel(i)
    ensures forall i | 0 <= i < 24 :: r[i].count == hourlyCounts.Get(HourKey(i))
    ensures forall i | 0 <= i < 24 :: HourKey(i) !in hourlyCounts.counts ==> r[i].count == 0
  {
    seq(24, i requires 0 <= i < 24 => HourlyActivityData(HourLabel(i), hourlyCounts.Get(HourKey(i))))
  }

  function EntryCount(h: HourlyActivityData): nat { h.count }

  /** When every completion time formats to one of the 24 hour keys, the hourly chart shows
      every counted todo exactly once: its counts add up to the number of counted todos. */
  lemma HourlySeriesTotal(jobs: seq<Job>, hourOf: string -> string, hourlyCounts: Tally)
    requires forall k :: hourlyCounts.Get(k) == |Filter(KeyIs(hourOf, k), CompletionStamps(jobs))|
    requires forall t | t in CompletionStamps(jobs) :: hourOf(t) in HourKeys()
    ensures SumOf(EntryCount, HourlySeries(hourlyCounts)) == |Logged(jobs)|
  {
    HourKeysDistinct();
    SumOfZip(EntryCount, HourlySeries(hourlyCounts), CountsOf(hourOf, CompletionStamps(jobs)), HourKeys());
    PartitionCount(hourOf, CompletionStamps(jobs), HourKeys());
  }
}
