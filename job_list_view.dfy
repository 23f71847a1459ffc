/** The list view of the jobs page: dated jobs grouped by day, days in ascending order, jobs
    within a day by start time. */
module JobListView {
  import opened Seqs
  import opened Model
  import opened Sorting
  import opened Dicts

  /** `job.startDate || job.deadlineDate` is truthy: the job has a day in the list. */
  predicate IsListed(job: Job) {
    Truthy(job.startDate) || Truthy(job.deadlineDate)
  }

  /** The day a listed job is shown under: its start date, else its deadline. */
  function DateOf(job: Job): string {
    if Truthy(job.startDate) then job.startDate.value else OrElse(job.deadlineDate, "")
  }

  /** `job.startTime || '00:00'`, the key jobs of one day are sorted by. */
  function StartTimeKey(job: Job): string {
    OrElse(job.startTime, "00:00")
  }

  datatype DateGroup = DateGroup(date: string, jobs: seq<Job>)

  function GroupSize(g: DateGroup): nat { |g.jobs| }

  /** The jobs of one day: the listed jobs with that date, sorted stably by start time. */
  function DayJobs(jobs: seq<Job>, date: string): seq<Job> {
    SortBy(StartTimeKey, Filter(KeyIs(DateOf, date), Filter(IsListed, jobs)))
  }

  /** The first phase: each listed job is pushed under its day, in input order. */
  method GroupByDate(jobs: seq<Job>) returns (grouped: Buckets<Job>)
    ensures GroupedByDate(jobs, grouped)
  {
    grouped := NoBuckets<Job>();
    for i := 0 to |jobs|
      invariant Groups(grouped, DateOf, Filter(IsListed, jobs[..i]))
    {
      GroupStep(grouped, DateOf, IsListed, jobs, i);
      var job := jobs[i];
      var dateKey := if Truthy(job.startDate) then job.startDate else job.deadlineDate;
      if Truthy(dateKey) {
        grouped := grouped.Push(dateKey.value, job);
      }
    }
    assert jobs[..|jobs|] == jobs;
  }

  /** `sortedAndGroupedJobs`: grouping, then the days in ascending order, then each day's jobs
      sorted by start time. */
  method SortedAndGroupedJobs(jobs: seq<Job>) returns (result: seq<DateGroup>)
    ensures forall i | 0 <= i < |result| :: result[i].jobs != []
    ensures forall i | 0 <= i < |result| :: result[i].jobs == DayJobs(jobs, result[i].date)
    ensures forall i, j | 0 <= i < j < |result| ::
              LexLe(result[i].date, result[j].date) && result[i].date != result[j].date
    ensures forall job | job in jobs && IsListed(job) ::
              exists i | 0 <= i < |result| :: result[i].date == DateOf(job)
    ensures SumOf(GroupSize, result) == |Filter(IsListed, jobs)|
  {
    var grouped := GroupByDate(jobs);
    var sortedDates := SortBy(Self, grouped.keys);
    result := [];
    for d := 0 to |sortedDates|
      invariant |result| == d
      invariant forall i | 0 <= i < d :: result[i] == DateGroup(sortedDates[i], SortBy(StartTimeKey, grouped.Get(sortedDates[i])))
    {
      var date := sortedDates[d];
      var sortedJobs := SortBy(StartTimeKey, grouped.Get(date));
      result := result + [DateGroup(date, sortedJobs)];
    }
    GroupsNonEmpty(jobs, grouped, result);
    GroupsOrdered(jobs, grouped, result);
    GroupsCoverListed(jobs, grouped, result);
    GroupsTotal(jobs, grouped, result);
  }

  /** What the grouping phase guarantees, as used by the lemmas below. */
  ghost predicate GroupedByDate(jobs: seq<Job>, grouped: Buckets<Job>) {
    Groups(grouped, DateOf, Filter(IsListed, jobs))
  }

  /** What the second phase builds from the grouping. */
  predicate BuiltFrom(grouped: Buckets<Job>, result: seq<DateGroup>) {
    |result| == |SortBy(Self, grouped.keys)|
    && forall i | 0 <= i < |result| ::
         result[i] == DateGroup(SortBy(Self, grouped.keys)[i], SortBy(StartTimeKey, grouped.Get(SortBy(Self, grouped.keys)[i])))
  }

  lemma GroupsNonEmpty(jobs: seq<Job>, grouped: Buckets<Job>, result: seq<DateGroup>)
    requires GroupedByDate(jobs, grouped) && BuiltFrom(grouped, result)
    ensures forall i | 0 <= i < |result| :: result[i].jobs != []
    ensures forall i | 0 <= i < |result| :: result[i].jobs == DayJobs(jobs, result[i].date)
  {
    var sortedDates := SortBy(Self, grouped.keys);
    SortByPerm(Self, grouped.keys);
    forall i | 0 <= i < |result|
      ensures result[i].jobs != [] && result[i].jobs == DayJobs(jobs, result[i].date)
    {
      assert sortedDates[i] in multiset(grouped.keys);
      GroupOfKey(jobs, grouped, sortedDates[i]);
    }
  }

  lemma GroupOfKey(jobs: seq<Job>, grouped: Buckets<Job>, date: string)
    requires GroupedByDate(jobs, grouped) && date in grouped.keys
    ensures SortBy(StartTimeKey, grouped.Get(date)) != []
    ensures SortBy(StartTimeKey, grouped.Get(date)) == DayJobs(jobs, date)
  {
    SortByPerm(StartTimeKey, grouped.Get(date));
  }

  lemma GroupsOrdered(jobs: seq<Job>, grouped: Buckets<Job>, result: seq<DateGroup>)
    requires GroupedByDate(jobs, grouped) && BuiltFrom(grouped, result)
    ensures forall i, j | 0 <= i < j < |result| ::
              LexLe(result[i].date, result[j].date) && result[i].date != result[j].date
  {
    SortDates(grouped.keys);
  }

  lemma GroupsCoverListed(jobs: seq<Job>, grouped: Buckets<Job>, result: seq<DateGroup>)
    requires GroupedByDate(jobs, grouped) && BuiltFrom(grouped, result)
    ensures forall job | job in jobs && IsListed(job) ::
              exists i | 0 <= i < |result| :: result[i].date == DateOf(job)
  {
    var sortedDates := SortBy(Self, grouped.keys);
    SortByPerm(Self, grouped.keys);
    FilterMembers(IsListed, jobs);
    forall job | job in jobs && IsListed(job)
      ensures exists i | 0 <= i < |result| :: result[i].date == DateOf(job)
    {
      assert DateOf(job) in multiset(sortedDates);
      var i :| 0 <= i < |sortedDates| && sortedDates[i] == DateOf(job);
      assert result[i].date == DateOf(job);
    }
  }

  lemma GroupsTotal(jobs: seq<Job>, grouped: Buckets<Job>, result: seq<DateGroup>)
    requires GroupedByDate(jobs, grouped) && BuiltFrom(grouped, result)
    ensures SumOf(GroupSize, result) == |Filter(IsListed, jobs)|
  {
    var sortedDates := SortBy(Self, grouped.keys);
    SortByPerm(Self, grouped.keys);
    SizesAddUp(grouped, DateOf, Filter(IsListed, jobs));
    SumOfPerm(SizeOf(grouped), grouped.keys, sortedDates);
    GroupSizesSum(grouped, sortedDates, result);
  }

  lemma {:induction false} GroupSizesSum(grouped: Buckets<Job>, dates: seq<string>, result: seq<DateGroup>)
    requires |result| == |dates|
    requires forall i | 0 <= i < |result| :: result[i] == DateGroup(dates[i], SortBy(StartTimeKey, grouped.Get(dates[i])))
    ensures SumOf(GroupSize, result) == SumOf(SizeOf(grouped), dates)
  {
    if result != [] {
      var n := |result| - 1;
      GroupSizesSum(grouped, dates[..n], result[..n]);
      SortByPerm(StartTimeKey, grouped.Get(dates[n]));
    }
  }

  /** Sorting distinct day keys gives them strictly ascending, the same keys. */
  lemma SortDates(keys: seq<string>)
    requires Distinct(keys)
    ensures multiset(SortBy(Self, keys)) == multiset(keys)
    ensures forall i, j | 0 <= i < j < |SortBy(Self, keys)| ::
              LexLe(SortBy(Self, keys)[i], SortBy(Self, keys)[j]) && SortBy(Self, keys)[i] != SortBy(Self, keys)[j]
  {
    SortByPerm(Self, keys);
    SortBySorted(Self, keys);
    DistinctPerm(keys, SortBy(Self, keys));
    SortedDistinctStrict(SortBy(Self, keys));
  }

  /** Within a day, jobs are in ascending start-time order, are exactly that day's listed jobs,
      and jobs with equal start times keep their input order. */
  lemma DayJobsOrdered(jobs: seq<Job>, date: string, time: string)
    ensures SortedBy(StartTimeKey, DayJobs(jobs, date))
    ensures multiset(DayJobs(jobs, date)) == multiset(Filter(KeyIs(DateOf, date), Filter(IsListed, jobs)))
    ensures Filter(KeyIs(StartTimeKey, time), DayJobs(jobs, date))
         == Filter(KeyIs(StartTimeKey, time), Filter(KeyIs(DateOf, date), Filter(IsListed, jobs)))
  {
    var day := Filter(KeyIs(DateOf, date), Filter(IsListed, jobs));
    SortBySorted(StartTimeKey, day);
    SortByPerm(StartTimeKey, day);
    SortByStable(StartTimeKey, day, time);
  }

  /** A job is in a day's group exactly when it is listed and dated that day: jobs with neither
      date appear in no group, and every listed job in exactly one. */
  lemma DayJobsMembers(jobs: seq<Job>, date: string, job: Job)
    ensures job in DayJobs(jobs, date) <==> job in jobs && IsListed(job) && DateOf(job) == date
  {
    var day := Filter(KeyIs(DateOf, date), Filter(IsListed, jobs));
    FilterMembers(IsListed, jobs);
    FilterMembers(KeyIs(DateOf, date), Filter(IsListed, jobs));
    SortByPerm(StartTimeKey, day);
    assert job in DayJobs(jobs, date) <==> job in multiset(day);
  }
}
