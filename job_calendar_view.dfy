/** The deadline calendar: jobs bucketed by deadline day, the months to draw, and the largest
    bucket, which scales the bars. */
module JobCalendarView {
  import opened Seqs
  import opened Model
  import opened Sorting
  import opened Dicts

  predicate HasDeadline(job: Job) { Truthy(job.deadlineDate) }

  function DeadlineOf(job: Job): string { OrElse(job.deadlineDate, "") }

  /** The `yyyy-MM` key of a `yyyy-MM-dd` date: its first seven characters. */
  function MonthOf(date: string): (m: string)
    ensures |date| >= 7 ==> |m| == 7 && date == m + date[7..]
  {
    if |date| >= 7 then date[..7] else date
  }

  /** The deadline months of the jobs, one per job with a deadline, in job order. */
  function DeadlineMonths(jobs: seq<Job>): (r: seq<string>)
    ensures |r| == |Filter(HasDeadline, jobs)|
  {
    if jobs == [] then []
    else
      var last := jobs[|jobs| - 1];
      DeadlineMonths(jobs[..|jobs| - 1]) + (if HasDeadline(last) then [MonthOf(DeadlineOf(last))] else [])
  }

  lemma DeadlineMonthsPrefix(jobs: seq<Job>, i: nat)
    requires i < |jobs|
    ensures DeadlineMonths(jobs[..i + 1])
         == DeadlineMonths(jobs[..i]) + (if HasDeadline(jobs[i]) then [MonthOf(DeadlineOf(jobs[i]))] else [])
  {
    assert jobs[..i + 1][..i] == jobs[..i];
  }

  /** A month is a deadline month exactly when some job has its deadline in it. */
  lemma {:induction false} DeadlineMonthsMembers(jobs: seq<Job>, m: string)
    ensures m in DeadlineMonths(jobs) <==> exists j | j in jobs :: HasDeadline(j) && MonthOf(DeadlineOf(j)) == m
  {
    if jobs != [] {
      var js, last := jobs[..|jobs| - 1], jobs[|jobs| - 1];
      assert jobs == js + [last];
      DeadlineMonthsMembers(js, m);
      if exists j | j in jobs :: HasDeadline(j) && MonthOf(DeadlineOf(j)) == m {
        var j :| j in jobs && HasDeadline(j) && MonthOf(DeadlineOf(j)) == m;
        if j != last {
          assert j in js;
        }
      }
    }
  }

  /** The deadline buckets: each job with a deadline is pushed under it, in input order. */
  method DeadlineBuckets(jobs: seq<Job>) returns (byDate: Buckets<Job>)
    ensures byDate.Valid()
    ensures forall k :: byDate.Get(k) == Filter(KeyIs(DeadlineOf, k), Filter(HasDeadline, jobs))
    ensures forall x | x in Filter(HasDeadline, jobs) :: DeadlineOf(x) in byDate.keys
  {
    byDate := NoBuckets<Job>();
    for i := 0 to |jobs|
      invariant Groups(byDate, DeadlineOf, Filter(HasDeadline, jobs[..i]))
    {
      GroupStep(byDate, DeadlineOf, HasDeadline, jobs, i);
      var job := jobs[i];
      if Truthy(job.deadlineDate) {
        byDate := byDate.Push(job.deadlineDate.value, job);
      }
    }
    assert jobs[..|jobs|] == jobs;
  }

  /** `allRelevantMonthKeys`: a `Set` filled with the deadline months in job order, or holding
      only the current month when no job has a deadline. A `Set` iterates in insertion order,
      so its contents are the deadline months without repeats, in first-occurrence order. */
  method RelevantMonthKeys(jobs: seq<Job>, currentMonthKey: string) returns (keys: seq<string>)
    ensures DeadlineMonths(jobs) == [] ==> keys == [currentMonthKey]
    ensures DeadlineMonths(jobs) != [] ==> keys == Dedup(DeadlineMonths(jobs))
  {
    keys := [];
    for i := 0 to |jobs|
      invariant keys == Dedup(DeadlineMonths(jobs[..i]))
    {
      DeadlineMonthsPrefix(jobs, i);
      var job := jobs[i];
      if Truthy(job.deadlineDate) {
        var m := MonthOf(job.deadlineDate.value);
        assert DeadlineMonths(jobs[..i + 1]) == DeadlineMonths(jobs[..i]) + [m];
        DedupSnoc(DeadlineMonths(jobs[..i]), m);
        if m !in keys {
          keys := keys + [m];
        }
      } else {
        assert DeadlineMonths(jobs[..i + 1]) == DeadlineMonths(jobs[..i]) + [] == DeadlineMonths(jobs[..i]);
      }
    }
    assert jobs[..|jobs|] == jobs;
    if |keys| == 0 {
      keys := [currentMonthKey];
    }
  }

  /** `Array.from(allRelevantMonthKeys).sort()`: never empty, strictly ascending, and exactly
      the deadline months, or the current month when there are none. */
  method SortedMonthKeys(jobs: seq<Job>, currentMonthKey: string) returns (sorted: seq<string>)
    ensures sorted != []
    ensures forall i, j | 0 <= i < j < |sorted| :: LexLe(sorted[i], sorted[j]) && sorted[i] != sorted[j]
    ensures DeadlineMonths(jobs) == [] ==> sorted == [currentMonthKey]
    ensures DeadlineMonths(jobs) != [] ==> forall m :: m in sorted <==> m in DeadlineMonths(jobs)
  {
    var keys := RelevantMonthKeys(jobs, currentMonthKey);
    sorted := SortBy(Self, keys);
    SortByPerm(Self, keys);
    SortBySorted(Self, keys);
    assert Distinct(keys);
    DistinctPerm(keys, sorted);
    SortedDistinctStrict(sorted);
    assert forall m :: m in sorted <==> m in keys by {
      forall m ensures m in sorted <==> m in keys {
        assert m in sorted <==> m in multiset(sorted);
        assert m in keys <==> m in multiset(keys);
      }
    }
    if keys == [currentMonthKey] {
      assert sorted == [currentMonthKey] by {
        assert |sorted| == 1 && sorted[0] in multiset(keys);
      }
    }
  }

  /** `Math.max(0, ...Object.values(jobsByDate).map(jobs => jobs.length))`. */
  function MaxJobsPerDay(byDate: Buckets<Job>): (r: nat)
    ensures forall k | k in byDate.keys :: |byDate.Get(k)| <= r
    ensures byDate.keys == [] ==> r == 0
    ensures byDate.keys != [] ==> exists k | k in byDate.keys :: |byDate.Get(k)| == r
  {
    MaxOf(SizeOf(byDate), byDate.keys)
  }

  /** Every day's number of deadlines is at most the maximum, which is 0 when no job has a
      deadline and otherwise the size of the fullest day. */
  lemma MaxBoundsEveryDay(jobs: seq<Job>, byDate: Buckets<Job>, k: string)
    requires byDate.Valid()
    requires forall k :: byDate.Get(k) == Filter(KeyIs(DeadlineOf, k), Filter(HasDeadline, jobs))
    requires forall x | x in Filter(HasDeadline, jobs) :: DeadlineOf(x) in byDate.keys
    ensures |Filter(KeyIs(DeadlineOf, k), Filter(HasDeadline, jobs))| <= MaxJobsPerDay(byDate)
    ensures Filter(HasDeadline, jobs) == [] ==> MaxJobsPerDay(byDate) == 0
    ensures Filter(HasDeadline, jobs) != [] ==> MaxJobsPerDay(byDate) > 0
  {
    if k !in byDate.keys {
      assert byDate.Get(k) == [];
    }
    if Filter(HasDeadline, jobs) != [] {
      var x := Filter(HasDeadline, jobs)[0];
      assert x in Filter(HasDeadline, jobs);
      assert |byDate.Get(DeadlineOf(x))| > 0;
    } else {
      forall k | k in byDate.keys ensures SizeOf(byDate)(k) == 0 {
      }
    }
  }
}
