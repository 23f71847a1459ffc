/** The carousel of active jobs on the overview page. */
module ActiveProjectsCarousel {
  import opened Seqs
  import opened Model
  import opened Progress
  import JobQuickView

  /** The carousel's own copy of the progress computation, with its early return for a job
      without todos. */
  method CalculateProgress(job: Job) returns (progress: nat)
    ensures progress == TodoProgress(job.todos) && progress <= 100
    ensures job.todos == [] ==> progress == 0
    ensures Countable(job.todos) == 0 ==> progress == 0
  {
    if |job.todos| == 0 {
      return 0;
    }
    var completedCount, totalCountable := 0, 0;
    for i := 0 to |job.todos|
      invariant completedCount == |Filter(IsDone, job.todos[..i])|
      invariant totalCountable == |Filter(IsCountable, job.todos[..i])|
    {
      FilterPrefix(IsDone, job.todos, i);
      FilterPrefix(IsCountable, job.todos, i);
      if job.todos[i].status != NotNeeded {
        totalCountable := totalCountable + 1;
        if job.todos[i].status == Checked {
          completedCount := completedCount + 1;
        }
      }
    }
    assert job.todos[..|job.todos|] == job.todos;
    if totalCountable == 0 {
      return 0;
    }
    CompletedLeCountable(job.todos);
    progress := RoundPercent(completedCount, totalCountable);
  }

  /** A job whose todos are all `not-needed` shows 0. */
  lemma AllNotNeededIsZero(job: Job)
    requires forall i | 0 <= i < |job.todos| :: job.todos[i].status == NotNeeded
    ensures TodoProgress(job.todos) == 0
  {
    FilterNone(IsCountable, job.todos);
  }

  /** The carousel and the job card compute the same progress for every job. */
  method ProgressAgreesWithCard(job: Job) returns (carousel: nat, card: nat)
    ensures carousel == card
  {
    carousel := CalculateProgress(job);
    var _, _, p := JobQuickView.CalculateProgressAndCounts(job);
    card := p;
  }

  predicate IsActive(job: Job) { TodoProgress(job.todos) < 100 }

  /** `jobs.filter(job => calculateProgress(job) < 100)`. */
  function ActiveJobs(jobs: seq<Job>): (r: seq<Job>)
    ensures forall i | 0 <= i < |r| :: TodoProgress(r[i].todos) < 100
  {
    Filter(IsActive, jobs)
  }

  /** The active jobs are exactly the jobs below 100, kept in input order. */
  lemma ActiveJobsExactly(jobs: seq<Job>)
    ensures forall j | j in ActiveJobs(jobs) :: j in jobs && TodoProgress(j.todos) < 100
    ensures forall j | j in jobs && TodoProgress(j.todos) < 100 :: j in ActiveJobs(jobs)
    ensures IsSubsequence(ActiveJobs(jobs), jobs)
    ensures forall j :: multiset(ActiveJobs(jobs))[j] == if TodoProgress(j.todos) < 100 then multiset(jobs)[j] else 0
  {
    FilterMembers(IsActive, jobs);
    FilterCount(IsActive, jobs);
    FilterIsSubsequence(IsActive, jobs);
  }

  /** The carousel's ring colour uses the same thresholds as the card's bar. */
  function ProgressBarColorClass(progress: int): (r: string)
    ensures r == "text-green-500" <==> progress == 100
    ensures r == "text-blue-500" <==> 75 <= progress && progress != 100
    ensures r == "text-yellow-500" <==> 50 <= progress < 75
    ensures r == "text-orange-500" <==> 25 <= progress < 50
    ensures r == "text-red-500" <==> progress < 25
  {
    if progress == 100 then "text-green-500"
    else if progress >= 75 then "text-blue-500"
    else if progress >= 50 then "text-yellow-500"
    else if progress >= 25 then "text-orange-500"
    else "text-red-500"
  }

  lemma RingColourMatchesCard(progress: int)
    ensures ProgressBarColorClass(progress)[5..] == JobQuickView.ProgressBarColorClass(progress)[3..]
  {
  }

  // As written, a job counts as active when its rounded progress is below 100. Rounding
  // reaches 100 as soon as fewer than one countable todo in 200 is left, so such a job drops
  // out of the carousel while it still has unchecked work.

  /** A job with 200 checked todos and one open todo is not active. */
  lemma RoundingHidesUnfinishedJob(done: TodoItem, open: TodoItem)
    requires done.status == Checked && open.status == Empty
    ensures var job := Job("j", "", "", Repeat(done, 200) + [open], None, None, None, None,
                           None, None, None, false);
            Completed(job.todos) < Countable(job.todos) && !IsActive(job)
  {
    var todos := Repeat(done, 200) + [open];
    FilterConcat(IsDone, Repeat(done, 200), [open]);
    FilterConcat(IsCountable, Repeat(done, 200), [open]);
    FilterRepeat(IsDone, done, 200);
    FilterRepeat(IsCountable, done, 200);
    FilterSnoc(IsDone, [], open);
    FilterSnoc(IsCountable, [], open);
    assert Completed(todos) == 200 && Countable(todos) == 201;
  }

  /** Corrected: a job is active while some countable todo is not checked, or while nothing
      counts (its progress then shows 0). */
  predicate IsUnfinished(job: Job) {
    Countable(job.todos) == 0 || Completed(job.todos) < Countable(job.todos)
  }

  function UnfinishedJobs(jobs: seq<Job>): (r: seq<Job>)
    ensures forall i | 0 <= i < |r| :: IsUnfinished(r[i])
  {
    Filter(IsUnfinished, jobs)
  }

  /** Every job the rounded test calls active is unfinished, and an unfinished job is hidden
      only when fewer than one countable todo in 200 is open. Finished jobs show exactly 100. */
  lemma UnfinishedVersusActive(job: Job)
    ensures IsActive(job) ==> IsUnfinished(job)
    ensures IsUnfinished(job) && !IsActive(job) ==>
              200 * (Countable(job.todos) - Completed(job.todos)) <= Countable(job.todos)
    ensures !IsUnfinished(job) <==> (0 < Countable(job.todos) && Completed(job.todos) == Countable(job.todos))
    ensures !IsUnfinished(job) ==> TodoProgress(job.todos) == 100
  {
    CompletedLeCountable(job.todos);
  }

  /** The corrected list keeps every job the carousel shows and every job with open work. */
  lemma UnfinishedJobsCoverActive(jobs: seq<Job>)
    ensures forall j | j in ActiveJobs(jobs) :: j in UnfinishedJobs(jobs)
    ensures forall j | j in jobs && IsUnfinished(j) :: j in UnfinishedJobs(jobs)
  {
    FilterMembers(IsActive, jobs);
    FilterMembers(IsUnfinished, jobs);
    forall j | j in ActiveJobs(jobs) ensures j in UnfinishedJobs(jobs) {
      UnfinishedVersusActive(j);
    }
  }
}
