/** The overall progress ring: progress over every todo of every job. */
module OverallProgressCircle {
  import opened Seqs
  import opened Model
  import opened Progress
  import ActiveProjectsCarousel

  /** The nested counting loop over all jobs and their todos, then the rounded percentage. */
  method CalculateOverallProgress(jobs: seq<Job>) returns (progress: nat)
    ensures progress == TodoProgress(AllTodos(jobs)) && progress <= 100
    ensures Countable(AllTodos(jobs)) == 0 ==> progress == 0
  {
    var totalCountableTodos, totalCompletedTodos := 0, 0;
    for i := 0 to |jobs|
      invariant totalCountableTodos == |Filter(IsCountable, AllTodos(jobs[..i]))|
      invariant totalCompletedTodos == |Filter(IsDone, AllTodos(jobs[..i]))|
    {
      var todos := jobs[i].todos;
      ghost var countableBefore, completedBefore := totalCountableTodos, totalCompletedTodos;
      for k := 0 to |todos|
        invariant totalCountableTodos == countableBefore + |Filter(IsCountable, todos[..k])|
        invariant totalCompletedTodos == completedBefore + |Filter(IsDone, todos[..k])|
      {
        FilterPrefix(IsCountable, todos, k);
        FilterPrefix(IsDone, todos, k);
        if todos[k].status != NotNeeded {
          totalCountableTodos := totalCountableTodos + 1;
          if todos[k].status == Checked {
            totalCompletedTodos := totalCompletedTodos + 1;
          }
        }
      }
      assert todos[..|todos|] == todos;
      NextJobCounts(jobs, i);
    }
    assert jobs[..|jobs|] == jobs;
    if totalCountableTodos == 0 {
      return 0;
    }
    CompletedLeCountable(AllTodos(jobs));
    progress := RoundPercent(totalCompletedTodos, totalCountableTodos);
  }

  lemma NextJobCounts(jobs: seq<Job>, i: nat)
    requires i < |jobs|
    ensures |Filter(IsCountable, AllTodos(jobs[..i + 1]))|
         == |Filter(IsCountable, AllTodos(jobs[..i]))| + |Filter(IsCountable, jobs[i].todos)|
    ensures |Filter(IsDone, AllTodos(jobs[..i + 1]))|
         == |Filter(IsDone, AllTodos(jobs[..i]))| + |Filter(IsDone, jobs[i].todos)|
  {
    AllTodosPrefix(jobs, i);
    FilterConcat(IsCountable, AllTodos(jobs[..i]), jobs[i].todos);
    FilterConcat(IsDone, AllTodos(jobs[..i]), jobs[i].todos);
  }

  /** The overall counts are the sums of the per-job counts. */
  lemma OverallCountsAreSums(jobs: seq<Job>)
    ensures Countable(AllTodos(jobs)) == SumOf(TodosPassing(IsCountable), jobs)
    ensures Completed(AllTodos(jobs)) == SumOf(TodosPassing(IsDone), jobs)
    ensures Completed(AllTodos(jobs)) <= Countable(AllTodos(jobs))
  {
    CountAcrossJobs(IsCountable, jobs);
    CountAcrossJobs(IsDone, jobs);
    CompletedLeCountable(AllTodos(jobs));
  }

  /** For a single job the ring shows that job's own progress. */
  method SingleJobAgrees(job: Job) returns (overall: nat, carousel: nat)
    ensures overall == carousel
  {
    overall := CalculateOverallProgress([job]);
    carousel := ActiveProjectsCarousel.CalculateProgress(job);
    AllTodosSingle(job);
  }

  /** Reordering the jobs does not change the overall progress. */
  lemma OverallIgnoresJobOrder(jobs: seq<Job>, jobs': seq<Job>)
    requires multiset(jobs) == multiset(jobs')
    ensures TodoProgress(AllTodos(jobs)) == TodoProgress(AllTodos(jobs'))
  {
    CountIgnoresJobOrder(IsCountable, jobs, jobs');
    CountIgnoresJobOrder(IsDone, jobs, jobs');
  }

  /** The ring colour: the same thresholds as the card and the carousel. */
  function CircleColorClass(progress: int): (r: string)
    ensures r == "text-green-500" <==> progress == 100
    ensures r == "text-blue-500" <==> 75 <= progress && progress != 100
    ensures r == "text-yellow-500" <==> 50 <= progress < 75
    ensures r == "text-orange-500" <==> 25 <= progress < 50
    ensures r == "text-red-500" <==> progress < 25
  {
    if progress == 100 then "text-green-500"
    else if progress >= 75 then "text-blue-500"
    else if progress >= 50 then "text-yellow-500"
    else if progress >= 25 then "text-orange-500"
    else "text-red-500"
  }

  lemma CircleColourMatchesCarousel(progress: int)
    ensures CircleColorClass(progress) == ActiveProjectsCarousel.ProgressBarColorClass(progress)
  {
  }
}
