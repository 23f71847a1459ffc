/** The month calendar on the calendar page: the jobs of each day and the day dialog. */
module CalendarView {
  import opened Seqs
  import opened Model
  import opened Dicts

  /** The deadline is shown as well when it is set and is not the start date string. */
  predicate ShowsDeadline(job: Job) {
    Truthy(job.deadlineDate) && job.startDate != job.deadlineDate
  }

  /** The job is shown on day `k`: it starts then, or its separately shown deadline is then. */
  function OnDay(k: string): Job -> bool {
    (job: Job) => (Truthy(job.startDate) && job.startDate.value == k)
                  || (ShowsDeadline(job) && job.deadlineDate.value == k)
  }

  /** `jobsByDate`: each job is pushed under its start date, and under its deadline when that is
      shown separately. */
  method JobsByDate(jobs: seq<Job>) returns (byDate: Buckets<Job>)
    ensures byDate.Valid()
    ensures forall k :: byDate.Get(k) == Filter(OnDay(k), jobs)
  {
    byDate := NoBuckets<Job>();
    for i := 0 to |jobs|
      invariant byDate.Valid()
      invariant forall k :: byDate.Get(k) == Filter(OnDay(k), jobs[..i])
    {
      var job := jobs[i];
      PlaceJobStep(byDate, jobs, i);
      if Truthy(job.startDate) {
        byDate := byDate.Push(job.startDate.value, job);
      }
      if Truthy(job.deadlineDate) && job.startDate != job.deadlineDate {
        byDate := byDate.Push(job.deadlineDate.value, job);
      }
    }
    assert jobs[..|jobs|] == jobs;
  }

  /** One turn of the loop in `JobsByDate`: the job's start date, then its shown deadline. */
  function PlaceJob(b: Buckets<Job>, job: Job): (r: Buckets<Job>)
    requires b.Valid()
    ensures r.Valid()
  {
    var b1 := if Truthy(job.startDate) then b.Push(job.startDate.value, job) else b;
    if ShowsDeadline(job) then b1.Push(job.deadlineDate.value, job) else b1
  }

  lemma PlaceJobStep(b: Buckets<Job>, jobs: seq<Job>, i: nat)
    requires i < |jobs| && b.Valid()
    requires forall k :: b.Get(k) == Filter(OnDay(k), jobs[..i])
    ensures forall k :: PlaceJob(b, jobs[i]).Get(k) == Filter(OnDay(k), jobs[..i + 1])
  {
    forall k ensures PlaceJob(b, jobs[i]).Get(k) == Filter(OnDay(k), jobs[..i + 1]) {
      FilterPrefix(OnDay(k), jobs, i);
    }
  }

  /** `handleDayClick`: the selected day's jobs, or none for a day without a bucket. */
  function SelectedDayJobs(byDate: Buckets<Job>, dateKey: string): (r: seq<Job>)
    ensures dateKey !in byDate.lists ==> r == []
    ensures dateKey in byDate.lists ==> r == byDate.lists[dateKey]
  {
    byDate.Get(dateKey)
  }

  /** The day dialog lists exactly the jobs starting that day or with a separately shown
      deadline that day, in input order, each once. */
  lemma DayDialogContents(jobs: seq<Job>, byDate: Buckets<Job>, dateKey: string)
    requires forall k :: byDate.Get(k) == Filter(OnDay(k), jobs)
    ensures forall job | job in SelectedDayJobs(byDate, dateKey) ::
              job in jobs && ((Truthy(job.startDate) && job.startDate.value == dateKey)
                              || (ShowsDeadline(job) && job.deadlineDate.value == dateKey))
    ensures forall job | job in jobs && Truthy(job.startDate) && job.startDate.value == dateKey ::
              job in SelectedDayJobs(byDate, dateKey)
    ensures forall job | job in jobs && ShowsDeadline(job) && job.deadlineDate.value == dateKey ::
              job in SelectedDayJobs(byDate, dateKey)
    ensures IsSubsequence(SelectedDayJobs(byDate, dateKey), jobs)
  {
    FilterMembers(OnDay(dateKey), jobs);
    FilterIsSubsequence(OnDay(dateKey), jobs);
  }

  /** A job with neither date is on no day; a job whose start and deadline are the same string
      is shown on its start day only, as if it had no deadline; a deadline-only job is shown on
      its deadline. */
  lemma UndatedAndSameDay(job: Job, k: string)
    ensures !Truthy(job.startDate) && !Truthy(job.deadlineDate) ==> !OnDay(k)(job)
    ensures job.startDate == job.deadlineDate ==>
              (OnDay(k)(job) <==> Truthy(job.startDate) && job.startDate.value == k)
    ensures !Truthy(job.startDate) && Truthy(job.deadlineDate) ==>
              (OnDay(k)(job) <==> job.deadlineDate.value == k)
  {
  }
}
