/** The `TaskSummary` panel: how many todos across all jobs are open, checked, not needed or unsure. */
module TaskSummary {
  import opened Seqs
  import opened Model

  function HasStatus(st: Status): TodoItem -> bool {
    (t: TodoItem) => t.status == st
  }

  /** Todos the summary counts in no bucket: `in-progress` ones and unrecognised ones. */
  predicate IsUncounted(t: TodoItem) {
    t.status.InProgress? || t.status.Unrecognised?
  }

  function CountWith(st: Status, jobs: seq<Job>): nat {
    |Filter(HasStatus(st), AllTodos(jobs))|
  }

  /** The nested loop with its `switch`: each todo increments the counter of its own status. */
  method CalculateTaskCounts(jobs: seq<Job>) returns (todo: nat, checked: nat, notNeeded: nat, unsure: nat)
    ensures todo == CountWith(Empty, jobs)
    ensures checked == CountWith(Checked, jobs)
    ensures notNeeded == CountWith(NotNeeded, jobs)
    ensures unsure == CountWith(Unsure, jobs)
  {
    todo, checked, notNeeded, unsure := 0, 0, 0, 0;
    for i := 0 to |jobs|
      invariant todo == CountWith(Empty, jobs[..i])
      invariant checked == CountWith(Checked, jobs[..i])
      invariant notNeeded == CountWith(NotNeeded, jobs[..i])
      invariant unsure == CountWith(Unsure, jobs[..i])
    {
      var t, c, n, u := CountJob(jobs[i].todos);
      todo, checked, notNeeded, unsure := todo + t, checked + c, notNeeded + n, unsure + u;
      NextJobCount(Empty, jobs, i);
      NextJobCount(Checked, jobs, i);
      NextJobCount(NotNeeded, jobs, i);
      NextJobCount(Unsure, jobs, i);
    }
    assert jobs[..|jobs|] == jobs;
  }

  /** The inner loop over one job's todos. */
  method CountJob(todos: seq<TodoItem>) returns (todo: nat, checked: nat, notNeeded: nat, unsure: nat)
    ensures todo == |Filter(HasStatus(Empty), todos)|
    ensures checked == |Filter(HasStatus(Checked), todos)|
    ensures notNeeded == |Filter(HasStatus(NotNeeded), todos)|
    ensures unsure == |Filter(HasStatus(Unsure), todos)|
  {
    todo, checked, notNeeded, unsure := 0, 0, 0, 0;
    for k := 0 to |todos|
      invariant todo == |Filter(HasStatus(Empty), todos[..k])|
      invariant checked == |Filter(HasStatus(Checked), todos[..k])|
      invariant notNeeded == |Filter(HasStatus(NotNeeded), todos[..k])|
      invariant unsure == |Filter(HasStatus(Unsure), todos[..k])|
    {
      FilterPrefix(HasStatus(Empty), todos, k);
      FilterPrefix(HasStatus(Checked), todos, k);
      FilterPrefix(HasStatus(NotNeeded), todos, k);
      FilterPrefix(HasStatus(Unsure), todos, k);
      match todos[k].status {
        case Empty => todo := todo + 1;
        case Checked => checked := checked + 1;
        case NotNeeded => notNeeded := notNeeded + 1;
        case Unsure => unsure := unsure + 1;
        case _ =>
      }
    }
    assert todos[..|todos|] == todos;
  }

  lemma NextJobCount(st: Status, jobs: seq<Job>, i: nat)
    requires i < |jobs|
    ensures CountWith(st, jobs[..i + 1]) == CountWith(st, jobs[..i]) + |Filter(HasStatus(st), jobs[i].todos)|
  {
    AllTodosPrefix(jobs, i);
    FilterConcat(HasStatus(st), AllTodos(jobs[..i]), jobs[i].todos);
  }

  /** Every todo lands in exactly one of the four buckets or in none: the four counts add up to
      all todos but the `in-progress` and unrecognised ones. */
  lemma {:induction false} BucketsPartition(todos: seq<TodoItem>)
    ensures |Filter(HasStatus(Empty), todos)| + |Filter(HasStatus(Checked), todos)|
          + |Filter(HasStatus(NotNeeded), todos)| + |Filter(HasStatus(Unsure), todos)|
         == |todos| - |Filter(IsUncounted, todos)|
  {
    if todos != [] {
      var ts, t := todos[..|todos| - 1], todos[|todos| - 1];
      assert todos == ts + [t];
      BucketsPartition(ts);
      FilterSnoc(HasStatus(Empty), ts, t);
      FilterSnoc(HasStatus(Checked), ts, t);
      FilterSnoc(HasStatus(NotNeeded), ts, t);
      FilterSnoc(HasStatus(Unsure), ts, t);
      FilterSnoc(IsUncounted, ts, t);
    }
  }

  /** The summary over all jobs: the four counters add up to the number of todos minus the
      uncounted ones, and when every status is recognised, minus the `in-progress` ones. */
  lemma SummaryTotal(jobs: seq<Job>)
    ensures CountWith(Empty, jobs) + CountWith(Checked, jobs) + CountWith(NotNeeded, jobs)
            + CountWith(Unsure, jobs)
         == |AllTodos(jobs)| - |Filter(IsUncounted, AllTodos(jobs))|
    ensures (forall t | t in AllTodos(jobs) :: t.status.Known()) ==>
              (CountWith(Empty, jobs) + CountWith(Checked, jobs) + CountWith(NotNeeded, jobs)
               + CountWith(Unsure, jobs)
               == |AllTodos(jobs)| - CountWith(InProgress, jobs))
  {
    var all := AllTodos(jobs);
    BucketsPartition(all);
    if forall t | t in all :: t.status.Known() {
      FilterSame(IsUncounted, HasStatus(InProgress), all);
    }
  }

  lemma {:induction false} FilterSame<T>(p: T -> bool, q: T -> bool, s: seq<T>)
    requires forall x | x in s :: p(x) == q(x)
    ensures Filter(p, s) == Filter(q, s)
  {
    if s != [] {
      FilterSame(p, q, s[..|s| - 1]);
    }
  }

  /** The counts are totals over all jobs and do not depend on the order of the jobs. */
  lemma CountsIgnoreJobOrder(st: Status, jobs: seq<Job>, jobs': seq<Job>)
    requires multiset(jobs) == multiset(jobs')
    ensures CountWith(st, jobs) == CountWith(st, jobs')
  {
    CountIgnoresJobOrder(HasStatus(st), jobs, jobs');
  }
}
