/** The records the job tracker keeps: jobs with their todo checklists, customers, the user. */
module Model {
  import opened Seqs

  datatype Option<T> = None | Some(value: T)

  /** JavaScript truthiness of an optional string: present and not the empty string. */
  predicate Truthy(o: Option<string>) {
    o.Some? && o.value != ""
  }

  /** `o || fallback` for an optional string. */
  function OrElse(o: Option<string>, fallback: string): (r: string)
    ensures Truthy(o) ==> r == o.value
    ensures !Truthy(o) ==> r == fallback
  {
    if Truthy(o) then o.value else fallback
  }

  /** The status of a todo. Stored data may hold a status string outside the five the
      interface offers; `Unrecognised` keeps it so that the `default` branches can be modelled. */
  datatype Status = Empty | InProgress | Checked | NotNeeded | Unsure | Unrecognised(raw: string)
  {
    predicate Known() { !Unrecognised? }
  }

  datatype TodoItem = TodoItem(id: string, title: string, status: Status, completedAt: Option<string>)

  datatype Job = Job(
    id: string,
    title: string,
    description: string,
    todos: seq<TodoItem>,
    startDate: Option<string>,
    deadlineDate: Option<string>,
    startTime: Option<string>,
    endTime: Option<string>,
    category: Option<string>,
    customerId: Option<string>,
    notes: Option<string>,
    templatedTodosAdded: bool)

  datatype Customer = Customer(id: string, name: string, companyName: Option<string>, contactInfo: Option<string>)

  /** The user profile; `others` stands for the fields the profile form does not edit. */
  datatype User = User(name: string, role: string, avatarUrl: string, others: map<string, string>)

  /** Every todo of every job, job by job in list order. */
  function AllTodos(jobs: seq<Job>): seq<TodoItem> {
    if jobs == [] then [] else AllTodos(jobs[..|jobs| - 1]) + jobs[|jobs| - 1].todos
  }

  lemma AllTodosSnoc(jobs: seq<Job>, j: Job)
    ensures AllTodos(jobs + [j]) == AllTodos(jobs) + j.todos
  {
    assert (jobs + [j])[..|jobs|] == jobs;
  }

  lemma AllTodosSingle(j: Job)
    ensures AllTodos([j]) == j.todos
  {
    AllTodosSnoc([], j);
  }

  lemma {:induction false} AllTodosConcat(a: seq<Job>, b: seq<Job>)
    ensures AllTodos(a + b) == AllTodos(a) + AllTodos(b)
  {
    if b == [] {
      assert a + b == a;
    } else {
      var b', y := b[..|b| - 1], b[|b| - 1];
      assert a + b == (a + b') + [y];
      assert b == b' + [y];
      calc {
        AllTodos(a + b);
        { AllTodosSnoc(a + b', y); }
        AllTodos(a + b') + y.todos;
        { AllTodosConcat(a, b'); }
        AllTodos(a) + AllTodos(b') + y.todos;
        { AllTodosSnoc(b', y); }
        AllTodos(a) + AllTodos(b);
      }
    }
  }

  /** The todos of the first `i` jobs, extended by the next job: the shape a nested loop walks. */
  lemma AllTodosPrefix(jobs: seq<Job>, i: nat)
    requires i < |jobs|
    ensures AllTodos(jobs[..i + 1]) == AllTodos(jobs[..i]) + jobs[i].todos
  {
    assert jobs[..i + 1] == jobs[..i] + [jobs[i]];
    AllTodosSnoc(jobs[..i], jobs[i]);
  }

  /** The number of todos of `j` that pass `p`, as a function of the job. */
  function TodosPassing(p: TodoItem -> bool): Job -> nat {
    (j: Job) => |Filter(p, j.todos)|
  }

  /** Counting over all todos is summing the per-job counts, so the count does not depend on
      how the jobs are ordered. */
  lemma {:induction false} CountAcrossJobs(p: TodoItem -> bool, jobs: seq<Job>)
    ensures |Filter(p, AllTodos(jobs))| == SumOf(TodosPassing(p), jobs)
  {
    if jobs != [] {
      var js, j := jobs[..|jobs| - 1], jobs[|jobs| - 1];
      assert jobs == js + [j];
      CountAcrossJobs(p, js);
      FilterConcat(p, AllTodos(js), j.todos);
      SumOfSnoc(TodosPassing(p), js, j);
    }
  }

  /** Reordering the jobs does not change how many todos pass a test. */
  lemma CountIgnoresJobOrder(p: TodoItem -> bool, jobs: seq<Job>, jobs': seq<Job>)
    requires multiset(jobs) == multiset(jobs')
    ensures |Filter(p, AllTodos(jobs))| == |Filter(p, AllTodos(jobs'))|
  {
    CountAcrossJobs(p, jobs);
    CountAcrossJobs(p, jobs');
    SumOfPerm(TodosPassing(p), jobs, jobs');
  }
}
