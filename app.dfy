/** The application state and its handlers: the job list with the todo status cycle, customers,
    categories and the user profile. Every handler rewrites a list copy-on-write and stores the
    result; the rewrites are functions here and the `Store` methods assign their results. Fresh
    ids and the current time are drawn by the caller and passed in. */
module App {
  import opened Seqs
  import opened Text
  import opened Model

  /** The five-state cycle `empty → in-progress → checked → not-needed → unsure → empty`; any
      other stored status restarts at `empty`. */
  function NextStatus(s: Status): (r: Status)
    ensures r.Known()
    ensures r == InProgress <==> s == Empty
    ensures r == Checked <==> s == InProgress
    ensures r == NotNeeded <==> s == Checked
    ensures r == Unsure <==> s == NotNeeded
    ensures r == Empty <==> s == Unsure || s.Unrecognised?
  {
    match s
    case Empty => InProgress
    case InProgress => Checked
    case Checked => NotNeeded
    case NotNeeded => Unsure
    case _ => Empty
  }

  /** One click on a todo: the next status, stamped with `now` exactly when it becomes checked. */
  function ToggleItem(t: TodoItem, now: string): (r: TodoItem)
    ensures r.id == t.id && r.title == t.title && r.status == NextStatus(t.status)
    ensures r.status == Checked ==> r.completedAt == Some(now)
    ensures r.status != Checked ==> r.completedAt == None
  {
    var status := NextStatus(t.status);
    t.(status := status, completedAt := if status == Checked then Some(now) else None)
  }

  /** A completion time is held exactly by the checked todos. */
  predicate Stamped(t: TodoItem) {
    t.completedAt.Some? <==> t.status == Checked
  }

  /** Five clicks bring a todo back to its status; a todo that is not checked comes back whole. */
  lemma FiveToggles(t: TodoItem, n1: string, n2: string, n3: string, n4: string, n5: string)
    ensures var r := ToggleItem(ToggleItem(ToggleItem(ToggleItem(ToggleItem(t, n1), n2), n3), n4), n5);
      r.id == t.id && r.title == t.title && Stamped(r)
      && (t.status.Known() ==> r.status == t.status)
      && (!t.status.Known() ==> r.status == Unsure)
      && (t.status.Known() && t.status != Checked && Stamped(t) ==> r == t)
  {
    var t1 := ToggleItem(t, n1);
    var t2 := ToggleItem(t1, n2);
    var t3 := ToggleItem(t2, n3);
    var t4 := ToggleItem(t3, n4);
    var t5 := ToggleItem(t4, n5);
    if t.status.Known() && t.status != Checked && Stamped(t) {
      assert t5.status == t.status && t5.completedAt == None == t.completedAt;
      assert t5 == t.(status := t5.status, completedAt := t5.completedAt);
    }
  }

  /** `todo.id === todoId ? toggled : todo`. */
  function ToggleIn(todoId: string, now: string): TodoItem -> TodoItem {
    (t: TodoItem) => if t.id == todoId then ToggleItem(t, now) else t
  }

  /** `job.id === jobId ? f(job) : job`. */
  function OnJob(jobId: string, f: Job -> Job): Job -> Job {
    (j: Job) => if j.id == jobId then f(j) else j
  }

  function ToggleTodosOf(todoId: string, now: string): Job -> Job {
    (j: Job) => j.(todos := Map(ToggleIn(todoId, now), j.todos))
  }

  /** `handleToggleTodo`: only the todo `todoId` inside the job `jobId` changes; the job list keeps
      its length and order, and every other job and todo is untouched. */
  function ToggleTodo(jobs: seq<Job>, jobId: string, todoId: string, now: string): (r: seq<Job>)
    ensures |r| == |jobs|
    ensures forall i | 0 <= i < |jobs| :: r[i].id == jobs[i].id && |r[i].todos| == |jobs[i].todos|
    ensures forall i | 0 <= i < |jobs| && jobs[i].id != jobId :: r[i] == jobs[i]
    ensures forall i | 0 <= i < |jobs| :: r[i] == jobs[i].(todos := r[i].todos)
    ensures forall i, k | 0 <= i < |jobs| && 0 <= k < |jobs[i].todos| ::
      r[i].todos[k] == if jobs[i].id == jobId && jobs[i].todos[k].id == todoId
                       then ToggleItem(jobs[i].todos[k], now) else jobs[i].todos[k]
  {
    Map(OnJob(jobId, ToggleTodosOf(todoId, now)), jobs)
  }

  /** Five toggles of the same todo give every todo its status back. */
  lemma FiveTogglesRestore(jobs: seq<Job>, jobId: string, todoId: string,
                           n1: string, n2: string, n3: string, n4: string, n5: string)
    ensures var r := ToggleTodo(ToggleTodo(ToggleTodo(ToggleTodo(ToggleTodo(
                       jobs, jobId, todoId, n1), jobId, todoId, n2), jobId, todoId, n3), jobId, todoId, n4), jobId, todoId, n5);
      |r| == |jobs|
      && forall i, k | 0 <= i < |jobs| && 0 <= k < |jobs[i].todos| ::
           k < |r[i].todos| && (jobs[i].todos[k].status.Known() ==> r[i].todos[k].status == jobs[i].todos[k].status)
  {
    var r1 := ToggleTodo(jobs, jobId, todoId, n1);
    var r2 := ToggleTodo(r1, jobId, todoId, n2);
    var r3 := ToggleTodo(r2, jobId, todoId, n3);
    var r4 := ToggleTodo(r3, jobId, todoId, n4);
    var r5 := ToggleTodo(r4, jobId, todoId, n5);
    forall i, k | 0 <= i < |jobs| && 0 <= k < |jobs[i].todos|
      ensures k < |r5[i].todos| && (jobs[i].todos[k].status.Known() ==> r5[i].todos[k].status == jobs[i].todos[k].status)
    {
      var t := jobs[i].todos[k];
      if jobs[i].id == jobId && t.id == todoId {
        FiveToggles(t, n1, n2, n3, n4, n5);
        assert r1[i].todos[k] == ToggleItem(t, n1);
        assert r2[i].todos[k] == ToggleItem(r1[i].todos[k], n2);
        assert r3[i].todos[k] == ToggleItem(r2[i].todos[k], n3);
        assert r4[i].todos[k] == ToggleItem(r3[i].todos[k], n4);
        assert r5[i].todos[k] == ToggleItem(r4[i].todos[k], n5);
      } else {
        assert r1[i].todos[k] == t;
        assert r2[i].todos[k] == t;
        assert r3[i].todos[k] == t;
        assert r4[i].todos[k] == t;
        assert r5[i].todos[k] == t;
      }
    }
  }

  /** Every todo of every job holds a completion time exactly when it is checked. */
  predicate AllStamped(jobs: seq<Job>) {
    forall i, k | 0 <= i < |jobs| && 0 <= k < |jobs[i].todos| :: Stamped(jobs[i].todos[k])
  }

  /** Toggling keeps completion times on exactly the checked todos. */
  lemma ToggleKeepsStamped(jobs: seq<Job>, jobId: string, todoId: string, now: string)
    requires AllStamped(jobs)
    ensures AllStamped(ToggleTodo(jobs, jobId, todoId, now))
  {
    var r := ToggleTodo(jobs, jobId, todoId, now);
    forall i, k | 0 <= i < |r| && 0 <= k < |r[i].todos| ensures Stamped(r[i].todos[k]) {
      assert Stamped(jobs[i].todos[k]);
    }
  }

  /** The job `handleAddJob` creates: no todos, no templates yet, and `"Uncategorized"` when no
      category (or an empty one) is given. */
  function NewJob(id: string, title: string, description: string, startDate: Option<string>,
                  deadlineDate: Option<string>, startTime: Option<string>, endTime: Option<string>,
                  category: Option<string>, customerId: Option<string>): (r: Job)
    ensures r.id == id && r.title == title && r.todos == [] && !r.templatedTodosAdded && r.notes == None
    ensures Truthy(category) ==> r.category == category
    ensures !Truthy(category) ==> r.category == Some("Uncategorized")
    ensures Truthy(r.category)
  {
    Job(id, title, description, [], startDate, deadlineDate, startTime, endTime,
        Some(OrElse(category, "Uncategorized")), customerId, None, false)
  }

  /** Adding a job adds no todos, so no count over all todos changes. */
  lemma AddJobKeepsTodos(jobs: seq<Job>, job: Job)
    requires job.todos == []
    ensures AllTodos(jobs + [job]) == AllTodos(jobs)
  {
    AllTodosSnoc(jobs, job);
    assert AllTodos(jobs) + [] == AllTodos(jobs);
  }

  function IdIsNot(jobId: string): Job -> bool {
    (j: Job) => j.id != jobId
  }

  /** `handleDeleteJob`. */
  function RemoveJob(jobs: seq<Job>, jobId: string): (r: seq<Job>)
    ensures |r| <= |jobs|
    ensures forall i | 0 <= i < |r| :: r[i].id != jobId
  {
    Filter(IdIsNot(jobId), jobs)
  }

  /** Deleting removes exactly the jobs with that id and keeps the others in order. */
  lemma RemoveJobExactly(jobs: seq<Job>, jobId: string)
    ensures forall j :: j in RemoveJob(jobs, jobId) <==> j in jobs && j.id != jobId
    ensures IsSubsequence(RemoveJob(jobs, jobId), jobs)
    ensures (forall i | 0 <= i < |jobs| :: jobs[i].id != jobId) ==> RemoveJob(jobs, jobId) == jobs
    ensures forall j :: multiset(RemoveJob(jobs, jobId))[j] == if j.id != jobId then multiset(jobs)[j] else 0
  {
    FilterMembers(IdIsNot(jobId), jobs);
    FilterCount(IdIsNot(jobId), jobs);
    FilterIsSubsequence(IdIsNot(jobId), jobs);
    if forall i | 0 <= i < |jobs| :: jobs[i].id != jobId {
      FilterAll(IdIsNot(jobId), jobs);
    }
  }

  function Replace(updated: Job): Job -> Job {
    (j: Job) => updated
  }

  /** `handleUpdateJob`: every job with the updated job's id is replaced by it. */
  function ReplaceJob(jobs: seq<Job>, updated: Job): (r: seq<Job>)
    ensures |r| == |jobs|
    ensures forall i | 0 <= i < |jobs| :: r[i].id == jobs[i].id
    ensures forall i | 0 <= i < |jobs| :: r[i] == if jobs[i].id == updated.id then updated else jobs[i]
  {
    Map(OnJob(updated.id, Replace(updated)), jobs)
  }

  /** Replacing is idempotent, and a job's own value replaces nothing. */
  lemma ReplaceJobIdempotent(jobs: seq<Job>, updated: Job)
    ensures ReplaceJob(ReplaceJob(jobs, updated), updated) == ReplaceJob(jobs, updated)
    ensures Distinct(Map((j: Job) => j.id, jobs)) && updated in jobs ==> ReplaceJob(jobs, updated) == jobs
  {
    var ids := Map((j: Job) => j.id, jobs);
    if Distinct(ids) && updated in jobs {
      var p :| 0 <= p < |jobs| && jobs[p] == updated;
      forall i | 0 <= i < |jobs| ensures ReplaceJob(jobs, updated)[i] == jobs[i] {
        assert ids[i] == jobs[i].id && ids[p] == jobs[p].id;
      }
    }
  }

  /** The todos the template titles become, each with its fresh id. */
  function TemplateTodos(titles: seq<string>, ids: seq<string>): (r: seq<TodoItem>)
    requires |ids| == |titles|
    ensures |r| == |titles|
    ensures forall k | 0 <= k < |r| :: r[k] == TodoItem(ids[k], titles[k], Empty, None)
  {
    seq(|titles|, k requires 0 <= k < |titles| => TodoItem(ids[k], titles[k], Empty, None))
  }

  function AppendTodos(extra: seq<TodoItem>, flag: bool): Job -> Job {
    (j: Job) => j.(todos := j.todos + extra, templatedTodosAdded := j.templatedTodosAdded || flag)
  }

  /** `handleAddTemplatedTodos`: the template todos go after the job's todos, in template order,
      and the job is marked; the mark is not checked, so another call appends them again. */
  function AddTemplatedTodos(jobs: seq<Job>, jobId: string, titles: seq<string>, ids: seq<string>): (r: seq<Job>)
    requires |ids| == |titles|
    ensures |r| == |jobs|
    ensures forall i | 0 <= i < |jobs| && jobs[i].id != jobId :: r[i] == jobs[i]
    ensures forall i | 0 <= i < |jobs| && jobs[i].id == jobId ::
      r[i] == jobs[i].(todos := jobs[i].todos + TemplateTodos(titles, ids), templatedTodosAdded := true)
  {
    Map(OnJob(jobId, AppendTodos(TemplateTodos(titles, ids), true)), jobs)
  }

  /** Two calls append the templates twice. */
  lemma TemplatesAppendAgain(jobs: seq<Job>, jobId: string, titles: seq<string>, ids1: seq<string>, ids2: seq<string>)
    requires |ids1| == |titles| && |ids2| == |titles|
    ensures var r := AddTemplatedTodos(AddTemplatedTodos(jobs, jobId, titles, ids1), jobId, titles, ids2);
      forall i | 0 <= i < |jobs| && jobs[i].id == jobId ::
        r[i].todos == jobs[i].todos + TemplateTodos(titles, ids1) + TemplateTodos(titles, ids2)
  {
    var r1 := AddTemplatedTodos(jobs, jobId, titles, ids1);
    var r2 := AddTemplatedTodos(r1, jobId, titles, ids2);
    forall i | 0 <= i < |jobs| && jobs[i].id == jobId
      ensures r2[i].todos == jobs[i].todos + TemplateTodos(titles, ids1) + TemplateTodos(titles, ids2)
    {
      assert r1[i].id == jobId;
    }
  }

  /** `handleAddCustomTodo`: nothing happens for a title that trims to empty; otherwise the job
      gains one empty todo at the end, titled with the untrimmed input. */
  function AddCustomTodo(jobs: seq<Job>, jobId: string, title: string, id: string): (r: seq<Job>)
    ensures AllWhite(title) ==> r == jobs
    ensures |r| == |jobs|
    ensures forall i | 0 <= i < |jobs| && jobs[i].id != jobId :: r[i] == jobs[i]
    ensures !AllWhite(title) ==> forall i | 0 <= i < |jobs| && jobs[i].id == jobId ::
      r[i] == jobs[i].(todos := jobs[i].todos + [TodoItem(id, title, Empty, None)])
  {
    if Trim(title) == "" then jobs
    else Map(OnJob(jobId, AppendTodos([TodoItem(id, title, Empty, None)], false)), jobs)
  }

  /** The todo list of the target job keeps its todos as a prefix and ends with the new item. */
  lemma CustomTodoAppends(jobs: seq<Job>, jobId: string, title: string, id: string, i: nat)
    requires !AllWhite(title) && i < |jobs| && jobs[i].id == jobId
    ensures var todos := AddCustomTodo(jobs, jobId, title, id)[i].todos;
      |todos| == |jobs[i].todos| + 1 && todos[..|jobs[i].todos|] == jobs[i].todos
      && todos[|todos| - 1] == TodoItem(id, title, Empty, None)
  {
    var todos := AddCustomTodo(jobs, jobId, title, id)[i].todos;
    assert todos == jobs[i].todos + [TodoItem(id, title, Empty, None)];
  }

  /** New todos are empty and hold no completion time, so they keep `AllStamped`. */
  lemma AddedTodosKeepStamped(jobs: seq<Job>, jobId: string, titles: seq<string>, ids: seq<string>,
                              title: string, id: string)
    requires AllStamped(jobs) && |ids| == |titles|
    ensures AllStamped(AddTemplatedTodos(jobs, jobId, titles, ids))
    ensures AllStamped(AddCustomTodo(jobs, jobId, title, id))
  {
    var r := AddTemplatedTodos(jobs, jobId, titles, ids);
    forall i, k | 0 <= i < |r| && 0 <= k < |r[i].todos| ensures Stamped(r[i].todos[k]) {
      if k < |jobs[i].todos| {
        assert r[i].todos[k] == jobs[i].todos[k];
      }
    }
    var c := AddCustomTodo(jobs, jobId, title, id);
    forall i, k | 0 <= i < |c| && 0 <= k < |c[i].todos| ensures Stamped(c[i].todos[k]) {
      if k < |jobs[i].todos| {
        assert c[i].todos[k] == jobs[i].todos[k];
      }
    }
  }

  function CustomerIdIsNot(customerId: string): Customer -> bool {
    (c: Customer) => c.id != customerId
  }

  function ClearCustomer(customerId: string): Job -> Job {
    (j: Job) => if j.customerId == Some(customerId) then j.(customerId := None) else j
  }

  /** `handleDeleteCustomer`, customer half. */
  function RemoveCustomer(customers: seq<Customer>, customerId: string): (r: seq<Customer>)
    ensures |r| <= |customers|
    ensures forall i | 0 <= i < |r| :: r[i].id != customerId
  {
    Filter(CustomerIdIsNot(customerId), customers)
  }

  /** `handleDeleteCustomer`, job half: jobs that referenced the customer lose the reference;
      nothing else changes. */
  function UnlinkCustomer(jobs: seq<Job>, customerId: string): (r: seq<Job>)
    ensures |r| == |jobs|
    ensures forall i | 0 <= i < |r| :: r[i].customerId != Some(customerId)
    ensures forall i | 0 <= i < |jobs| :: r[i] == jobs[i].(customerId := r[i].customerId)
    ensures forall i | 0 <= i < |jobs| && jobs[i].customerId != Some(customerId) :: r[i] == jobs[i]
  {
    Map(ClearCustomer(customerId), jobs)
  }

  /** Deleting removes exactly the customers with that id, keeps the others in order, and leaves
      every todo as it was. */
  lemma DeleteCustomerExactly(customers: seq<Customer>, jobs: seq<Job>, customerId: string)
    ensures forall c :: c in RemoveCustomer(customers, customerId) <==> c in customers && c.id != customerId
    ensures IsSubsequence(RemoveCustomer(customers, customerId), customers)
    ensures forall c :: multiset(RemoveCustomer(customers, customerId))[c] == if c.id != customerId then multiset(customers)[c] else 0
    ensures AllTodos(UnlinkCustomer(jobs, customerId)) == AllTodos(jobs)
  {
    FilterMembers(CustomerIdIsNot(customerId), customers);
    FilterCount(CustomerIdIsNot(customerId), customers);
    FilterIsSubsequence(CustomerIdIsNot(customerId), customers);
    SameTodos(UnlinkCustomer(jobs, customerId), jobs);
  }

  /** Job lists that agree on every job's todos have the same todos overall. */
  lemma {:induction false} SameTodos(a: seq<Job>, b: seq<Job>)
    requires |a| == |b| && forall i | 0 <= i < |a| :: a[i].todos == b[i].todos
    ensures AllTodos(a) == AllTodos(b)
  {
    if a != [] {
      SameTodos(a[..|a| - 1], b[..|b| - 1]);
    }
  }

  function NewCustomer(id: string, name: string, contactInfo: Option<string>): (r: Customer)
    ensures r.id == id && r.name == name && r.contactInfo == contactInfo && r.companyName == None
  {
    Customer(id, name, None, contactInfo)
  }

  function ReplaceCustomerBy(updated: Customer): Customer -> Customer {
    (c: Customer) => if c.id == updated.id then updated else c
  }

  /** `handleUpdateCustomer`: every customer with the updated customer's id is replaced by it. */
  function ReplaceCustomer(customers: seq<Customer>, updated: Customer): (r: seq<Customer>)
    ensures |r| == |customers|
    ensures forall i | 0 <= i < |customers| :: r[i].id == customers[i].id
    ensures forall i | 0 <= i < |customers| :: r[i] == if customers[i].id == updated.id then updated else customers[i]
  {
    Map(ReplaceCustomerBy(updated), customers)
  }

  function RenameTo(oldName: string, newName: string): string -> string {
    c => if c == oldName then newName else c
  }

  function MoveCategory(from: string, to: string): Job -> Job {
    (j: Job) => if j.category == Some(from) then j.(category := Some(to)) else j
  }

  /** `handleUpdateCategory`, list half. */
  function RenameCategory(categories: seq<string>, oldName: string, newName: string): (r: seq<string>)
    ensures |r| == |categories|
    ensures forall i | 0 <= i < |r| :: r[i] == if categories[i] == oldName then newName else categories[i]
  {
    Map(RenameTo(oldName, newName), categories)
  }

  /** `handleUpdateCategory` and `handleDeleteCategory`, job half: the jobs in category `from` move
      to `to`; nothing else changes. */
  function MoveJobs(jobs: seq<Job>, from: string, to: string): (r: seq<Job>)
    ensures |r| == |jobs|
    ensures forall i | 0 <= i < |jobs| :: r[i] == jobs[i].(category := r[i].category)
    ensures forall i | 0 <= i < |jobs| && jobs[i].category == Some(from) :: r[i].category == Some(to)
    ensures forall i | 0 <= i < |jobs| && jobs[i].category != Some(from) :: r[i] == jobs[i]
  {
    Map(MoveCategory(from, to), jobs)
  }

  /** After a rename to a different name, neither the list nor any job uses the old name; a fresh
      new name keeps the list duplicate-free. */
  lemma RenameCategoryLeavesNoOld(categories: seq<string>, jobs: seq<Job>, oldName: string, newName: string)
    requires oldName != newName
    ensures oldName !in RenameCategory(categories, oldName, newName)
    ensures forall i | 0 <= i < |jobs| :: MoveJobs(jobs, oldName, newName)[i].category != Some(oldName)
    ensures Distinct(categories) && newName !in categories ==> Distinct(RenameCategory(categories, oldName, newName))
  {
    var r := RenameCategory(categories, oldName, newName);
    if Distinct(categories) && newName !in categories {
      forall i, j | 0 <= i < j < |r| ensures r[i] != r[j] {
        assert categories[i] != categories[j];
        if categories[i] == oldName {
          assert categories[j] != newName;
        } else if categories[j] == oldName {
          assert categories[i] != newName;
        }
      }
    }
  }

  function IsNot(name: string): string -> bool {
    c => c != name
  }

  /** `handleDeleteCategory`, list half. */
  function DeleteCategory(categories: seq<string>, name: string): (r: seq<string>)
    ensures |r| <= |categories|
    ensures name !in r
  {
    FilterMembers(IsNot(name), categories);
    Filter(IsNot(name), categories)
  }

  /** Deleting a category keeps every other category, in order, and moves its jobs to
      `"Uncategorized"`. */
  lemma DeleteCategoryExactly(categories: seq<string>, jobs: seq<Job>, name: string)
    ensures forall c :: c in DeleteCategory(categories, name) <==> c in categories && c != name
    ensures IsSubsequence(DeleteCategory(categories, name), categories)
    ensures forall c :: multiset(DeleteCategory(categories, name))[c] == if c != name then multiset(categories)[c] else 0
    ensures forall i | 0 <= i < |jobs| && jobs[i].category == Some(name) ::
      MoveJobs(jobs, name, "Uncategorized")[i].category == Some("Uncategorized")
  {
    FilterMembers(IsNot(name), categories);
    FilterCount(IsNot(name), categories);
    FilterIsSubsequence(IsNot(name), categories);
  }

  /** The application-level state the handlers replace. */
  class Store {
    var jobs: seq<Job>
    var customers: seq<Customer>
    var categories: seq<string>
    var user: User

    constructor(jobs0: seq<Job>, customers0: seq<Customer>, categories0: seq<string>, user0: User)
      ensures jobs == jobs0 && customers == customers0 && categories == categories0 && user == user0
    {
      jobs, customers, categories, user := jobs0, customers0, categories0, user0;
    }

    method AddJob(id: string, title: string, description: string, startDate: Option<string>,
                  deadlineDate: Option<string>, startTime: Option<string>, endTime: Option<string>,
                  category: Option<string>, customerId: Option<string>)
      modifies this
      ensures jobs == old(jobs) + [NewJob(id, title, description, startDate, deadlineDate, startTime, endTime, category, customerId)]
      ensures unchanged(`customers, `categories, `user)
    {
      jobs := jobs + [NewJob(id, title, description, startDate, deadlineDate, startTime, endTime, category, customerId)];
    }

    method DeleteJob(jobId: string)
      modifies this
      ensures jobs == RemoveJob(old(jobs), jobId)
      ensures unchanged(`customers, `categories, `user)
    {
      jobs := RemoveJob(jobs, jobId);
    }

    method UpdateJob(updated: Job)
      modifies this
      ensures jobs == ReplaceJob(old(jobs), updated)
      ensures unchanged(`customers, `categories, `user)
    {
      jobs := ReplaceJob(jobs, updated);
    }

    method ToggleTodoStatus(jobId: string, todoId: string, now: string)
      modifies this
      ensures jobs == ToggleTodo(old(jobs), jobId, todoId, now)
      ensures unchanged(`customers, `categories, `user)
    {
      jobs := ToggleTodo(jobs, jobId, todoId, now);
    }

    method AddTemplates(jobId: string, titles: seq<string>, ids: seq<string>)
      requires |ids| == |titles|
      modifies this
      ensures jobs == AddTemplatedTodos(old(jobs), jobId, titles, ids)
      ensures unchanged(`customers, `categories, `user)
    {
      jobs := AddTemplatedTodos(jobs, jobId, titles, ids);
    }

    method AddCustom(jobId: string, title: string, id: string)
      modifies this
      ensures jobs == AddCustomTodo(old(jobs), jobId, title, id)
      ensures unchanged(`customers, `categories, `user)
    {
      if Trim(title) == "" {
        return;
      }
      jobs := AddCustomTodo(jobs, jobId, title, id);
    }

    method UpdateUser(updated: User)
      modifies this
      ensures user == updated
      ensures unchanged(`jobs, `customers, `categories)
    {
      user := updated;
    }

    method AddCustomer(id: string, name: string, contactInfo: Option<string>)
      modifies this
      ensures customers == old(customers) + [NewCustomer(id, name, contactInfo)]
      ensures unchanged(`jobs, `categories, `user)
    {
      customers := customers + [NewCustomer(id, name, contactInfo)];
    }

    method UpdateCustomer(updated: Customer)
      modifies this
      ensures customers == ReplaceCustomer(old(customers), updated)
      ensures unchanged(`jobs, `categories, `user)
    {
      customers := ReplaceCustomer(customers, updated);
    }

    method DeleteCustomer(customerId: string)
      modifies this
      ensures customers == RemoveCustomer(old(customers), customerId)
      ensures jobs == UnlinkCustomer(old(jobs), customerId)
      ensures unchanged(`categories, `user)
    {
      customers := RemoveCustomer(customers, customerId);
      jobs := UnlinkCustomer(jobs, customerId);
    }

    method AddCategory(name: string)
      modifies this
      ensures categories == old(categories) + [name]
      ensures unchanged(`jobs, `customers, `user)
    {
      categories := categories + [name];
    }

    method UpdateCategory(oldName: string, newName: string)
      modifies this
      ensures categories == RenameCategory(old(categories), oldName, newName)
      ensures jobs == MoveJobs(old(jobs), oldName, newName)
      ensures unchanged(`customers, `user)
    {
      categories := RenameCategory(categories, oldName, newName);
      jobs := MoveJobs(jobs, oldName, newName);
    }

    method RemoveCategory(name: string)
      modifies this
      ensures categories == DeleteCategory(old(categories), name)
      ensures jobs == MoveJobs(old(jobs), name, "Uncategorized")
      ensures unchanged(`customers, `user)
    {
      categories := DeleteCategory(categories, name);
      jobs := MoveJobs(jobs, name, "Uncategorized");
    }
  }
}
