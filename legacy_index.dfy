/** The older jobs page, which keeps its own job list: a four-state todo cycle that never touches
    the completion time, and the same copy-on-write list rewrites as the application store. */
module LegacyIndex {
  import opened Seqs
  import opened Text
  import opened Model
  import App

  /** The four-state cycle `empty → checked → not-needed → unsure → empty`; every other status,
      `in-progress` included, goes to `empty`. */
  function LegacyNextStatus(s: Status): (r: Status)
    ensures r == Empty || r == Checked || r == NotNeeded || r == Unsure
    ensures r == Checked <==> s == Empty
    ensures r == NotNeeded <==> s == Checked
    ensures r == Unsure <==> s == NotNeeded
    ensures r == Empty <==> s != Empty && s != Checked && s != NotNeeded
  {
    match s
    case Empty => Checked
    case Checked => NotNeeded
    case NotNeeded => Unsure
    case _ => Empty
  }

  predicate InLegacyCycle(s: Status) {
    s == Empty || s == Checked || s == NotNeeded || s == Unsure
  }

  /** Four clicks bring a status of the cycle back; any other status lands on `unsure`. */
  lemma FourToggles(s: Status)
    ensures var r := LegacyNextStatus(LegacyNextStatus(LegacyNextStatus(LegacyNextStatus(s))));
      (InLegacyCycle(s) ==> r == s) && (!InLegacyCycle(s) ==> r == Unsure)
  {
  }

  /** One click: only the status moves; the completion time is kept as it was. */
  function LegacyToggleItem(t: TodoItem): (r: TodoItem)
    ensures r == t.(status := LegacyNextStatus(t.status))
  {
    t.(status := LegacyNextStatus(t.status))
  }

  function LegacyToggleIn(todoId: string): TodoItem -> TodoItem {
    (t: TodoItem) => if t.id == todoId then LegacyToggleItem(t) else t
  }

  function LegacyToggleTodosOf(todoId: string): Job -> Job {
    (j: Job) => j.(todos := Map(LegacyToggleIn(todoId), j.todos))
  }

  /** The legacy `handleToggleTodo`: only the todo `todoId` inside the job `jobId` changes. */
  function LegacyToggleTodo(jobs: seq<Job>, jobId: string, todoId: string): (r: seq<Job>)
    ensures |r| == |jobs|
    ensures forall i | 0 <= i < |jobs| :: r[i] == jobs[i].(todos := r[i].todos) && |r[i].todos| == |jobs[i].todos|
    ensures forall i | 0 <= i < |jobs| && jobs[i].id != jobId :: r[i] == jobs[i]
    ensures forall i, k | 0 <= i < |jobs| && 0 <= k < |jobs[i].todos| ::
      r[i].todos[k] == if jobs[i].id == jobId && jobs[i].todos[k].id == todoId
                       then LegacyToggleItem(jobs[i].todos[k]) else jobs[i].todos[k]
  {
    Map(App.OnJob(jobId, LegacyToggleTodosOf(todoId)), jobs)
  }

  /** Four toggles of the same todo give back the whole list when that todo's status is on the
      cycle. */
  lemma FourTogglesRestore(jobs: seq<Job>, jobId: string, todoId: string)
    requires forall i, k | 0 <= i < |jobs| && 0 <= k < |jobs[i].todos| ::
      jobs[i].id == jobId && jobs[i].todos[k].id == todoId ==> InLegacyCycle(jobs[i].todos[k].status)
    ensures LegacyToggleTodo(LegacyToggleTodo(LegacyToggleTodo(LegacyToggleTodo(
              jobs, jobId, todoId), jobId, todoId), jobId, todoId), jobId, todoId) == jobs
  {
    var r1 := LegacyToggleTodo(jobs, jobId, todoId);
    var r2 := LegacyToggleTodo(r1, jobId, todoId);
    var r3 := LegacyToggleTodo(r2, jobId, todoId);
    var r4 := LegacyToggleTodo(r3, jobId, todoId);
    forall i | 0 <= i < |jobs| ensures r4[i] == jobs[i] {
      forall k | 0 <= k < |jobs[i].todos| ensures r4[i].todos[k] == jobs[i].todos[k] {
        var t := jobs[i].todos[k];
        if jobs[i].id == jobId && t.id == todoId {
          FourToggles(t.status);
          assert r1[i].todos[k] == LegacyToggleItem(t);
          assert r2[i].todos[k] == LegacyToggleItem(r1[i].todos[k]);
          assert r3[i].todos[k] == LegacyToggleItem(r2[i].todos[k]);
          assert r4[i].todos[k] == LegacyToggleItem(r3[i].todos[k]);
        } else {
          assert r1[i].todos[k] == t && r2[i].todos[k] == t && r3[i].todos[k] == t;
        }
      }
      assert r4[i].todos == jobs[i].todos;
    }
  }

  /** The job the legacy `handleAddJob` creates: no category, times, customer or notes. */
  function NewLegacyJob(id: string, title: string, description: string,
                        startDate: Option<string>, deadlineDate: Option<string>): (r: Job)
    ensures r.id == id && r.title == title && r.description == description && r.todos == []
    ensures r.startDate == startDate && r.deadlineDate == deadlineDate && !r.templatedTodosAdded
    ensures r.category == None && r.customerId == None && r.startTime == None && r.endTime == None
  {
    Job(id, title, description, [], startDate, deadlineDate, None, None, None, None, None, false)
  }

  /** The legacy page's job list. */
  class LegacyBoard {
    var jobs: seq<Job>

    constructor(jobs0: seq<Job>)
      ensures jobs == jobs0
    {
      jobs := jobs0;
    }

    method AddJob(id: string, title: string, description: string,
                  startDate: Option<string>, deadlineDate: Option<string>)
      modifies this
      ensures jobs == old(jobs) + [NewLegacyJob(id, title, description, startDate, deadlineDate)]
    {
      jobs := jobs + [NewLegacyJob(id, title, description, startDate, deadlineDate)];
    }

    method DeleteJob(jobId: string)
      modifies this
      ensures jobs == App.RemoveJob(old(jobs), jobId)
    {
      jobs := App.RemoveJob(jobs, jobId);
    }

    method UpdateJob(updated: Job)
      modifies this
      ensures jobs == App.ReplaceJob(old(jobs), updated)
    {
      jobs := App.ReplaceJob(jobs, updated);
    }

    method ToggleTodoStatus(jobId: string, todoId: string)
      modifies this
      ensures jobs == LegacyToggleTodo(old(jobs), jobId, todoId)
    {
      jobs := LegacyToggleTodo(jobs, jobId, todoId);
    }

    method AddTemplates(jobId: string, titles: seq<string>, ids: seq<string>)
      requires |ids| == |titles|
      modifies this
      ensures jobs == App.AddTemplatedTodos(old(jobs), jobId, titles, ids)
    {
      jobs := App.AddTemplatedTodos(jobs, jobId, titles, ids);
    }

    method AddCustom(jobId: string, title: string, id: string)
      modifies this
      ensures jobs == App.AddCustomTodo(old(jobs), jobId, title, id)
    {
      if Trim(title) == "" {
        return;
      }
      jobs := App.AddCustomTodo(jobs, jobId, title, id);
    }
  }
}
