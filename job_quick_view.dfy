/** The job detail card: its progress counts, the colour of its progress bar and the lookup of
    the job's customer. */
module JobQuickView {
  import opened Seqs
  import opened Model
  import opened Progress

  /** The counting loop over the job's todos, then the rounded percentage. */
  method CalculateProgressAndCounts(job: Job) returns (completedCount: nat, totalCountable: nat, progress: nat)
    ensures completedCount == Completed(job.todos)
    ensures totalCountable == Countable(job.todos)
    ensures completedCount <= totalCountable <= |job.todos|
    ensures progress == TodoProgress(job.todos) && progress <= 100
    ensures totalCountable == 0 ==> progress == 0
  {
    completedCount, totalCountable := 0, 0;
    for i := 0 to |job.todos|
      invariant completedCount == |Filter(IsDone, job.todos[..i])|
      invariant totalCountable == |Filter(IsCountable, job.todos[..i])|
    {
      var todo := job.todos[i];
      FilterPrefix(IsDone, job.todos, i);
      FilterPrefix(IsCountable, job.todos, i);
      if todo.status != NotNeeded {
        totalCountable := totalCountable + 1;
        if todo.status == Checked {
          completedCount := completedCount + 1;
        }
      }
    }
    assert job.todos[..|job.todos|] == job.todos;
    CompletedLeCountable(job.todos);
    progress := if totalCountable == 0 then 0 else RoundPercent(completedCount, totalCountable);
  }

  /** The bar colour: green only at exactly 100, then blue, yellow, orange and red below the
      thresholds 75, 50 and 25. */
  function ProgressBarColorClass(progress: int): (r: string)
    ensures r == "bg-green-500" <==> progress == 100
    ensures r == "bg-blue-500" <==> 75 <= progress && progress != 100
    ensures r == "bg-yellow-500" <==> 50 <= progress < 75
    ensures r == "bg-orange-500" <==> 25 <= progress < 50
    ensures r == "bg-red-500" <==> progress < 25
  {
    if progress == 100 then "bg-green-500"
    else if progress >= 75 then "bg-blue-500"
    else if progress >= 50 then "bg-yellow-500"
    else if progress >= 25 then "bg-orange-500"
    else "bg-red-500"
  }

  /** The bar colour is the shared progress band's colour. */
  lemma BarColourFollowsBand(progress: int)
    ensures ProgressBarColorClass(progress) == "bg-" + BandColour(BandOf(progress)) + "-500"
  {
  }

  /** `customers.find(c => c.id === id)`. */
  function Find(customers: seq<Customer>, id: string): (r: Option<Customer>)
    ensures r.None? <==> forall c | c in customers :: c.id != id
    ensures r.Some? ==> r.value in customers && r.value.id == id
  {
    if customers == [] then None
    else if customers[0].id == id then Some(customers[0])
    else Find(customers[1..], id)
  }

  /** The customer found is the first one with the id. */
  lemma {:induction false} FindFirst(customers: seq<Customer>, id: string, i: nat)
    requires i < |customers| && customers[i].id == id
    requires forall j | 0 <= j < i :: customers[j].id != id
    ensures Find(customers, id) == Some(customers[i])
  {
    if i > 0 {
      FindFirst(customers[1..], id, i - 1);
    }
  }

  /** The customer shown on the card: none when the job has no customer id (absent or empty),
      otherwise the first customer with the job's customer id, if any. */
  function JobCustomer(job: Job, customers: seq<Customer>): (r: Option<Customer>)
    ensures !Truthy(job.customerId) ==> r.None?
    ensures r.Some? ==> r.value in customers && Some(r.value.id) == job.customerId
    ensures Truthy(job.customerId) && (exists c | c in customers :: Some(c.id) == job.customerId) ==> r.Some?
  {
    if Truthy(job.customerId) then Find(customers, job.customerId.value) else None
  }
}
