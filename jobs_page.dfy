/** The jobs page's category filter: the list of filter choices and the jobs a choice shows. */
module JobsPage {
  import opened Seqs
  import opened Model
  import opened CategoriesPersistence

  /** `"All"`, then the user-defined categories in order, then the two built-ins. */
  function FilterCategories(categories: seq<string>): (r: seq<string>)
    ensures |r| >= 3 && r[0] == "All" && r[|r| - 2..] == BuiltIn
    ensures r[1..|r| - 2] == Save(categories)
  {
    ["All"] + Filter(IsUserDefined, categories) + BuiltIn
  }

  /** The middle of the filter list is exactly the user-defined categories, in list order. */
  lemma FilterCategoriesMiddle(categories: seq<string>)
    ensures var middle := FilterCategories(categories)[1..|FilterCategories(categories)| - 2];
      (forall c :: c in middle <==> c in categories && !IsBuiltIn(c))
      && IsSubsequence(middle, categories)
      && forall c :: multiset(middle)[c] == if IsBuiltIn(c) then 0 else multiset(categories)[c]
  {
    SaveKeepsUserDefined(categories);
  }

  function InCategory(selected: string): Job -> bool {
    (j: Job) => j.category == Some(selected)
  }

  /** The jobs shown for the selected filter. */
  function FilteredJobs(jobs: seq<Job>, selected: string): (r: seq<Job>)
    ensures selected == "All" ==> r == jobs
    ensures selected != "All" ==> forall i | 0 <= i < |r| :: r[i].category == Some(selected)
  {
    if selected == "All" then jobs else Filter(InCategory(selected), jobs)
  }

  /** Any other choice shows exactly the jobs of that category, and always in list order. */
  lemma FilteredJobsExactly(jobs: seq<Job>, selected: string)
    ensures selected != "All" ==> forall j :: j in FilteredJobs(jobs, selected) <==> j in jobs && j.category == Some(selected)
    ensures IsSubsequence(FilteredJobs(jobs, selected), jobs)
    ensures selected != "All" ==>
      forall j :: multiset(FilteredJobs(jobs, selected))[j] == if j.category == Some(selected) then multiset(jobs)[j] else 0
  {
    if selected == "All" {
      SelfIsSubsequence(jobs);
    } else {
      FilterMembers(InCategory(selected), jobs);
      FilterIsSubsequence(InCategory(selected), jobs);
      FilterCount(InCategory(selected), jobs);
    }
  }
}
