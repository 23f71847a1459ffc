/** The category list as it is loaded from and saved to browser storage. The two built-in
    categories `"Other"` and `"Uncategorized"` are appended on every load and stripped before
    every save. Reading and writing storage and the JSON encoding are not part of this model:
    `saved` is the parsed stored list, or `None` when nothing is stored. */
module CategoriesPersistence {
  import opened Seqs
  import opened Model

  /** The two categories every loaded list ends with. */
  const BuiltIn: seq<string> := ["Other", "Uncategorized"]

  predicate IsBuiltIn(c: string) {
    c == "Other" || c == "Uncategorized"
  }

  predicate IsUserDefined(c: string) {
    !IsBuiltIn(c)
  }

  /** The stored list, or the defaults when nothing is stored. */
  function Initial(saved: Option<seq<string>>, defaults: seq<string>): seq<string> {
    if saved.Some? then saved.value else defaults
  }

  /** Load in a browser: the initial list and the built-ins, de-duplicated by a `Set` that keeps
      the first occurrence of each name. */
  function Load(saved: Option<seq<string>>, defaults: seq<string>): (r: seq<string>)
    ensures Distinct(r)
    ensures "Other" in r && "Uncategorized" in r
    ensures forall c | c in r :: c in Initial(saved, defaults) || IsBuiltIn(c)
    ensures forall c | c in Initial(saved, defaults) :: c in r
  {
    Dedup(Initial(saved, defaults) + BuiltIn)
  }

  /** Load without a browser window: the defaults and the built-ins, with no de-duplication. */
  function LoadWithoutWindow(defaults: seq<string>): (r: seq<string>)
    ensures |r| == |defaults| + 2
    ensures r[..|defaults|] == defaults && r[|defaults|..] == BuiltIn
  {
    defaults + BuiltIn
  }

  /** The list written to storage: everything but the built-ins, in order. */
  function Save(categories: seq<string>): (r: seq<string>)
    ensures |r| <= |categories|
    ensures forall i | 0 <= i < |r| :: !IsBuiltIn(r[i])
  {
    Filter(IsUserDefined, categories)
  }

  /** Saving keeps exactly the user-defined categories, and in their order. */
  lemma SaveKeepsUserDefined(categories: seq<string>)
    ensures forall c :: c in Save(categories) <==> c in categories && !IsBuiltIn(c)
    ensures IsSubsequence(Save(categories), categories)
    ensures forall c :: multiset(Save(categories))[c] == if IsBuiltIn(c) then 0 else multiset(categories)[c]
  {
    FilterMembers(IsUserDefined, categories);
    FilterCount(IsUserDefined, categories);
    FilterIsSubsequence(IsUserDefined, categories);
  }

  /** The loaded names come in the order of their first occurrence in the initial list followed by
      the built-ins. */
  lemma LoadKeepsFirstOccurrenceOrder(saved: Option<seq<string>>, defaults: seq<string>)
    ensures var s := Initial(saved, defaults) + BuiltIn;
      forall i, j | 0 <= i < j < |Load(saved, defaults)| ::
        IndexOf(s, Load(saved, defaults)[i]) < IndexOf(s, Load(saved, defaults)[j])
  {
    DedupFirstOccurrenceOrder(Initial(saved, defaults) + BuiltIn);
  }

  /** With nothing stored and defaults that are duplicate-free and free of built-ins, both load
      branches give the defaults followed by `"Other"` and `"Uncategorized"`. */
  lemma LoadDefaults(defaults: seq<string>)
    requires Distinct(defaults)
    requires forall i | 0 <= i < |defaults| :: !IsBuiltIn(defaults[i])
    ensures Load(None, defaults) == LoadWithoutWindow(defaults) == defaults + BuiltIn
  {
    AppendBuiltInDistinct(defaults);
    DedupDistinct(defaults + BuiltIn);
  }

  lemma AppendBuiltInDistinct(names: seq<string>)
    requires Distinct(names)
    requires forall i | 0 <= i < |names| :: !IsBuiltIn(names[i])
    ensures Distinct(names + BuiltIn)
  {
    DistinctSnoc(names, "Other");
    assert names + ["Other"] + ["Uncategorized"] == names + BuiltIn;
    DistinctSnoc(names + ["Other"], "Uncategorized");
  }

  /** Round trip: a duplicate-free list that holds the built-ins only as its last two entries, in
      that order, is saved and loaded back unchanged. */
  lemma SaveThenLoad(categories: seq<string>, defaults: seq<string>)
    requires Distinct(categories)
    requires |categories| >= 2 && categories[|categories| - 2..] == BuiltIn
    requires forall i | 0 <= i < |categories| - 2 :: !IsBuiltIn(categories[i])
    ensures Load(Some(Save(categories)), defaults) == categories
  {
    var names := categories[..|categories| - 2];
    assert categories == names + BuiltIn;
    FilterConcat(IsUserDefined, names, BuiltIn);
    FilterAll(IsUserDefined, names);
    FilterNone(IsUserDefined, BuiltIn);
    assert Save(categories) == names;
    assert Distinct(names) by {
      forall i, j | 0 <= i < j < |names| ensures names[i] != names[j] {
        assert names[i] == categories[i] && names[j] == categories[j];
      }
    }
    AppendBuiltInDistinct(names);
    DedupDistinct(categories);
  }
}
