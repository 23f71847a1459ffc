/** The category settings card: whether a typed name is accepted as a new category or as a
    rename, the dialog state the submit handlers leave behind, and the list of categories the card
    lets the user manage. Toasts are modelled by the outcome values that choose them. */
module CategoryManagement {
  import opened Seqs
  import opened Text
  import opened Model

  /** What submitting the "add category" form does. */
  datatype AddOutcome = Add(name: string) | AlreadyExists | EmptyName

  /** `handleAddCategorySubmit`'s decision for the typed `input`. */
  function AddDecision(input: string, categories: seq<string>): (r: AddOutcome)
    ensures r.Add? <==> Trim(input) != "" && Trim(input) !in categories
    ensures r.Add? ==> r.name == Trim(input)
    ensures r == AlreadyExists <==> Trim(input) in categories
    ensures r == EmptyName <==> Trim(input) == "" && "" !in categories
  {
    var name := Trim(input);
    if name != "" && name !in categories then Add(name)
    else if name in categories then AlreadyExists
    else EmptyName
  }

  /** What submitting the "edit category" form does. */
  datatype UpdateOutcome = Rename(oldName: string, newName: string) | NameTaken | NoChange | RenameEmpty

  /** `handleUpdateCategorySubmit`'s decision for the category being edited and the typed input. */
  function UpdateDecision(editing: Option<string>, input: string, categories: seq<string>): (r: UpdateOutcome)
    ensures r.Rename? <==>
      Truthy(editing) && Trim(input) != "" && editing != Some(Trim(input)) && Trim(input) !in categories
    ensures r.Rename? ==> r.oldName == editing.value && r.newName == Trim(input)
    ensures r == NameTaken <==>
      Truthy(editing) && Trim(input) != "" && editing != Some(Trim(input)) && Trim(input) in categories
    ensures r == NoChange <==> editing == Some(Trim(input))
  {
    var name := Trim(input);
    if Truthy(editing) && name != "" && editing != Some(name) then
      if name in categories then NameTaken else Rename(editing.value, name)
    else if editing == Some(name) then NoChange
    else RenameEmpty
  }

  predicate IsManageable(c: string) {
    c != "All" && c != "Other" && c != "Uncategorized"
  }

  /** The categories the card lists for editing and deleting. */
  function ManageableCategories(categories: seq<string>): (r: seq<string>)
    ensures |r| <= |categories|
    ensures forall i | 0 <= i < |r| :: IsManageable(r[i])
  {
    Filter(IsManageable, categories)
  }

  /** The listed categories are exactly the ones other than "All", "Other" and "Uncategorized",
      in list order. */
  lemma ManageableExactly(categories: seq<string>)
    ensures forall c :: c in ManageableCategories(categories) <==> c in categories && IsManageable(c)
    ensures IsSubsequence(ManageableCategories(categories), categories)
    ensures forall c :: multiset(ManageableCategories(categories))[c] == if IsManageable(c) then multiset(categories)[c] else 0
  {
    FilterMembers(IsManageable, categories);
    FilterCount(IsManageable, categories);
    FilterIsSubsequence(IsManageable, categories);
  }

  /** The card's dialog and input state. */
  class CategoryForm {
    var newCategoryName: string
    var isAddCategoryDialogOpen: bool
    var editingCategoryName: Option<string>
    var editCategoryInput: string
    var isEditCategoryDialogOpen: bool

    constructor()
      ensures newCategoryName == "" && !isAddCategoryDialogOpen
      ensures editingCategoryName == None && editCategoryInput == "" && !isEditCategoryDialogOpen
    {
      newCategoryName, isAddCategoryDialogOpen := "", false;
      editingCategoryName, editCategoryInput, isEditCategoryDialogOpen := None, "", false;
    }

    /** Submit the add form: an accepted name clears the input and closes the dialog; a rejected
        one leaves everything as it was. */
    method AddSubmit(categories: seq<string>) returns (outcome: AddOutcome)
      modifies this
      ensures outcome == AddDecision(old(newCategoryName), categories)
      ensures outcome.Add? ==> newCategoryName == "" && !isAddCategoryDialogOpen
      ensures !outcome.Add? ==> newCategoryName == old(newCategoryName)
                                && isAddCategoryDialogOpen == old(isAddCategoryDialogOpen)
      ensures unchanged(`editingCategoryName, `editCategoryInput, `isEditCategoryDialogOpen)
    {
      outcome := AddDecision(newCategoryName, categories);
      if outcome.Add? {
        newCategoryName := "";
        isAddCategoryDialogOpen := false;
      }
    }

    /** Open the edit dialog on `name`, with the input holding the current name. */
    method EditClick(name: string)
      modifies this
      ensures editingCategoryName == Some(name) && editCategoryInput == name && isEditCategoryDialogOpen
      ensures unchanged(`newCategoryName, `isAddCategoryDialogOpen)
    {
      editingCategoryName := Some(name);
      editCategoryInput := name;
      isEditCategoryDialogOpen := true;
    }

    /** Submit the edit form: a rename closes the dialog and forgets the edited name; an unchanged
        name only closes the dialog; a taken or empty name changes nothing. */
    method UpdateSubmit(categories: seq<string>) returns (outcome: UpdateOutcome)
      modifies this
      ensures outcome == UpdateDecision(old(editingCategoryName), old(editCategoryInput), categories)
      ensures outcome.Rename? ==> !isEditCategoryDialogOpen && editingCategoryName == None
      ensures outcome == NoChange ==> !isEditCategoryDialogOpen
                                      && editingCategoryName == old(editingCategoryName)
      ensures outcome == NameTaken || outcome == RenameEmpty ==>
        isEditCategoryDialogOpen == old(isEditCategoryDialogOpen)
        && editingCategoryName == old(editingCategoryName)
      ensures unchanged(`newCategoryName, `isAddCategoryDialogOpen, `editCategoryInput)
    {
      outcome := UpdateDecision(editingCategoryName, editCategoryInput, categories);
      match outcome {
        case Rename(_, _) =>
          isEditCategoryDialogOpen := false;
          editingCategoryName := None;
        case NoChange =>
          isEditCategoryDialogOpen := false;
        case _ =>
      }
    }
  }
}
