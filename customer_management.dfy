/** The customer settings card: the trimming and validation of the add and edit forms, and the
    form state the submit handlers leave behind. The new customer's id is drawn by the caller
    and is not part of this form. */
module CustomerManagement {
  import opened Text
  import opened Model

  /** `s.trim() || undefined`: the trimmed text, or nothing when it trims to empty. */
  function OptionalTrimmed(s: string): (r: Option<string>)
    ensures r == None <==> AllWhite(s)
    ensures r.Some? ==> r.value == Trim(s) && r.value != ""
  {
    var t := Trim(s);
    if t != "" then Some(t) else None
  }

  /** What the add form passes on: a trimmed name and an optional trimmed contact. */
  datatype NewCustomer = NewCustomer(name: string, contactInfo: Option<string>)

  /** `handleAddCustomerSubmit`: accepted exactly when the name does not trim to empty. */
  function AddRequest(name: string, contact: string): (r: Option<NewCustomer>)
    ensures r.Some? <==> Trim(name) != ""
    ensures r.Some? ==> r.value.name == Trim(name) && r.value.contactInfo == OptionalTrimmed(contact)
  {
    if Trim(name) != "" then Some(NewCustomer(Trim(name), OptionalTrimmed(contact))) else None
  }

  /** `handleUpdateCustomerSubmit`: the edited customer with a trimmed name and contact, when a
      customer is being edited and the name does not trim to empty. */
  function UpdateRequest(editing: Option<Customer>, name: string, contact: string): (r: Option<Customer>)
    ensures r.Some? <==> editing.Some? && Trim(name) != ""
    ensures r.Some? ==> r.value == editing.value.(name := Trim(name), contactInfo := OptionalTrimmed(contact))
  {
    if editing.Some? && Trim(name) != "" then
      Some(editing.value.(name := Trim(name), contactInfo := OptionalTrimmed(contact)))
    else None
  }

  /** Re-submitting a customer's own fields changes nothing once they are trimmed. */
  lemma UpdateIdempotent(c: Customer)
    requires Trim(c.name) == c.name && c.name != ""
    requires c.contactInfo.None? || (Trim(c.contactInfo.value) == c.contactInfo.value && c.contactInfo.value != "")
    ensures UpdateRequest(Some(c), c.name, OrElse(c.contactInfo, "")) == Some(c)
  {
    if c.contactInfo.None? {
      assert AllWhite("");
    }
  }

  /** The card's form state. */
  class CustomerForm {
    var newCustomerName: string
    var newCustomerContact: string
    var isAddCustomerDialogOpen: bool
    var editingCustomer: Option<Customer>
    var editCustomerName: string
    var editCustomerContact: string
    var isEditCustomerDialogOpen: bool

    constructor()
      ensures newCustomerName == "" && newCustomerContact == "" && !isAddCustomerDialogOpen
      ensures editingCustomer == None && editCustomerName == "" && editCustomerContact == ""
      ensures !isEditCustomerDialogOpen
    {
      newCustomerName, newCustomerContact, isAddCustomerDialogOpen := "", "", false;
      editingCustomer, editCustomerName, editCustomerContact, isEditCustomerDialogOpen := None, "", "", false;
    }

    /** Submit the add form: an accepted request clears the inputs and closes the dialog; a
        rejected one changes nothing. */
    method AddSubmit() returns (request: Option<NewCustomer>)
      modifies this
      ensures request == AddRequest(old(newCustomerName), old(newCustomerContact))
      ensures request.Some? ==> newCustomerName == "" && newCustomerContact == "" && !isAddCustomerDialogOpen
      ensures request.None? ==> unchanged(this)
      ensures unchanged(`editingCustomer, `editCustomerName, `editCustomerContact, `isEditCustomerDialogOpen)
    {
      request := AddRequest(newCustomerName, newCustomerContact);
      if request.Some? {
        newCustomerName, newCustomerContact, isAddCustomerDialogOpen := "", "", false;
      }
    }

    /** Open the edit dialog on `c`, its contact shown as empty text when absent. */
    method EditClick(c: Customer)
      modifies this
      ensures editingCustomer == Some(c) && editCustomerName == c.name
      ensures editCustomerContact == OrElse(c.contactInfo, "") && isEditCustomerDialogOpen
      ensures unchanged(`newCustomerName, `newCustomerContact, `isAddCustomerDialogOpen)
    {
      editingCustomer := Some(c);
      editCustomerName := c.name;
      editCustomerContact := OrElse(c.contactInfo, "");
      isEditCustomerDialogOpen := true;
    }

    /** Submit the edit form: an accepted update closes the dialog and forgets the customer; a
        rejected one changes nothing. */
    method UpdateSubmit() returns (request: Option<Customer>)
      modifies this
      ensures request == UpdateRequest(old(editingCustomer), old(editCustomerName), old(editCustomerContact))
      ensures request.Some? ==> !isEditCustomerDialogOpen && editingCustomer == None
      ensures request.Some? ==> unchanged(`editCustomerName, `editCustomerContact)
      ensures request.None? ==> unchanged(this)
      ensures unchanged(`newCustomerName, `newCustomerContact, `isAddCustomerDialogOpen)
    {
      request := UpdateRequest(editingCustomer, editCustomerName, editCustomerContact);
      if request.Some? {
        isEditCustomerDialogOpen := false;
        editingCustomer := None;
      }
    }
  }
}
