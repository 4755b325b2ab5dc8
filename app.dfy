/** The module-level state of assets/js/main.js (`users`, `currentEditingId`,
    `userToDeleteId`) and the handlers that read and reassign it. The REST calls are not
    made here: a handler that makes one receives the reply as a parameter. `HandleSaveUser`
    and `HandleConfirmDelete` return the request issued, the toast shown and whether a
    reload was started; `LoadUsers` returns what is shown, the statistics and the error
    toast; `EditUser` returns the pre-fill and `DeleteUserToast` the dialog's question. */
module App {
  import opened Wrappers
  import opened Users
  import opened Ui
  import opened Form
  import opened Selection
  import opened Validator

  /** The reply to a POST, PUT or DELETE: a 2xx status, or any failure (network, status, JSON). */
  datatype Status = Ok | Err

  /** The reply to the GET of the whole list. */
  datatype Listing = Listed(users: seq<User>) | ListFailed

  const LoadErrorMessage := "Error loading users. Please check if the server is running."
  const UpdatedMessage := "User updated successfully!"
  const CreatedMessage := "User created successfully!"
  const SaveErrorMessage := "Error saving user. Please try again."
  const DeletedMessage := "User deleted successfully!"
  const DeleteErrorMessage := "Error deleting user. Please try again."

  /** The question the delete dialog asks about a user. */
  function DeletePrompt(u: User): string {
    "Are you sure you want to delete " + u.firstName + " " + u.lastName + "? This action cannot be undone."
  }

  class Dashboard {
    /** The cached list, replaced wholesale on every successful load. */
    var users: seq<User>
    /** The id held while the form is in edit mode. */
    var currentEditingId: Option<int>
    /** The id waiting for the delete confirmation. */
    var userToDeleteId: Option<int>

    /** Page load: an empty list and nothing selected. */
    constructor ()
      ensures users == [] && currentEditingId == None && userToDeleteId == None
    {
      users := [];
      currentEditingId := None;
      userToDeleteId := None;
    }

    /** `loadUsers`: on success the list is replaced by the reply, shown and counted; on
        failure the list is kept, the empty state is shown and an error toast appears. The
        selection is never touched. */
    method LoadUsers(reply: Listing) returns (shown: Display, stats: Option<Stats>, toast: Option<Toast>)
      modifies this`users
      ensures reply.Listed? ==> users == reply.users && shown == ShowUsers(users) &&
                                stats == Some(ComputeStats(users)) && toast == None
      ensures reply.ListFailed? ==> users == old(users) && shown == EmptyState && stats == None &&
                                    toast == Some(ShowToast(LoadErrorMessage, Some("error")))
    {
      match reply
      case Listed(fetched) =>
        users := fetched;
        shown := ShowUsers(users);
        var s := UpdateStats();
        stats := Some(s);
        toast := None;
      case ListFailed =>
        shown := EmptyState;
        stats := None;
        toast := Some(ShowToast(LoadErrorMessage, Some("error")));
    }

    /** `updateStats` on the current list. */
    method UpdateStats() returns (s: Stats)
      ensures s == ComputeStats(users)
      ensures s.total == |users| && s.active <= s.total && s.male + s.female <= s.total
    {
      s := ComputeStats(users);
    }

    /** `filterUsers`: the cards of exactly the users of the current list that pass the
        three controls, in list order, or the empty state when none does. */
    method FilterUsers(c: Criteria) returns (shown: Display)
      ensures shown == ShowUsers(Users.FilterUsers(users, c))
      ensures shown.EmptyState? <==> forall u :: u in users ==> !Keep(u, c)
    {
      var kept := Users.FilterUsers(users, c);
      shown := ShowUsers(kept);
      if shown.EmptyState? {
        forall u | u in users ensures !Keep(u, c) {
          assert u in users && Keep(u, c) ==> u in kept;
        }
      } else {
        assert kept[0] in users && Keep(kept[0], c);
      }
    }

    /** `editUser`: when the list holds the id, that user pre-fills the form and the id is held
        for update; otherwise nothing changes. */
    method EditUser(id: int) returns (prefill: Option<User>)
      modifies this`currentEditingId
      ensures prefill == Find(users, id)
      ensures prefill.Some? ==> currentEditingId == Some(id) && prefill.value.id == id
      ensures prefill.None? ==> currentEditingId == old(currentEditingId)
    {
      prefill := Find(users, id);
      if prefill.Some? {
        currentEditingId := Some(id);
      }
    }

    /** `resetForm`, also what closing a dialog runs: back to create mode. A pending delete
        stays pending. */
    method ResetForm()
      modifies this`currentEditingId
      ensures currentEditingId == None
      ensures userToDeleteId == old(userToDeleteId) && users == old(users)
    {
      currentEditingId := None;
    }

    /** `handleSaveUser`. A form that fails validation issues no request and changes nothing.
        A valid form issues an update of the held id when that id is truthy, a create
        otherwise (so a held id 0 creates); success leaves create mode and reloads, failure
        keeps the form as it was. */
    method HandleSaveUser(form: FormInput, reply: Status) returns (request: Option<Request>, toast: Toast, reload: bool)
      modifies this`currentEditingId
      ensures ValidateForm(form).Invalid? ==>
                request == None && !reload && currentEditingId == old(currentEditingId) &&
                toast == ShowToast(FieldMessage(ValidateForm(form).field), Some("error"))
      ensures ValidateForm(form).Valid? ==> request == Some(DispatchAsWritten(old(currentEditingId), Payload(form)))
      ensures ValidateForm(form).Valid? && reply.Ok? ==>
                reload && currentEditingId == None &&
                toast == ShowToast(if Truthy(old(currentEditingId)) then UpdatedMessage else CreatedMessage, Some("success"))
      ensures ValidateForm(form).Valid? && reply.Err? ==>
                !reload && currentEditingId == old(currentEditingId) &&
                toast == ShowToast(SaveErrorMessage, Some("error"))
    {
      var v := ValidateForm(form);
      if v.Invalid? {
        request, toast, reload := None, ShowToast(FieldMessage(v.field), Some("error")), false;
        return;
      }
      var r := DispatchAsWritten(currentEditingId, Payload(form));
      request := Some(r);
      if reply.Err? {
        toast, reload := ShowToast(SaveErrorMessage, Some("error")), false;
        return;
      }
      toast := ShowToast(if r.Update? then UpdatedMessage else CreatedMessage, Some("success"));
      ResetForm();
      reload := true;
    }

    /** `deleteUserToast`: the id becomes the pending deletion whether or not the list holds
        it; the dialog opens, with the user's name, only when it does. */
    method DeleteUserToast(id: int) returns (prompt: Option<string>)
      modifies this`userToDeleteId
      ensures userToDeleteId == Some(id)
      ensures prompt.Some? <==> HasId(users, id)
      ensures prompt.Some? ==> prompt == Some(DeletePrompt(Find(users, id).value))
    {
      userToDeleteId := Some(id);
      var user := Find(users, id);
      if user.Some? {
        prompt := Some(DeletePrompt(user.value));
      } else {
        prompt := None;
      }
    }

    /** `handleConfirmDelete`: a falsy pending id (none, or 0) returns early and stays;
        otherwise it deletes that id, reloads on success, and clears the pending id whatever
        the reply. */
    method HandleConfirmDelete(reply: Status) returns (request: Option<int>, toast: Option<Toast>, reload: bool)
      modifies this`userToDeleteId
      ensures DeleteStep(request, userToDeleteId) == ConfirmDeleteAsWritten(old(userToDeleteId))
      ensures !Truthy(old(userToDeleteId)) ==> toast == None && !reload
      ensures Truthy(old(userToDeleteId)) ==>
                reload == reply.Ok? &&
                toast == Some(if reply.Ok? then ShowToast(DeletedMessage, Some("success"))
                              else ShowToast(DeleteErrorMessage, Some("error")))
    {
      if !Truthy(userToDeleteId) {
        request, toast, reload := None, None, false;
        return;
      }
      var step := ConfirmDeleteAsWritten(userToDeleteId);
      request := step.request;
      if reply.Ok? {
        toast, reload := Some(ShowToast(DeletedMessage, Some("success"))), true;
      } else {
        toast, reload := Some(ShowToast(DeleteErrorMessage, Some("error"))), false;
      }
      userToDeleteId := step.pendingAfter;
    }
  }

  /** Loading a list, then a save rejected by validation and an edit of an unknown and of a
      known id, replayed against the contracts above. */
  method EditSession() {
    var d := new Dashboard();
    var alice := User(1, "Alice", "Smith", "female", 10.0, true);
    var shown, stats, toast := d.LoadUsers(Listed([alice]));
    assert stats == Some(Stats(1, 1, 0, 1)) by {
      assert [alice][1..] == [];
    }

    // Creating with an empty first name issues no request.
    var blank := FormInput("", "Doe", "male", Finite(5.0), true);
    BlankFirstNameRejected(blank);
    var request, t, reload := d.HandleSaveUser(blank, Ok);
    assert request == None && !reload;

    // Editing an unknown id keeps create mode; editing a known one switches to update.
    var prefill := d.EditUser(7);
    assert d.currentEditingId == None;
    prefill := d.EditUser(1);
    assert d.currentEditingId == Some(1);
  }

  /** A delete whose request fails, a second confirmation with nothing pending, and the
      confirmation of user 0, which the truthiness test ignores. */
  method DeleteSession() {
    var d := new Dashboard();
    var alice := User(1, "Alice", "Smith", "female", 10.0, true);
    var shown, stats, toast := d.LoadUsers(Listed([alice]));
    var prompt := d.DeleteUserToast(1);
    assert prompt == Some(DeletePrompt(alice));
    var deleted, dt, again := d.HandleConfirmDelete(Err);
    assert deleted == Some(1) && !again && d.userToDeleteId == None;
    deleted, dt, again := d.HandleConfirmDelete(Ok);
    assert deleted == None;

    var zero := User(0, "Zoe", "Zero", "female", 0.0, false);
    shown, stats, toast := d.LoadUsers(Listed([zero]));
    prompt := d.DeleteUserToast(0);
    deleted, dt, again := d.HandleConfirmDelete(Ok);
    assert deleted == None && !again && d.userToDeleteId == Some(0);
  }
}
