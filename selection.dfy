/** The decisions `handleSaveUser` and `handleConfirmDelete` (assets/js/main.js) take on the
    selection variables `currentEditingId` and `userToDeleteId`, each holding `null` or an id.
    The source tests them for JavaScript truthiness, which also reads the id 0 as "nothing
    selected"; the `AsWritten` members model that test, and `App.Dashboard` uses them; the
    others state the evident intent (any held id counts). */
module Selection {
  import opened Wrappers
  import opened Form

  /** The request a save issues: a POST of the payload, or a PUT to `/users/{id}` whose body
      is the payload with the id attached. */
  datatype Request = Create(data: UserData) | Update(id: int, data: UserData)

  /** `if (x)` on a variable holding `null` or a numeric id. */
  predicate Truthy(selection: Option<int>) {
    selection.Some? && selection.value != 0
  }

  /** `if (currentEditingId) update else create`, as written. */
  function DispatchAsWritten(editing: Option<int>, data: UserData): (r: Request)
    ensures r.data == data
    ensures r.Update? <==> Truthy(editing)
    ensures r.Update? ==> r.id == editing.value
  {
    if Truthy(editing) then Update(editing.value, data) else Create(data)
  }

  /** Editing the user whose id is 0 and saving posts a new user instead of updating it. */
  lemma ZeroIdSaveCreatesAsWritten(data: UserData)
    ensures DispatchAsWritten(Some(0), data) == Create(data)
    ensures DispatchAsWritten(Some(0), data) != Update(0, data)
  {
  }

  /** The save dispatch: an update of the held id whenever an id is held, a create otherwise. */
  function Dispatch(editing: Option<int>, data: UserData): (r: Request)
    ensures r.data == data
    ensures r.Update? <==> editing.Some?
    ensures r.Update? ==> r.id == editing.value
  {
    match editing
    case Some(id) => Update(id, data)
    case None => Create(data)
  }

  /** The two dispatches differ on the id 0 and nowhere else. */
  lemma DispatchDiffersOnlyOnZero(editing: Option<int>, data: UserData)
    ensures DispatchAsWritten(editing, data) == Dispatch(editing, data) <==> editing != Some(0)
  {
  }

  /** What confirming a delete does with the pending id: the DELETE it issues, if any, and
      the pending id left behind. */
  datatype DeleteStep = DeleteStep(request: Option<int>, pendingAfter: Option<int>)

  /** `handleConfirmDelete` as written: a falsy pending id returns early and is left in place;
      otherwise the id is deleted and cleared in `finally`. */
  function ConfirmDeleteAsWritten(pending: Option<int>): (s: DeleteStep)
    ensures s.request.Some? <==> Truthy(pending)
    ensures s.request.Some? ==> s.request == pending && s.pendingAfter == None
    ensures s.request.None? ==> s.pendingAfter == pending
  {
    if !Truthy(pending) then DeleteStep(None, pending) else DeleteStep(pending, None)
  }

  /** Confirming the deletion of the user whose id is 0 sends nothing and leaves the id pending. */
  lemma ZeroIdDeleteIgnoredAsWritten()
    ensures ConfirmDeleteAsWritten(Some(0)) == DeleteStep(None, Some(0))
  {
  }

  /** The confirm step: a held id is deleted; in every case nothing is pending afterwards. */
  function ConfirmDelete(pending: Option<int>): (s: DeleteStep)
    ensures s.request == pending
    ensures s.pendingAfter == None
  {
    DeleteStep(pending, None)
  }

  /** The two confirm steps differ on the id 0 and nowhere else. */
  lemma ConfirmDeleteDiffersOnlyOnZero(pending: Option<int>)
    ensures ConfirmDeleteAsWritten(pending) == ConfirmDelete(pending) <==> pending != Some(0)
  {
  }
}
