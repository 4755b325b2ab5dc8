# User management front end: validation, filtering, statistics and selection state

This project models the logic inside a single-page front end for managing "user" records.
Each user has an id, first and last name, gender, balance and an active flag. The front end
works against a REST resource `/users`. The source is two JavaScript files. The model covers
the part that decides anything; DOM and HTTP glue is left out:

- **Validation** (`Validator.checkInt`, `Validator.checkString`, `validateForm`): the two
  predicates and the fixed order in which the form's four fields are checked, with the
  first failure reported, with the field's error toast text given by `Form.FieldMessage`.
  Inputs are modelled as follows:
  - A number is `NaN`, a signed infinity or a finite real.
  - JavaScript's `% 1` is written out as truncation toward zero.
  - `trim` removes the ECMAScript whitespace and line-terminator code points.
- **Filtering** (`filterUsers`): the AND of three predicates, the parts of the `filter`
  callback, modelled as `Users.MatchesSearch`, `Users.MatchesStatus` and
  `Users.MatchesGender`, with `Users.Keep` as their AND.
  - A case-insensitive substring search over first name, last name and the decimal id text.
  - A status tri-state.
  - A gender match.

  Its result is proved to be the order-preserving subsequence of exactly the passing users.
  The three predicates are independent, and the filter can be applied in any order.
- **Statistics** (`updateStats`): total, active, male and female counts. The proofs show:
  - no count exceeds the total, and male plus female is at most the total;
  - active plus inactive is the total;
  - each count equals the size of the matching filtered view.
- **Display attributes** (`createUserCard`, `showUsers`, `showToast`):
  - the status, balance and gender attributes of a card;
  - the empty state versus one card per user;
  - the toast colour and icon, which always agree.
- **Selection state** (`users`, `currentEditingId`, `userToDeleteId`): the class
  `App.Dashboard`, whose methods `LoadUsers`, `EditUser`, `ResetForm`, `HandleSaveUser`,
  `DeleteUserToast` and `HandleConfirmDelete` reassign these fields as the handlers do,
  including the truthiness tests on the ids (so the id 0 counts as "nothing selected").
  The methods `App.EditSession` and `App.DeleteSession` are scenarios that replay short
  sequences of handler calls against these contracts; `App.DeleteSession` ends with the
  confirmation of user 0 being ignored. The delete dialog's question is `App.DeletePrompt`.

Each REST call is represented only by the reply it gets, passed to the handler as a
parameter (`Status` or `Listing`). What the handlers return:
- `HandleSaveUser` and `HandleConfirmDelete`: the request issued, the toast shown and
  whether a reload of the list was started.
- `LoadUsers`: what is shown, the recomputed statistics and the error toast, if any.
- `EditUser`: the user that pre-fills the form; `DeleteUserToast`: the dialog's question.

Facts about the code that the model keeps:
- Closing a dialog runs only `resetForm` (main.js:93-96), so a pending delete id is kept
  (`App.Dashboard.ResetForm`).
- The balance is checked to be a whole non-negative number only on the form. A card still
  renders any balance the server returns, and a negative one gets the class
  `balance-negative`.

Modules: `Wrappers` (Option), `Text`, `Validator`, `Seqs` (filter and counting),
`Users`, `Ui`, `Form`, `Selection` and `App`.

## Model

| member | source | states |
|---|---|---|
| `Text.Trim` | assets/js/main.js:35 | the result is a contiguous slice of the input with only whitespace cut off before and after it, and it neither starts nor ends with whitespace |
| `Text.TrimEmptyIff` | assets/js/main.js:35 | `trim()` gives `""` exactly when every character is whitespace |
| `Text.TrimIdempotent` | assets/js/main.js:407-412 | trimming the names before `checkString` trims them again changes nothing |
| `Text.ToLower` | assets/js/main.js:357 | lower-casing keeps the length and folds each character on its own |
| `Text.ToLowerIdempotent` | assets/js/main.js:357-364 | lower-casing an already lower-cased term changes nothing |
| `Text.Includes` | assets/js/main.js:363-365 | `includes` holds exactly when the term occurs at some position |
| `Text.IncludesEmpty` | assets/js/main.js:363 | the empty search term occurs in every string |
| `Text.IntToString` | assets/js/main.js:365 | an id's text is the canonical numeral: digits with no leading zero for a non-negative id, `-` followed by such digits for a negative one |
| `Text.IntToStringRoundTrip` | assets/js/main.js:365 | parsing the decimal text of any integer id gives back that id |
| `Validator.ModOne` | assets/js/main.js:16 | `n % 1` is NaN for NaN and infinities; for a finite n it is what truncation toward zero leaves |
| `Validator.CheckInt` | assets/js/main.js:12-23 | accepts exactly the finite, whole, non-negative numbers; so NaN, infinities, fractions and negatives are rejected |
| `Validator.CheckIntAcceptsNaturals` | assets/js/main.js:12-23 | 0 and every positive whole number pass `checkInt` |
| `Validator.CheckString` | assets/js/main.js:31-39 | accepts exactly the strings with a non-whitespace character; non-strings, `""` and whitespace-only strings fail |
| `Seqs.Filter` | assets/js/main.js:361-376 | `filter` returns at most as many elements, each passing and each taken from the input |
| `Seqs.FilterIsSubsequence` | assets/js/main.js:361-376 | `filter` keeps the input's order: its result is a subsequence |
| `Seqs.FilterMultiplicity` | assets/js/main.js:361-376 | a passing value occurs as often as in the input; a failing one does not occur |
| `Seqs.FilterKeepsPassing` | assets/js/main.js:361-376 | every element that passes is kept |
| `Seqs.FilterExtensional` | assets/js/main.js:361-376 | the result depends only on the predicate's values |
| `Seqs.FilterAll` | assets/js/main.js:361-376 | a predicate true everywhere keeps the whole list |
| `Seqs.FilterNone` | assets/js/main.js:361-376 | a predicate false everywhere keeps nothing |
| `Seqs.FilterConjunction` | assets/js/main.js:375 | filtering by an AND is filtering by each conjunct in turn |
| `Seqs.FilterCommute` | assets/js/main.js:375 | two filters can be applied in either order |
| `Seqs.FilterComplement` | assets/js/main.js:388 | passing and failing elements together number the whole list |
| `Seqs.FilterDisjoint` | assets/js/main.js:389-390 | two predicates that never hold together count at most the list length |
| `Users.FilterUsers` | assets/js/main.js:356-378 | the shown list is an order-preserving subsequence of `users`: every kept user passes all three predicates, and every passing user is kept as often as it occurs |
| `Users.FilterUsersIsConjunction` | assets/js/main.js:362-375 | the combined filter equals search, then status, then gender, and also gender, then status, then search |
| `Users.FilterUsersNoCriteria` | assets/js/main.js:362-373 | empty search, status `''` and gender `''` show the whole list |
| `Users.FilterUsersUnknownStatus` | assets/js/main.js:367-370 | a status other than `''`, `'active'` and `'inactive'` matches nobody |
| `Users.SearchIgnoresCase` | assets/js/main.js:357-364 | the search text's case does not change the result |
| `Users.ComputeStats` | assets/js/main.js:386-390 | total is the list length; active is at most total; male plus female is at most total |
| `Users.ActivePlusInactive` | assets/js/main.js:388 | active plus inactive users is the total |
| `Users.StatsAgreeWithFilter` | assets/js/main.js:386-390 | the active, male and female counts equal the sizes of the matching filtered views |
| `Users.StatsScenario` | assets/js/main.js:386-390 | an active man and an inactive woman give total 2, active 1, male 1, female 1 |
| `Users.Find` | assets/js/main.js:264 | `find` returns a user exactly when the id occurs, and then the first user with that id |
| `Ui.CreateUserCard` | assets/js/ui.js:23-45 | status class, text, icon and chip colour are one of two fixed tuples picked by `isActive`. The balance class is positive iff balance ≥ 0. The gender colour is blue iff `'male'`, otherwise pink. The title is `first + " " + last`, the id label is `"ID: "` plus the id |
| `Ui.StatusDependsOnlyOnActivity` | assets/js/ui.js:23-25 | users with the same flag get the same status attributes, whatever else differs |
| `Ui.StatusDistinguishesActivity` | assets/js/ui.js:23-25 | an active and an inactive user differ in every status attribute |
| `Ui.ShowUsers` | assets/js/main.js:339-347 | the empty state exactly for an empty list, otherwise one card per user in list order |
| `Ui.ShowToast` | assets/js/ui.js:76-82 | colour green for `'success'` or no type, red for `'error'`, blue otherwise; the icon (check, error, info) always agrees with the colour; 4000 ms |
| `Ui.ToastDefaultsToSuccess` | assets/js/ui.js:76 | leaving out the type is the same as `'success'` |
| `Form.ValidateForm` | assets/js/main.js:406-433 | valid iff all four fields pass; otherwise the reported field fails and every field checked before it passes |
| `Form.FieldMessagesDistinct` | assets/js/main.js:412-430 | each failing field shows its own message |
| `Form.BlankFirstNameRejected` | assets/js/main.js:407-415 | a blank or whitespace-only first name is reported as the first-name error |
| `Form.BlankGenderRejected` | assets/js/main.js:409-425 | an all-whitespace gender is rejected although it is not trimmed first |
| `Form.AcceptedNameIsTrimmed` | assets/js/main.js:412-420 | a name accepted by `checkString` after trimming is sent non-empty and with no surrounding whitespace |
| `Form.Payload` | assets/js/main.js:112-118 | after validation, the sent names are the trimmed form names and so non-empty with no surrounding whitespace; the gender is the selected one and has a visible character; the balance is the form's whole non-negative number; the flag is the checkbox |
| `Selection.DispatchAsWritten` | assets/js/main.js:123-131 | as written: update of the held id iff the id is truthy, otherwise create |
| `Selection.ZeroIdSaveCreatesAsWritten` | assets/js/main.js:123 | as written, saving while editing id 0 posts a new user instead of updating |
| `Selection.Dispatch` | assets/js/main.js:123-131 | update of the held id iff an id is held, otherwise create; the payload is sent unchanged |
| `Selection.DispatchDiffersOnlyOnZero` | assets/js/main.js:123 | the as-written and corrected dispatch differ exactly on id 0 |
| `Selection.ConfirmDeleteAsWritten` | assets/js/main.js:313-331 | as written: a DELETE iff the pending id is truthy, then cleared; otherwise nothing, and the pending id stays |
| `Selection.ZeroIdDeleteIgnoredAsWritten` | assets/js/main.js:314 | as written, confirming deletion of id 0 sends nothing and leaves 0 pending |
| `Selection.ConfirmDelete` | assets/js/main.js:313-331 | the held id is deleted; the pending id is cleared in every case |
| `Selection.ConfirmDeleteDiffersOnlyOnZero` | assets/js/main.js:314 | the as-written and corrected confirm steps differ exactly on id 0 |
| `App.Dashboard.constructor` | assets/js/main.js:43-45 | the list starts empty and nothing is selected |
| `App.Dashboard.LoadUsers` | assets/js/main.js:184-204 | success replaces the list wholesale, shows it and recounts. Failure keeps the list and shows the empty state and an error toast. The selection is untouched |
| `App.Dashboard.UpdateStats` | assets/js/main.js:386-396 | the counters are those of the current list and respect the bounds |
| `App.Dashboard.FilterUsers` | assets/js/main.js:356-379 | shows the cards of the filtered list; the empty state exactly when no user passes |
| `App.Dashboard.EditUser` | assets/js/main.js:263-281 | the id is held for editing only when the list holds it, with that user as pre-fill; otherwise nothing changes |
| `App.Dashboard.ResetForm` | assets/js/main.js:443-449 | the edit id is cleared; a pending delete and the list are untouched |
| `App.Dashboard.HandleSaveUser` | assets/js/main.js:109-144 | an invalid form sends nothing and changes nothing. A valid one sends an update when the held id is truthy and a create otherwise, id 0 included. On success it clears the edit id, reloads and shows "updated" or "created" by the same test; on failure it keeps the id. Each path shows its toast |
| `App.Dashboard.DeleteUserToast` | assets/js/main.js:291-301 | the id becomes pending even when no user has it; the dialog opens with the user's name only when one does |
| `App.Dashboard.HandleConfirmDelete` | assets/js/main.js:313-331 | with no pending id, or a pending id 0, nothing is sent and the pending id stays. Otherwise the id is deleted and reloaded on success, and the pending id is cleared whether the delete succeeds or fails |

## Left out

- DOM lookups, event-listener wiring and the `DOMContentLoaded` handlers: browser plumbing.
  This includes which button or dialog calls which handler.
- The HTML markup of the cards and toasts beyond the derived attributes. The `$` balance
  label is also left out, because it needs the formatting of a floating-point number.
- The Materialize calls: modal open and close, `FormSelect`, `updateTextFields`, and `M.toast`
  itself. `showToast` is modelled as the options it would pass. The open/closed state of the
  dialogs is therefore not modelled.
- The `fetch` calls, HTTP statuses and JSON parsing. Each request is represented only by its
  reply (`Status`, `Listing`).
- The loading indicator (`showLoading`) and `console.error`: they have no effect on state.
- The `loadUsers()` started without `await` after a save or a delete. The handlers return a
  `reload` flag and the caller runs `LoadUsers` with its reply. How overlapping requests
  interleave is not modelled.
- `parseFloat` on the balance text, negative zero, rounding and every other IEEE-754 detail.
  A number is NaN, an infinity or an exact real.
- The card's `onclick="deleteUser(...)"`. It names a function that is not part of this
  model, so that link has no behaviour here.
- User ids are modelled as integers. An id the server sends as a string is not modelled.
- Ids are not checked for uniqueness, and the model does not assume they are unique. `Find`
  returns the first matching user, as `find` does.
- `Text.ToLower`: folds only the ASCII letters A-Z, because full Unicode case mapping is not
  modelled. Names with other letters are searched case-sensitively for those letters.
- `Text.Trim`: uses the ECMAScript whitespace set as a fixed list of code points; the set
  does not follow later Unicode versions.

## Findings

| source | as written | input that shows it | evidently intended | confidence | as-written member | corrected member |
|---|---|---|---|---|---|---|
| assets/js/main.js:123 | `if (currentEditingId)` tests truthiness, and the id 0 is falsy, so editing user 0 counts as create mode | `editUser(0)` on a list holding a user with id 0, then a valid save | a held id, 0 included, dispatches a PUT to that id | low, not executed (only matters if the backend assigns id 0) | `Selection.ZeroIdSaveCreatesAsWritten` | `Selection.Dispatch` |
| assets/js/main.js:314 | `if (!userToDeleteId) return;` treats a pending id 0 as no selection, returns before the `finally` and leaves 0 pending | `deleteUserToast(0)` then confirm | any pending id, 0 included, is deleted and then cleared | low, not executed (only matters if the backend assigns id 0) | `Selection.ZeroIdDeleteIgnoredAsWritten` | `Selection.ConfirmDelete` |

`App.Dashboard` follows the code as written: it uses `Selection.DispatchAsWritten` and
`Selection.ConfirmDeleteAsWritten`. The corrected `Selection.Dispatch` and
`Selection.ConfirmDelete` are stated beside them, and `Selection.DispatchDiffersOnlyOnZero` and
`Selection.ConfirmDeleteDiffersOnlyOnZero` prove that each pair differs on the id 0 alone.
