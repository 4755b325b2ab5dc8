/** The display attributes assets/js/ui.js derives: the per-user card of `createUserCard`,
    the card list or empty state of `showUsers` (assets/js/main.js), and the colour and
    icon of `showToast`. The HTML around these values is not modelled. */
module Ui {
  import opened Wrappers
  import opened Text
  import opened Users

  /** The values `createUserCard` interpolates into a card. `statusClass` is computed by the
      source but never placed in the markup; it is kept here as the source derives it. */
  datatype Card = Card(
    title: string,
    idLabel: string,
    genderColor: string,
    genderIcon: string,
    genderLabel: string,
    chipColor: string,
    statusClass: string,
    statusText: string,
    statusIcon: string,
    balanceClass: string,
    editId: int)

  /** `createUserCard`. The four status attributes are one of two fixed tuples, picked by
      `isActive` alone; the balance class reads zero as positive; every gender other than
      `'male'`, known or not, is drawn pink; the gender icon is the same for everyone. */
  function CreateUserCard(u: User): (card: Card)
    ensures card.title == u.firstName + " " + u.lastName
    ensures card.idLabel == "ID: " + IntToString(u.id) && card.editId == u.id
    ensures u.isActive ==> card.statusClass == "active-status" && card.statusText == "Active" &&
                           card.statusIcon == "check_circle" && card.chipColor == "green"
    ensures !u.isActive ==> card.statusClass == "inactive-status" && card.statusText == "Inactive" &&
                            card.statusIcon == "cancel" && card.chipColor == "red"
    ensures card.balanceClass == (if u.balance >= 0.0 then "balance-positive" else "balance-negative")
    ensures card.genderColor == "blue" <==> u.gender == "male"
    ensures card.genderColor == "pink" <==> u.gender != "male"
    ensures card.genderIcon == "person" && card.genderLabel == u.gender
  {
    var statusClass := if u.isActive then "active-status" else "inactive-status";
    var statusText := if u.isActive then "Active" else "Inactive";
    var statusIcon := if u.isActive then "check_circle" else "cancel";
    var balanceClass := if u.balance >= 0.0 then "balance-positive" else "balance-negative";
    var genderColor := if u.gender == "male" then "blue" else "pink";
    Card(
      u.firstName + " " + u.lastName,
      "ID: " + IntToString(u.id),
      genderColor,
      if u.gender == "male" then "person" else "person",
      u.gender,
      if u.isActive then "green" else "red",
      statusClass,
      statusText,
      statusIcon,
      balanceClass,
      u.id)
  }

  /** Two users with the same activity flag get the same status attributes, whatever else
      differs between them. */
  lemma StatusDependsOnlyOnActivity(u: User, v: User)
    requires u.isActive == v.isActive
    ensures CreateUserCard(u).statusClass == CreateUserCard(v).statusClass
    ensures CreateUserCard(u).statusText == CreateUserCard(v).statusText
    ensures CreateUserCard(u).statusIcon == CreateUserCard(v).statusIcon
    ensures CreateUserCard(u).chipColor == CreateUserCard(v).chipColor
  {
  }

  /** Cards of an active and an inactive user always differ in every status attribute. */
  lemma StatusDistinguishesActivity(u: User, v: User)
    requires u.isActive != v.isActive
    ensures CreateUserCard(u).statusClass != CreateUserCard(v).statusClass
    ensures CreateUserCard(u).statusText != CreateUserCard(v).statusText
    ensures CreateUserCard(u).statusIcon != CreateUserCard(v).statusIcon
    ensures CreateUserCard(u).chipColor != CreateUserCard(v).chipColor
  {
    var a, b := CreateUserCard(u), CreateUserCard(v);
    assert a.statusClass[0] != b.statusClass[0];
    assert a.statusText[0] != b.statusText[0];
    assert |a.statusIcon| != |b.statusIcon|;
    assert a.chipColor[0] != b.chipColor[0];
  }

  /** What the users container shows. */
  datatype Display = EmptyState | Cards(cards: seq<Card>)

  /** `showUsers`: the empty state for an empty list, otherwise one card per user, in order. */
  function ShowUsers(us: seq<User>): (d: Display)
    ensures d.EmptyState? <==> us == []
    ensures d.Cards? ==> |d.cards| == |us| &&
                         forall i :: 0 <= i < |us| ==> d.cards[i] == CreateUserCard(us[i])
  {
    if |us| == 0 then EmptyState
    else Cards(seq(|us|, i requires 0 <= i < |us| => CreateUserCard(us[i])))
  }

  /** The options of `M.toast` that `showToast` fills in. */
  datatype Toast = Toast(message: string, icon: string, color: string, classes: string, displayLength: nat)

  /** `showToast(message, type = 'success')`: `None` stands for the omitted argument. */
  function ShowToast(message: string, kind: Option<string>): (t: Toast)
    ensures t.message == message && t.displayLength == 4000
    ensures t.classes == t.color + " darken-2"
    ensures t.color == "green" <==> kind == None || kind == Some("success")
    ensures t.color == "red" <==> kind == Some("error")
    ensures t.color == "blue" <==> kind.Some? && kind.value != "success" && kind.value != "error"
    ensures (t.icon == "check" <==> t.color == "green") && (t.icon == "error" <==> t.color == "red") &&
            (t.icon == "info" <==> t.color == "blue")
  {
    var ty := match kind case None => "success" case Some(k) => k;
    var color := if ty == "success" then "green" else if ty == "error" then "red" else "blue";
    var icon := if ty == "success" then "check" else if ty == "error" then "error" else "info";
    Toast(message, icon, color, color + " darken-2", 4000)
  }

  /** Leaving out the type is the same as passing `'success'`. */
  lemma ToastDefaultsToSuccess(message: string)
    ensures ShowToast(message, None) == ShowToast(message, Some("success"))
  {
  }
}
