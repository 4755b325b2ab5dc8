/** The user record and the pure computations of assets/js/main.js over the in-memory
    list: the predicate of `filterUsers`, the counts of `updateStats` and the lookup
    `users.find(u => u.id === id)` shared by `editUser` and `deleteUserToast`. */
module Users {
  import opened Wrappers
  import opened Text
  import opened Seqs

  /** A user as the REST API returns it. */
  datatype User = User(
    id: int,
    firstName: string,
    lastName: string,
    gender: string,
    balance: real,
    isActive: bool)

  /** The three filter controls: the search box text (not yet lower-cased), the status
      select (`''`, `'active'` or `'inactive'`) and the gender select (`''` or a gender). */
  datatype Criteria = Criteria(search: string, status: string, gender: string)

  /** Case-insensitive substring search over first name, last name and the id's decimal text;
      `term` is the already lower-cased search text. */
  predicate MatchesSearch(u: User, term: string) {
    Includes(ToLower(u.firstName), term) ||
    Includes(ToLower(u.lastName), term) ||
    Includes(IntToString(u.id), term)
  }

  /** The status tri-state: `''` matches everyone, the two known values match by flag. */
  predicate MatchesStatus(u: User, status: string) {
    status == "" || (status == "active" && u.isActive) || (status == "inactive" && !u.isActive)
  }

  predicate MatchesGender(u: User, gender: string) {
    gender == "" || u.gender == gender
  }

  /** The callback handed to `users.filter`: the AND of the three predicates. */
  predicate Keep(u: User, c: Criteria) {
    MatchesSearch(u, ToLower(c.search)) && MatchesStatus(u, c.status) && MatchesGender(u, c.gender)
  }

  function KeepFn(c: Criteria): User -> bool {
    u => Keep(u, c)
  }

  function SearchFn(c: Criteria): User -> bool {
    u => MatchesSearch(u, ToLower(c.search))
  }

  function StatusFn(c: Criteria): User -> bool {
    u => MatchesStatus(u, c.status)
  }

  function GenderFn(c: Criteria): User -> bool {
    u => MatchesGender(u, c.gender)
  }

  /** The list `filterUsers` hands to `showUsers`: an order-preserving subsequence of
      `users` holding every user that passes all three predicates, as often as it occurs,
      and no other. */
  function FilterUsers(users: seq<User>, c: Criteria): (r: seq<User>)
    ensures IsSubsequence(r, users)
    ensures forall i :: 0 <= i < |r| ==> Keep(r[i], c)
    ensures forall u :: u in users && Keep(u, c) ==> u in r
    ensures forall u :: multiset(r)[u] == if Keep(u, c) then multiset(users)[u] else 0
  {
    FilterIsSubsequence(users, KeepFn(c));
    FilterKeepsPassing(users, KeepFn(c));
    FilterMultiplicityAll(users, c);
    Filter(users, KeepFn(c))
  }

  lemma FilterMultiplicityAll(users: seq<User>, c: Criteria)
    ensures forall u :: multiset(Filter(users, KeepFn(c)))[u] == if Keep(u, c) then multiset(users)[u] else 0
  {
    forall u ensures multiset(Filter(users, KeepFn(c)))[u] == if Keep(u, c) then multiset(users)[u] else 0 {
      FilterMultiplicity(users, KeepFn(c), u);
    }
  }

  /** The three predicates are independent: filtering by search, then status, then gender,
      in any order, gives the same list as the combined filter. */
  lemma FilterUsersIsConjunction(users: seq<User>, c: Criteria)
    ensures FilterUsers(users, c) == Filter(Filter(Filter(users, SearchFn(c)), StatusFn(c)), GenderFn(c))
    ensures FilterUsers(users, c) == Filter(Filter(Filter(users, GenderFn(c)), StatusFn(c)), SearchFn(c))
  {
    var ss := u => SearchFn(c)(u) && StatusFn(c)(u);
    FilterConjunction(users, SearchFn(c), StatusFn(c), ss);
    FilterConjunction(users, ss, GenderFn(c), KeepFn(c));
    var xs := Filter(users, SearchFn(c));
    FilterCommute(Filter(xs, StatusFn(c)), GenderFn(c), SearchFn(c));
    FilterCommute(xs, StatusFn(c), GenderFn(c));
    FilterCommute(users, SearchFn(c), GenderFn(c));
    var g := Filter(users, GenderFn(c));
    FilterCommute(Filter(g, SearchFn(c)), StatusFn(c), SearchFn(c));
    FilterCommute(g, SearchFn(c), StatusFn(c));
  }

  /** With an empty search box and both selects on "all", every user is shown. */
  lemma FilterUsersNoCriteria(users: seq<User>)
    ensures FilterUsers(users, Criteria("", "", "")) == users
  {
    forall u: User ensures Keep(u, Criteria("", "", "")) {
      IncludesEmpty(ToLower(u.firstName));
    }
    FilterAll(users, KeepFn(Criteria("", "", "")));
  }

  /** A status value other than `''`, `'active'` and `'inactive'` matches nobody. */
  lemma FilterUsersUnknownStatus(users: seq<User>, c: Criteria)
    requires c.status != "" && c.status != "active" && c.status != "inactive"
    ensures FilterUsers(users, c) == []
  {
    FilterNone(users, KeepFn(c));
  }

  /** The search is case-insensitive: lower-casing the search text changes nothing. */
  lemma SearchIgnoresCase(users: seq<User>, c: Criteria)
    ensures FilterUsers(users, c) == FilterUsers(users, c.(search := ToLower(c.search)))
  {
    ToLowerIdempotent(c.search);
    FilterExtensional(users, KeepFn(c), KeepFn(c.(search := ToLower(c.search))));
  }

  predicate IsActive(u: User) {
    u.isActive
  }

  predicate IsInactive(u: User) {
    !u.isActive
  }

  predicate IsMale(u: User) {
    u.gender == "male"
  }

  predicate IsFemale(u: User) {
    u.gender == "female"
  }

  /** The four counters on the dashboard. */
  datatype Stats = Stats(total: nat, active: nat, male: nat, female: nat)

  /** `updateStats`: the list length and three `filter(...).length` counts. No count
      exceeds the total, and a user is never counted both male and female. */
  function ComputeStats(users: seq<User>): (s: Stats)
    ensures s.total == |users|
    ensures s.active <= s.total
    ensures s.male + s.female <= s.total
  {
    FilterDisjoint(users, IsMale, IsFemale);
    Stats(|users|, |Filter(users, IsActive)|, |Filter(users, IsMale)|, |Filter(users, IsFemale)|)
  }

  /** Active and inactive users together are all users. */
  lemma ActivePlusInactive(users: seq<User>)
    ensures ComputeStats(users).active + |Filter(users, IsInactive)| == ComputeStats(users).total
  {
    FilterComplement(users, IsActive, IsInactive);
  }

  /** The active and male counters equal the number of cards the filter shows with the
      status select on `'active'`, or the gender select on `'male'`. */
  lemma StatsAgreeWithFilter(users: seq<User>)
    ensures ComputeStats(users).active == |FilterUsers(users, Criteria("", "active", ""))|
    ensures ComputeStats(users).male == |FilterUsers(users, Criteria("", "", "male"))|
    ensures ComputeStats(users).female == |FilterUsers(users, Criteria("", "", "female"))|
  {
    forall u: User ensures MatchesSearch(u, ToLower("")) {
      IncludesEmpty(ToLower(u.firstName));
    }
    FilterExtensional(users, IsActive, KeepFn(Criteria("", "active", "")));
    FilterExtensional(users, IsMale, KeepFn(Criteria("", "", "male")));
    FilterExtensional(users, IsFemale, KeepFn(Criteria("", "", "female")));
  }

  /** One active man and one inactive woman: two users, one active, one male, one female. */
  lemma StatsScenario()
    ensures ComputeStats([User(1, "A", "B", "male", 0.0, true), User(2, "C", "D", "female", 0.0, false)])
         == Stats(2, 1, 1, 1)
  {
    var us := [User(1, "A", "B", "male", 0.0, true), User(2, "C", "D", "female", 0.0, false)];
    assert us[1..][1..] == [];
  }

  predicate HasId(users: seq<User>, id: int) {
    exists i :: 0 <= i < |users| && users[i].id == id
  }

  /** `users.find(u => u.id === id)`: the first user with that id, if any. */
  function Find(users: seq<User>, id: int): (r: Option<User>)
    ensures r.Some? <==> HasId(users, id)
    ensures r.Some? ==> r.value.id == id
    ensures r.Some? ==>
              exists i :: 0 <= i < |users| && users[i] == r.value && forall j :: 0 <= j < i ==> users[j].id != id
  {
    if users == [] then None
    else if users[0].id == id then Some(users[0])
    else
      var r := Find(users[1..], id);
      assert HasId(users, id) ==> HasId(users[1..], id) by {
        if HasId(users, id) {
          var i :| 0 <= i < |users| && users[i].id == id;
          assert users[1..][i - 1].id == id;
        }
      }
      if r.Some? then
        var i :| 0 <= i < |users[1..]| && users[1..][i] == r.value &&
          forall j :: 0 <= j < i ==> users[1..][j].id != id;
        assert users[i + 1] == r.value;
        assert forall j :: 0 <= j < i + 1 ==> users[j].id != id by {
          forall j | 0 <= j < i + 1 ensures users[j].id != id {
            if j > 0 { assert users[j] == users[1..][j - 1]; }
          }
        }
        r
      else r
  }
}
