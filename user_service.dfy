/**
 * Account maintenance: finding the signed-in user, changing one's own
 * account, listing pilots and showing account details. The signed-in user
 * is named by the email the security context holds, passed in explicitly.
 */
module UserService {

  import opened Results
  import opened Tables
  import opened Clock
  import opened Text
  import opened Entities
  import opened Store
  import opened Views
  import opened Security

  const UserNotFound := "User Not Found"

  /** currentUser: the user whose email is the authenticated name. */
  function CurrentUser(s: Snapshot, email: string): (r: Result<Id>)
    requires Consistent(s)
    ensures r.Err? <==> !Taken(s.users, EmailOf, email)
    ensures r.Err? ==> r.error == NotFound(UserNotFound)
    ensures r.Ok? ==> r.value in s.users.rows && s.users.rows[r.value].email == email
    ensures r.Ok? ==> forall id :: id in s.users.rows && s.users.rows[id].email == email ==> id == r.value
  {
    var found := FindBy(s.users, EmailOf, email);
    if found.None? then Err(NotFound(UserNotFound)) else Ok(found.value)
  }

  /** The fields of a `UserDTO` that updateMyAccount reads; `None` is null. */
  datatype AccountChanges = AccountChanges(
    name: Option<string>,
    phoneNumber: Option<string>,
    password: Option<string>)

  /** A value the partial update accepts: present and not blank. */
  predicate Filled(v: Option<string>) {
    v.Some? && !IsBlank(v.value)
  }

  /** The account as updateMyAccount saves it: a present, non-blank name,
      phone number or password replaces the stored one (the password
      encoded), the update time becomes `now`, and nothing else changes. */
  function UpdatedAccount(u: User, c: AccountChanges, encoder: PasswordEncoder, now: Time): (v: User)
    ensures v.name == (if Filled(c.name) then c.name.value else u.name)
    ensures v.phoneNumber == (if Filled(c.phoneNumber) then c.phoneNumber.value else u.phoneNumber)
    ensures v.password == (if Filled(c.password) then encoder.encode(c.password.value) else u.password)
    ensures v.updatedAt == now
    ensures v.(name := u.name, phoneNumber := u.phoneNumber, password := u.password, updatedAt := u.updatedAt) == u
    ensures v.email == u.email && v.roles == u.roles && v.active == u.active
    ensures v.provider == u.provider && v.createdAt == u.createdAt
  {
    u.(name := if Filled(c.name) then c.name.value else u.name,
       phoneNumber := if Filled(c.phoneNumber) then c.phoneNumber.value else u.phoneNumber,
       password := if Filled(c.password) then encoder.encode(c.password.value) else u.password,
       updatedAt := now)
  }

  /** updateMyAccount: loads the caller, overwrites the fields one at a time
      and saves the account. */
  method UpdateMyAccount(db: Database, email: string, c: AccountChanges, encoder: PasswordEncoder, now: Time)
    returns (r: Result<()>)
    requires db.Valid()
    modifies db
    ensures db.Valid()
    ensures var me := CurrentUser(old(db.State()), email);
            && (me.Err? ==> r == Err(me.error) && db.State() == old(db.State()))
            && (me.Ok? ==> r == Ok(())
                           && db.State() == old(db.State()).(users := old(db.users).Put(
                                me.value, UpdatedAccount(old(db.users).rows[me.value], c, encoder, now))))
  {
    var me := CurrentUser(db.State(), email);
    if me.Err? {
      return Err(me.error);
    }
    var user := db.users.rows[me.value];
    if c.name.Some? && !IsBlank(c.name.value) {
      user := user.(name := c.name.value);
    }
    if c.phoneNumber.Some? && !IsBlank(c.phoneNumber.value) {
      user := user.(phoneNumber := c.phoneNumber.value);
    }
    if c.password.Some? && !IsBlank(c.password.value) {
      var encoded := encoder.encode(c.password.value);
      user := user.(password := encoded);
    }
    user := user.(updatedAt := now);
    assert user == UpdatedAccount(db.users.rows[me.value], c, encoder, now);
    db.PutUser(me.value, user);
    r := Ok(());
  }

  /** How many entries of `names` equal `name`. */
  function Occurrences(names: seq<string>, name: string): (n: nat)
    ensures n > 0 <==> name in names
    ensures n <= |names|
  {
    if names == [] then 0
    else (if names[0] == name then 1 else 0) + Occurrences(names[1..], name)
  }

  /** A pilot-query row for the user `id`: every user it names is stored. */
  ghost predicate Listable(s: Snapshot, id: Id) {
    id in s.users.rows && UserRefsOk(s.roles, s.users.rows[id])
  }

  /** The user `id` holds a role named exactly PILOT. */
  ghost predicate HoldsPilotRole(s: Snapshot, id: Id) {
    Listable(s, id) && "PILOT" in RoleNames(s, s.users.rows[id])
  }

  /** `n` copies of the view of user `id`. */
  function Copies(s: Snapshot, id: Id, n: nat): (r: seq<UserDto>)
    requires Listable(s, id)
    ensures forall x :: x in UserIds(r) <==> n > 0 && x == id
    ensures forall k :: 0 <= k < |r| ==> r[k] == UserView(s, id)
  {
    var r := seq(n, _ => UserView(s, id));
    assert n > 0 ==> UserIds(r)[0] == id;
    r
  }

  /** The ids of a concatenation are the concatenated ids; `PilotRows`
      uses it to join the head's rows to the rest. */
  lemma UserIdsAppend(a: seq<UserDto>, b: seq<UserDto>)
    ensures UserIds(a + b) == UserIds(a) + UserIds(b)
  {
  }

  /** The rows of the pilot query for the users `ids`, in that order: a user
      appears once per entry of its role list named PILOT, as the join with
      the role table yields it. */
  function PilotRows(s: Snapshot, ids: seq<Id>): (r: seq<UserDto>)
    requires forall id :: id in ids ==> Listable(s, id)
    ensures forall id :: id in UserIds(r) <==> id in ids && HoldsPilotRole(s, id)
    ensures forall k :: 0 <= k < |r| ==> Listable(s, r[k].id) && r[k] == UserView(s, r[k].id)
  {
    if ids == [] then []
    else
      assert Listable(s, ids[0]);
      var head := Copies(s, ids[0], Occurrences(RoleNames(s, s.users.rows[ids[0]]), "PILOT"));
      var rest := PilotRows(s, ids[1..]);
      UserIdsAppend(head, rest);
      assert forall id :: id in ids <==> id == ids[0] || id in ids[1..];
      head + rest
  }

  /** getAllPilots: the users holding a role named exactly PILOT. */
  function AllPilots(s: Snapshot): (r: seq<UserDto>)
    requires Consistent(s)
    ensures forall id :: id in UserIds(r) <==> id in s.users.rows && HoldsPilotRole(s, id)
    ensures forall k :: 0 <= k < |r| ==> r[k].id in s.users.rows && r[k] == UserView(s, r[k].id)
  {
    var ids := InKeyOrder(s.users, All);
    PilotRows(s, ids)
  }

  /** getAccountDetails: the caller's own account. */
  function AccountDetails(s: Snapshot, email: string): (r: Result<UserDto>)
    requires Consistent(s)
    ensures r.Err? <==> !Taken(s.users, EmailOf, email)
    ensures r.Err? ==> r.error == NotFound(UserNotFound)
    ensures r.Ok? ==> r.value.email == email && r.value.id in s.users.rows
    ensures r.Ok? ==> r.value == UserView(s, r.value.id)
  {
    var me :- CurrentUser(s, email);
    Ok(UserView(s, me))
  }
}
