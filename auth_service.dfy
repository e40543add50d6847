/**
 * Registration and login. Registration resolves the requested role names,
 * always adding CUSTOMER, saves a local account with the encoded password
 * and asks for a welcome e-mail; login checks email, activity and password
 * in that order and issues a token.
 */
module AuthService {

  import opened Results
  import opened Tables
  import opened Clock
  import opened Text
  import opened Entities
  import opened Store
  import opened Views
  import opened Security
  import opened UserService

  const EmailExists := "Email already exists."
  const NoCustomerRole := "Role CUSTOMER does not exist."
  const EmailNotFound := "Email Not Found"
  const AccountNotActive := "Account is not active. Please reach out the user"
  const InvalidPassword := "Invalid Password"
  const SeveralRoles := "query did not return a unique result"

  /** The message for a requested role that is missing: the name as
      requested, run together with the words around it. */
  function RoleNotFound(roleName: string): string {
    "Role" + roleName + "Not Found"
  }

  /** The role name a registration always adds. */
  const Customer := "CUSTOMER"

  /** `roleRepo.findByName(name)`, failing with `missing` when no role has
      that name. Role names are not declared unique, so several matches are
      possible; the finder then fails. */
  function FindRole(s: Snapshot, name: string, missing: Error): (r: Result<Id>)
    requires s.roles.Valid()
    ensures r.Ok? <==> LookupBy(s.roles, RoleNameOf, name).OneRow?
    ensures r.Ok? ==> r.value in s.roles.rows && s.roles.rows[r.value].name == name
    ensures !Taken(s.roles, RoleNameOf, name) ==> r == Err(missing)
    ensures Taken(s.roles, RoleNameOf, name) && r.Err? ==> r == Err(DataAccess(SeveralRoles))
  {
    match LookupBy(s.roles, RoleNameOf, name)
    case NoRow => Err(missing)
    case OneRow(id) => Ok(id)
    case SeveralRows => Err(DataAccess(SeveralRoles))
  }

  /** The lookup of one requested role name: the name is upper-cased for
      the lookup, but the message for a missing role quotes it as requested. */
  function FindRequestedRole(s: Snapshot, roleName: string): (r: Result<Id>)
    requires s.roles.Valid()
    ensures r.Ok? <==> LookupBy(s.roles, RoleNameOf, ToUpper(roleName)).OneRow?
    ensures r.Ok? ==> r.value in s.roles.rows && s.roles.rows[r.value].name == ToUpper(roleName)
    ensures !Taken(s.roles, RoleNameOf, ToUpper(roleName)) ==> r == Err(NotFound(RoleNotFound(roleName)))
    ensures Taken(s.roles, RoleNameOf, ToUpper(roleName)) && r.Err? ==> r == Err(DataAccess(SeveralRoles))
  {
    FindRole(s, ToUpper(roleName), NotFound(RoleNotFound(roleName)))
  }

  /** The requested role names resolved one after the other, each looked up
      upper-cased; the first that fails decides the error. */
  function ResolveRoles(s: Snapshot, names: seq<string>): (r: Result<seq<Id>>)
    requires s.roles.Valid()
    ensures r.Ok? <==> forall k :: 0 <= k < |names| ==> FindRequestedRole(s, names[k]).Ok?
    ensures r.Ok? ==> |r.value| == |names|
    ensures r.Ok? ==> forall k :: 0 <= k < |names| ==>
                        r.value[k] in s.roles.rows && s.roles.rows[r.value[k]].name == ToUpper(names[k])
    ensures r.Err? ==> exists k :: 0 <= k < |names|
                                   && (forall j :: 0 <= j < k ==> FindRequestedRole(s, names[j]).Ok?)
                                   && FindRequestedRole(s, names[k]).Err?
                                   && r.error == FindRequestedRole(s, names[k]).error
  {
    Collect(RoleLookups(s, names))
  }

  /** The lookups of the requested role names, in request order. */
  function RoleLookups(s: Snapshot, names: seq<string>): (rs: seq<Result<Id>>)
    requires s.roles.Valid()
    ensures |rs| == |names| && forall k :: 0 <= k < |names| ==> rs[k] == FindRequestedRole(s, names[k])
  {
    seq(|names|, k requires 0 <= k < |names| => FindRequestedRole(s, names[k]))
  }

  /** The role names a registration asks for: none when the list is null or
      empty. */
  function Asked(roles: Option<seq<string>>): seq<string> {
    if roles.Some? then roles.value else []
  }

  /** The role list of a new account: CUSTOMER is looked up first, then the
      requested roles in request order, and CUSTOMER is appended after them,
      so it is always last (and present twice when it was also requested). */
  function RolesForRegistration(s: Snapshot, requested: Option<seq<string>>): (r: Result<seq<Id>>)
    requires s.roles.Valid()
    ensures FindRole(s, Customer, NotFound(NoCustomerRole)).Err? ==>
              r == Err(FindRole(s, Customer, NotFound(NoCustomerRole)).error)
    ensures FindRole(s, Customer, NotFound(NoCustomerRole)).Ok? ==>
              (r.Ok? <==> ResolveRoles(s, Asked(requested)).Ok?)
    ensures r.Err? && FindRole(s, Customer, NotFound(NoCustomerRole)).Ok? ==>
              r == Err(ResolveRoles(s, Asked(requested)).error)
    ensures r.Ok? ==>
              var ids := r.value;
              && |ids| == |Asked(requested)| + 1
              && ids[|ids| - 1] in s.roles.rows && s.roles.rows[ids[|ids| - 1]].name == Customer
              && forall k :: 0 <= k < |ids| - 1 ==>
                   ids[k] in s.roles.rows && s.roles.rows[ids[k]].name == ToUpper(Asked(requested)[k])
  {
    var customer :- FindRole(s, Customer, NotFound(NoCustomerRole));
    if requested.Some? && |requested.value| > 0 then
      var roles :- ResolveRoles(s, requested.value);
      Ok(roles + [customer])
    else
      Ok([customer])
  }

  /** What register reads from a `RegistrationRequest`. */
  datatype Registration = Registration(
    name: string,
    email: string,
    phoneNumber: string,
    password: string,
    roles: Option<seq<string>>)

  /** The account register saves: the request's name, email and phone, the
      encoded password, the resolved roles, a local and active account whose
      email is not verified, created and updated at `now`. */
  function NewAccount(req: Registration, roles: seq<Id>, encoder: PasswordEncoder, now: Time): (u: User)
    ensures u.name == req.name && u.email == req.email && u.phoneNumber == req.phoneNumber
    ensures u.password == encoder.encode(req.password)
    ensures u.roles == roles
    ensures u.provider == Local && u.providerId.None? && u.active && !u.emailVerified
    ensures u.createdAt == now && u.updatedAt == now
  {
    User(req.name, req.email, req.phoneNumber, encoder.encode(req.password), false, Local, None,
         roles, true, now, now)
  }

  /** register: a taken email fails before anything else happens; then the
      roles are resolved, the account saved and the welcome e-mail asked
      for, in that order. */
  method Register(db: Database, req: Registration, encoder: PasswordEncoder, now: Time)
    returns (r: Result<()>)
    requires db.Valid()
    modifies db
    ensures db.Valid()
    ensures Taken(old(db.users), EmailOf, req.email) ==>
              r == Err(BadRequest(EmailExists)) && db.State() == old(db.State())
    ensures !Taken(old(db.users), EmailOf, req.email) ==>
              var roles := RolesForRegistration(old(db.State()), req.roles);
              && (roles.Err? ==> r == Err(roles.error) && db.State() == old(db.State()))
              && (roles.Ok? ==>
                    && r == Ok(())
                    && db.State() == old(db.State()).(
                         users := old(db.users).Insert(NewAccount(req, roles.value, encoder, now)),
                         outbox := old(db.outbox) + [WelcomeEmail(old(db.users.nextId))]))
  {
    if Taken(db.users, EmailOf, req.email) {
      return Err(BadRequest(EmailExists));
    }
    var roles := RolesForRegistration(db.State(), req.roles);
    if roles.Err? {
      return Err(roles.error);
    }
    var user := NewAccount(req, roles.value, encoder, now);
    var saved := db.SaveUser(user);
    db.Notify(WelcomeEmail(saved.value));
    r := Ok(());
  }

  datatype Credentials = Credentials(email: string, password: string)

  datatype LoginResponse = LoginResponse(token: string, roles: seq<string>)

  /** login: an unknown email, then an inactive account, then a password the
      encoder does not match fail, in that order; otherwise the token issued
      for the email and the account's role names in stored order. */
  function Login(s: Snapshot, req: Credentials, encoder: PasswordEncoder, issue: TokenIssuer)
    : (r: Result<LoginResponse>)
    requires Consistent(s)
    ensures !Taken(s.users, EmailOf, req.email) ==> r == Err(NotFound(EmailNotFound))
    ensures Taken(s.users, EmailOf, req.email) ==>
              var u := s.users.rows[CurrentUser(s, req.email).value];
              && (!u.active ==> r == Err(NotFound(AccountNotActive)))
              && (u.active && !encoder.matches(req.password, u.password) ==>
                    r == Err(BadRequest(InvalidPassword)))
              && (r.Ok? <==> u.active && encoder.matches(req.password, u.password))
              && (r.Ok? ==> r.value == LoginResponse(issue(req.email), RoleNames(s, u)))
  {
    var found := FindBy(s.users, EmailOf, req.email);
    if found.None? then Err(NotFound(EmailNotFound))
    else
      var u := s.users.rows[found.value];
      if !u.active then Err(NotFound(AccountNotActive))
      else if !encoder.matches(req.password, u.password) then Err(BadRequest(InvalidPassword))
      else Ok(LoginResponse(issue(u.email), RoleNames(s, u)))
  }
}
