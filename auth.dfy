/** Registration and login of backend/routes/auth.js. Registration validates
    the fields (every failing check is reported), refuses a duplicate email or
    employee ID, and stores the account with the role defaulting to
    `employee`. Login gives one answer for every failure after validation.
    The email format check and the password comparison are not part of this
    model: they are the parameters `isEmail` and `matches`. */
module Auth {
  import opened Common
  import opened Text
  import opened LeaveModel
  import opened Identity
  import Seqs

  const MinNameLength := 2
  const MinPasswordLength := 6

  /** The body of a registration request. `role` is absent when the client
      does not send it. */
  datatype RegisterRequest = RegisterRequest(
    name: string,
    email: string,
    password: string,
    department: string,
    position: string,
    employeeId: string,
    phone: Option<string>,
    role: Option<string>)

  /** One message of the validation chain, in the order of the chain. */
  datatype RegisterField = NameTooShort | InvalidEmail | PasswordTooShort | DepartmentRequired | PositionRequired | EmployeeIdRequired

  datatype RegisterError =
    | RegisterInvalid(errors: seq<RegisterField>)  // 400 with the list of messages
    | UserExists                                    // 400 "User with this email or employee ID already exists"

  /** What the response carries about the account: no password. */
  datatype PublicUser = PublicUser(
    id: UserId,
    name: string,
    email: string,
    role: string,
    department: string,
    position: string,
    employeeId: string)

  function Public(u: User): (p: PublicUser)
    ensures p.id == u.id && p.name == u.name && p.email == u.email && p.role == u.role
    ensures p.department == u.department && p.position == u.position && p.employeeId == u.employeeId
  {
    PublicUser(u.id, u.name, u.email, u.role, u.department, u.position, u.employeeId)
  }

  const RegisterChain: seq<RegisterField> :=
    [NameTooShort, InvalidEmail, PasswordTooShort, DepartmentRequired, PositionRequired, EmployeeIdRequired]

  /** Whether the check behind one message fails on the request. */
  predicate RegisterFails(req: RegisterRequest, isEmail: string -> bool, check: RegisterField) {
    match check
    case NameTooShort => |Trim(req.name)| < MinNameLength
    case InvalidEmail => !isEmail(req.email)
    case PasswordTooShort => |req.password| < MinPasswordLength
    case DepartmentRequired => Trim(req.department) == []
    case PositionRequired => Trim(req.position) == []
    case EmployeeIdRequired => Trim(req.employeeId) == []
  }

  lemma RegisterChainHasEveryCheck()
    ensures forall check :: check in RegisterChain
  {
    forall check ensures check in RegisterChain {
      match check
      case NameTooShort => assert RegisterChain[0] == check;
      case InvalidEmail => assert RegisterChain[1] == check;
      case PasswordTooShort => assert RegisterChain[2] == check;
      case DepartmentRequired => assert RegisterChain[3] == check;
      case PositionRequired => assert RegisterChain[4] == check;
      case EmployeeIdRequired => assert RegisterChain[5] == check;
    }
  }

  /** The request passes every check of the registration chain. */
  predicate PassesRegisterChain(req: RegisterRequest, isEmail: string -> bool) {
    && |Trim(req.name)| >= MinNameLength
    && isEmail(req.email)
    && |req.password| >= MinPasswordLength
    && Trim(req.department) != []
    && Trim(req.position) != []
    && Trim(req.employeeId) != []
  }

  lemma PassesRegisterChainIffNoFailure(req: RegisterRequest, isEmail: string -> bool)
    ensures PassesRegisterChain(req, isEmail) <==> forall check :: !RegisterFails(req, isEmail, check)
  {
    if !PassesRegisterChain(req, isEmail) {
      if |Trim(req.name)| < MinNameLength { assert RegisterFails(req, isEmail, NameTooShort); }
      else if !isEmail(req.email) { assert RegisterFails(req, isEmail, InvalidEmail); }
      else if |req.password| < MinPasswordLength { assert RegisterFails(req, isEmail, PasswordTooShort); }
      else if Trim(req.department) == [] { assert RegisterFails(req, isEmail, DepartmentRequired); }
      else if Trim(req.position) == [] { assert RegisterFails(req, isEmail, PositionRequired); }
      else { assert RegisterFails(req, isEmail, EmployeeIdRequired); }
    }
  }

  /** Every check runs; the messages of the failing ones are reported together,
      in chain order. */
  function RegisterFieldErrors(req: RegisterRequest, isEmail: string -> bool): (errs: seq<RegisterField>)
    ensures forall check :: check in errs <==> RegisterFails(req, isEmail, check)
    ensures errs == [] <==> PassesRegisterChain(req, isEmail)
  {
    var errs := Seqs.Filter(RegisterChain, check => RegisterFails(req, isEmail, check));
    RegisterChainHasEveryCheck();
    PassesRegisterChainIffNoFailure(req, isEmail);
    assert errs != [] ==> errs[0] in errs;
    errs
  }

  /** `role || "employee"`: an absent or empty role becomes `employee`. */
  function RoleOrDefault(role: Option<string>): (r: string)
    ensures r != []
    ensures role.Some? && role.value != [] ==> r == role.value
    ensures (role.None? || role.value == []) ==> r == EmployeeRole
  {
    if role.Some? && role.value != [] then role.value else EmployeeRole
  }

  /** Whether some account already has this email or this employee ID. */
  predicate Taken(users: seq<User>, email: string, employeeId: string) {
    exists i | 0 <= i < |users| :: users[i].email == email || users[i].employeeId == employeeId
  }

  /** The table of accounts: each user's id is its position, and no two users
      share an email or an employee ID. */
  ghost predicate TableValid(users: seq<User>) {
    && (forall i :: 0 <= i < |users| ==> users[i].id == i)
    && (forall i, j :: 0 <= i < j < |users| ==> users[i].email != users[j].email)
    && (forall i, j :: 0 <= i < j < |users| ==> users[i].employeeId != users[j].employeeId)
  }

  /** The account a valid request creates. The sanitizers have trimmed the
      name, department, position and employee ID; the email and password are
      stored as sent. */
  function NewUser(req: RegisterRequest, id: UserId): (u: User)
    ensures u.id == id && u.name == Trim(req.name) && u.email == req.email && u.password == req.password
    ensures u.department == Trim(req.department) && u.position == Trim(req.position)
    ensures u.employeeId == Trim(req.employeeId) && u.phone == req.phone
    ensures u.role == RoleOrDefault(req.role)
  {
    User(id, Trim(req.name), req.email, req.password, Trim(req.department), Trim(req.position),
         Trim(req.employeeId), req.phone, RoleOrDefault(req.role))
  }

  /** POST /register on a table: validation, then the duplicate lookup on the
      email and the trimmed employee ID, then the new account appended. */
  function RegisterUser(users: seq<User>, req: RegisterRequest, isEmail: string -> bool)
    : (r: Result<seq<User>, RegisterError>)
    ensures r.Err? && r.error.RegisterInvalid? <==> RegisterFieldErrors(req, isEmail) != []
    ensures r.Err? && r.error.RegisterInvalid? ==> r.error.errors == RegisterFieldErrors(req, isEmail)
    ensures r == Err(UserExists) <==>
      RegisterFieldErrors(req, isEmail) == [] && Taken(users, req.email, Trim(req.employeeId))
    ensures r.Ok? ==> r.value == users + [NewUser(req, |users|)]
  {
    var errs := RegisterFieldErrors(req, isEmail);
    if errs != [] then Err(RegisterInvalid(errs))
    else if Taken(users, req.email, Trim(req.employeeId)) then Err(UserExists)
    else Ok(users + [NewUser(req, |users|)])
  }

  /** A registration that succeeds keeps the emails and the employee IDs unique. */
  lemma RegisterKeepsKeysUnique(users: seq<User>, req: RegisterRequest, isEmail: string -> bool)
    requires TableValid(users)
    requires RegisterUser(users, req, isEmail).Ok?
    ensures TableValid(RegisterUser(users, req, isEmail).value)
  {
    var u := NewUser(req, |users|);
    var t := users + [u];
    forall i, j | 0 <= i < j < |t| ensures t[i].email != t[j].email && t[i].employeeId != t[j].employeeId {
      if j == |users| {
        assert t[i] == users[i];
      }
    }
  }

  /** The role a successful registration stores: the one sent, or `employee`
      when none or an empty one was sent. */
  lemma RegisterRoleDefault(users: seq<User>, req: RegisterRequest, isEmail: string -> bool)
    requires RegisterUser(users, req, isEmail).Ok?
    ensures var u := RegisterUser(users, req, isEmail).value[|users|];
      && (req.role.None? ==> u.role == EmployeeRole)
      && (req.role.Some? && req.role.value != [] ==> u.role == req.role.value)
  {
  }

  /** The table of accounts. */
  class UserTable {
    var users: seq<User>

    ghost predicate Valid()
      reads this
    {
      TableValid(users)
    }

    constructor ()
      ensures Valid() && users == []
    {
      users := [];
    }

    /** POST /register: on success the new account is appended and its public
        view (without the password) is returned. */
    method Register(req: RegisterRequest, isEmail: string -> bool) returns (r: Result<PublicUser, RegisterError>)
      requires Valid()
      modifies this
      ensures Valid()
      ensures r.Err? ==> Err(r.error) == RegisterUser(old(users), req, isEmail) && users == old(users)
      ensures r.Ok? ==> Ok(users) == RegisterUser(old(users), req, isEmail)
      ensures r.Ok? ==> r.value == Public(users[|old(users)|])
    {
      var errs := RegisterFieldErrors(req, isEmail);
      if errs != [] {
        return Err(RegisterInvalid(errs));
      }
      var employeeId := Trim(req.employeeId);
      if Taken(users, req.email, employeeId) {
        return Err(UserExists);
      }
      var user := NewUser(req, |users|);
      RegisterKeepsKeysUnique(users, req, isEmail);
      users := users + [user];
      r := Ok(Public(user));
    }
  }

  // ---------------------------------------------------------------------------
  // POST /login

  datatype LoginField = LoginInvalidEmail | PasswordRequired

  datatype LoginError =
    | LoginInvalid(errors: seq<LoginField>)  // 400 with the list of messages
    | InvalidCredentials                      // 400 "Invalid credentials"

  /** The account `findOne({ email })` finds: the first with that email. */
  function FindByEmail(users: seq<User>, email: string): (r: Option<User>)
    ensures r.None? <==> forall i :: 0 <= i < |users| ==> users[i].email != email
    ensures r.Some? ==> r.value in users && r.value.email == email
  {
    if users == [] then None
    else if users[0].email == email then Some(users[0])
    else FindByEmail(users[1..], email)
  }

  /** POST /login. `matches(stored, sent)` is the password comparison. */
  function Login(users: seq<User>, email: string, password: Option<string>,
                 isEmail: string -> bool, matches: (string, string) -> bool): (r: Result<PublicUser, LoginError>)
    ensures r.Err? && r.error.LoginInvalid? <==> !isEmail(email) || password.None?
    ensures r.Ok? ==> exists i :: 0 <= i < |users| && users[i].email == email
                        && password.Some? && matches(users[i].password, password.value)
                        && r.value == Public(users[i])
  {
    if !isEmail(email) || password.None? then
      Err(LoginInvalid((if !isEmail(email) then [LoginInvalidEmail] else []) +
                       (if password.None? then [PasswordRequired] else [])))
    else
      match FindByEmail(users, email)
      case None => Err(InvalidCredentials)
      case Some(u) =>
        if matches(u.password, password.value) then Ok(Public(u)) else Err(InvalidCredentials)
  }

  /** An unknown email and a wrong password get the same answer, so a caller
      cannot tell which accounts exist. */
  lemma LoginFailureIsUniform(users: seq<User>, email: string, password: string,
                              isEmail: string -> bool, matches: (string, string) -> bool)
    requires isEmail(email)
    requires forall i :: 0 <= i < |users| && users[i].email == email ==> !matches(users[i].password, password)
    ensures Login(users, email, Some(password), isEmail, matches) == Err(InvalidCredentials)
  {
    var f := FindByEmail(users, email);
    if f.Some? {
      var i :| 0 <= i < |users| && users[i] == f.value;
    }
  }

  /** The other direction: with emails unique, the right password for an
      existing account logs that account in. */
  lemma LoginSucceedsWithMatchingPassword(users: seq<User>, email: string, password: string,
                                          isEmail: string -> bool, matches: (string, string) -> bool, i: int)
    requires TableValid(users)
    requires isEmail(email)
    requires 0 <= i < |users| && users[i].email == email && matches(users[i].password, password)
    ensures Login(users, email, Some(password), isEmail, matches) == Ok(Public(users[i]))
  {
    var f := FindByEmail(users, email);
    var j :| 0 <= j < |users| && users[j] == f.value;
    assert j == i;
  }
}
