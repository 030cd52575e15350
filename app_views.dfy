/** The logic of the single-file client frontend/js/app.js that is not shared
    with the apply-for-leave page: the registration form's password checks and
    payload, the status label, and the admin dashboard's pending queue. Its
    `ApplyLeave` copy is the ApplyLeaveForm module, and its `handleReject`
    guard is `ManageLeaves.SendsReject`. */
module AppViews {
  import opened Common
  import opened Text
  import opened LeaveModel
  import Seqs
  import Leaves
  import Users
  import Auth
  import Identity

  // ---------------------------------------------------------------------------
  // Register

  /** The registration form, every field as typed. */
  datatype RegisterForm = RegisterForm(
    name: string,
    email: string,
    password: string,
    confirmPassword: string,
    department: string,
    position: string,
    employeeId: string,
    phone: string,
    role: string)

  /** What the form sends: every field but `confirmPassword`. */
  datatype RegisterData = RegisterData(
    name: string,
    email: string,
    password: string,
    department: string,
    position: string,
    employeeId: string,
    phone: string,
    role: string)

  datatype RegisterFormError =
    | PasswordsDoNotMatch  // "Passwords do not match"
    | PasswordTooShort     // "Password must be at least 6 characters"

  /** The form as the page first shows it: empty, with role `employee`. */
  function InitialRegisterForm(): (f: RegisterForm)
    ensures f.role == "employee" && f.password == [] && f.confirmPassword == []
    ensures f.name == [] && f.email == [] && f.department == [] && f.position == []
    ensures f.employeeId == [] && f.phone == []
  {
    RegisterForm("", "", "", "", "", "", "", "", "employee")
  }

  /** `const { confirmPassword, ...registerData } = formData`. */
  function Payload(f: RegisterForm): (d: RegisterData)
    ensures d.name == f.name && d.email == f.email && d.password == f.password
    ensures d.department == f.department && d.position == f.position
    ensures d.employeeId == f.employeeId && d.phone == f.phone && d.role == f.role
  {
    RegisterData(f.name, f.email, f.password, f.department, f.position, f.employeeId, f.phone, f.role)
  }

  /** The form a payload came from, given the confirmation it dropped. */
  function WithConfirmation(d: RegisterData, confirmPassword: string): (f: RegisterForm)
    ensures f.confirmPassword == confirmPassword
  {
    RegisterForm(d.name, d.email, d.password, confirmPassword, d.department, d.position, d.employeeId, d.phone, d.role)
  }

  /** Dropping the confirmation loses nothing else: putting it back gives the
      form, and dropping it again gives the payload. */
  lemma PayloadDropsOnlyConfirmation(f: RegisterForm, d: RegisterData, c: string)
    ensures WithConfirmation(Payload(f), f.confirmPassword) == f
    ensures Payload(WithConfirmation(d, c)) == d
  {
  }

  /** `handleSubmit` of the registration page: mismatched passwords are
      reported first, then a password shorter than 6; otherwise the payload is
      sent. */
  function CheckRegister(f: RegisterForm): (r: Result<RegisterData, RegisterFormError>)
    ensures r == Err(PasswordsDoNotMatch) <==> f.password != f.confirmPassword
    ensures r == Err(PasswordTooShort) <==>
      f.password == f.confirmPassword && |f.password| < Auth.MinPasswordLength
    ensures r.Ok? ==> r.value == Payload(f)
  {
    if f.password != f.confirmPassword then Err(PasswordsDoNotMatch)
    else if |f.password| < Auth.MinPasswordLength then Err(PasswordTooShort)
    else Ok(Payload(f))
  }

  /** The request body the server receives from the page; the page always
      sends a phone and a role, possibly empty. */
  function RequestOf(d: RegisterData): (req: Auth.RegisterRequest)
    ensures req.password == d.password && req.email == d.email
    ensures req.name == d.name && req.department == d.department
    ensures req.position == d.position && req.employeeId == d.employeeId
    ensures req.phone == Some(d.phone) && req.role == Some(d.role)
  {
    Auth.RegisterRequest(d.name, d.email, d.password, d.department, d.position, d.employeeId, Some(d.phone), Some(d.role))
  }

  /** A payload the page sends never fails the server's password length check;
      the page's other fields are checked only by the server. */
  lemma PagePasswordCheckMatchesServer(f: RegisterForm, isEmail: string -> bool)
    requires CheckRegister(f).Ok?
    ensures Auth.PasswordTooShort !in Auth.RegisterFieldErrors(RequestOf(CheckRegister(f).value), isEmail)
  {
  }

  // ---------------------------------------------------------------------------
  // getStatusText

  /** `status.charAt(0).toUpperCase() + status.slice(1)`. */
  function StatusText(status: string): (r: string)
    ensures |r| == |status|
    ensures status != [] ==> r[0] == UpperChar(status[0]) && r[1..] == status[1..]
  {
    if status == [] then [] else [UpperChar(status[0])] + status[1..]
  }

  /** The labels of the three statuses. */
  lemma StatusTexts()
    ensures StatusText(StatusName(Pending)) == "Pending"
    ensures StatusText(StatusName(Approved)) == "Approved"
    ensures StatusText(StatusName(Rejected)) == "Rejected"
  {
    assert UpperChar('p') == 'P' && "pending"[1..] == "ending";
    assert UpperChar('a') == 'A' && "approved"[1..] == "pproved";
    assert UpperChar('r') == 'R' && "rejected"[1..] == "ejected";
  }

  /** A label is its own label: an upper-case first letter stays as it is. */
  lemma StatusTextIdempotent(status: string)
    ensures StatusText(StatusText(status)) == StatusText(status)
  {
  }

  // ---------------------------------------------------------------------------
  // AdminDashboard

  /** The pending queue: the records of `/all` whose status is `pending`, in the
      order `/all` returned them. */
  function PendingQueue(all: seq<Leave>): (r: seq<Leave>)
    ensures forall l :: l in r <==> l in all && l.status == Pending
    ensures |r| == CountStatus(all, Pending)
  {
    Seqs.FilterLength(all, HasStatus(Pending));
    Seqs.Filter(all, HasStatus(Pending))
  }

  /** The queue keeps the order of `/all`: a record appended to the list is
      appended to the queue when it is pending, and the queue is otherwise
      unchanged. */
  lemma PendingQueueSnoc(all: seq<Leave>, l: Leave)
    ensures PendingQueue(all + [l]) == PendingQueue(all) + (if l.status == Pending then [l] else [])
  {
    Seqs.FilterConcat(all, [l], HasStatus(Pending));
    assert [l][1..] == [];
  }

  /** The queue the dashboard shows has as many entries as its "pending"
      counter from `/admin-stats` says, when both read the same records. */
  lemma PendingQueueMatchesCounter(users: seq<Identity.User>, ls: seq<Leave>, today: Instant)
    ensures |PendingQueue(Leaves.AllLeaves(ls))| == Users.AdminStats(users, ls, today).pendingLeaves
  {
    var all := Leaves.AllLeaves(ls);
    Seqs.FilterSameMultiset(all, ls, HasStatus(Pending));
    var a := Seqs.Filter(all, HasStatus(Pending));
    var b := Seqs.Filter(ls, HasStatus(Pending));
    assert |multiset(a)| == |a| && |multiset(b)| == |b|;
    Seqs.FilterLength(ls, HasStatus(Pending));
  }
}
