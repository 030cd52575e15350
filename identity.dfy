/** The user accounts and the authenticated caller. The User schema file itself
    is not part of this model; its fields are those that backend/routes/auth.js
    writes and reads. */
module Identity {
  import opened Common
  import opened LeaveModel

  const HrRole: string := "hr"
  const EmployeeRole: string := "employee"

  /** A stored account. `password` stands for whatever the account stores for
      the password (the hashing is not part of this model). */
  datatype User = User(
    id: UserId,
    name: string,
    email: string,
    password: string,
    department: string,
    position: string,
    employeeId: string,
    phone: Option<string>,
    role: string)

  /** The caller the authentication middleware attaches as `req.user`. */
  datatype Actor = Actor(id: UserId, role: string)

  predicate IsHr(a: Actor) {
    a.role == HrRole
  }
}
