/** The statistics and listing routes of backend/routes/users.js: per-employee
    counts, the organisation-wide counts with today's approved leaves, and the
    employee listing. All of them only read the stored users and leaves. */
module Users {
  import opened Common
  import opened Text
  import opened LeaveModel
  import opened Identity
  import opened Sorting
  import Seqs
  import Leaves

  // ---------------------------------------------------------------------------
  // GET /stats

  /** The four counters of the caller's dashboard. */
  datatype PersonalStats = PersonalStats(totalLeaves: nat, approvedLeaves: nat, pendingLeaves: nat, rejectedLeaves: nat)

  /** `countDocuments` with `employee: user`, alone and with each status. */
  function Stats(ls: seq<Leave>, user: UserId): (s: PersonalStats)
    ensures s.totalLeaves == Seqs.Count(ls, Leaves.OwnedBy(user))
    ensures s.approvedLeaves == CountStatus(Seqs.Filter(ls, Leaves.OwnedBy(user)), Approved)
    ensures s.pendingLeaves == CountStatus(Seqs.Filter(ls, Leaves.OwnedBy(user)), Pending)
    ensures s.rejectedLeaves == CountStatus(Seqs.Filter(ls, Leaves.OwnedBy(user)), Rejected)
    ensures s.approvedLeaves <= s.totalLeaves && s.pendingLeaves <= s.totalLeaves && s.rejectedLeaves <= s.totalLeaves
  {
    var mine := Seqs.Filter(ls, Leaves.OwnedBy(user));
    Seqs.FilterLength(ls, Leaves.OwnedBy(user));
    PersonalStats(|mine|, CountStatus(mine, Approved), CountStatus(mine, Pending), CountStatus(mine, Rejected))
  }

  /** A leave has exactly one of three statuses, so the caller's total is the
      sum of the caller's three status counts. */
  lemma PersonalStatsSum(ls: seq<Leave>, user: UserId)
    ensures var s := Stats(ls, user);
      s.totalLeaves == s.approvedLeaves + s.pendingLeaves + s.rejectedLeaves
  {
    Seqs.FilterLength(ls, Leaves.OwnedBy(user));
    StatusCountsSum(Seqs.Filter(ls, Leaves.OwnedBy(user)));
  }

  /** Only the caller's leaves are counted: adding another employee's leave
      changes none of the caller's counters. */
  lemma {:induction false} OthersLeavesNotCounted(ls: seq<Leave>, l: Leave, user: UserId)
    requires l.employee != user
    ensures Stats(ls + [l], user) == Stats(ls, user)
  {
    Seqs.FilterConcat(ls, [l], Leaves.OwnedBy(user));
    assert Seqs.Filter([l], Leaves.OwnedBy(user)) == [];
    assert Seqs.Filter(ls, Leaves.OwnedBy(user)) + [] == Seqs.Filter(ls, Leaves.OwnedBy(user));
  }

  /** A leave of the caller's own adds one to the total and one to the counter
      of its status. */
  lemma {:induction false} OwnLeaveCounted(ls: seq<Leave>, l: Leave, user: UserId)
    requires l.employee == user
    ensures var before := Stats(ls, user); var after := Stats(ls + [l], user);
      && after.totalLeaves == before.totalLeaves + 1
      && after.approvedLeaves == before.approvedLeaves + (if l.status == Approved then 1 else 0)
      && after.pendingLeaves == before.pendingLeaves + (if l.status == Pending then 1 else 0)
      && after.rejectedLeaves == before.rejectedLeaves + (if l.status == Rejected then 1 else 0)
  {
    var mine := Seqs.Filter(ls, Leaves.OwnedBy(user));
    Seqs.FilterConcat(ls, [l], Leaves.OwnedBy(user));
    assert ([l])[1..] == [];
    assert Seqs.Filter([l], Leaves.OwnedBy(user)) == [l];
    Seqs.CountSnoc(mine, l, HasStatus(Approved));
    Seqs.CountSnoc(mine, l, HasStatus(Pending));
    Seqs.CountSnoc(mine, l, HasStatus(Rejected));
    Seqs.FilterLength(ls, Leaves.OwnedBy(user));
    Seqs.FilterLength(ls + [l], Leaves.OwnedBy(user));
  }

  // ---------------------------------------------------------------------------
  // GET /admin-stats

  /** The organisation-wide counters and today's approved leaves. */
  datatype AdminStatistics = AdminStatistics(
    totalEmployees: nat,
    totalLeaves: nat,
    pendingLeaves: nat,
    approvedLeaves: nat,
    rejectedLeaves: nat,
    todayLeaves: nat,
    todayLeavesDetails: seq<Leave>)

  function IsEmployee(): User -> bool {
    (u: User) => u.role == EmployeeRole
  }

  /** The counters over every user and every leave; `today` is local midnight
      of the current day. The leaves on leave today are in the order the
      database returns them, which this model takes to be the stored order. */
  function AdminStats(users: seq<User>, ls: seq<Leave>, today: Instant): (s: AdminStatistics)
    ensures s.totalEmployees == Seqs.Count(users, IsEmployee())
    ensures s.totalLeaves == |ls|
    ensures s.pendingLeaves == CountStatus(ls, Pending)
    ensures s.approvedLeaves == CountStatus(ls, Approved)
    ensures s.rejectedLeaves == CountStatus(ls, Rejected)
    ensures forall l :: l in s.todayLeavesDetails <==>
      l in ls && l.status == Approved && l.startDate <= today && l.endDate >= today
    ensures s.todayLeaves == |s.todayLeavesDetails|
  {
    var details := Seqs.Filter(ls, Leaves.OnLeaveAt(today));
    AdminStatistics(Seqs.Count(users, IsEmployee()), |ls|, CountStatus(ls, Pending),
                    CountStatus(ls, Approved), CountStatus(ls, Rejected), |details|, details)
  }

  /** The organisation-wide total is the sum of the three status counters. */
  lemma AdminStatsSum(users: seq<User>, ls: seq<Leave>, today: Instant)
    ensures var s := AdminStats(users, ls, today);
      s.totalLeaves == s.pendingLeaves + s.approvedLeaves + s.rejectedLeaves
  {
    StatusCountsSum(ls);
  }

  /** The dashboard's list of today's leaves holds the same records, as often,
      as the `/today` listing of backend/routes/leaves.js; only the order may
      differ. */
  lemma AdminTodayMatchesTodayListing(users: seq<User>, ls: seq<Leave>, today: Instant)
    ensures multiset(AdminStats(users, ls, today).todayLeavesDetails) == multiset(Leaves.TodayLeaves(ls, today))
    ensures AdminStats(users, ls, today).todayLeaves == |Leaves.TodayLeaves(ls, today)|
  {
    var r := Leaves.TodayLeaves(ls, today);
    assert |multiset(r)| == |r|;
  }

  // ---------------------------------------------------------------------------
  // GET /employees

  /** A user as `select("-password")` returns it: every field but the password. */
  datatype ListedUser = ListedUser(
    id: UserId,
    name: string,
    email: string,
    department: string,
    position: string,
    employeeId: string,
    phone: Option<string>,
    role: string)

  function Listed(u: User): (v: ListedUser)
    ensures v.id == u.id && v.name == u.name && v.email == u.email && v.role == u.role
    ensures v.department == u.department && v.position == u.position
    ensures v.employeeId == u.employeeId && v.phone == u.phone
  {
    ListedUser(u.id, u.name, u.email, u.department, u.position, u.employeeId, u.phone, u.role)
  }

  /** The projection applied to each user, in order. */
  function ListAll(us: seq<User>): (r: seq<ListedUser>)
    ensures |r| == |us|
    ensures forall i :: 0 <= i < |us| ==> r[i] == Listed(us[i])
  {
    if us == [] then [] else [Listed(us[0])] + ListAll(us[1..])
  }

  /** `sort({ name: 1 })`. */
  function ByName(): (ListedUser, ListedUser) -> bool {
    (a: ListedUser, b: ListedUser) => LexLe(a.name, b.name)
  }

  /** Ordering users by name is a total preorder. */
  lemma ByNameIsTotalPreorder()
    ensures TotalPreorder(ByName())
  {
    forall a: ListedUser, b: ListedUser ensures ByName()(a, b) || ByName()(b, a) {
      LexLeTotal(a.name, b.name);
    }
    forall a: ListedUser, b: ListedUser, c: ListedUser | ByName()(a, b) && ByName()(b, c)
      ensures ByName()(a, c)
    {
      LexLeTransitive(a.name, b.name, c.name);
    }
  }

  /** The HR employee listing: the users with role `employee`, without their
      passwords, in ascending order of name. */
  function Employees(users: seq<User>): (r: seq<ListedUser>)
    ensures multiset(r) == multiset(ListAll(Seqs.Filter(users, IsEmployee())))
    ensures forall i :: 0 <= i < |r| ==> r[i].role == EmployeeRole
    ensures forall i, j :: 0 <= i < j < |r| ==> LexLe(r[i].name, r[j].name)
  {
    ByNameIsTotalPreorder();
    var all := ListAll(Seqs.Filter(users, IsEmployee()));
    var r := SortBy(all, ByName());
    RolesSurviveSorting(r, all);
    r
  }

  lemma RolesSurviveSorting(r: seq<ListedUser>, all: seq<ListedUser>)
    requires multiset(r) == multiset(all)
    requires forall i :: 0 <= i < |all| ==> all[i].role == EmployeeRole
    ensures forall i :: 0 <= i < |r| ==> r[i].role == EmployeeRole
  {
    forall i | 0 <= i < |r| ensures r[i].role == EmployeeRole {
      assert r[i] in multiset(all);
      var k :| 0 <= k < |all| && all[k] == r[i];
    }
  }

  /** Every employee is listed, and the listing is exactly as long as the
      dashboard's employee count. */
  lemma EmployeesListsEveryEmployee(users: seq<User>, today: Instant)
    ensures forall u :: u in users && u.role == EmployeeRole ==> Listed(u) in Employees(users)
    ensures |Employees(users)| == AdminStats(users, [], today).totalEmployees
  {
    var found := Seqs.Filter(users, IsEmployee());
    var all := ListAll(found);
    var r := Employees(users);
    forall u | u in users && u.role == EmployeeRole ensures Listed(u) in r {
      var i :| 0 <= i < |found| && found[i] == u;
      assert all[i] == Listed(u);
      assert Listed(u) in multiset(all);
    }
    assert |multiset(r)| == |r| && |multiset(all)| == |all|;
    Seqs.FilterLength(users, IsEmployee());
  }
}
