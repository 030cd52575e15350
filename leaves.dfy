/** The leave routes of backend/routes/leaves.js: applying for leave, the one-way
    review by HR (approve or reject), reading one record, and the "my leaves",
    "all leaves" and "today" listings. The database is an in-memory map from id
    to record; the clock is the `now` parameter. */
module Leaves {
  import opened Common
  import opened Text
  import opened LeaveModel
  import opened Identity
  import opened Sorting
  import Seqs

  const MinReasonLength: nat := 10
  const MinRejectionLength: nat := 5

  // ---------------------------------------------------------------------------
  // POST /  (apply for leave)

  /** The request body. A date that is not an ISO 8601 string, and a duration
      that is not numeric, are `None`. */
  datatype CreateRequest = CreateRequest(
    leaveType: string,
    startDate: Option<Instant>,
    endDate: Option<Instant>,
    duration: Option<real>,
    durationUnit: string,
    reason: string)

  /** One failed check of the validator chain. */
  datatype FieldError =
    | InvalidLeaveType
    | InvalidStartDate
    | InvalidEndDate
    | DurationNotNumber
    | InvalidDurationUnit
    | ReasonTooShort

  datatype CreateError =
    | Invalid(errors: seq<FieldError>)  // 400 with the list of failed checks
    | EndNotAfterStart                   // 400 "End date must be after start date"
    | StartInPast                        // 400 "Cannot apply for leave in the past"
    | ServerError                        // 500: the schema refused the record on save

  /** The checks of the validator chain, in the order the route lists them. */
  const ValidatorChain: seq<FieldError> :=
    [InvalidLeaveType, InvalidStartDate, InvalidEndDate, DurationNotNumber, InvalidDurationUnit, ReasonTooShort]

  lemma ChainHasEveryCheck()
    ensures forall check :: check in ValidatorChain
  {
    forall check ensures check in ValidatorChain {
      match check
      case InvalidLeaveType => assert ValidatorChain[0] == check;
      case InvalidStartDate => assert ValidatorChain[1] == check;
      case InvalidEndDate => assert ValidatorChain[2] == check;
      case DurationNotNumber => assert ValidatorChain[3] == check;
      case InvalidDurationUnit => assert ValidatorChain[4] == check;
      case ReasonTooShort => assert ValidatorChain[5] == check;
    }
  }

  /** Whether the request fails the given check. */
  predicate Fails(req: CreateRequest, check: FieldError) {
    match check
    case InvalidLeaveType => ParseLeaveType(req.leaveType).None?
    case InvalidStartDate => req.startDate.None?
    case InvalidEndDate => req.endDate.None?
    case DurationNotNumber => req.duration.None?
    case InvalidDurationUnit => ParseDurationUnit(req.durationUnit).None?
    case ReasonTooShort => |Trim(req.reason)| < MinReasonLength
  }

  /** The request passes every check of the validator chain. */
  predicate PassesChain(req: CreateRequest) {
    && ParseLeaveType(req.leaveType).Some?
    && req.startDate.Some?
    && req.endDate.Some?
    && req.duration.Some?
    && ParseDurationUnit(req.durationUnit).Some?
    && |Trim(req.reason)| >= MinReasonLength
  }

  lemma PassesChainIffNoFailure(req: CreateRequest)
    ensures PassesChain(req) <==> forall check :: !Fails(req, check)
  {
    if !PassesChain(req) {
      if ParseLeaveType(req.leaveType).None? { assert Fails(req, InvalidLeaveType); }
      else if req.startDate.None? { assert Fails(req, InvalidStartDate); }
      else if req.endDate.None? { assert Fails(req, InvalidEndDate); }
      else if req.duration.None? { assert Fails(req, DurationNotNumber); }
      else if ParseDurationUnit(req.durationUnit).None? { assert Fails(req, InvalidDurationUnit); }
      else { assert Fails(req, ReasonTooShort); }
    }
  }

  /** Every check of the validator chain runs; the failures are reported together,
      in the order the chain lists them. */
  function FieldErrors(req: CreateRequest): (errs: seq<FieldError>)
    ensures forall check :: check in errs <==> Fails(req, check)
    ensures errs == [] <==> PassesChain(req)
    ensures |errs| <= |ValidatorChain|
  {
    var errs := Seqs.Filter(ValidatorChain, check => Fails(req, check));
    ChainHasEveryCheck();
    PassesChainIffNoFailure(req);
    assert errs != [] ==> errs[0] in errs;
    errs
  }

  /** Whether a request passes every check of the route, in the route's order. */
  predicate Acceptable(req: CreateRequest, now: Instant) {
    && PassesChain(req)
    && req.startDate.value < req.endDate.value
    && now <= req.startDate.value
    && req.duration.value >= MinDuration
  }

  /** The record the route saves for `employee`, or the error it answers with.
      The reason is stored trimmed (the validator's `trim` rewrites the body);
      the duration and its unit are stored as the client sent them. */
  function NewLeave(req: CreateRequest, employee: UserId, id: LeaveId, now: Instant): (r: Result<Leave, CreateError>)
    ensures r.Ok? <==> Acceptable(req, now)
    ensures FieldErrors(req) != [] ==> r == Err(Invalid(FieldErrors(req)))
    ensures r == Err(EndNotAfterStart) <==> PassesChain(req) && req.startDate.value >= req.endDate.value
    ensures r == Err(StartInPast) <==>
      PassesChain(req) && req.startDate.value < req.endDate.value && req.startDate.value < now
    ensures r == Err(ServerError) <==>
      PassesChain(req) && req.startDate.value < req.endDate.value && now <= req.startDate.value
      && req.duration.value < MinDuration
    ensures r.Ok? ==>
      && r.value.id == id && r.value.employee == employee
      && r.value.status == Pending && r.value.appliedAt == now
      && Some(r.value.leaveType) == ParseLeaveType(req.leaveType)
      && Some(r.value.startDate) == req.startDate && Some(r.value.endDate) == req.endDate
      && Some(r.value.duration) == req.duration
      && Some(r.value.durationUnit) == ParseDurationUnit(req.durationUnit)
      && r.value.reason == Trim(req.reason)
      && Wellformed(r.value)
  {
    var errs := FieldErrors(req);
    if errs != [] then Err(Invalid(errs))
    else if req.startDate.value >= req.endDate.value then Err(EndNotAfterStart)
    else if req.startDate.value < now then Err(StartInPast)
    else if req.duration.value < MinDuration then Err(ServerError)
    else
      Ok(Fresh(id, employee, ParseLeaveType(req.leaveType).value, req.startDate.value, req.endDate.value,
               req.duration.value, ParseDurationUnit(req.durationUnit).value, Trim(req.reason), now))
  }

  // ---------------------------------------------------------------------------
  // The record invariant that every route keeps

  /** The schema's rules plus what the routes guarantee: the dates are ordered,
      the review fields are set exactly when the record has left `pending`, and a
      rejection reason exists exactly on rejected records. */
  predicate Wellformed(l: Leave) {
    && SchemaValid(l)
    && l.startDate < l.endDate
    && (l.status == Pending <==> l.reviewedBy.None?)
    && (l.status == Pending <==> l.reviewedAt.None?)
    && (l.status == Pending ==> l.adminComment.None?)
    && (l.status == Rejected <==> l.rejectedReason.Some?)
    && (l.rejectedReason.Some? ==> |l.rejectedReason.value| >= MinRejectionLength)
  }

  /** The store: ids are handed out in order from 0, and each record knows its id. */
  ghost predicate StoreValid(m: map<LeaveId, Leave>, nextId: nat) {
    && (forall id: LeaveId :: id in m <==> id < nextId)
    && (forall id :: id in m ==> m[id].id == id && Wellformed(m[id]))
  }

  // ---------------------------------------------------------------------------
  // PUT /:id/approve and PUT /:id/reject

  datatype DecisionError =
    | InvalidRejection  // 400: rejection reason shorter than 5 after trimming
    | NotFound          // 404 "Leave request not found"
    | AlreadyProcessed  // 400 "Leave request has already been processed"

  /** The fields approval writes: status, comment (trimmed), reviewer and time.
      Nothing else changes, and a well-formed pending record stays well formed. */
  function ApprovedLeave(l: Leave, reviewer: UserId, adminComment: Option<string>, now: Instant): (r: Leave)
    ensures r.status == Approved && r.reviewedBy == Some(reviewer) && r.reviewedAt == Some(now)
    ensures r.adminComment == MapOption(adminComment, Trim)
    ensures r.(status := l.status, adminComment := l.adminComment, reviewedBy := l.reviewedBy,
               reviewedAt := l.reviewedAt) == l
    ensures Wellformed(l) && l.status == Pending ==> Wellformed(r)
  {
    l.(status := Approved, adminComment := MapOption(adminComment, Trim),
       reviewedBy := Some(reviewer), reviewedAt := Some(now))
  }

  /** The fields rejection writes: status, reason, comment (trimmed), reviewer
      and time. Nothing else changes, and a well-formed pending record stays well
      formed when the reason is trimmed and long enough. */
  function RejectedLeave(l: Leave, reviewer: UserId, reason: string, adminComment: Option<string>, now: Instant): (r: Leave)
    ensures r.status == Rejected && r.rejectedReason == Some(reason)
    ensures r.reviewedBy == Some(reviewer) && r.reviewedAt == Some(now)
    ensures r.adminComment == MapOption(adminComment, Trim)
    ensures r.(status := l.status, rejectedReason := l.rejectedReason, adminComment := l.adminComment,
               reviewedBy := l.reviewedBy, reviewedAt := l.reviewedAt) == l
    ensures Wellformed(l) && l.status == Pending && IsTrimmed(reason) && |reason| >= MinRejectionLength
            ==> Wellformed(r)
  {
    l.(status := Rejected, rejectedReason := Some(reason), adminComment := MapOption(adminComment, Trim),
       reviewedBy := Some(reviewer), reviewedAt := Some(now))
  }

  /** Approval: the record must exist and still be pending; then only the review
      fields of that one record change. */
  function ApproveRecord(m: map<LeaveId, Leave>, id: LeaveId, reviewer: UserId, adminComment: Option<string>, now: Instant)
    : (r: Result<map<LeaveId, Leave>, DecisionError>)
    ensures r == Err(NotFound) <==> id !in m
    ensures r == Err(AlreadyProcessed) <==> id in m && m[id].status != Pending
    ensures r.Ok? ==>
      && id in m && m[id].status == Pending
      && r.value.Keys == m.Keys
      && r.value[id].status == Approved
      && r.value[id] == ApprovedLeave(m[id], reviewer, adminComment, now)
      && (forall k :: k in m && k != id ==> r.value[k] == m[k])
  {
    if id !in m then Err(NotFound)
    else if m[id].status != Pending then Err(AlreadyProcessed)
    else Ok(m[id := ApprovedLeave(m[id], reviewer, adminComment, now)])
  }

  /** Rejection: the trimmed reason is checked first, before the record is even
      looked up; then as for approval. */
  function RejectRecord(m: map<LeaveId, Leave>, id: LeaveId, reviewer: UserId, rejectedReason: string,
                  adminComment: Option<string>, now: Instant)
    : (r: Result<map<LeaveId, Leave>, DecisionError>)
    ensures r == Err(InvalidRejection) <==> |Trim(rejectedReason)| < MinRejectionLength
    ensures r == Err(NotFound) <==> |Trim(rejectedReason)| >= MinRejectionLength && id !in m
    ensures r == Err(AlreadyProcessed) <==>
      |Trim(rejectedReason)| >= MinRejectionLength && id in m && m[id].status != Pending
    ensures r.Ok? ==>
      && id in m && m[id].status == Pending
      && r.value.Keys == m.Keys
      && r.value[id].status == Rejected
      && r.value[id] == RejectedLeave(m[id], reviewer, Trim(rejectedReason), adminComment, now)
      && (forall k :: k in m && k != id ==> r.value[k] == m[k])
  {
    var reason := Trim(rejectedReason);
    if |reason| < MinRejectionLength then Err(InvalidRejection)
    else if id !in m then Err(NotFound)
    else if m[id].status != Pending then Err(AlreadyProcessed)
    else Ok(m[id := RejectedLeave(m[id], reviewer, reason, adminComment, now)])
  }

  /** Inserting a well-formed record under the next id keeps the store valid. */
  lemma InsertPreservesStore(m: map<LeaveId, Leave>, nextId: LeaveId, l: Leave)
    requires StoreValid(m, nextId)
    requires l.id == nextId && Wellformed(l)
    ensures StoreValid(m[nextId := l], nextId + 1)
  {
  }

  /** Approval keeps every record of the store well formed. */
  lemma ApprovePreservesStore(m: map<LeaveId, Leave>, nextId: nat, id: LeaveId, reviewer: UserId,
                              adminComment: Option<string>, now: Instant)
    requires StoreValid(m, nextId)
    requires ApproveRecord(m, id, reviewer, adminComment, now).Ok?
    ensures StoreValid(ApproveRecord(m, id, reviewer, adminComment, now).value, nextId)
  {
    var m' := ApproveRecord(m, id, reviewer, adminComment, now).value;
    if adminComment.Some? {
      assert IsTrimmed(Trim(adminComment.value));
    }
    assert Wellformed(m'[id]);
  }

  /** Rejection keeps every record of the store well formed. */
  lemma RejectPreservesStore(m: map<LeaveId, Leave>, nextId: nat, id: LeaveId, reviewer: UserId,
                             rejectedReason: string, adminComment: Option<string>, now: Instant)
    requires StoreValid(m, nextId)
    requires RejectRecord(m, id, reviewer, rejectedReason, adminComment, now).Ok?
    ensures StoreValid(RejectRecord(m, id, reviewer, rejectedReason, adminComment, now).value, nextId)
  {
    var m' := RejectRecord(m, id, reviewer, rejectedReason, adminComment, now).value;
    if adminComment.Some? {
      assert IsTrimmed(Trim(adminComment.value));
    }
    assert IsTrimmed(Trim(rejectedReason));
    assert Wellformed(m'[id]);
  }

  /** `approved` and `rejected` are terminal: once a record has left `pending`,
      no approval or rejection of any record changes it. */
  lemma DecidedRecordsAreFinal(m: map<LeaveId, Leave>, id: LeaveId, target: LeaveId, reviewer: UserId,
                               rejectedReason: string, adminComment: Option<string>, now: Instant)
    requires id in m && m[id].status != Pending
    ensures ApproveRecord(m, target, reviewer, adminComment, now).Ok? ==>
      ApproveRecord(m, target, reviewer, adminComment, now).value[id] == m[id]
    ensures RejectRecord(m, target, reviewer, rejectedReason, adminComment, now).Ok? ==>
      RejectRecord(m, target, reviewer, rejectedReason, adminComment, now).value[id] == m[id]
  {
  }

  /** A second decision on the same record, by anyone, fails as already processed
      (unless the rejection reason is itself invalid, which is checked first). */
  lemma SecondDecisionFails(m: map<LeaveId, Leave>, id: LeaveId, first: Result<map<LeaveId, Leave>, DecisionError>,
                            reviewer: UserId, rejectedReason: string, adminComment: Option<string>, now: Instant)
    requires first.Ok?
    requires first == ApproveRecord(m, id, reviewer, adminComment, now)
          || first == RejectRecord(m, id, reviewer, rejectedReason, adminComment, now)
    ensures forall r, c, t :: ApproveRecord(first.value, id, r, c, t) == Err(AlreadyProcessed)
    ensures forall r, reason, c, t :: |Trim(reason)| >= MinRejectionLength ==>
      RejectRecord(first.value, id, r, reason, c, t) == Err(AlreadyProcessed)
  {
  }

  // ---------------------------------------------------------------------------
  // GET /:id

  datatype ViewError = LeaveNotFound | AccessDenied

  /** Reading one record: 404 when it does not exist, 403 unless the caller is HR
      or the employee the record belongs to. */
  function ViewLeave(m: map<LeaveId, Leave>, id: LeaveId, actor: Actor): (r: Result<Leave, ViewError>)
    ensures r == Err(LeaveNotFound) <==> id !in m
    ensures r.Ok? <==> id in m && (IsHr(actor) || m[id].employee == actor.id)
    ensures r.Ok? ==> r.value == m[id]
  {
    if id !in m then Err(LeaveNotFound)
    else if !IsHr(actor) && m[id].employee != actor.id then Err(AccessDenied)
    else Ok(m[id])
  }

  // ---------------------------------------------------------------------------
  // GET /my-leaves, GET /all, GET /today

  /** `sort({ appliedAt: -1 })`: most recently applied first. */
  function NewestFirst(): (Leave, Leave) -> bool {
    (a: Leave, b: Leave) => a.appliedAt >= b.appliedAt
  }

  /** `sort({ startDate: 1 })`: earliest start first. */
  function EarliestStartFirst(): (Leave, Leave) -> bool {
    (a: Leave, b: Leave) => a.startDate <= b.startDate
  }

  function OwnedBy(user: UserId): Leave -> bool {
    (l: Leave) => l.employee == user
  }

  /** The `/today` query: approved, started at or before `t`, ending at or after `t`. */
  function OnLeaveAt(t: Instant): Leave -> bool {
    (l: Leave) => l.status == Approved && l.startDate <= t && l.endDate >= t
  }

  /** A sorted permutation has the same elements as what was sorted. */
  lemma SameMultisetSameElements(r: seq<Leave>, s: seq<Leave>)
    requires multiset(r) == multiset(s)
    ensures forall l :: l in r <==> l in s
  {
    forall l ensures l in r <==> l in s {
      assert l in r <==> l in multiset(r);
      assert l in s <==> l in multiset(s);
    }
  }

  /** The caller's own records, most recently applied first. */
  function MyLeaves(ls: seq<Leave>, user: UserId): (r: seq<Leave>)
    ensures multiset(r) == multiset(Seqs.Filter(ls, OwnedBy(user)))
    ensures forall l :: l in r <==> l in ls && l.employee == user
    ensures forall i, j :: 0 <= i < j < |r| ==> r[i].appliedAt >= r[j].appliedAt
  {
    var r := SortBy(Seqs.Filter(ls, OwnedBy(user)), NewestFirst());
    SameMultisetSameElements(r, Seqs.Filter(ls, OwnedBy(user)));
    r
  }

  /** Every record, most recently applied first. */
  function AllLeaves(ls: seq<Leave>): (r: seq<Leave>)
    ensures multiset(r) == multiset(ls)
    ensures forall i, j :: 0 <= i < j < |r| ==> r[i].appliedAt >= r[j].appliedAt
  {
    SortBy(ls, NewestFirst())
  }

  /** Approved records whose range contains the instant `t` (local midnight of
      today), earliest start first. */
  function TodayLeaves(ls: seq<Leave>, t: Instant): (r: seq<Leave>)
    ensures multiset(r) == multiset(Seqs.Filter(ls, OnLeaveAt(t)))
    ensures forall l :: l in r <==> l in ls && l.status == Approved && l.startDate <= t <= l.endDate
    ensures forall i, j :: 0 <= i < j < |r| ==> r[i].startDate <= r[j].startDate
  {
    var r := SortBy(Seqs.Filter(ls, OnLeaveAt(t)), EarliestStartFirst());
    SameMultisetSameElements(r, Seqs.Filter(ls, OnLeaveAt(t)));
    r
  }

  /** The window is one instant, not a day: an approved leave that starts later
      on the same day (after midnight) is not listed. */
  lemma TodayMissesLeaveStartingAfterMidnight(t: Instant, l: Leave)
    requires l.status == Approved && l.startDate == t + 1 && l.endDate == t + 86_400_000
    ensures l !in TodayLeaves([l], t)
  {
  }

  // ---------------------------------------------------------------------------
  // The records as the listing queries see them

  /** The records with ids below `n`, in id (creation) order. */
  function RecordsBelow(m: map<LeaveId, Leave>, n: nat): (r: seq<Leave>)
    requires forall id: LeaveId :: id < n ==> id in m
    ensures |r| == n
    ensures forall i :: 0 <= i < n ==> r[i] == m[i]
  {
    if n == 0 then [] else RecordsBelow(m, n - 1) + [m[n - 1]]
  }

  /** The database of leave records. */
  class LeaveStore {
    var leaves: map<LeaveId, Leave>
    var nextId: LeaveId

    ghost predicate Valid()
      reads this
    {
      StoreValid(leaves, nextId)
    }

    constructor ()
      ensures Valid()
      ensures leaves == map[] && nextId == 0
    {
      leaves := map[];
      nextId := 0;
    }

    /** Every stored record, oldest first. */
    function Records(): (r: seq<Leave>)
      reads this
      requires Valid()
      ensures |r| == nextId
      ensures forall l :: l in r <==> l in leaves.Values
    {
      var r := RecordsBelow(leaves, nextId);
      assert forall l :: l in leaves.Values ==> exists id :: id in leaves && leaves[id] == l;
      r
    }

    /** POST /: validate, then insert the new pending record under a fresh id. */
    method Create(req: CreateRequest, actor: Actor, now: Instant) returns (r: Result<Leave, CreateError>)
      requires Valid()
      modifies this
      ensures Valid()
      ensures r == NewLeave(req, actor.id, old(nextId), now)
      ensures r.Ok? ==> leaves == old(leaves)[old(nextId) := r.value] && nextId == old(nextId) + 1
      ensures r.Err? ==> leaves == old(leaves) && nextId == old(nextId)
    {
      r := NewLeave(req, actor.id, nextId, now);
      if r.Ok? {
        InsertPreservesStore(leaves, nextId, r.value);
        leaves := leaves[nextId := r.value];
        nextId := nextId + 1;
      }
    }

    /** PUT /:id/approve, by the HR user `actor`. */
    method Approve(id: LeaveId, actor: Actor, adminComment: Option<string>, now: Instant)
      returns (r: Result<Leave, DecisionError>)
      requires Valid()
      modifies this
      ensures Valid() && nextId == old(nextId)
      ensures r.Err? ==> Err(r.error) == ApproveRecord(old(leaves), id, actor.id, adminComment, now)
      ensures r.Err? ==> leaves == old(leaves)
      ensures r.Ok? ==> Ok(leaves) == ApproveRecord(old(leaves), id, actor.id, adminComment, now)
      ensures r.Ok? ==> id in leaves && r.value == leaves[id]
    {
      if id !in leaves {
        return Err(NotFound);
      }
      var leave := leaves[id];
      if leave.status != Pending {
        return Err(AlreadyProcessed);
      }
      leave := ApprovedLeave(leave, actor.id, adminComment, now);
      ApprovePreservesStore(leaves, nextId, id, actor.id, adminComment, now);
      leaves := leaves[id := leave];
      r := Ok(leave);
    }

    /** PUT /:id/reject, by the HR user `actor`. */
    method Reject(id: LeaveId, actor: Actor, rejectedReason: string, adminComment: Option<string>, now: Instant)
      returns (r: Result<Leave, DecisionError>)
      requires Valid()
      modifies this
      ensures Valid() && nextId == old(nextId)
      ensures r.Err? ==> Err(r.error) == RejectRecord(old(leaves), id, actor.id, rejectedReason, adminComment, now)
      ensures r.Err? ==> leaves == old(leaves)
      ensures r.Ok? ==> Ok(leaves) == RejectRecord(old(leaves), id, actor.id, rejectedReason, adminComment, now)
      ensures r.Ok? ==> id in leaves && r.value == leaves[id]
    {
      ghost var want := RejectRecord(leaves, id, actor.id, rejectedReason, adminComment, now);
      var reason := Trim(rejectedReason);
      if |reason| < MinRejectionLength {
        assert want == Err(InvalidRejection);
        return Err(InvalidRejection);
      }
      if id !in leaves {
        return Err(NotFound);
      }
      var leave := leaves[id];
      if leave.status != Pending {
        return Err(AlreadyProcessed);
      }
      leave := RejectedLeave(leave, actor.id, reason, adminComment, now);
      assert want == Ok(leaves[id := leave]);
      RejectPreservesStore(leaves, nextId, id, actor.id, rejectedReason, adminComment, now);
      leaves := leaves[id := leave];
      r := Ok(leave);
    }
  }

  /** `GET /all` over the store lists every stored record and nothing else,
      one entry per id handed out. */
  lemma AllListsEveryStoredRecord(store: LeaveStore)
    requires store.Valid()
    ensures |AllLeaves(store.Records())| == store.nextId
    ensures forall l :: l in AllLeaves(store.Records()) <==> l in store.leaves.Values
  {
    var rs := store.Records();
    var all := AllLeaves(rs);
    assert |multiset(all)| == |all| && |multiset(rs)| == |rs|;
    SameMultisetSameElements(all, rs);
  }
}
