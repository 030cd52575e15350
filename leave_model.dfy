/** The leave record of backend/models/Leave.js: its enumerations, required and
    optional fields, the `duration` minimum, the trimmed text fields and the
    defaults. Dates are instants in milliseconds since the epoch. */
module LeaveModel {
  import opened Common
  import opened Text
  import Seqs

  type UserId = nat
  type LeaveId = nat
  type Instant = int

  datatype LeaveType = Sick | Vacation | Personal | Emergency | Other
  datatype DurationUnit = Hours | Days
  datatype Status = Pending | Approved | Rejected

  /** A stored leave request. The required fields are plain values; the ones
      the schema leaves optional are options. */
  datatype Leave = Leave(
    id: LeaveId,
    employee: UserId,
    leaveType: LeaveType,
    startDate: Instant,
    endDate: Instant,
    duration: real,
    durationUnit: DurationUnit,
    reason: string,
    status: Status,
    adminComment: Option<string>,
    rejectedReason: Option<string>,
    reviewedBy: Option<UserId>,
    reviewedAt: Option<Instant>,
    appliedAt: Instant)

  const MinDuration: real := 0.5
  const DefaultStatus: Status := Pending

  function LeaveTypeName(t: LeaveType): string {
    match t
    case Sick => "sick"
    case Vacation => "vacation"
    case Personal => "personal"
    case Emergency => "emergency"
    case Other => "other"
  }

  /** The `enum` check on `leaveType`: exactly the five names are accepted. */
  function ParseLeaveType(s: string): (r: Option<LeaveType>)
    ensures r.Some? ==> LeaveTypeName(r.value) == s
    ensures r.None? ==> forall t :: LeaveTypeName(t) != s
  {
    if s == "sick" then Some(Sick)
    else if s == "vacation" then Some(Vacation)
    else if s == "personal" then Some(Personal)
    else if s == "emergency" then Some(Emergency)
    else if s == "other" then Some(Other)
    else None
  }

  function DurationUnitName(u: DurationUnit): string {
    match u
    case Hours => "hours"
    case Days => "days"
  }

  /** The `enum` check on `durationUnit`: only "hours" and "days". */
  function ParseDurationUnit(s: string): (r: Option<DurationUnit>)
    ensures r.Some? ==> DurationUnitName(r.value) == s
    ensures r.None? ==> forall u :: DurationUnitName(u) != s
  {
    if s == "hours" then Some(Hours) else if s == "days" then Some(Days) else None
  }

  function StatusName(s: Status): string {
    match s
    case Pending => "pending"
    case Approved => "approved"
    case Rejected => "rejected"
  }

  /** An option of text is absent or trimmed: the schema's trim leaves it as
      it is. */
  predicate OptionTrimmed(o: Option<string>)
    ensures OptionTrimmed(o) <==> MapOption(o, Trim) == o
  {
    if o.None? then true
    else TrimFixesExactlyTrimmed(o.value); IsTrimmed(o.value)
  }

  /** What `save()` accepts: `duration` at least 0.5, a non-empty `reason`
      (a required string may not be empty), and the `trim: true` fields trimmed,
      so that the schema's own trim changes none of them. */
  predicate SchemaValid(l: Leave)
    ensures SchemaValid(l) <==>
      && l.duration >= MinDuration && l.reason != []
      && Trim(l.reason) == l.reason
      && MapOption(l.adminComment, Trim) == l.adminComment
      && MapOption(l.rejectedReason, Trim) == l.rejectedReason
  {
    TrimFixesExactlyTrimmed(l.reason);
    && l.duration >= MinDuration
    && l.reason != []
    && IsTrimmed(l.reason)
    && OptionTrimmed(l.adminComment)
    && OptionTrimmed(l.rejectedReason)
  }

  /** The status a newly created record gets, together with the unset review
      fields and `appliedAt` set to the creation time. */
  function Fresh(id: LeaveId, employee: UserId, leaveType: LeaveType, startDate: Instant, endDate: Instant,
                 duration: real, durationUnit: DurationUnit, reason: string, now: Instant): (l: Leave)
    ensures l.status == DefaultStatus && l.appliedAt == now
    ensures l.adminComment.None? && l.rejectedReason.None? && l.reviewedBy.None? && l.reviewedAt.None?
    ensures l.id == id && l.employee == employee && l.duration == duration && l.reason == reason
  {
    Leave(id, employee, leaveType, startDate, endDate, duration, durationUnit, reason,
          DefaultStatus, None, None, None, None, now)
  }

  /** The filter `status === st` as a predicate on leaves. */
  function HasStatus(st: Status): Leave -> bool {
    (l: Leave) => l.status == st
  }

  /** How many leaves of a list have the given status. */
  function CountStatus(ls: seq<Leave>, st: Status): (n: nat)
    ensures n <= |ls|
    ensures n == 0 <==> forall i :: 0 <= i < |ls| ==> ls[i].status != st
  {
    Seqs.Count(ls, HasStatus(st))
  }

  /** Every leave has exactly one of the three statuses, so the three counts add
      up to the length of the list. */
  lemma StatusCountsSum(ls: seq<Leave>)
    ensures CountStatus(ls, Pending) + CountStatus(ls, Approved) + CountStatus(ls, Rejected) == |ls|
  {
    Seqs.CountPartition(ls, HasStatus(Pending), HasStatus(Approved), HasStatus(Rejected));
  }
}
