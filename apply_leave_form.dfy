/** The apply-for-leave page of frontend/src/components/ApplyLeave.tsx (and its
    copy in frontend/js/app.js): the day count written into the read-only
    duration field when a date field loses focus, and the checks `handleSubmit`
    runs, in order, before it sends the request. A date field holds the instant
    its `YYYY-MM-DD` value denotes, or nothing while it is empty; the clock is
    the `now` parameter. */
module ApplyLeaveForm {
  import opened Common
  import opened Text
  import opened LeaveModel
  import Leaves

  const MsPerDay: nat := 86_400_000
  const MinClientReasonLength: nat := 10

  /** The form state. `duration` is the text of the duration field. */
  datatype LeaveForm = LeaveForm(
    leaveType: string,
    startDate: Option<Instant>,
    endDate: Option<Instant>,
    duration: string,
    durationUnit: string,
    reason: string)

  /** The form as the page first shows it: everything empty, unit `days`. */
  function InitialForm(): (f: LeaveForm)
    ensures f.startDate.None? && f.endDate.None? && f.duration == [] && f.durationUnit == "days"
    ensures f.leaveType == [] && f.reason == []
  {
    LeaveForm("", None, None, "", "days", "")
  }

  function Abs(x: int): (r: nat)
    ensures r == x || r == -x
  {
    if x < 0 then -x else x
  }

  /** `Math.ceil(|end - start| / 86400000) + 1`: the days from the first to the
      last day, both included. */
  function DayCount(start: Instant, end: Instant): (d: nat)
    ensures d >= 1
    ensures (d - 1) * MsPerDay >= Abs(end - start)
    ensures (d - 2) * MsPerDay < Abs(end - start)
  {
    (Abs(end - start) + MsPerDay - 1) / MsPerDay + 1
  }

  /** The count does not depend on which date comes first. */
  lemma DayCountSymmetric(start: Instant, end: Instant)
    ensures DayCount(start, end) == DayCount(end, start)
  {
    assert Abs(end - start) == Abs(start - end);
  }

  /** Two dates `days` whole days apart count `days + 1` days. */
  lemma DayCountWholeDays(start: Instant, days: nat)
    ensures DayCount(start, start + days * MsPerDay) == days + 1
  {
  }

  /** `calculateDuration`: the day count is written into the duration field
      only when both dates are set; otherwise the form is unchanged. */
  function WithDuration(f: LeaveForm): (g: LeaveForm)
    ensures f.startDate.Some? && f.endDate.Some? ==>
      g == f.(duration := DecimalString(DayCount(f.startDate.value, f.endDate.value)))
    ensures f.startDate.None? || f.endDate.None? ==> g == f
  {
    if f.startDate.Some? && f.endDate.Some? then
      f.(duration := DecimalString(DayCount(f.startDate.value, f.endDate.value)))
    else f
  }

  /** What the page reports instead of sending. */
  datatype ApplyError =
    | MissingFields     // "Please fill in all required fields"
    | ReasonTooShort    // "Reason must be at least 10 characters long"
    | EndNotAfterStart  // "End date must be after start date"
    | StartInPast       // "Cannot apply for leave in the past"

  /** `parseFloat` of the duration field; `NaN` is sent as `null`, which the
      server sees as no number. */
  function SentDuration(field: string): (r: Option<real>)
    ensures r.Some? <==> ParseFloat(field).Some?
    ensures r.Some? ==> r.value == ParseFloat(field).value as real
  {
    match ParseFloat(field)
    case None => None
    case Some(n) => Some(n as real)
  }

  /** The request body `handleSubmit` posts: the form with the duration parsed
      and everything else, the unit included, as it is. */
  function RequestOf(f: LeaveForm): (req: Leaves.CreateRequest)
    ensures req.leaveType == f.leaveType && req.startDate == f.startDate && req.endDate == f.endDate
    ensures req.durationUnit == f.durationUnit && req.reason == f.reason
    ensures req.duration == SentDuration(f.duration)
  {
    Leaves.CreateRequest(f.leaveType, f.startDate, f.endDate, SentDuration(f.duration), f.durationUnit, f.reason)
  }

  /** The checks of `handleSubmit` in order; the first that fails is the one
      reported, and only a form that passes them all is sent. The reason's
      length is that of the text as typed, not trimmed. */
  function Submit(f: LeaveForm, now: Instant): (r: Result<Leaves.CreateRequest, ApplyError>)
    ensures r == Err(MissingFields) <==>
      f.leaveType == [] || f.startDate.None? || f.endDate.None? || f.reason == []
    ensures r == Err(ReasonTooShort) <==>
      && f.leaveType != [] && f.startDate.Some? && f.endDate.Some? && f.reason != []
      && |f.reason| < MinClientReasonLength
    ensures r == Err(EndNotAfterStart) <==>
      && f.leaveType != [] && f.startDate.Some? && f.endDate.Some? && |f.reason| >= MinClientReasonLength
      && f.startDate.value >= f.endDate.value
    ensures r == Err(StartInPast) <==>
      && f.leaveType != [] && f.startDate.Some? && f.endDate.Some? && |f.reason| >= MinClientReasonLength
      && f.startDate.value < f.endDate.value && f.startDate.value < now
    ensures r.Ok? ==> r.value == RequestOf(f)
  {
    if f.leaveType == [] || f.startDate.None? || f.endDate.None? || f.reason == [] then Err(MissingFields)
    else if |f.reason| < MinClientReasonLength then Err(ReasonTooShort)
    else if f.startDate.value >= f.endDate.value then Err(EndNotAfterStart)
    else if f.startDate.value < now then Err(StartInPast)
    else Ok(RequestOf(f))
  }

  /** A computed duration reaches the server as the day count itself: the
      decimal text the field holds reads back as the same number. */
  lemma ComputedDurationIsSent(f: LeaveForm, now: Instant)
    requires f.startDate.Some? && f.endDate.Some?
    requires Submit(WithDuration(f), now).Ok?
    ensures Submit(WithDuration(f), now).value.duration == Some(DayCount(f.startDate.value, f.endDate.value) as real)
  {
    DecimalRoundTrip(DayCount(f.startDate.value, f.endDate.value));
  }

  /** The unit is sent as chosen and the number does not depend on it: choosing
      hours sends the same number as choosing days. */
  lemma NoHoursConversion(f: LeaveForm, now: Instant)
    requires Submit(f.(durationUnit := "days"), now).Ok?
    ensures Submit(f.(durationUnit := "hours"), now).Ok?
    ensures Submit(f.(durationUnit := "hours"), now).value.duration == Submit(f.(durationUnit := "days"), now).value.duration
    ensures Submit(f.(durationUnit := "hours"), now).value.durationUnit == "hours"
  {
  }

  /** A form whose duration field was never filled in passes the page's checks
      but is refused by the server: `parseFloat("")` is `NaN`. */
  lemma UncomputedDurationRefusedByServer(f: LeaveForm, now: Instant, employee: UserId, id: LeaveId)
    requires f.duration == []
    requires Submit(f, now).Ok?
    ensures Leaves.DurationNotNumber in Leaves.FieldErrors(Submit(f, now).value)
    ensures Leaves.NewLeave(Submit(f, now).value, employee, id, now).Err?
  {
  }

  /** The page counts the reason untrimmed, the server trimmed: ten spaces pass
      the page and fail the server's length check. */
  lemma BlankReasonPassesPageFailsServer(f: LeaveForm, now: Instant)
    requires f.reason == "          "
    requires f.leaveType != [] && f.startDate.Some? && f.endDate.Some?
    requires now <= f.startDate.value < f.endDate.value
    ensures Submit(f, now).Ok?
    ensures Leaves.ReasonTooShort in Leaves.FieldErrors(Submit(f, now).value)
  {
    assert IsBlank(f.reason);
    TrimEmptyIffBlank(f.reason);
  }

  /** What the page sends already satisfies the server's date checks at the
      same instant: the server answers neither "end date must be after start
      date" nor "cannot apply for leave in the past". */
  lemma PageDateChecksMatchServer(f: LeaveForm, now: Instant, employee: UserId, id: LeaveId)
    requires Submit(f, now).Ok?
    ensures Leaves.NewLeave(Submit(f, now).value, employee, id, now) != Err(Leaves.EndNotAfterStart)
    ensures Leaves.NewLeave(Submit(f, now).value, employee, id, now) != Err(Leaves.StartInPast)
  {
  }

  /** The past check compares with the current instant, not the start of the
      day: a leave starting today (at midnight) is refused once midnight has
      passed, by the page and by the server alike. */
  lemma TodayRefusedAfterMidnight(f: LeaveForm, midnight: Instant, now: Instant, employee: UserId, id: LeaveId)
    requires f.leaveType != [] && |f.reason| >= MinClientReasonLength
    requires f.startDate == Some(midnight) && f.endDate.Some? && midnight < f.endDate.value
    requires midnight < now
    ensures Submit(f, now) == Err(StartInPast)
    ensures Leaves.PassesChain(RequestOf(f)) ==> Leaves.NewLeave(RequestOf(f), employee, id, now) == Err(Leaves.StartInPast)
  {
  }

  /** The page's state: the form and the message it shows. */
  class ApplyLeavePage {
    var form: LeaveForm
    var error: Option<ApplyError>

    constructor ()
      ensures form == InitialForm() && error.None?
    {
      form := InitialForm();
      error := None;
    }

    /** `calculateDuration`, run when a date field loses focus. */
    method CalculateDuration()
      modifies this
      ensures form == WithDuration(old(form)) && error == old(error)
    {
      if form.startDate.Some? && form.endDate.Some? {
        var days := DayCount(form.startDate.value, form.endDate.value);
        form := form.(duration := DecimalString(days));
      }
    }

    /** `handleSubmit`: clears the message, runs the checks in order and either
        shows the first failure or returns the request it posts. */
    method HandleSubmit(now: Instant) returns (sent: Option<Leaves.CreateRequest>)
      modifies this
      ensures form == old(form)
      ensures Submit(form, now).Ok? ==> sent == Some(Submit(form, now).value) && error.None?
      ensures Submit(form, now).Err? ==> sent.None? && error == Some(Submit(form, now).error)
    {
      error := None;
      if form.leaveType == [] || form.startDate.None? || form.endDate.None? || form.reason == [] {
        error := Some(MissingFields);
        return None;
      }
      if |form.reason| < MinClientReasonLength {
        error := Some(ReasonTooShort);
        return None;
      }
      var startDate := form.startDate.value;
      var endDate := form.endDate.value;
      if startDate >= endDate {
        error := Some(EndNotAfterStart);
        return None;
      }
      if startDate < now {
        error := Some(StartInPast);
        return None;
      }
      sent := Some(RequestOf(form));
    }
  }
}
