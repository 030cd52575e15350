/** The HR page of frontend/src/components/ManageLeaves.tsx: the records of
    `/all` split into one tab per status with a counter on each tab, the
    approve and reject buttons shown only on pending rows, and the rejection
    dialog, which sends nothing while the reason is blank. */
module ManageLeaves {
  import opened Common
  import opened Text
  import opened LeaveModel
  import Seqs
  import Leaves

  /** `getFilteredLeaves`: the records whose status is the active tab, in the
      order of the list. */
  function FilteredLeaves(ls: seq<Leave>, tab: Status): (r: seq<Leave>)
    ensures forall l :: l in r <==> l in ls && l.status == tab
    ensures forall i :: 0 <= i < |r| ==> r[i].status == tab
  {
    Seqs.Filter(ls, HasStatus(tab))
  }

  /** Appending a record appends it to its own tab and to no other, so each tab
      keeps the order of the list. */
  lemma FilteredLeavesSnoc(ls: seq<Leave>, l: Leave, tab: Status)
    ensures FilteredLeaves(ls + [l], tab) == FilteredLeaves(ls, tab) + (if l.status == tab then [l] else [])
  {
    Seqs.FilterConcat(ls, [l], HasStatus(tab));
    assert ([l])[1..] == [];
  }

  /** The three tab counters. */
  datatype TabCounts = TabCounts(pending: nat, approved: nat, rejected: nat)

  function CountFor(c: TabCounts, tab: Status): nat {
    match tab
    case Pending => c.pending
    case Approved => c.approved
    case Rejected => c.rejected
  }

  /** `getCounts`: the length of each status's filtered list. */
  function Counts(ls: seq<Leave>): (c: TabCounts)
    ensures c.pending == CountStatus(ls, Pending)
    ensures c.approved == CountStatus(ls, Approved)
    ensures c.rejected == CountStatus(ls, Rejected)
  {
    Seqs.FilterLength(ls, HasStatus(Pending));
    Seqs.FilterLength(ls, HasStatus(Approved));
    Seqs.FilterLength(ls, HasStatus(Rejected));
    TabCounts(|FilteredLeaves(ls, Pending)|, |FilteredLeaves(ls, Approved)|, |FilteredLeaves(ls, Rejected)|)
  }

  /** Every record is on exactly one tab: the counters add up to the length of
      the list. */
  lemma CountsSum(ls: seq<Leave>)
    ensures Counts(ls).pending + Counts(ls).approved + Counts(ls).rejected == |ls|
  {
    StatusCountsSum(ls);
  }

  /** The active tab shows as many rows as its counter says. */
  lemma FilteredLengthIsTabCount(ls: seq<Leave>, tab: Status)
    ensures |FilteredLeaves(ls, tab)| == CountFor(Counts(ls), tab)
  {
    Seqs.FilterLength(ls, HasStatus(tab));
  }

  /** The approve and reject buttons are shown only on pending rows: on a
      well-formed record, exactly the rows nobody has reviewed yet. */
  predicate OffersDecision(l: Leave)
    ensures Leaves.Wellformed(l) ==> (OffersDecision(l) <==> l.reviewedBy.None? && l.reviewedAt.None?)
  {
    l.status == Pending
  }

  /** The buttons are shown exactly on the rows the server still lets HR
      decide, as long as the row is what the store holds: approval then
      succeeds, and on any other row the server answers "already processed". */
  lemma OfferedExactlyWhenDecidable(m: map<LeaveId, Leave>, id: LeaveId, reviewer: UserId,
                                    adminComment: Option<string>, now: Instant)
    requires id in m
    ensures OffersDecision(m[id]) <==> Leaves.ApproveRecord(m, id, reviewer, adminComment, now).Ok?
    ensures !OffersDecision(m[id]) ==> Leaves.ApproveRecord(m, id, reviewer, adminComment, now) == Err(Leaves.AlreadyProcessed)
  {
  }

  /** `handleReject`'s guard: the request is sent only when the reason is not
      blank, that is, holds some character that is not white space. The
      dashboard of frontend/js/app.js has the same guard. */
  predicate SendsReject(reason: string)
    ensures SendsReject(reason) <==> exists i :: 0 <= i < |reason| && !IsSpace(reason[i])
  {
    TrimEmptyIffBlank(reason);
    Trim(reason) != []
  }

  /** A reason the guard stops is one the server would refuse too. */
  lemma BlockedReasonRefusedByServer(m: map<LeaveId, Leave>, id: LeaveId, reviewer: UserId, reason: string,
                                     adminComment: Option<string>, now: Instant)
    requires !SendsReject(reason)
    ensures Leaves.RejectRecord(m, id, reviewer, reason, adminComment, now) == Err(Leaves.InvalidRejection)
  {
  }

  /** The guard is weaker than the server's check: a reason of four letters is
      sent and then refused. */
  lemma ShortReasonSentButRefused(m: map<LeaveId, Leave>, id: LeaveId, reviewer: UserId,
                                  adminComment: Option<string>, now: Instant)
    ensures SendsReject("late")
    ensures Leaves.RejectRecord(m, id, reviewer, "late", adminComment, now) == Err(Leaves.InvalidRejection)
  {
    assert IsTrimmed("late");
    TrimmedIsFixpoint("late");
  }

  /** What the dialog sends to `PUT /:id/reject`. */
  datatype RejectCall = RejectCall(leaveId: LeaveId, rejectedReason: string, adminComment: string)

  /** The page's state. */
  class ManageLeavesView {
    var activeTab: Status
    var leaves: seq<Leave>
    var rejectReason: string
    var rejectComment: string
    var selectedLeaveId: Option<LeaveId>

    /** The page opens on the pending tab with the dialog closed. */
    constructor (fetched: seq<Leave>)
      ensures activeTab == Pending && leaves == fetched
      ensures rejectReason == [] && rejectComment == [] && selectedLeaveId.None?
    {
      activeTab := Pending;
      leaves := fetched;
      rejectReason := [];
      rejectComment := [];
      selectedLeaveId := None;
    }

    /** The rows the table shows. */
    function Shown(): (r: seq<Leave>)
      reads this
      ensures forall l :: l in r <==> l in leaves && l.status == activeTab
    {
      FilteredLeaves(leaves, activeTab)
    }

    method SelectTab(tab: Status)
      modifies this
      ensures activeTab == tab
      ensures leaves == old(leaves) && rejectReason == old(rejectReason)
      ensures rejectComment == old(rejectComment) && selectedLeaveId == old(selectedLeaveId)
    {
      activeTab := tab;
    }

    /** The reject button of a row opens the dialog for that record; the button
        exists only on pending rows. */
    method OpenRejectDialog(l: Leave)
      requires OffersDecision(l)
      modifies this
      ensures selectedLeaveId == Some(l.id)
      ensures activeTab == old(activeTab) && leaves == old(leaves)
      ensures rejectReason == old(rejectReason) && rejectComment == old(rejectComment)
    {
      selectedLeaveId := Some(l.id);
    }

    /** The dialog's cancel button. */
    method CancelReject()
      modifies this
      ensures selectedLeaveId.None? && rejectReason == [] && rejectComment == []
      ensures activeTab == old(activeTab) && leaves == old(leaves)
    {
      selectedLeaveId := None;
      rejectReason := [];
      rejectComment := [];
    }

    /** The dialog's reject button: `handleReject` for the selected record,
        with the typed reason and comment. `outcome` is what the network
        does with the request: `None` when it fails, otherwise the records the
        page fetches again afterwards. A blank reason sends nothing and changes
        nothing; a request that fails changes nothing; a successful one
        replaces the list and closes and clears the dialog. */
    method HandleReject(outcome: Option<seq<Leave>>) returns (sent: Option<RejectCall>)
      requires selectedLeaveId.Some?
      modifies this
      ensures sent.Some? <==> SendsReject(old(rejectReason))
      ensures sent.Some? ==> sent.value == RejectCall(old(selectedLeaveId).value, old(rejectReason), old(rejectComment))
      ensures sent.Some? && outcome.Some? ==>
        && leaves == outcome.value
        && selectedLeaveId.None? && rejectReason == [] && rejectComment == []
      ensures sent.None? || outcome.None? ==>
        && leaves == old(leaves) && selectedLeaveId == old(selectedLeaveId)
        && rejectReason == old(rejectReason) && rejectComment == old(rejectComment)
      ensures activeTab == old(activeTab)
    {
      if Trim(rejectReason) == [] {
        return None;
      }
      sent := Some(RejectCall(selectedLeaveId.value, rejectReason, rejectComment));
      if outcome.Some? {
        leaves := outcome.value;
        selectedLeaveId := None;
        rejectReason := [];
        rejectComment := [];
      }
    }
  }
}
