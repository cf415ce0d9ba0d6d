/** The tournament registration record of models/TournamentRegistration.js: the
    pending -> approved / rejected / withdrawn status machine, the payment status it
    depends on, and the approved-registration query. */
module RegistrationModel {
  import opened Wrappers

  datatype RegistrationStatus = Pending | Approved | Rejected | Withdrawn

  datatype PaymentStatus = PaymentPending | PaymentCompleted | PaymentFailed | Refunded

  datatype PaymentMethod = Card | Bank

  datatype RegistrationError = NotPending | PaymentNotCompleted | TournamentAlreadyCompleted

  /** The string the status field holds. */
  function StatusText(s: RegistrationStatus): string {
    match s
    case Pending => "pending"
    case Approved => "approved"
    case Rejected => "rejected"
    case Withdrawn => "withdrawn"
  }

  /** The entryFee default of a registration. */
  const DefaultEntryFee: int := 1500

  class Registration {
    const tournament: nat
    const player: nat
    const paymentMethod: PaymentMethod
    const entryFee: int
    const registrationDate: int
    var status: RegistrationStatus
    var paymentStatus: PaymentStatus
    var seed: Option<nat>
    var approvedBy: Option<nat>
    var approvedAt: Option<int>
    var rejectionReason: Option<string>
    var isActive: bool

    /** `new TournamentRegistration({...})` with the schema's defaults. */
    constructor (tournament: nat, player: nat, paymentMethod: PaymentMethod, entryFee: int, now: int)
      ensures this.tournament == tournament && this.player == player
      ensures this.paymentMethod == paymentMethod && this.entryFee == entryFee
      ensures registrationDate == now
      ensures status == Pending && paymentStatus == PaymentPending && seed == None
      ensures approvedBy == None && approvedAt == None && rejectionReason == None && isActive
    {
      this.tournament, this.player, this.paymentMethod, this.entryFee := tournament, player, paymentMethod, entryFee;
      registrationDate := now;
      status, paymentStatus, seed := Pending, PaymentPending, None;
      approvedBy, approvedAt, rejectionReason, isActive := None, None, None, true;
    }

    /** The `isRegistrationActive` virtual. */
    predicate IsRegistrationActive()
      reads this
    {
      status == Approved && paymentStatus == PaymentCompleted && isActive
    }

    /** approve: only a pending, paid registration; records who approved it and when. */
    method Approve(adminUserId: nat, now: int) returns (outcome: Outcome<RegistrationError>)
      modifies this`status, this`approvedBy, this`approvedAt
      ensures outcome ==
                if old(status) != Pending then Fail(NotPending)
                else if paymentStatus != PaymentCompleted then Fail(PaymentNotCompleted)
                else Pass
      ensures outcome.Pass? ==> status == Approved && approvedBy == Some(adminUserId) && approvedAt == Some(now)
      ensures outcome.Fail? ==> status == old(status) && approvedBy == old(approvedBy) && approvedAt == old(approvedAt)
    {
      if status != Pending {
        return Fail(NotPending);
      }
      if paymentStatus != PaymentCompleted {
        return Fail(PaymentNotCompleted);
      }
      status := Approved;
      approvedBy := Some(adminUserId);
      approvedAt := Some(now);
      outcome := Pass;
    }

    /** reject: only a pending registration; records the reason, who decided and when. */
    method Reject(adminUserId: nat, reason: Option<string>, now: int) returns (outcome: Outcome<RegistrationError>)
      modifies this`status, this`rejectionReason, this`approvedBy, this`approvedAt
      ensures outcome == if old(status) != Pending then Fail(NotPending) else Pass
      ensures outcome.Pass? ==>
                status == Rejected && rejectionReason == reason
                && approvedBy == Some(adminUserId) && approvedAt == Some(now)
      ensures outcome.Fail? ==>
                status == old(status) && rejectionReason == old(rejectionReason)
                && approvedBy == old(approvedBy) && approvedAt == old(approvedAt)
    {
      if status != Pending {
        return Fail(NotPending);
      }
      status := Rejected;
      rejectionReason := reason;
      approvedBy := Some(adminUserId);
      approvedAt := Some(now);
      outcome := Pass;
    }

    /** withdraw: its guard compares the status with "completed", which the status enum
        never holds, so it always withdraws and deactivates. */
    method Withdraw() returns (outcome: Outcome<RegistrationError>)
      modifies this`status, this`isActive
      ensures outcome == Pass && status == Withdrawn && !isActive
    {
      if StatusText(status) == "completed" {
        return Fail(TournamentAlreadyCompleted);
      }
      status := Withdrawn;
      isActive := false;
      outcome := Pass;
    }
  }

  /** The filter of getApprovedRegistrations for one tournament. */
  predicate ApprovedFor(r: Registration, tournamentId: nat)
    reads r
  {
    r.tournament == tournamentId && r.status == Approved && r.paymentStatus == PaymentCompleted && r.isActive
  }

  /** getApprovedRegistrations over the registrations in storage order. */
  function ApprovedRegistrations(rs: seq<Registration>, tournamentId: nat): (approved: seq<Registration>)
    reads rs
    ensures |approved| <= |rs|
    ensures forall r :: r in approved ==> r in rs && ApprovedFor(r, tournamentId)
    ensures forall r :: r in rs && ApprovedFor(r, tournamentId) ==> r in approved
  {
    if rs == [] then []
    else
      var rest := ApprovedRegistrations(rs[..|rs| - 1], tournamentId);
      var last := rs[|rs| - 1];
      assert rs == rs[..|rs| - 1] + [last];
      rest + if ApprovedFor(last, tournamentId) then [last] else []
  }

  /** The unique (tournament, player) index: no two registrations share the pair. */
  predicate UniquePerPlayer(rs: seq<Registration>) {
    forall i, j :: 0 <= i < j < |rs| ==>
      rs[i].tournament != rs[j].tournament || rs[i].player != rs[j].player
  }

  /** A decided registration is selected by getApprovedRegistrations exactly when the
      decision was an approval and it is still paid and active. */
  lemma ApprovedSelectionIsActive(r: Registration)
    ensures ApprovedFor(r, r.tournament) <==> r.IsRegistrationActive()
  {
  }

  /** approve and reject are one-shot: after either one succeeds, both are refused. */
  method DecisionIsFinal(r: Registration, adminUserId: nat, now: int, approveFirst: bool)
    returns (first: Outcome<RegistrationError>, secondApprove: Outcome<RegistrationError>,
             secondReject: Outcome<RegistrationError>)
    modifies r
    ensures first.Pass? ==> secondApprove == Fail(NotPending) && secondReject == Fail(NotPending)
    ensures first.Pass? ==> r.status == (if approveFirst then Approved else Rejected)
  {
    if approveFirst {
      first := r.Approve(adminUserId, now);
    } else {
      first := r.Reject(adminUserId, None, now);
    }
    secondApprove := r.Approve(adminUserId, now);
    secondReject := r.Reject(adminUserId, None, now);
  }
}
