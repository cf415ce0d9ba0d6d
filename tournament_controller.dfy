/** The handlers of controllers/tournamentController.js: the guards of createTournament,
    updateTournament and deleteTournament, registerForTournament over an in-memory
    registration store, updateRegistrationStatus, and the legacy generateBracket that
    sorts the approved registrations by seed and pairs the best sixteen into eight
    round-of-16 matches. "now" is a parameter; ids are naturals. */
module TournamentController {
  import opened Wrappers
  import opened Rounds
  import T = TournamentModel
  import R = RegistrationModel
  import M = MatchModel

  /* ---------------------------------------------------------------------------------- */
  /* createTournament                                                                   */
  /* ---------------------------------------------------------------------------------- */

  datatype CreateError =
    | StartNotInFuture           // the start date is not after now
    | EndNotAfterStart           // the end date is not after the start date
    | DeadlineNotBeforeStart     // the registration deadline is not before the start date
    | NameRequired               // saving fails: the name is missing or empty
    | NameTooLong                // saving fails: the name exceeds 100 characters
    | DescriptionTooLong         // saving fails: the description exceeds 500 characters
    | StartDateRequired          // saving fails: the start date is missing
    | EndDateRequired            // saving fails: the end date is missing
    | DeadlineRequired           // saving fails: the registration deadline is missing
    | MaxParticipantsRequired    // saving fails: maxParticipants is missing
    | MaxParticipantsOutOfRange  // saving fails: maxParticipants outside 16..128
    | NegativeEntryFee           // saving fails: entryFee below 0

  /** `a <= b` between two dates as JavaScript compares them: a missing date is an
      invalid Date, and every comparison with it is false. */
  predicate DateAtMost(a: Option<int>, b: Option<int>)
  {
    a.Some? && b.Some? && a.value <= b.value
  }

  /** The validators the save runs on the text fields. */
  predicate TextAccepted(name: Option<string>, description: Option<string>)
  {
    && name.Some? && 0 < |name.value| <= T.MaxNameLength
    && (description.Some? ==> |description.value| <= T.MaxDescriptionLength)
  }

  /** The refusals of createTournament: the three date checks of the handler, then the
      validators the save runs, in the order of the schema's paths. A missing entry fee
      takes the default 1500. */
  function CreateRefusal(name: Option<string>, description: Option<string>,
                         startDate: Option<int>, endDate: Option<int>, registrationDeadline: Option<int>,
                         maxParticipants: Option<int>, entryFee: Option<int>, now: int)
    : (e: Option<CreateError>)
    ensures e.None? <==>
              && TextAccepted(name, description)
              && startDate.Some? && endDate.Some? && registrationDeadline.Some?
              && now < startDate.value && startDate.value < endDate.value
              && registrationDeadline.value < startDate.value
              && maxParticipants.Some?
              && T.MinParticipants <= maxParticipants.value <= T.MaxParticipants
              && (entryFee.Some? ==> entryFee.value >= 0)
    ensures e == Some(StartNotInFuture) <==> DateAtMost(startDate, Some(now))
  {
    if DateAtMost(startDate, Some(now)) then Some(StartNotInFuture)
    else if DateAtMost(endDate, startDate) then Some(EndNotAfterStart)
    else if DateAtMost(startDate, registrationDeadline) then Some(DeadlineNotBeforeStart)
    else if name.None? || |name.value| == 0 then Some(NameRequired)
    else if |name.value| > T.MaxNameLength then Some(NameTooLong)
    else if description.Some? && |description.value| > T.MaxDescriptionLength then Some(DescriptionTooLong)
    else if startDate.None? then Some(StartDateRequired)
    else if endDate.None? then Some(EndDateRequired)
    else if registrationDeadline.None? then Some(DeadlineRequired)
    else if maxParticipants.None? then Some(MaxParticipantsRequired)
    else if maxParticipants.value < T.MinParticipants || maxParticipants.value > T.MaxParticipants then
      Some(MaxParticipantsOutOfRange)
    else if entryFee.Some? && entryFee.value < 0 then Some(NegativeEntryFee)
    else None
  }

  /** A missing date gets past the handler's three comparisons, whatever the other dates
      are, and is refused only by the save's `required` validator. */
  lemma MissingDateReachesSave(name: Option<string>, description: Option<string>,
                               startDate: Option<int>, endDate: Option<int>, registrationDeadline: Option<int>,
                               maxParticipants: Option<int>, entryFee: Option<int>, now: int)
    requires TextAccepted(name, description)
    requires startDate.None? || endDate.None? || registrationDeadline.None?
    ensures var e := CreateRefusal(name, description, startDate, endDate, registrationDeadline,
                                   maxParticipants, entryFee, now);
            && e.Some?
            && (startDate.None? ==> e == Some(StartDateRequired))
            && ((startDate.Some? && now < startDate.value && endDate.None?
                 && !DateAtMost(startDate, registrationDeadline)) ==> e == Some(EndDateRequired))
            && ((startDate.Some? && endDate.Some? && now < startDate.value < endDate.value)
                 ==> e == Some(DeadlineRequired))
  {
  }

  /** createTournament: a new tournament in registration, with no participants, whose
      deadline, start and end come in that order after now. */
  method CreateTournament(id: nat, createdBy: nat, name: Option<string>, description: Option<string>,
                          startDate: Option<int>, endDate: Option<int>, registrationDeadline: Option<int>,
                          maxParticipants: Option<int>, entryFee: Option<int>, now: int)
    returns (result: Result<T.Tournament, CreateError>)
    ensures var e := CreateRefusal(name, description, startDate, endDate, registrationDeadline,
                                   maxParticipants, entryFee, now);
            && (result.Failure? <==> e.Some?)
            && (result.Failure? ==> result.error == e.value)
    ensures result.Success? ==>
              var t := result.value;
              && fresh(t) && t.Valid() && t.id == id && t.createdBy == createdBy
              && t.name == name.value && t.description == description
              && t.startDate == startDate.value && t.endDate == endDate.value
              && t.registrationDeadline == registrationDeadline.value
              && now < t.startDate && t.registrationDeadline < t.startDate < t.endDate
              && t.maxParticipants == maxParticipants.value
              && t.entryFee == (if entryFee.Some? then entryFee.value else T.DefaultEntryFee)
              && t.currentParticipants == 0 && t.status == T.Registration && t.isActive
              && !t.IsFull()
  {
    var e := CreateRefusal(name, description, startDate, endDate, registrationDeadline,
                           maxParticipants, entryFee, now);
    if e.Some? {
      return Failure(e.value);
    }
    var fee := if entryFee.Some? then entryFee.value else T.DefaultEntryFee;
    var t := new T.Tournament(id, createdBy, name.value, description, startDate.value, endDate.value,
                              registrationDeadline.value, maxParticipants.value, fee);
    return Success(t);
  }

  /** A tournament just created is open for registration exactly until its deadline, and
      the deadline comes before the start. */
  lemma CreatedTournamentOpenUntilDeadline(t: T.Tournament, later: int)
    requires t.status == T.Registration && t.registrationDeadline < t.startDate
    ensures t.IsRegistrationOpen(later) <==> later < t.registrationDeadline
    ensures t.IsRegistrationOpen(later) ==> later < t.startDate
  {
  }

  /* ---------------------------------------------------------------------------------- */
  /* updateTournament and deleteTournament                                              */
  /* ---------------------------------------------------------------------------------- */

  datatype ChangeError =
    | NotAuthorized      // neither the creator nor an admin
    | AlreadyStarted     // out of registration and on or after the start date
    | HasParticipants    // participants are registered

  /** The guard of updateTournament: the creator or an admin, and not a tournament that
      has left registration and reached its start date. */
  function UpdateRefusal(createdBy: nat, userId: nat, isAdmin: bool, status: T.TournamentStatus,
                         startDate: int, now: int): (e: Option<ChangeError>)
    ensures e.None? <==> (createdBy == userId || isAdmin) && (status == T.Registration || now < startDate)
    ensures e != Some(HasParticipants)
  {
    if createdBy != userId && !isAdmin then Some(NotAuthorized)
    else if status != T.Registration && now >= startDate then Some(AlreadyStarted)
    else None
  }

  /** The start-date guard looks at the status too: a tournament still in registration
      can be updated by its creator after its start date, and one in any other status
      before it. */
  lemma UpdateGuardNeedsBoth(t: T.Tournament, now: int)
    ensures UpdateRefusal(t.createdBy, t.createdBy, false, T.Registration, t.startDate, now).None?
    ensures t.status != T.Registration && now >= t.startDate ==>
              UpdateRefusal(t.createdBy, t.createdBy, true, t.status, t.startDate, now) == Some(AlreadyStarted)
  {
  }

  /** deleteTournament: the creator or an admin may deactivate a tournament without
      participants; nothing else changes. */
  method DeleteTournament(t: T.Tournament, userId: nat, isAdmin: bool) returns (outcome: Outcome<ChangeError>)
    modifies t`isActive
    ensures outcome ==
              if t.createdBy != userId && !isAdmin then Fail(NotAuthorized)
              else if t.currentParticipants > 0 then Fail(HasParticipants)
              else Pass
    ensures outcome.Pass? ==> !t.isActive
    ensures outcome.Fail? ==> t.isActive == old(t.isActive)
  {
    if t.createdBy != userId && !isAdmin {
      return Fail(NotAuthorized);
    }
    if t.currentParticipants > 0 {
      return Fail(HasParticipants);
    }
    t.isActive := false;
    return Pass;
  }

  /* ---------------------------------------------------------------------------------- */
  /* registerForTournament                                                              */
  /* ---------------------------------------------------------------------------------- */

  /** The registration collection. */
  class RegistrationStore {
    var registrations: seq<R.Registration>

    constructor ()
      ensures registrations == []
    {
      registrations := [];
    }
  }

  /** Whether the player already has a registration for the tournament. */
  predicate IsRegistered(rs: seq<R.Registration>, tournamentId: nat, player: nat) {
    exists i :: 0 <= i < |rs| && rs[i].tournament == tournamentId && rs[i].player == player
  }

  /** The number of registrations for the tournament. */
  function RegisteredCount(rs: seq<R.Registration>, tournamentId: nat): (c: nat)
    ensures c <= |rs|
  {
    if rs == [] then 0
    else RegisteredCount(rs[..|rs| - 1], tournamentId) + if rs[|rs| - 1].tournament == tournamentId then 1 else 0
  }

  datatype RegisterError =
    | RegistrationNotOpen    // status is not 'registration'
    | DeadlinePassed         // now is on or after the deadline
    | TournamentFull         // the isFull virtual holds
    | AlreadyRegistered      // the player has a registration for the tournament
    | PaymentMethodInvalid   // saving fails: no payment method of the enum

  /** The refusals of registerForTournament, in the handler's order. */
  function RegisterRefusal(status: T.TournamentStatus, deadline: int, isFull: bool, registered: bool,
                           paymentMethod: Option<R.PaymentMethod>, now: int): (e: Option<RegisterError>)
    ensures e.None? <==>
              status == T.Registration && now < deadline && !isFull && !registered && paymentMethod.Some?
  {
    if status != T.Registration then Some(RegistrationNotOpen)
    else if now >= deadline then Some(DeadlinePassed)
    else if isFull then Some(TournamentFull)
    else if registered then Some(AlreadyRegistered)
    else if paymentMethod.None? then Some(PaymentMethodInvalid)
    else None
  }

  /** registerForTournament: a pending registration at the tournament's entry fee is
      added to the store and the participant counter goes up by one. */
  method RegisterForTournament(t: T.Tournament, store: RegistrationStore, player: nat,
                               paymentMethod: Option<R.PaymentMethod>, now: int)
    returns (result: Result<R.Registration, RegisterError>)
    modifies store`registrations, t`currentParticipants
    ensures var e := RegisterRefusal(t.status, t.registrationDeadline, old(t.IsFull()),
                                     IsRegistered(old(store.registrations), t.id, player), paymentMethod, now);
            && (result.Failure? <==> e.Some?)
            && (result.Failure? ==> result.error == e.value)
    ensures result.Failure? ==>
              store.registrations == old(store.registrations) && t.currentParticipants == old(t.currentParticipants)
    ensures result.Success? ==>
              var r := result.value;
              && fresh(r) && store.registrations == old(store.registrations) + [r]
              && r.tournament == t.id && r.player == player && r.paymentMethod == paymentMethod.value
              && r.entryFee == t.entryFee && r.status == R.Pending && r.paymentStatus == R.PaymentPending
              && t.currentParticipants == old(t.currentParticipants) + 1
    ensures old(R.UniquePerPlayer(store.registrations)) ==> R.UniquePerPlayer(store.registrations)
    ensures old(RegisteredCount(store.registrations, t.id)) == old(t.currentParticipants) ==>
              RegisteredCount(store.registrations, t.id) == t.currentParticipants
    ensures old(t.Valid()) ==> t.Valid()
  {
    if t.status != T.Registration {
      return Failure(RegistrationNotOpen);
    }
    if now >= t.registrationDeadline {
      return Failure(DeadlinePassed);
    }
    if t.IsFull() {
      return Failure(TournamentFull);
    }
    var i := 0;
    while i < |store.registrations|
      invariant 0 <= i <= |store.registrations|
      invariant forall j :: 0 <= j < i ==>
                  store.registrations[j].tournament != t.id || store.registrations[j].player != player
    {
      var existing := store.registrations[i];
      if existing.tournament == t.id && existing.player == player {
        return Failure(AlreadyRegistered);
      }
      i := i + 1;
    }
    if paymentMethod.None? {
      return Failure(PaymentMethodInvalid);
    }
    var r := new R.Registration(t.id, player, paymentMethod.value, t.entryFee, now);
    ghost var before := store.registrations;
    store.registrations := store.registrations + [r];
    assert store.registrations[..|store.registrations| - 1] == before;
    var added := t.AddParticipant();
    return Success(r);
  }

  /* ---------------------------------------------------------------------------------- */
  /* updateRegistrationStatus                                                           */
  /* ---------------------------------------------------------------------------------- */

  datatype StatusError =
    | ReasonRequired                       // 'rejected' without a (non-empty) reason
    | InvalidStatus                        // neither 'approved' nor 'rejected'
    | Refused(error: R.RegistrationError)  // approve or reject threw

  /** updateRegistrationStatus: 'approved' runs approve, 'rejected' with a non-empty
      reason runs reject, and anything else is refused before touching the record. */
  method UpdateRegistrationStatus(reg: R.Registration, status: string, rejectionReason: string,
                                  adminUserId: nat, now: int)
    returns (outcome: Outcome<StatusError>)
    modifies reg`status, reg`rejectionReason, reg`approvedBy, reg`approvedAt
    ensures status == "approved" ==>
              outcome == (if old(reg.status) != R.Pending then Fail(Refused(R.NotPending))
                          else if reg.paymentStatus != R.PaymentCompleted then Fail(Refused(R.PaymentNotCompleted))
                          else Pass)
    ensures status == "rejected" ==>
              outcome == (if rejectionReason == "" then Fail(ReasonRequired)
                          else if old(reg.status) != R.Pending then Fail(Refused(R.NotPending))
                          else Pass)
    ensures status != "approved" && status != "rejected" ==> outcome == Fail(InvalidStatus)
    ensures outcome.Pass? ==>
              && reg.status == (if status == "approved" then R.Approved else R.Rejected)
              && reg.approvedBy == Some(adminUserId) && reg.approvedAt == Some(now)
              && (status == "rejected" ==> reg.rejectionReason == Some(rejectionReason))
    ensures outcome.Pass? && status == "approved" ==> (R.ApprovedFor(reg, reg.tournament) <==> reg.isActive)
    ensures outcome.Fail? ==> reg.status == old(reg.status) && reg.approvedBy == old(reg.approvedBy)
  {
    if status == "approved" {
      var o := reg.Approve(adminUserId, now);
      outcome := if o.Fail? then Fail(Refused(o.error)) else Pass;
    } else if status == "rejected" {
      if rejectionReason == "" {
        return Fail(ReasonRequired);
      }
      var o := reg.Reject(adminUserId, Some(rejectionReason), now);
      outcome := if o.Fail? then Fail(Refused(o.error)) else Pass;
    } else {
      outcome := Fail(InvalidStatus);
    }
  }

  /* ---------------------------------------------------------------------------------- */
  /* generateBracket (legacy sixteen-player pairing)                                    */
  /* ---------------------------------------------------------------------------------- */

  /** An approved registration as the pairing sees it: the player and the seed. */
  datatype Entrant = Entrant(player: nat, seed: Option<nat>)

  /** The sort key `b.seed || 0`: a missing seed counts as 0. */
  function SeedKey(e: Entrant): nat {
    if e.seed.Some? then e.seed.value else 0
  }

  /** Seeds in non-increasing order. */
  predicate SortedBySeed(s: seq<Entrant>) {
    forall i, j :: 0 <= i < j < |s| ==> SeedKey(s[i]) >= SeedKey(s[j])
  }

  /** The entrants with the given seed key, in order. */
  function WithKey(s: seq<Entrant>, k: nat): (f: seq<Entrant>)
    ensures |f| <= |s|
  {
    if s == [] then []
    else (if SeedKey(s[0]) == k then [s[0]] else []) + WithKey(s[1..], k)
  }

  /** Places e after every entrant whose key is at least e's. */
  function InsertBySeed(e: Entrant, s: seq<Entrant>): (r: seq<Entrant>)
    ensures |r| == |s| + 1
  {
    if s == [] then [e]
    else if SeedKey(s[0]) >= SeedKey(e) then [s[0]] + InsertBySeed(e, s[1..])
    else [e] + s
  }

  /** The comparator sort `(b.seed || 0) - (a.seed || 0)`: descending by seed key and,
      Array.prototype.sort being stable, in registration order among equal keys. */
  function SortBySeed(s: seq<Entrant>): (r: seq<Entrant>)
    ensures |r| == |s|
  {
    if s == [] then [] else InsertBySeed(s[|s| - 1], SortBySeed(s[..|s| - 1]))
  }

  /** Inserting adds exactly the one entrant. */
  lemma {:induction false} InsertAddsOne(e: Entrant, s: seq<Entrant>)
    ensures multiset(InsertBySeed(e, s)) == multiset(s) + multiset{e}
  {
    if s != [] && SeedKey(s[0]) >= SeedKey(e) {
      InsertAddsOne(e, s[1..]);
      assert s == [s[0]] + s[1..];
    }
  }

  /** A key bound that holds for e and for every entrant of s holds after inserting. */
  lemma {:induction false} InsertBounded(e: Entrant, s: seq<Entrant>, bound: nat)
    requires SeedKey(e) <= bound && forall i :: 0 <= i < |s| ==> SeedKey(s[i]) <= bound
    ensures forall i :: 0 <= i < |s| + 1 ==> SeedKey(InsertBySeed(e, s)[i]) <= bound
  {
    if s != [] && SeedKey(s[0]) >= SeedKey(e) {
      var r := InsertBySeed(e, s);
      InsertBounded(e, s[1..], bound);
      assert forall i :: 0 < i < |r| ==> r[i] == InsertBySeed(e, s[1..])[i - 1];
    }
  }

  /** Inserting into a sorted list keeps it sorted. */
  lemma {:induction false} InsertKeepsSorted(e: Entrant, s: seq<Entrant>)
    requires SortedBySeed(s)
    ensures SortedBySeed(InsertBySeed(e, s))
  {
    if s != [] && SeedKey(s[0]) >= SeedKey(e) {
      var r := InsertBySeed(e, s);
      var tail := InsertBySeed(e, s[1..]);
      var rest := s[1..];
      assert forall i :: 0 <= i < |rest| ==> rest[i] == s[i + 1];
      InsertKeepsSorted(e, rest);
      InsertBounded(e, rest, SeedKey(s[0]));
      assert r[0] == s[0] && r[1..] == tail;
      forall i, j | 0 <= i < j < |r|
        ensures SeedKey(r[i]) >= SeedKey(r[j])
      {
        assert r[j] == tail[j - 1];
        if i > 0 {
          assert r[i] == tail[i - 1];
        }
      }
    }
  }

  /** Inserting into a sorted list puts e after every entrant with e's key. */
  lemma {:induction false} InsertIsStable(e: Entrant, s: seq<Entrant>, k: nat)
    requires SortedBySeed(s)
    ensures WithKey(InsertBySeed(e, s), k) == WithKey(s, k) + (if SeedKey(e) == k then [e] else [])
  {
    if s != [] {
      var r := InsertBySeed(e, s);
      if SeedKey(s[0]) >= SeedKey(e) {
        var tail := InsertBySeed(e, s[1..]);
        assert SortedBySeed(s[1..]) by {
          forall i, j | 0 <= i < j < |s[1..]|
            ensures SeedKey(s[1..][i]) >= SeedKey(s[1..][j])
          {
            assert s[1..][i] == s[i + 1] && s[1..][j] == s[j + 1];
          }
        }
        InsertIsStable(e, s[1..], k);
        assert r[0] == s[0] && r[1..] == tail;
        assert WithKey(r, k) == (if SeedKey(s[0]) == k then [s[0]] else []) + WithKey(tail, k);
        assert WithKey(s, k) == (if SeedKey(s[0]) == k then [s[0]] else []) + WithKey(s[1..], k);
      } else {
        assert r[0] == e && r[1..] == s;
        assert WithKey(r, k) == (if SeedKey(e) == k then [e] else []) + WithKey(s, k);
        if SeedKey(e) == k {
          NoneAbove(s, k);
        }
      }
    }
  }

  /** In a list sorted by seed whose first key is below k, nothing has key k. */
  lemma {:induction false} NoneAbove(s: seq<Entrant>, k: nat)
    requires SortedBySeed(s) && s != [] && SeedKey(s[0]) < k
    ensures WithKey(s, k) == []
  {
    if |s| > 1 {
      assert SeedKey(s[1]) <= SeedKey(s[0]);
      NoneAbove(s[1..], k);
    }
  }

  /** The seed sort puts the entrants in non-increasing seed order. */
  lemma {:induction false} SortBySeedSorted(s: seq<Entrant>)
    ensures SortedBySeed(SortBySeed(s))
  {
    if s != [] {
      SortBySeedSorted(s[..|s| - 1]);
      InsertKeepsSorted(s[|s| - 1], SortBySeed(s[..|s| - 1]));
    }
  }

  /** The seed sort loses and adds no entrant. */
  lemma {:induction false} SortBySeedPermutes(s: seq<Entrant>)
    ensures multiset(SortBySeed(s)) == multiset(s)
  {
    if s != [] {
      SortBySeedPermutes(s[..|s| - 1]);
      InsertAddsOne(s[|s| - 1], SortBySeed(s[..|s| - 1]));
      assert s == s[..|s| - 1] + [s[|s| - 1]];
    }
  }

  /** The seed sort keeps registration order among entrants with the same key. */
  lemma {:induction false} SortBySeedStable(s: seq<Entrant>, k: nat)
    ensures WithKey(SortBySeed(s), k) == WithKey(s, k)
  {
    if s != [] {
      var init := s[..|s| - 1];
      var e := s[|s| - 1];
      SortBySeedStable(init, k);
      SortBySeedSorted(init);
      InsertIsStable(e, SortBySeed(init), k);
      assert s == init + [e];
      WithKeyAppend(init, [e], k);
      assert WithKey([e], k) == (if SeedKey(e) == k then [e] else []) by {
        assert [e][1..] == [];
      }
    }
  }

  lemma {:induction false} WithKeyAppend(s: seq<Entrant>, t: seq<Entrant>, k: nat)
    ensures WithKey(s + t, k) == WithKey(s, k) + WithKey(t, k)
  {
    if s != [] {
      assert (s + t)[1..] == s[1..] + t;
      WithKeyAppend(s[1..], t, k);
    } else {
      assert s + t == t;
    }
  }

  /** The pairing's view of the approved registrations. */
  function EntrantsOf(rs: seq<R.Registration>): (es: seq<Entrant>)
    reads rs
    ensures |es| == |rs|
    ensures forall i :: 0 <= i < |rs| ==> es[i] == Entrant(rs[i].player, rs[i].seed)
  {
    seq(|rs|, i reads rs requires 0 <= i < |rs| => Entrant(rs[i].player, rs[i].seed))
  }

  datatype PairingError =
    | NotInSeeding          // tournament status is not 'seeding'
    | TooFewApproved        // fewer than 16 approved registrations

  /** The size of the legacy bracket and the gap between match start times (30 minutes). */
  const PairedPlayers: nat := 16
  const MatchInterval: int := 30 * 60000

  /** The k-th match of the legacy pairing: entrants 2k and 2k+1 of the sorted list, in
      the round of 16, numbered k + 1, scheduled k half-hours after the start. */
  predicate PairedAt(m: M.Match, seeded: seq<Entrant>, tournamentId: nat, startDate: int, k: nat)
    reads m
  {
    && 2 * k + 1 < |seeded|
    && m.tournament == tournamentId
    && m.player1 == seeded[2 * k].player && m.player2 == seeded[2 * k + 1].player
    && m.round == RoundOf16 && m.matchNumber == k + 1
    && m.scheduledTime == startDate + k * MatchInterval
    && m.status == M.Scheduled && m.sets == [] && m.winner == None && m.loser == None
  }

  /** generateBracket: the sixteen best-seeded approved registrations, paired in sorted
      order into eight round-of-16 matches numbered 1..8, half an hour apart from the
      start; the tournament becomes active. */
  method GenerateBracket(t: T.Tournament, store: seq<R.Registration>)
    returns (result: Result<seq<M.Match>, PairingError>)
    modifies t`status
    ensures var approved := R.ApprovedRegistrations(store, t.id);
            && (result.Failure? <==> old(t.status) != T.Seeding || |approved| < PairedPlayers)
            && (result.Failure? ==>
                  result.error == if old(t.status) != T.Seeding then NotInSeeding else TooFewApproved)
    ensures result.Failure? ==> t.status == old(t.status)
    ensures result.Success? ==>
              var seeded := SortBySeed(EntrantsOf(R.ApprovedRegistrations(store, t.id)));
              var matches := result.value;
              && |seeded| >= PairedPlayers && |matches| == PairedPlayers / 2
              && t.status == T.Active
              && (forall k :: 0 <= k < |matches| ==> fresh(matches[k]))
              && forall k :: 0 <= k < |matches| ==> PairedAt(matches[k], seeded, t.id, t.startDate, k)
  {
    if t.status != T.Seeding {
      return Failure(NotInSeeding);
    }
    var registrations := R.ApprovedRegistrations(store, t.id);
    if |registrations| < PairedPlayers {
      return Failure(TooFewApproved);
    }
    var seededPlayers := SortBySeed(EntrantsOf(registrations))[..PairedPlayers];
    ghost var seeded := SortBySeed(EntrantsOf(registrations));
    var matches: seq<M.Match> := [];
    var i := 0;
    while i < |seededPlayers|
      invariant 0 <= i <= |seededPlayers| + 1 && i % 2 == 0 && i <= PairedPlayers
      invariant |matches| == i / 2
      invariant forall k :: 0 <= k < |matches| ==> fresh(matches[k])
      invariant forall k :: 0 <= k < |matches| ==> PairedAt(matches[k], seeded, t.id, t.startDate, k)
    {
      var m := new M.Match.Create(t.id, seededPlayers[i].player, seededPlayers[i + 1].player, RoundOf16,
                                  |matches| + 1, t.startDate + |matches| * MatchInterval);
      matches := matches + [m];
      i := i + 2;
    }
    t.status := T.Active;
    return Success(matches);
  }

  /** The sorted list holds the approved entrants, and the sixteen paired ones have
      seeds no lower than any entrant left out. */
  lemma PairedAreBestSeeded(approved: seq<Entrant>)
    requires |approved| >= PairedPlayers
    ensures var seeded := SortBySeed(approved);
            forall i, j :: 0 <= i < PairedPlayers <= j < |seeded| ==> SeedKey(seeded[i]) >= SeedKey(seeded[j])
    ensures multiset(SortBySeed(approved)) == multiset(approved)
  {
    SortBySeedSorted(approved);
    SortBySeedPermutes(approved);
  }
}
