/** The tournament record of models/Tournament.js: its lifecycle status, its dates, and
    the participant counter bounded by maxParticipants. Dates are integers
    (milliseconds), and "now" is always passed in. */
module TournamentModel {
  import opened Wrappers

  datatype TournamentStatus = Registration | Seeding | Active | Completed | Cancelled

  datatype ParticipantError = TournamentFull | NoParticipantsToRemove

  /** The `min` and `max` validators of maxParticipants. */
  const MinParticipants: int := 16
  const MaxParticipants: int := 128

  /** The entryFee default. */
  const DefaultEntryFee: int := 1500

  /** The `maxlength` validators of name and description. */
  const MaxNameLength: int := 100
  const MaxDescriptionLength: int := 500

  class Tournament {
    const id: nat
    const createdBy: nat
    var name: string
    var description: Option<string>
    var startDate: int
    var endDate: int
    var registrationDeadline: int
    var maxParticipants: int
    var currentParticipants: int
    var status: TournamentStatus
    var isActive: bool
    var entryFee: int

    /** What the schema's validators and the two counter methods keep true. */
    ghost predicate Valid()
      reads this
    {
      && 0 < |name| <= MaxNameLength
      && (description.Some? ==> |description.value| <= MaxDescriptionLength)
      && MinParticipants <= maxParticipants <= MaxParticipants
      && 0 <= currentParticipants <= maxParticipants
      && entryFee >= 0
    }

    /** `new Tournament({...})` with the schema's defaults for the fields not given. */
    constructor (id: nat, createdBy: nat, name: string, description: Option<string>,
                 startDate: int, endDate: int, registrationDeadline: int,
                 maxParticipants: int, entryFee: int)
      ensures this.id == id && this.createdBy == createdBy
      ensures this.name == name && this.description == description
      ensures this.startDate == startDate && this.endDate == endDate
      ensures this.registrationDeadline == registrationDeadline
      ensures this.maxParticipants == maxParticipants && this.entryFee == entryFee
      ensures currentParticipants == 0 && status == Registration && isActive
      ensures && 0 < |name| <= MaxNameLength
              && (description.Some? ==> |description.value| <= MaxDescriptionLength)
              && MinParticipants <= maxParticipants <= MaxParticipants && entryFee >= 0
              ==> Valid()
    {
      this.id, this.createdBy := id, createdBy;
      this.name, this.description := name, description;
      this.startDate, this.endDate, this.registrationDeadline := startDate, endDate, registrationDeadline;
      this.maxParticipants, this.entryFee := maxParticipants, entryFee;
      currentParticipants, status, isActive := 0, Registration, true;
    }

    /** The `isFull` virtual. */
    predicate IsFull()
      reads this
    {
      currentParticipants >= maxParticipants
    }

    /** The `isRegistrationOpen` virtual, at time `now`. */
    predicate IsRegistrationOpen(now: int)
      reads this
    {
      now < registrationDeadline && status == Registration
    }

    /** addParticipant: one more participant while below the maximum, otherwise an error
        and no change. */
    method AddParticipant() returns (outcome: Outcome<ParticipantError>)
      modifies this`currentParticipants
      ensures outcome == if old(IsFull()) then Fail(TournamentFull) else Pass
      ensures currentParticipants == old(currentParticipants) + (if outcome.Pass? then 1 else 0)
      ensures old(Valid()) ==> Valid()
    {
      if currentParticipants < maxParticipants {
        currentParticipants := currentParticipants + 1;
        return Pass;
      }
      return Fail(TournamentFull);
    }

    /** removeParticipant: one fewer participant while there is one, otherwise an error
        and no change. */
    method RemoveParticipant() returns (outcome: Outcome<ParticipantError>)
      modifies this`currentParticipants
      ensures outcome == if old(currentParticipants) > 0 then Pass else Fail(NoParticipantsToRemove)
      ensures currentParticipants == old(currentParticipants) - (if outcome.Pass? then 1 else 0)
      ensures old(Valid()) ==> Valid()
    {
      if currentParticipants > 0 {
        currentParticipants := currentParticipants - 1;
        return Pass;
      }
      return Fail(NoParticipantsToRemove);
    }
  }

  /** Adding then removing a participant restores the counter. */
  method AddThenRemove(t: Tournament) returns (added: Outcome<ParticipantError>, removed: Outcome<ParticipantError>)
    requires t.Valid() && !t.IsFull()
    modifies t
    ensures added == Pass && removed == Pass
    ensures t.currentParticipants == old(t.currentParticipants) && t.Valid()
  {
    added := t.AddParticipant();
    removed := t.RemoveParticipant();
  }
}
