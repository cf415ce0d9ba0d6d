/** The match record of models/Match.js: per-set scores, the round-dependent best-of-N
    format, and addSetResult, which appends one set and closes the match once a side has
    won the number of sets its round requires. */
module MatchModel {
  import opened Wrappers
  import opened Rounds

  datatype SetWinner = Player1 | Player2 | Draw

  /** One entry of the `sets` array. */
  datatype SetResult = SetResult(player1Score: int, player2Score: int, winner: SetWinner, isCompleted: bool)

  datatype MatchStatus = Scheduled | InProgress | Completed | Cancelled

  datatype MatchError = AlreadyCompleted | MatchCancelled | InvalidScores

  /** The `max` of both score fields of the set schema; their `min` is 0. */
  const MaxScore: int := 11

  predicate ScoreInRange(score: int) {
    0 <= score <= MaxScore
  }

  /** What the set schema's validators accept for one set. */
  predicate SetAccepted(s: SetResult) {
    ScoreInRange(s.player1Score) && ScoreInRange(s.player2Score)
  }

  /** The `setsToWin` virtual: a fixed table on the round name, 1 for every other name. */
  function SetsToWin(r: RoundName): (k: nat)
    ensures 1 <= k <= 4
  {
    match r
    case RoundOf32 => 1
    case RoundOf16 => 1
    case QuarterFinals => 2
    case SemiFinals => 3
    case Final => 4
    case _ => 1
  }

  /** The `matchFormat` virtual, written as its own switch. */
  function MatchFormat(r: RoundName): string {
    match r
    case RoundOf32 => "1 set knockout"
    case RoundOf16 => "1 set knockout"
    case QuarterFinals => "Best of 3 sets"
    case SemiFinals => "Best of 5 sets"
    case Final => "Best of 7 sets"
    case _ => "1 set knockout"
  }

  /** The text a best-of-(2k-1) format is described by. */
  function FormatText(k: nat): string
    requires 1 <= k <= 4
  {
    if k == 1 then "1 set knockout" else "Best of " + [(('0' as int) + 2 * k - 1) as char] + " sets"
  }

  /** The set winner as addSetResult decides it. */
  function SetWinnerOf(player1Score: int, player2Score: int): SetWinner {
    if player1Score > player2Score then Player1
    else if player2Score > player1Score then Player2
    else Draw
  }

  function Mirror(w: SetWinner): SetWinner {
    match w
    case Player1 => Player2
    case Player2 => Player1
    case Draw => Draw
  }

  /** The number of sets in `sets` won by `side` (`sets.filter(...).length`). */
  function Wins(sets: seq<SetResult>, side: SetWinner): (c: nat)
    ensures c <= |sets|
  {
    if sets == [] then 0
    else (if sets[0].winner == side then 1 else 0) + Wins(sets[1..], side)
  }

  class Match {
    const tournament: nat
    const player1: nat
    const player2: nat
    const round: RoundName
    const matchNumber: nat
    const scheduledTime: int
    var status: MatchStatus
    var sets: seq<SetResult>
    var winner: Option<nat>
    var loser: Option<nat>

    /** `new Match({...})` with the schema's defaults: scheduled, no sets, no result. */
    constructor Create(tournament: nat, player1: nat, player2: nat, round: RoundName,
                       matchNumber: nat, scheduledTime: int)
      ensures this.tournament == tournament && this.player1 == player1 && this.player2 == player2
      ensures this.round == round && this.matchNumber == matchNumber
      ensures this.scheduledTime == scheduledTime
      ensures status == Scheduled && sets == [] && winner == None && loser == None
      ensures Consistent()
    {
      this.tournament, this.player1, this.player2 := tournament, player1, player2;
      this.round, this.matchNumber, this.scheduledTime := round, matchNumber, scheduledTime;
      status, sets, winner, loser := Scheduled, [], None, None;
    }

    /** A match record created already completed, with a result given by the caller. */
    constructor Recorded(tournament: nat, player1: nat, player2: nat, round: RoundName,
                         matchNumber: nat, scheduledTime: int,
                         winner: nat, loser: nat, sets: seq<SetResult>)
      ensures this.tournament == tournament && this.player1 == player1 && this.player2 == player2
      ensures this.round == round && this.matchNumber == matchNumber
      ensures this.scheduledTime == scheduledTime
      ensures status == Completed && this.sets == sets
      ensures this.winner == Some(winner) && this.loser == Some(loser)
    {
      this.tournament, this.player1, this.player2 := tournament, player1, player2;
      this.round, this.matchNumber, this.scheduledTime := round, matchNumber, scheduledTime;
      status, this.sets, this.winner, this.loser := Completed, sets, Some(winner), Some(loser);
    }

    /** The `isCompleted` virtual. */
    predicate IsCompleted()
      reads this
    {
      status == Completed || Wins(sets, Player1) >= SetsToWin(round) || Wins(sets, Player2) >= SetsToWin(round)
    }

    /** The best-of-N invariant that addSetResult keeps: an open match has no side at the
        required count yet, and a completed one was won by the side that has exactly the
        required count, with the other side as loser. */
    ghost predicate Consistent()
      reads this
    {
      var k := SetsToWin(round);
      var w1 := Wins(sets, Player1);
      var w2 := Wins(sets, Player2);
      && (status != Completed ==> w1 < k && w2 < k)
      && (status == Completed ==>
            || (w1 == k && w2 < k && winner == Some(player1) && loser == Some(player2))
            || (w2 == k && w1 < k && winner == Some(player2) && loser == Some(player1)))
    }

    /** addSetResult: refuses a completed or cancelled match and scores outside 0..11,
        leaving everything unchanged; otherwise appends exactly one set and decides the
        match once either side reaches `SetsToWin(round)`, player1 checked first. */
    method AddSetResult(player1Score: int, player2Score: int) returns (outcome: Outcome<MatchError>)
      modifies this`status, this`sets, this`winner, this`loser
      ensures outcome ==
                if old(status) == Completed then Fail(AlreadyCompleted)
                else if old(status) == Cancelled then Fail(MatchCancelled)
                else if !(ScoreInRange(player1Score) && ScoreInRange(player2Score)) then Fail(InvalidScores)
                else Pass
      ensures outcome.Fail? ==>
                status == old(status) && sets == old(sets) && winner == old(winner) && loser == old(loser)
      ensures outcome.Pass? ==>
                sets == old(sets) + [SetResult(player1Score, player2Score, SetWinnerOf(player1Score, player2Score), true)]
      ensures outcome.Pass? ==>
                var k := SetsToWin(round);
                var w1 := Wins(sets, Player1);
                var w2 := Wins(sets, Player2);
                && (status == Completed <==> w1 >= k || w2 >= k)
                && (status != Completed ==> status == InProgress && winner == old(winner) && loser == old(loser))
                && (w1 >= k ==> winner == Some(player1) && loser == Some(player2))
                && (w1 < k <= w2 ==> winner == Some(player2) && loser == Some(player1))
      ensures old(Consistent()) ==> Consistent()
    {
      if status == Completed {
        return Fail(AlreadyCompleted);
      }
      if status == Cancelled {
        return Fail(MatchCancelled);
      }
      if player1Score < 0 || player1Score > MaxScore || player2Score < 0 || player2Score > MaxScore {
        return Fail(InvalidScores);
      }
      var setWinner;
      if player1Score > player2Score {
        setWinner := Player1;
      } else if player2Score > player1Score {
        setWinner := Player2;
      } else {
        setWinner := Draw;
      }
      ghost var before := sets;
      sets := sets + [SetResult(player1Score, player2Score, setWinner, true)];
      status := InProgress;
      WinsAppend(before, sets[|sets| - 1], Player1);
      WinsAppend(before, sets[|sets| - 1], Player2);
      var player1Wins := Wins(sets, Player1);
      var player2Wins := Wins(sets, Player2);
      var requiredSets := SetsToWin(round);
      if player1Wins >= requiredSets || player2Wins >= requiredSets {
        status := Completed;
        winner := if player1Wins >= requiredSets then Some(player1) else Some(player2);
        loser := if player1Wins >= requiredSets then Some(player2) else Some(player1);
      }
      outcome := Pass;
    }
  }

  /** Appending one set adds one win to the side that won it and none to any other. */
  lemma {:induction false} WinsAppend(sets: seq<SetResult>, s: SetResult, side: SetWinner)
    ensures Wins(sets + [s], side) == Wins(sets, side) + (if s.winner == side then 1 else 0)
  {
    if sets != [] {
      assert (sets + [s])[1..] == sets[1..] + [s];
      WinsAppend(sets[1..], s, side);
    }
  }

  /** Every set is won by player1, by player2, or drawn: draws count for neither side. */
  lemma {:induction false} WinsPartition(sets: seq<SetResult>)
    ensures Wins(sets, Player1) + Wins(sets, Player2) + Wins(sets, Draw) == |sets|
  {
    if sets != [] {
      WinsPartition(sets[1..]);
    }
  }

  /** Exchanging the two scores exchanges the set's winner; a draw stays a draw. */
  lemma SetWinnerSymmetric(a: int, b: int)
    ensures SetWinnerOf(b, a) == Mirror(SetWinnerOf(a, b))
    ensures SetWinnerOf(a, b) == Draw <==> a == b
  {
  }

  /** The format text of every round is the best-of-(2k-1) text for its SetsToWin k. */
  lemma FormatAgreesWithSetsToWin(r: RoundName)
    ensures MatchFormat(r) == FormatText(SetsToWin(r))
  {
  }

  /** Under the invariant, the `isCompleted` virtual is exactly the completed status. */
  lemma IsCompletedIsStatus(m: Match)
    requires m.Consistent()
    ensures m.IsCompleted() <==> m.status == Completed
  {
  }

  /** A final at three set wins for player1 is decided by a fourth won set (11-9). */
  method FinalDecidedByFourthSet(m: Match) returns (outcome: Outcome<MatchError>)
    requires m.round == Final && m.status == InProgress && m.Consistent()
    requires Wins(m.sets, Player1) == 3
    modifies m
    ensures outcome == Pass && m.status == Completed
    ensures m.winner == Some(m.player1) && m.loser == Some(m.player2)
  {
    outcome := m.AddSetResult(11, 9);
    WinsAppend(old(m.sets), m.sets[|m.sets| - 1], Player1);
  }
}
