/** The bracket record of models/TournamentBracket.js: the node records, the bracket's
    status and current round, and the schema methods getMatchesByRound,
    getNextRoundMatches (Rounds.NextRound), isRoundComplete and advanceToNextRound. */
module BracketModel {
  import opened Wrappers
  import opened Rounds

  datatype NodeStatus = Pending | InProgress | Completed | Cancelled

  datatype BracketStatus = BracketGenerating | BracketGenerated | BracketActive | BracketCompleted

  /** One bracket node (a match slot). Identities are naturals; `x` and `y` are the
      node's position: its slot within the round and the round's index. */
  datatype Node = Node(
    matchId: Option<nat>,
    player1: Option<nat>,
    player2: Option<nat>,
    winner: Option<nat>,
    round: RoundName,
    matchNumber: nat,
    x: nat,
    y: nat,
    isBye: bool,
    status: NodeStatus)

  /** A node with the schema's defaults: no players, winner or match, not a bye, pending. */
  function NewNode(round: RoundName, matchNumber: nat, x: nat, y: nat): Node {
    Node(None, None, None, None, round, matchNumber, x, y, false, Pending)
  }

  /** getMatchesByRound: the nodes of round r, in array order. */
  function MatchesByRound(s: seq<Node>, r: RoundName): (m: seq<Node>)
    ensures |m| <= |s|
    ensures forall i :: 0 <= i < |m| ==> m[i].round == r
  {
    if s == [] then []
    else MatchesByRound(s[..|s| - 1], r) + if s[|s| - 1].round == r then [s[|s| - 1]] else []
  }

  /** The array indices of the nodes of round r, in array order: where the i-th node
      of MatchesByRound(s, r) lives in `s`. */
  function RoundPositions(s: seq<Node>, r: RoundName): (p: seq<nat>)
    ensures |p| == |MatchesByRound(s, r)|
    ensures forall i :: 0 <= i < |p| ==> p[i] < |s| && s[p[i]] == MatchesByRound(s, r)[i]
  {
    if s == [] then []
    else
      var init := s[..|s| - 1];
      var p0 := RoundPositions(init, r);
      assert forall i :: 0 <= i < |p0| ==> s[p0[i]] == init[p0[i]];
      p0 + if s[|s| - 1].round == r then [|s| - 1] else []
  }

  /** The positions of a round are in increasing array order. */
  lemma {:induction false} PositionsIncrease(s: seq<Node>, r: RoundName)
    ensures forall i, j :: 0 <= i < j < |RoundPositions(s, r)| ==>
              RoundPositions(s, r)[i] < RoundPositions(s, r)[j]
  {
    if s != [] {
      var init := s[..|s| - 1];
      PositionsIncrease(init, r);
      var p0 := RoundPositions(init, r);
      var p := RoundPositions(s, r);
      assert p[..|p0|] == p0;
      forall i, j | 0 <= i < j < |p|
        ensures p[i] < p[j]
      {
        assert p[i] == p0[i] && p0[i] < |init|;
        if j < |p0| {
          assert p[j] == p0[j] && p0[i] < p0[j];
        } else {
          assert p[j] == |s| - 1;
        }
      }
    }
  }

  /** Every node of round r is at one of the positions of round r. */
  lemma {:induction false} PositionsCover(s: seq<Node>, r: RoundName)
    ensures forall k :: 0 <= k < |s| && s[k].round == r ==> k in RoundPositions(s, r)
  {
    if s != [] {
      var init := s[..|s| - 1];
      PositionsCover(init, r);
      var p := RoundPositions(s, r);
      var p0 := RoundPositions(init, r);
      assert p[..|p0|] == p0;
      forall k | 0 <= k < |s| && s[k].round == r
        ensures k in p
      {
        if k < |s| - 1 {
          assert init[k] == s[k];
          var i :| 0 <= i < |p0| && p0[i] == k;
          assert p[i] == k;
        } else {
          assert p[|p| - 1] == k;
        }
      }
    }
  }

  /** isRoundComplete: every node of round r is completed (true when it has none). */
  predicate IsRoundComplete(s: seq<Node>, r: RoundName) {
    var m := MatchesByRound(s, r);
    forall i :: 0 <= i < |m| ==> m[i].status == Completed
  }

  /** Two node lists with the same length and the same round at every index. */
  predicate SameRounds(s: seq<Node>, t: seq<Node>) {
    |s| == |t| && forall k :: 0 <= k < |s| ==> s[k].round == t[k].round
  }

  /** Where the nodes of a round sit depends on the rounds of the nodes alone. */
  lemma {:induction false} PositionsFollowRounds(s: seq<Node>, t: seq<Node>, r: RoundName)
    requires SameRounds(s, t)
    ensures RoundPositions(s, r) == RoundPositions(t, r)
  {
    if s != [] {
      PositionsFollowRounds(s[..|s| - 1], t[..|t| - 1], r);
    }
  }

  /** The nodes of round r in `t` are the nodes found at the positions of round r. */
  lemma MatchesAtPositions(t: seq<Node>, r: RoundName, p: seq<nat>)
    requires p == RoundPositions(t, r)
    ensures |MatchesByRound(t, r)| == |p|
    ensures forall i :: 0 <= i < |p| ==> MatchesByRound(t, r)[i] == t[p[i]]
  {
  }

  /** getMatchesByRound on a concatenation is the concatenation of the two filters. */
  lemma {:induction false} MatchesByRoundAppend(s: seq<Node>, t: seq<Node>, r: RoundName)
    ensures MatchesByRound(s + t, r) == MatchesByRound(s, r) + MatchesByRound(t, r)
  {
    if t != [] {
      assert (s + t)[..|s + t| - 1] == s + t[..|t| - 1];
      MatchesByRoundAppend(s, t[..|t| - 1], r);
    } else {
      assert s + t == s;
    }
  }

  /** A list whose nodes all belong to round r filters to itself; one with none of
      round r filters to nothing. */
  lemma {:induction false} MatchesByRoundUniform(s: seq<Node>, r: RoundName)
    ensures (forall k :: 0 <= k < |s| ==> s[k].round == r) ==> MatchesByRound(s, r) == s
    ensures (forall k :: 0 <= k < |s| ==> s[k].round != r) ==> MatchesByRound(s, r) == []
  {
    if s != [] {
      MatchesByRoundUniform(s[..|s| - 1], r);
      assert s == s[..|s| - 1] + [s[|s| - 1]];
    }
  }

  /** isRoundComplete holds iff every node of the array whose round is r is completed. */
  lemma RoundCompleteIff(s: seq<Node>, r: RoundName)
    ensures IsRoundComplete(s, r) <==> forall k :: 0 <= k < |s| && s[k].round == r ==> s[k].status == Completed
  {
    var p := RoundPositions(s, r);
    PositionsCover(s, r);
    if IsRoundComplete(s, r) {
      forall k | 0 <= k < |s| && s[k].round == r
        ensures s[k].status == Completed
      {
        var i :| 0 <= i < |p| && p[i] == k;
      }
    }
  }

  /** Replacing the i-th node of round r by a node of the same round changes the i-th
      entry of that round's view and nothing in any other round's view. */
  lemma UpdateAtPosition(s: seq<Node>, r: RoundName, i: nat, v: Node)
    requires i < |RoundPositions(s, r)| && v.round == r
    ensures var t := s[RoundPositions(s, r)[i] := v];
            && MatchesByRound(t, r) == MatchesByRound(s, r)[i := v]
            && forall r' :: r' != r ==> MatchesByRound(t, r') == MatchesByRound(s, r')
  {
    var p := RoundPositions(s, r);
    var t := s[p[i] := v];
    PositionsIncrease(s, r);
    assert SameRounds(s, t);
    PositionsFollowRounds(s, t, r);
    forall r' | r' != r
      ensures MatchesByRound(t, r') == MatchesByRound(s, r')
    {
      PositionsFollowRounds(s, t, r');
      var q := RoundPositions(s, r');
      assert forall j :: 0 <= j < |q| ==> q[j] != p[i];
    }
  }

  /** Updating the bracket at the positions of one round, keeping every node's round:
      the view of that round is the pointwise update, and every other round's view and
      node is unchanged. */
  lemma ViewAfterRoundUpdate(s: seq<Node>, t: seq<Node>, r: RoundName)
    requires SameRounds(s, t)
    requires forall k :: 0 <= k < |s| && s[k].round != r ==> t[k] == s[k]
    ensures |MatchesByRound(t, r)| == |MatchesByRound(s, r)|
    ensures forall i :: 0 <= i < |MatchesByRound(s, r)| ==>
              MatchesByRound(t, r)[i] == t[RoundPositions(s, r)[i]]
    ensures forall r' :: r' != r ==> MatchesByRound(t, r') == MatchesByRound(s, r')
  {
    PositionsFollowRounds(s, t, r);
    forall r' | r' != r
      ensures MatchesByRound(t, r') == MatchesByRound(s, r')
    {
      PositionsFollowRounds(s, t, r');
    }
  }

  class Bracket {
    const tournament: nat
    var nodes: seq<Node>
    var status: BracketStatus
    var totalRounds: nat
    var currentRound: RoundName
    var isSeeded: bool
    var generatedAt: int

    /** Every node's round is one the node schema accepts: what saving requires. */
    ghost predicate Valid()
      reads this
    {
      forall k :: 0 <= k < |nodes| ==> InSchemaEnum(nodes[k].round)
    }

    /** `new TournamentBracket({tournament, totalRounds})` with the schema's defaults:
        no nodes, status generating, current round round_of_32, not seeded. */
    constructor (tournament: nat, totalRounds: nat, now: int)
      ensures this.tournament == tournament && this.totalRounds == totalRounds
      ensures nodes == [] && status == BracketGenerating && currentRound == RoundOf32
      ensures !isSeeded && generatedAt == now
    {
      this.tournament, this.totalRounds := tournament, totalRounds;
      nodes, status, currentRound, isSeeded, generatedAt := [], BracketGenerating, RoundOf32, false, now;
    }

    /** advanceToNextRound: moves currentRound one step along the order list, and does
        nothing at third_place. */
    method AdvanceToNextRound() returns (advanced: bool)
      modifies this`currentRound
      ensures advanced <==> old(currentRound) != ThirdPlace
      ensures advanced ==> Some(currentRound) == NextRound(old(currentRound))
      ensures !advanced ==> currentRound == old(currentRound)
    {
      var roundOrder := RoundOrder;
      var currentIndex := IndexOf(roundOrder, currentRound);
      if currentIndex < |roundOrder| - 1 {
        currentRound := roundOrder[currentIndex + 1];
        return true;
      }
      return false;
    }
  }
}
