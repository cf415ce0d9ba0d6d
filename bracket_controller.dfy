/** The handlers of controllers/bracketController.js over an in-memory bracket:
    generation (round table, node layout), seeding of the current round, recording a
    result with advancement of the winner and of the current round, and the statistics
    view. Queries the handlers make (the tournament, its registrations, an existing
    bracket) are passed in as values; "now" is a parameter. */
module BracketController {
  import opened Wrappers
  import opened Rounds
  import opened BracketModel
  import T = TournamentModel
  import M = MatchModel
  import R = RegistrationModel

  /* ---------------------------------------------------------------------------------- */
  /* Round sizes                                                                        */
  /* ---------------------------------------------------------------------------------- */

  /** Math.ceil(a / b) on naturals. */
  function CeilDiv(a: nat, b: nat): nat
    requires b > 0
  {
    (a + b - 1) / b
  }

  /** firstRoundMatches: one match per pair of participants, the odd one out included. */
  function FirstRoundMatches(n: nat): nat {
    CeilDiv(n, 2)
  }

  /** The number of nodes of round r (r = 0 is the first round): ceil(first / 2^r). */
  function RoundSize(n: nat, r: nat): nat {
    if r == 0 then FirstRoundMatches(n) else CeilDiv(FirstRoundMatches(n), Pow2(r))
  }

  lemma MulMono(x: nat, y: nat, b: nat)
    requires x <= y
    ensures x * b <= y * b
  {
    var d := y - x;
    assert y * b == x * b + d * b;
  }

  lemma MulLess(x: nat, y: nat, b: nat)
    requires x * b < y * b
    ensures x < y
  {
    if x >= y {
      MulMono(y, x, b);
    }
  }

  /** A position lies below ceil(a / b) exactly when the b positions it stands for start
      below a. */
  lemma CeilDivBelow(a: nat, b: nat, x: nat)
    requires b > 0
    ensures x < CeilDiv(a, b) <==> x * b < a
  {
    var q := (a + b - 1) / b;
    var rem := (a + b - 1) % b;
    assert a + b - 1 == q * b + rem && 0 <= rem < b;
    assert (x + 1) * b == x * b + b;
    if x < q {
      MulMono(x + 1, q, b);
    }
    if x * b < a {
      assert (q + 1) * b == q * b + b;
      MulLess(x + 1, q + 1, b);
    }
  }

  /** Every first-round slot index 2i of a node i holds a participant. */
  lemma FirstSlotFilled(n: nat, i: nat)
    requires i < FirstRoundMatches(n)
    ensures 2 * i < n
  {
    CeilDivBelow(n, 2, i);
  }

  /** The node at position x of round r sends its winner to position floor(x/2) of round
      r + 1, and that position exists. */
  lemma DestinationInRange(n: nat, r: nat, x: nat)
    requires x < RoundSize(n, r)
    ensures x / 2 < RoundSize(n, r + 1)
  {
    var f := FirstRoundMatches(n);
    var p := Pow2(r);
    if r == 0 {
      CeilDivBelow(f, 2, x / 2);
    } else {
      CeilDivBelow(f, p, x);
      assert (x / 2) * (2 * p) <= x * p by {
        assert (x / 2) * 2 <= x;
        assert (x / 2) * (2 * p) == ((x / 2) * 2) * p;
        assert (x - (x / 2) * 2) * p >= 0;
      }
      CeilDivBelow(f, 2 * p, x / 2);
    }
  }

  /** The last round a table of names describes has exactly one node. */
  lemma FinalRoundHasOneNode(n: nat)
    requires 1 <= n <= 128
    ensures RoundSize(n, |RoundTopology(n).names| - 1) == 1
  {
    var k := |RoundTopology(n).names| - 1;
    var f := FirstRoundMatches(n);
    TopologyIsSmallestBracket(n);
    assert Pow2(3) == 8 && Pow2(4) == 16 && Pow2(5) == 32 && Pow2(6) == 64;
    CeilDivBelow(n, 2, 0);
    CeilDivBelow(f, Pow2(k), 0);
    CeilDivBelow(f, Pow2(k), 1);
    if n <= 16 {
      CeilDivBelow(n, 2, 8);
    } else if n <= 32 {
      CeilDivBelow(n, 2, 16);
    } else if n <= 64 {
      CeilDivBelow(n, 2, 32);
    } else {
      CeilDivBelow(n, 2, 64);
    }
  }

  /* ---------------------------------------------------------------------------------- */
  /* Node layout of generateTournamentBracket                                           */
  /* ---------------------------------------------------------------------------------- */

  /** The participant at slot j of the first round, when there is one. */
  function SlotPlayer(regs: seq<nat>, j: nat): Option<nat> {
    if j < |regs| then Some(regs[j]) else None
  }

  /** The i-th node generated for round r, whose first match number is base + 1: position
      (i, r), pending, and in the first round the participants 2i and 2i+1. */
  function GeneratedNode(regs: seq<nat>, names: seq<RoundName>, r: nat, base: nat, i: nat): Node
    requires r < |names|
  {
    var node := NewNode(names[r], base + i + 1, i, r);
    if r == 0 then node.(player1 := SlotPlayer(regs, 2 * i), player2 := SlotPlayer(regs, 2 * i + 1))
    else node
  }

  /** The nodes generated for round r, numbered from base + 1. */
  function RoundNodes(regs: seq<nat>, names: seq<RoundName>, r: nat, base: nat): seq<Node>
    requires r < |names|
  {
    seq(RoundSize(|regs|, r), i requires 0 <= i => GeneratedNode(regs, names, r, base, i))
  }

  /** The nodes of the first r rounds, in generation order. */
  function Layout(regs: seq<nat>, names: seq<RoundName>, r: nat): seq<Node>
    requires r <= |names|
  {
    if r == 0 then []
    else
      var prev := Layout(regs, names, r - 1);
      prev + RoundNodes(regs, names, r - 1, |prev|)
  }

  /** The node-building loops of generateTournamentBracket: the first round pairs the
      participants in order, later rounds are empty placeholders, and the match number
      runs on across rounds. */
  method BuildNodes(regs: seq<nat>, names: seq<RoundName>) returns (nodes: seq<Node>)
    requires |names| >= 1
    ensures nodes == Layout(regs, names, |names|)
  {
    nodes := [];
    var matchNumber := 1;
    var firstRoundName := names[0];
    var firstRoundMatches := CeilDiv(|regs|, 2);
    ghost var first := RoundNodes(regs, names, 0, 0);
    var i := 0;
    while i < firstRoundMatches
      invariant 0 <= i <= firstRoundMatches
      invariant nodes == first[..i]
      invariant matchNumber == i + 1
    {
      var node := NewNode(firstRoundName, matchNumber, i, 0);
      matchNumber := matchNumber + 1;
      if i * 2 < |regs| {
        node := node.(player1 := Some(regs[i * 2]));
      }
      if i * 2 + 1 < |regs| {
        node := node.(player2 := Some(regs[i * 2 + 1]));
      }
      FirstSlotFilled(|regs|, i);
      assert node == first[i];
      assert first[..i + 1] == first[..i] + [first[i]];
      nodes := nodes + [node];
      i := i + 1;
    }
    assert nodes == Layout(regs, names, 1);
    var roundIndex := 1;
    while roundIndex < |names|
      invariant 1 <= roundIndex <= |names|
      invariant nodes == Layout(regs, names, roundIndex)
      invariant matchNumber == |nodes| + 1
    {
      var roundName := names[roundIndex];
      var matchesInRound := CeilDiv(firstRoundMatches, Pow2(roundIndex));
      ghost var prev := nodes;
      ghost var added := RoundNodes(regs, names, roundIndex, |prev|);
      var j := 0;
      while j < matchesInRound
        invariant 0 <= j <= matchesInRound
        invariant nodes == prev + added[..j]
        invariant matchNumber == |nodes| + 1
      {
        assert added[..j + 1] == added[..j] + [added[j]];
        nodes := nodes + [NewNode(roundName, matchNumber, j, roundIndex)];
        matchNumber := matchNumber + 1;
        j := j + 1;
      }
      roundIndex := roundIndex + 1;
    }
  }

  /** The defaults every generated node carries: no match record, no winner, not a bye,
      pending. */
  predicate Untouched(node: Node) {
    node.matchId.None? && node.winner.None? && !node.isBye && node.status == Pending
  }

  /** What the layout of the first r rounds holds at index k: match number k + 1, a
      position (x, y) in a round the table names with x below that round's size, the
      defaults, and no players past the first round. */
  predicate ShapedAt(regs: seq<nat>, names: seq<RoundName>, r: nat, node: Node, k: nat) {
    && node.matchNumber == k + 1
    && node.y < r && r <= |names| && node.round == names[node.y]
    && node.x < RoundSize(|regs|, node.y)
    && Untouched(node)
    && (node.y > 0 ==> node.player1.None? && node.player2.None?)
  }

  /** The shape of the layout: match numbers 1..|nodes| in generation order, and every
      node where ShapedAt puts it. */
  lemma {:induction false} LayoutShape(regs: seq<nat>, names: seq<RoundName>, r: nat)
    requires r <= |names|
    ensures forall k :: 0 <= k < |Layout(regs, names, r)| ==>
              ShapedAt(regs, names, r, Layout(regs, names, r)[k], k)
  {
    if r > 0 {
      LayoutShape(regs, names, r - 1);
      var prev := Layout(regs, names, r - 1);
      var added := RoundNodes(regs, names, r - 1, |prev|);
      var s := prev + added;
      assert Layout(regs, names, r) == s;
      forall k | 0 <= k < |s|
        ensures ShapedAt(regs, names, r, s[k], k)
      {
        if k >= |prev| {
          assert s[k] == GeneratedNode(regs, names, r - 1, |prev|, k - |prev|);
        } else {
          assert s[k] == prev[k] && ShapedAt(regs, names, r - 1, prev[k], k);
        }
      }
    }
  }

  /** Appending the nodes of one round adds them to that round's view and nothing to any
      other. */
  lemma AppendRound(prev: seq<Node>, added: seq<Node>, name: RoundName, q: RoundName)
    requires forall k :: 0 <= k < |added| ==> added[k].round == name
    ensures MatchesByRound(prev + added, q) == MatchesByRound(prev, q) + (if q == name then added else [])
  {
    MatchesByRoundAppend(prev, added, q);
    MatchesByRoundUniform(added, q);
  }

  /** A name the table did not give for the first r rounds has no nodes among them. */
  lemma {:induction false} LayoutAbsent(regs: seq<nat>, names: seq<RoundName>, r: nat, q: RoundName)
    requires r <= |names| && q !in names[..r]
    ensures MatchesByRound(Layout(regs, names, r), q) == []
  {
    if r > 0 {
      assert names[..r] == names[..r - 1] + [names[r - 1]];
      LayoutAbsent(regs, names, r - 1, q);
      var prev := Layout(regs, names, r - 1);
      AppendRound(prev, RoundNodes(regs, names, r - 1, |prev|), names[r - 1], q);
    }
  }

  /** The round views of the layout: with distinct names, the nodes of round j are
      exactly the nodes generated for it, so the i-th of them sits at x = i. */
  lemma {:induction false} LayoutRoundView(regs: seq<nat>, names: seq<RoundName>, r: nat, j: nat)
    requires j < r <= |names| && Distinct(names)
    ensures MatchesByRound(Layout(regs, names, r), names[j])
              == RoundNodes(regs, names, j, |Layout(regs, names, j)|)
  {
    var prev := Layout(regs, names, r - 1);
    var added := RoundNodes(regs, names, r - 1, |prev|);
    assert Layout(regs, names, r) == prev + added;
    AppendRound(prev, added, names[r - 1], names[j]);
    if j < r - 1 {
      assert names[j] != names[r - 1];
      LayoutRoundView(regs, names, r - 1, j);
    } else {
      DistinctNotBefore(names, j);
      LayoutAbsent(regs, names, r - 1, names[j]);
    }
  }

  /** The participants seated by a list of nodes, slot by slot in array order. */
  function Seats(s: seq<Node>): seq<nat> {
    if s == [] then []
    else
      var last := s[|s| - 1];
      Seats(s[..|s| - 1])
        + (if last.player1.Some? then [last.player1.value] else [])
        + (if last.player2.Some? then [last.player2.value] else [])
  }

  /** The first i generated first-round nodes seat the first 2i participants (or all). */
  lemma {:induction false} SeatsPrefix(regs: seq<nat>, names: seq<RoundName>, i: nat)
    requires |names| >= 1 && i <= RoundSize(|regs|, 0)
    ensures Seats(RoundNodes(regs, names, 0, 0)[..i])
              == regs[..if 2 * i < |regs| then 2 * i else |regs|]
  {
    if i > 0 {
      var first := RoundNodes(regs, names, 0, 0);
      SeatsPrefix(regs, names, i - 1);
      assert first[..i][..i - 1] == first[..i - 1];
      FirstSlotFilled(|regs|, i - 1);
      var m := if 2 * i < |regs| then 2 * i else |regs|;
      if 2 * i - 1 < |regs| {
        assert regs[..m] == regs[..2 * i - 2] + [regs[2 * i - 2]] + [regs[2 * i - 1]];
      } else {
        assert regs[..m] == regs[..2 * i - 2] + [regs[2 * i - 2]];
      }
    }
  }

  /** The generated first round seats every participant exactly once, in order. */
  lemma FirstRoundSeatsEveryone(regs: seq<nat>, names: seq<RoundName>)
    requires |names| >= 1 && Distinct(names)
    ensures Seats(MatchesByRound(Layout(regs, names, |names|), names[0])) == regs
  {
    var f := RoundSize(|regs|, 0);
    LayoutRoundView(regs, names, |names|, 0);
    assert Layout(regs, names, 0) == [];
    SeatsPrefix(regs, names, f);
    CeilDivBelow(|regs|, 2, f);
    assert RoundNodes(regs, names, 0, 0)[..f] == RoundNodes(regs, names, 0, 0);
  }

  /** A 16-participant bracket has 8 + 4 + 2 + 1 = 15 nodes, 8 of them in the round of 16. */
  lemma SixteenParticipantsGiveFifteenNodes(regs: seq<nat>)
    requires |regs| == 16
    ensures |Layout(regs, RoundTopology(16).names, 4)| == 15
    ensures |MatchesByRound(Layout(regs, RoundTopology(16).names, 4), RoundOf16)| == 8
  {
    var names := RoundTopology(16).names;
    assert Pow2(1) == 2 && Pow2(2) == 4 && Pow2(3) == 8;
    assert |Layout(regs, names, 1)| == 8;
    assert |Layout(regs, names, 2)| == 12;
    assert |Layout(regs, names, 3)| == 14;
    assert |Layout(regs, names, 4)| == 15;
    TopologyNamesDistinct(16);
    LayoutRoundView(regs, names, 4, 0);
    assert names[0] == RoundOf16;
  }

  /** What the node schema checks when the bracket is saved: every node's round is one
      of the six enumerated names. */
  predicate NodesAccepted(nodes: seq<Node>) {
    forall k :: 0 <= k < |nodes| ==> InSchemaEnum(nodes[k].round)
  }

  /** The generated nodes pass the node schema exactly when there are at most 32
      participants: above that the first round is round_of_64 or round_of_128. */
  lemma GeneratedNodesAccepted(regs: seq<nat>)
    requires 1 <= |regs|
    ensures var names := RoundTopology(|regs|).names;
            NodesAccepted(Layout(regs, names, |names|)) <==> |regs| <= 32
  {
    var names := RoundTopology(|regs|).names;
    var s := Layout(regs, names, |names|);
    LayoutShape(regs, names, |names|);
    TopologyInSchema(|regs|);
    if |regs| <= 32 {
      forall k | 0 <= k < |s|
        ensures InSchemaEnum(s[k].round)
      {
        assert ShapedAt(regs, names, |names|, s[k], k);
      }
    } else {
      TopologyNamesDistinct(|regs|);
      LayoutRoundView(regs, names, |names|, 0);
      FirstSlotFilled(|regs|, 0);
      CeilDivBelow(|regs|, 2, 0);
      var first := MatchesByRound(s, names[0]);
      assert first == RoundNodes(regs, names, 0, |Layout(regs, names, 0)|);
      assert |first| > 0 && first[0].round == names[0];
      var p := RoundPositions(s, names[0]);
      assert s[p[0]].round == names[0] && !InSchemaEnum(names[0]);
    }
  }

  datatype GenerateError =
    | NotInRegistration     // tournament status is not 'registration'
    | DeadlineNotPassed     // now is before the registration deadline
    | TooFewParticipants    // fewer than 16 participants
    | BracketExists         // the tournament already has a bracket
    | NodeRoundRejected     // saving fails: a node's round is outside the schema enum

  /** The refusals of generateTournamentBracket, in the order the handler meets them. */
  function GenerateRefusal(status: T.TournamentStatus, deadline: int, now: int, n: nat, bracketExists: bool)
    : (e: Option<GenerateError>)
    ensures e.None? <==> status == T.Registration && deadline <= now && 16 <= n && !bracketExists && n <= 32
  {
    if status != T.Registration then Some(NotInRegistration)
    else if now < deadline then Some(DeadlineNotPassed)
    else if n < 16 then Some(TooFewParticipants)
    else if bracketExists then Some(BracketExists)
    else if n > 32 then Some(NodeRoundRejected)
    else None
  }

  /** generateTournamentBracket over the tournament, its participants in registration
      order and whether a bracket already exists. The new bracket holds the layout,
      status generated and the first round as current round, and the tournament moves to
      seeding; any refusal creates nothing and changes nothing. */
  method GenerateTournamentBracket(t: T.Tournament, participants: seq<nat>, bracketExists: bool, now: int)
    returns (result: Result<Bracket, GenerateError>)
    modifies t`status
    ensures var e := GenerateRefusal(old(t.status), t.registrationDeadline, now, |participants|, bracketExists);
            && (result.Failure? <==> e.Some?)
            && (result.Failure? ==> result.error == e.value && t.status == old(t.status))
    ensures result.Success? ==>
              var names := RoundTopology(|participants|).names;
              var b := result.value;
              && fresh(b) && b.tournament == t.id && b.generatedAt == now
              && b.nodes == Layout(participants, names, |names|)
              && b.totalRounds == |names| && b.currentRound == names[0]
              && b.status == BracketGenerated && !b.isSeeded && b.Valid()
              && t.status == T.Seeding
  {
    if t.status != T.Registration {
      return Failure(NotInRegistration);
    }
    if now < t.registrationDeadline {
      return Failure(DeadlineNotPassed);
    }
    if |participants| < 16 {
      return Failure(TooFewParticipants);
    }
    if bracketExists {
      return Failure(BracketExists);
    }
    var topology := RoundTopology(|participants|);
    var nodes := BuildNodes(participants, topology.names);
    GeneratedNodesAccepted(participants);
    if !NodesAccepted(nodes) {
      return Failure(NodeRoundRejected);
    }
    var b := new Bracket(t.id, topology.totalRounds, now);
    b.nodes := nodes;
    b.currentRound := topology.names[0];
    b.status := BracketGenerated;
    t.status := T.Seeding;
    return Success(b);
  }

  /** The participant query of generateTournamentBracket as written: the registrations
      of the tournament whose status is "confirmed", a value the status enum does not
      have. */
  function ConfirmedAsWritten(rs: seq<R.Registration>, tournamentId: nat): (players: seq<nat>)
    reads rs
    ensures |players| <= |rs|
  {
    if rs == [] then []
    else
      var last := rs[|rs| - 1];
      ConfirmedAsWritten(rs[..|rs| - 1], tournamentId)
        + if last.tournament == tournamentId && R.StatusText(last.status) == "confirmed" then [last.player] else []
  }

  /** As written, the query finds nobody, whatever the store holds, so generation is
      refused in every state: the registration checks come first, and every request
      that passes them is refused for having fewer than 16 participants. */
  lemma {:induction false} GenerationRefusedAsWritten(rs: seq<R.Registration>, t: T.Tournament, bracketExists: bool, now: int)
    ensures ConfirmedAsWritten(rs, t.id) == []
    ensures var e := GenerateRefusal(t.status, t.registrationDeadline, now, |ConfirmedAsWritten(rs, t.id)|, bracketExists);
            && e.Some?
            && (t.status == T.Registration && t.registrationDeadline <= now ==> e == Some(TooFewParticipants))
  {
    if rs != [] {
      GenerationRefusedAsWritten(rs[..|rs| - 1], t, bracketExists, now);
      var last := rs[|rs| - 1];
      assert R.StatusText(last.status) != "confirmed" by {
        assert R.StatusText(last.status)[0] != 'c' || |R.StatusText(last.status)| != 9;
      }
    }
  }

  /* ---------------------------------------------------------------------------------- */
  /* Recording a result                                                                 */
  /* ---------------------------------------------------------------------------------- */

  /** Two node lists of the same shape: the same length, and at every index the same
      round and the same position. */
  predicate SameShape(s: seq<Node>, t: seq<Node>) {
    SameRounds(s, t) && forall k :: 0 <= k < |s| ==> s[k].x == t[k].x && s[k].y == t[k].y
  }

  /** The index of the node that receives the winner of node k: node floor(x/2) of the
      next round's view, when the next round exists and has that many nodes. */
  function AdvanceTarget(s: seq<Node>, k: nat): (t: Option<nat>)
    requires k < |s|
    ensures var next := NextRound(s[k].round);
            t.Some? <==> next.Some? && s[k].x / 2 < |MatchesByRound(s, next.value)|
    ensures t.Some? ==>
              var next := NextRound(s[k].round).value;
              && t.value < |s| && t.value != k && s[t.value].round == next
              && s[t.value] == MatchesByRound(s, next)[s[k].x / 2]
  {
    var next := NextRound(s[k].round);
    if next.None? then None
    else
      var q := RoundPositions(s, next.value);
      NextRoundInSchema(s[k].round);
      if s[k].x / 2 < |q| then Some(q[s[k].x / 2]) else None
  }

  /** Where a winner goes depends on the shape of the bracket alone. */
  lemma TargetFollowsShape(s: seq<Node>, t: seq<Node>, k: nat)
    requires SameShape(s, t) && k < |s|
    ensures AdvanceTarget(s, k) == AdvanceTarget(t, k)
  {
    var next := NextRound(s[k].round);
    if next.Some? {
      PositionsFollowRounds(s, t, next.value);
    }
  }

  /** Each name of the list is followed, in getNextRoundMatches, by the next one. */
  predicate Chained(names: seq<RoundName>) {
    forall j :: 0 <= j < |names| - 1 ==> NextRound(names[j]) == Some(names[j + 1])
  }

  /** The table's names for up to 64 participants form a chain of getNextRoundMatches
      that ends at the final, whose successor third_place is not among them. */
  lemma TableChained(n: nat)
    requires n <= 64
    ensures var names := RoundTopology(n).names;
            && Chained(names) && Distinct(names) && names[|names| - 1] == Final
            && ThirdPlace !in names
  {
    var names := RoundTopology(n).names;
    TopologyChain(n);
    TopologyNamesDistinct(n);
    forall j | 0 <= j < |names| - 1
      ensures NextRound(names[j]) == Some(names[j + 1])
    {
      NextRoundIsSuccessor(names[j]);
    }
  }

  /** The shape of one node of the full layout. */
  lemma LayoutShapeAt(regs: seq<nat>, names: seq<RoundName>, k: nat)
    requires k < |Layout(regs, names, |names|)|
    ensures ShapedAt(regs, names, |names|, Layout(regs, names, |names|)[k], k)
  {
    LayoutShape(regs, names, |names|);
  }

  /** Where the winner of node k goes, read off the next round's view. */
  lemma TargetInView(s: seq<Node>, k: nat, next: RoundName, view: seq<Node>)
    requires k < |s| && NextRound(s[k].round) == Some(next) && MatchesByRound(s, next) == view
    requires s[k].x / 2 < |view|
    ensures AdvanceTarget(s, k).Some? && s[AdvanceTarget(s, k).value] == view[s[k].x / 2]
  {
  }

  /** The i-th node generated for a round sits at position (i, round). */
  lemma RoundNodesAt(regs: seq<nat>, names: seq<RoundName>, j: nat, base: nat, i: nat)
    requires j < |names| && i < RoundSize(|regs|, j)
    ensures var view := RoundNodes(regs, names, j, base);
            i < |view| && view[i].x == i && view[i].y == j
  {
  }

  /** In the layout of a list without repeats, a position x of round y has a
      destination floor(x/2) in the view of round y + 1, and the node there sits at
      (floor(x/2), y + 1). */
  lemma ViewHoldsDestination(regs: seq<nat>, names: seq<RoundName>, y: nat, x: nat)
    requires Distinct(names) && y + 1 < |names| && x < RoundSize(|regs|, y)
    ensures var view := MatchesByRound(Layout(regs, names, |names|), names[y + 1]);
            x / 2 < |view| && view[x / 2].x == x / 2 && view[x / 2].y == y + 1
  {
    var half := x / 2;
    DestinationInRange(|regs|, y, x);
    RoundNodesAt(regs, names, y + 1, |Layout(regs, names, y + 1)|, half);
    LayoutRoundView(regs, names, |names|, y + 1);
  }

  /** In the layout of a list without repeats, the winner of a node of round y before
      the last goes to position floor(x/2) of round y + 1, when getNextRoundMatches
      names round y + 1 after round y. */
  lemma LayoutAdvancesInner(regs: seq<nat>, names: seq<RoundName>, k: nat, y: nat)
    requires Distinct(names) && y + 1 < |names| && NextRound(names[y]) == Some(names[y + 1])
    requires k < |Layout(regs, names, |names|)| && Layout(regs, names, |names|)[k].y == y
    ensures var L := Layout(regs, names, |names|);
            && AdvanceTarget(L, k).Some?
            && L[AdvanceTarget(L, k).value].y == y + 1
            && L[AdvanceTarget(L, k).value].x == L[k].x / 2
  {
    var L := Layout(regs, names, |names|);
    LayoutShapeAt(regs, names, k);
    ViewHoldsDestination(regs, names, y, L[k].x);
    TargetInView(L, k, names[y + 1], MatchesByRound(L, names[y + 1]));
  }

  /** In the layout of a list ending with the final and without third_place, the winner
      of the final goes nowhere: third_place has no nodes. */
  lemma LayoutAdvancesFinal(regs: seq<nat>, names: seq<RoundName>, k: nat)
    requires |names| >= 1 && names[|names| - 1] == Final && ThirdPlace !in names
    requires k < |Layout(regs, names, |names|)|
    requires Layout(regs, names, |names|)[k].round == Final
    ensures AdvanceTarget(Layout(regs, names, |names|), k).None?
  {
    NextRoundIsSuccessor(Final);
    assert names[..|names|] == names;
    LayoutAbsent(regs, names, |names|, ThirdPlace);
  }

  /** The layout of the table's names for n participants. */
  function TableLayout(regs: seq<nat>): seq<Node> {
    Layout(regs, RoundTopology(|regs|).names, |RoundTopology(|regs|).names|)
  }

  /** In a generated bracket (whatever has been recorded or seeded since, as long as the
      shape is kept) the winner of every node but the final goes to position floor(x/2)
      of the following round of the table; the final's winner goes nowhere, because
      third_place has no nodes. */
  lemma GeneratedBracketAdvances(regs: seq<nat>, s: seq<Node>, k: nat)
    requires 1 <= |regs| <= 64 && SameShape(s, TableLayout(regs)) && k < |s|
    ensures AdvanceTarget(s, k).Some? <==> s[k].round != Final
    ensures AdvanceTarget(s, k).Some? ==>
              s[AdvanceTarget(s, k).value].y == s[k].y + 1 && s[AdvanceTarget(s, k).value].x == s[k].x / 2
  {
    var names := RoundTopology(|regs|).names;
    var L := Layout(regs, names, |names|);
    TargetFollowsShape(s, L, k);
    TableChained(|regs|);
    LayoutShape(regs, names, |names|);
    assert ShapedAt(regs, names, |names|, L[k], k);
    if L[k].y < |names| - 1 {
      LayoutAdvancesInner(regs, names, k, L[k].y);
      assert names[L[k].y] != names[|names| - 1];
    } else {
      LayoutAdvancesFinal(regs, names, k);
    }
  }

  /* ---------------------------------------------------------------------------------- */
  /* Seeding                                                                            */
  /* ---------------------------------------------------------------------------------- */

  datatype SeedError = BracketNotGenerated

  /** The i-th node of the current round after seeding: participants 2i and 2i+1 of the
      seed order take its two slots, where the order has them. */
  function Reseat(node: Node, seedOrder: seq<nat>, i: nat): Node {
    node.(player1 := if 2 * i < |seedOrder| then Some(seedOrder[2 * i]) else node.player1,
          player2 := if 2 * i + 1 < |seedOrder| then Some(seedOrder[2 * i + 1]) else node.player2)
  }

  /** A round's view after seeding, node by node. */
  function Reseated(view: seq<Node>, seedOrder: seq<nat>): (r: seq<Node>)
    ensures |r| == |view|
  {
    seq(|view|, i requires 0 <= i < |view| => Reseat(view[i], seedOrder, i))
  }

  /** The seeding loop over the nodes of one round: writes the seed order into them in
      view order and leaves every other node as it is. */
  method ReseatRound(s: seq<Node>, round: RoundName, seedOrder: seq<nat>) returns (nodes: seq<Node>)
    ensures SameShape(nodes, s)
    ensures forall k :: 0 <= k < |s| && s[k].round != round ==> nodes[k] == s[k]
    ensures MatchesByRound(nodes, round) == Reseated(MatchesByRound(s, round), seedOrder)
  {
    nodes := s;
    var positions := RoundPositions(s, round);
    PositionsIncrease(s, round);
    var i := 0;
    while i < |positions|
      invariant 0 <= i <= |positions|
      invariant SameShape(nodes, s)
      invariant forall k :: 0 <= k < |s| && s[k].round != round ==> nodes[k] == s[k]
      invariant forall j :: 0 <= j < i ==> nodes[positions[j]] == Reseat(s[positions[j]], seedOrder, j)
      invariant forall j :: i <= j < |positions| ==> nodes[positions[j]] == s[positions[j]]
    {
      var node := nodes[positions[i]];
      if i * 2 < |seedOrder| {
        node := node.(player1 := Some(seedOrder[i * 2]));
      }
      if i * 2 + 1 < |seedOrder| {
        node := node.(player2 := Some(seedOrder[i * 2 + 1]));
      }
      nodes := nodes[positions[i] := node];
      i := i + 1;
    }
    ViewAfterRoundUpdate(s, nodes, round);
  }

  /** seedTournamentBracket: on a generated bracket, writes the seed order into the nodes
      of the current round (an empty order writes nothing), marks the bracket seeded and
      active and sets the tournament active (the update by id touches nothing when the
      tournament record is gone, which `tournamentExists` says). */
  method SeedTournamentBracket(b: Bracket, t: T.Tournament, tournamentExists: bool, seedOrder: seq<nat>)
    returns (outcome: Outcome<SeedError>)
    requires t.id == b.tournament
    modifies b`nodes, b`isSeeded, b`status, t`status
    ensures outcome == if old(b.status) == BracketGenerated then Pass else Fail(BracketNotGenerated)
    ensures outcome.Fail? ==>
              b.nodes == old(b.nodes) && b.isSeeded == old(b.isSeeded) && b.status == old(b.status)
              && t.status == old(t.status)
    ensures outcome.Pass? ==>
              && SameShape(b.nodes, old(b.nodes))
              && (forall k :: 0 <= k < |b.nodes| && b.nodes[k].round != b.currentRound ==> b.nodes[k] == old(b.nodes[k]))
              && MatchesByRound(b.nodes, b.currentRound) == Reseated(MatchesByRound(old(b.nodes), b.currentRound), seedOrder)
              && b.isSeeded && b.status == BracketActive
              && t.status == (if tournamentExists then T.Active else old(t.status))
    ensures old(b.Valid()) ==> b.Valid()
  {
    if b.status != BracketGenerated {
      return Fail(BracketNotGenerated);
    }
    if |seedOrder| > 0 {
      b.nodes := ReseatRound(b.nodes, b.currentRound, seedOrder);
    }
    b.isSeeded := true;
    b.status := BracketActive;
    if tournamentExists {
      t.status := T.Active;
    }
    return Pass;
  }

  /** Seeding a generated bracket with an order as long as its participant list seats
      exactly that order in the first round, slot by slot. */
  lemma SeedingSeatsTheOrder(regs: seq<nat>, names: seq<RoundName>, seedOrder: seq<nat>)
    requires |names| >= 1 && Distinct(names) && |seedOrder| == |regs|
    ensures Seats(Reseated(MatchesByRound(Layout(regs, names, |names|), names[0]), seedOrder)) == seedOrder
  {
    var L := Layout(regs, names, |names|);
    LayoutRoundView(regs, names, |names|, 0);
    LayoutRoundView(seedOrder, names, |names|, 0);
    assert Layout(regs, names, 0) == [] && Layout(seedOrder, names, 0) == [];
    var view := RoundNodes(regs, names, 0, 0);
    var seeded := RoundNodes(seedOrder, names, 0, 0);
    forall i | 0 <= i < |view|
      ensures Reseat(view[i], seedOrder, i) == seeded[i]
    {
      FirstSlotFilled(|regs|, i);
    }
    assert Reseated(view, seedOrder) == seeded;
    FirstRoundSeatsEveryone(seedOrder, names);
  }

  /** Seeding with an empty order changes no node. */
  lemma EmptySeedOrderKeepsNodes(view: seq<Node>)
    ensures Reseated(view, []) == view
  {
  }

  /* ---------------------------------------------------------------------------------- */
  /* Recording a result                                                                 */
  /* ---------------------------------------------------------------------------------- */

  datatype ResultError =
    | NodeNotFound          // no node with the given id
    | MatchRecordRejected   // the new match record fails the match schema

  /** What the match schema checks when the match record of a node is saved: both
      players present, a round of the enum, and every set's scores within 0..11. */
  predicate MatchRecordAccepted(node: Node, sets: seq<M.SetResult>) {
    && node.player1.Some? && node.player2.Some?
    && InSchemaEnum(node.round)
    && forall i :: 0 <= i < |sets| ==> M.SetAccepted(sets[i])
  }

  /** The refusals of updateMatchResult, in the order the handler meets them: the node
      must exist, and a node without a match record must yield one the schema accepts. */
  function ResultRefusal(s: seq<Node>, nodeIndex: int, sets: seq<M.SetResult>): (e: Option<ResultError>)
    ensures e.None? <==>
              0 <= nodeIndex < |s| && (s[nodeIndex].matchId.None? ==> MatchRecordAccepted(s[nodeIndex], sets))
  {
    if nodeIndex < 0 || nodeIndex >= |s| then Some(NodeNotFound)
    else if s[nodeIndex].matchId.None? && !MatchRecordAccepted(s[nodeIndex], sets) then Some(MatchRecordRejected)
    else None
  }

  /** The loser of the new match record: the other player when the winner is player1,
      and player1 otherwise (ids compared as ids; LoserAsWritten is the handler as written). */
  function Loser(winnerId: nat, player1: nat, player2: nat): nat {
    if winnerId == player1 then player2 else player1
  }

  /** When the winner is one of two different players, the loser is the other one. */
  lemma LoserIsTheOtherPlayer(winnerId: nat, player1: nat, player2: nat)
    requires player1 != player2 && (winnerId == player1 || winnerId == player2)
    ensures var l := Loser(winnerId, player1, player2);
            l != winnerId && {winnerId, l} == {player1, player2}
  {
  }

  /** The recorded node: the winner, status completed, and its match record. */
  function Decided(node: Node, winnerId: nat, matchId: Option<nat>): Node {
    node.(winner := Some(winnerId), status := Completed, matchId := matchId)
  }

  /** The node that receives the winner of the node at position fromX: player1 from an
      even position, player2 from an odd one, and back to pending. */
  function Seat(node: Node, winnerId: nat, fromX: nat): Node {
    if fromX % 2 == 0 then node.(player1 := Some(winnerId), status := Pending)
    else node.(player2 := Some(winnerId), status := Pending)
  }

  /** The nodes after recording the winner of node k: the node decided, and the winner
      seated in the node AdvanceTarget names (the filter of the next round sees the same
      rounds before and after the node is decided). */
  function RecordResult(s: seq<Node>, k: nat, winnerId: nat, matchId: Option<nat>): seq<Node>
    requires k < |s|
  {
    var decided := s[k := Decided(s[k], winnerId, matchId)];
    var target := AdvanceTarget(s, k);
    if target.Some? then decided[target.value := Seat(s[target.value], winnerId, s[k].x)]
    else decided
  }

  /** The current round after a result: the next round of the order list once every node
      of the current round is completed, and unchanged otherwise. */
  function NextCurrentRound(s: seq<Node>, currentRound: RoundName): RoundName {
    var next := NextRound(currentRound);
    if IsRoundComplete(s, currentRound) && next.Some? then next.value else currentRound
  }

  /** The node updates of updateMatchResult: decide node k, then look up the next
      round's nodes and seat the winner in node floor(x/2) of them, when there is one. */
  method DecideAndAdvance(s: seq<Node>, k: nat, winnerId: nat, matchId: Option<nat>) returns (nodes: seq<Node>)
    requires k < |s|
    ensures nodes == RecordResult(s, k, winnerId, matchId)
  {
    var node := s[k];
    nodes := s[k := Decided(node, winnerId, matchId)];
    TargetFollowsShape(nodes, s, k);
    var nextRound := NextRound(node.round);
    if nextRound.Some? {
      var positions := RoundPositions(nodes, nextRound.value);
      var matchIndex := node.x / 2;
      if matchIndex < |positions| {
        var t := positions[matchIndex];
        nodes := nodes[t := Seat(nodes[t], winnerId, node.x)];
      }
    }
  }

  /** updateMatchResult: decides the node, creates its match record when it has none,
      seats the winner in the next round, and moves the current round on once it is
      complete. The bracket is a stored one, so its nodes satisfy the node schema. */
  method UpdateMatchResult(b: Bracket, nodeIndex: int, winnerId: nat, sets: seq<M.SetResult>,
                           newMatchId: nat, now: int)
    returns (outcome: Outcome<ResultError>, created: Option<M.Match>)
    requires b.Valid()
    modifies b`nodes, b`currentRound
    ensures var e := ResultRefusal(old(b.nodes), nodeIndex, sets);
            outcome == if e.Some? then Fail(e.value) else Pass
    ensures outcome.Fail? ==> b.nodes == old(b.nodes) && b.currentRound == old(b.currentRound) && created.None?
    ensures outcome.Pass? ==>
              var node := old(b.nodes[nodeIndex]);
              var matchId := if node.matchId.Some? then node.matchId else Some(newMatchId);
              && b.nodes == RecordResult(old(b.nodes), nodeIndex, winnerId, matchId)
              && b.currentRound == NextCurrentRound(b.nodes, old(b.currentRound))
              && (created.Some? <==> node.matchId.None?)
              && (created.Some? ==>
                    var m := created.value;
                    && fresh(m) && m.tournament == b.tournament
                    && Some(m.player1) == node.player1 && Some(m.player2) == node.player2
                    && m.round == node.round && m.matchNumber == node.matchNumber
                    && m.status == M.Completed && m.sets == sets && m.scheduledTime == now
                    && m.winner == Some(winnerId) && m.loser == Some(Loser(winnerId, m.player1, m.player2)))
    ensures b.Valid()
  {
    created := None;
    if nodeIndex < 0 || nodeIndex >= |b.nodes| {
      return Fail(NodeNotFound), None;
    }
    ghost var s0 := b.nodes;
    var node := b.nodes[nodeIndex];
    var matchId := node.matchId;
    if node.matchId.None? {
      if !MatchRecordAccepted(node, sets) {
        return Fail(MatchRecordRejected), None;
      }
      var p1 := node.player1.value;
      var p2 := node.player2.value;
      var m := new M.Match.Recorded(b.tournament, p1, p2, node.round, node.matchNumber, now,
                                    winnerId, Loser(winnerId, p1, p2), sets);
      created := Some(m);
      matchId := Some(newMatchId);
    }
    b.nodes := DecideAndAdvance(b.nodes, nodeIndex, winnerId, matchId);
    RecordResultKeepsShape(s0, nodeIndex, winnerId, matchId);
    if IsRoundComplete(b.nodes, b.currentRound) {
      var next := NextRound(b.currentRound);
      if next.Some? {
        b.currentRound := next.value;
      }
    }
    outcome := Pass;
  }

  /** Recording a result keeps the shape of the bracket: every node keeps its round and
      its position. */
  lemma RecordResultKeepsShape(s: seq<Node>, k: nat, winnerId: nat, matchId: Option<nat>)
    requires k < |s|
    ensures SameShape(RecordResult(s, k, winnerId, matchId), s)
  {
  }

  /** What recording a result changes: node k becomes completed with the winner and the
      match record, the target node gets the winner in the slot the parity of x picks and
      becomes pending, and every other node is unchanged. */
  lemma RecordResultEffect(s: seq<Node>, k: nat, winnerId: nat, matchId: Option<nat>)
    requires k < |s|
    ensures var r := RecordResult(s, k, winnerId, matchId);
            var target := AdvanceTarget(s, k);
            && r[k].winner == Some(winnerId) && r[k].status == Completed && r[k].matchId == matchId
            && r[k].player1 == s[k].player1 && r[k].player2 == s[k].player2
            && (target.Some? ==>
                  var t := target.value;
                  && r[t].status == Pending && r[t].winner == s[t].winner
                  && (if s[k].x % 2 == 0 then r[t].player1 == Some(winnerId) && r[t].player2 == s[t].player2
                      else r[t].player2 == Some(winnerId) && r[t].player1 == s[t].player1))
            && forall j :: 0 <= j < |s| && j != k && (target.None? || j != target.value) ==> r[j] == s[j]
  {
  }

  /** In a generated bracket, the winner of any node but the final is seated in the node
      at position (floor(x/2), y + 1), in player1 from an even x and in player2 from an
      odd one; the result of the final seats nobody. */
  lemma WinnerReachesNextRound(regs: seq<nat>, s: seq<Node>, k: nat, winnerId: nat, matchId: Option<nat>)
    requires 1 <= |regs| <= 64 && SameShape(s, TableLayout(regs)) && k < |s|
    ensures var r := RecordResult(s, k, winnerId, matchId);
            s[k].round != Final ==>
              exists j :: 0 <= j < |r| && r[j].y == s[k].y + 1 && r[j].x == s[k].x / 2
                          && (if s[k].x % 2 == 0 then r[j].player1 else r[j].player2) == Some(winnerId)
    ensures s[k].round == Final ==>
              RecordResult(s, k, winnerId, matchId) == s[k := Decided(s[k], winnerId, matchId)]
  {
    GeneratedBracketAdvances(regs, s, k);
    var target := AdvanceTarget(s, k);
    if target.Some? {
      var j := target.value;
      var r := RecordResult(s, k, winnerId, matchId);
      assert r[j] == Seat(s[j], winnerId, s[k].x);
    }
  }

  /** The current round moves exactly when it is complete and is not third_place, and
      then exactly one step along the successor table. */
  lemma CurrentRoundStep(s: seq<Node>, currentRound: RoundName)
    ensures NextCurrentRound(s, currentRound) != currentRound <==>
              IsRoundComplete(s, currentRound) && currentRound != ThirdPlace
    ensures NextCurrentRound(s, currentRound) != currentRound ==>
              Successor(currentRound) == Some(NextCurrentRound(s, currentRound))
  {
    NextRoundIsSuccessor(currentRound);
  }

  /** How the request's winner id reaches `winnerId.equals(node.player1)`: the JSON body
      delivers it as a string, and only an ObjectId has an `equals` method. */
  datatype RequestId = JsonString(text: string) | ObjectId(id: nat)

  datatype HandlerFailure = EqualsIsNotAFunction

  /** The loser of the new match record as written: calling `equals` on a string throws. */
  function LoserAsWritten(winnerId: RequestId, player1: nat, player2: nat): (r: Result<nat, HandlerFailure>)
    ensures r.Failure? <==> winnerId.JsonString?
  {
    match winnerId
    case JsonString(_) => Failure(EqualsIsNotAFunction)
    case ObjectId(id) => Success(if id == player1 then player2 else player1)
  }

  /** updateMatchResult as written, on a node without a match record whose record the
      schema would accept: the handler fails whenever the winner id comes from the JSON
      body, before anything is saved. */
  function RecordAsWritten(node: Node, winnerId: RequestId, sets: seq<M.SetResult>): Outcome<HandlerFailure>
    requires node.matchId.None? && MatchRecordAccepted(node, sets)
  {
    var loser := LoserAsWritten(winnerId, node.player1.value, node.player2.value);
    if loser.Failure? then Fail(loser.error) else Pass
  }

  /** As written, no node of a freshly generated bracket can ever be decided from a
      request: every node starts without a match record, so every request whose record
      the schema accepts reaches the failing comparison. */
  lemma GeneratedNodesRejectRequestsAsWritten(regs: seq<nat>, k: nat, text: string, sets: seq<M.SetResult>)
    requires k < |TableLayout(regs)| && MatchRecordAccepted(TableLayout(regs)[k], sets)
    ensures TableLayout(regs)[k].matchId.None?
    ensures RecordAsWritten(TableLayout(regs)[k], JsonString(text), sets) == Fail(EqualsIsNotAFunction)
  {
    var names := RoundTopology(|regs|).names;
    LayoutShape(regs, names, |names|);
    assert ShapedAt(regs, names, |names|, TableLayout(regs)[k], k);
  }

  /* ---------------------------------------------------------------------------------- */
  /* Statistics                                                                         */
  /* ---------------------------------------------------------------------------------- */

  /** The number of nodes with the given status. */
  function CountStatus(s: seq<Node>, status: NodeStatus): (c: nat)
    ensures c <= |s|
  {
    if s == [] then 0
    else CountStatus(s[..|s| - 1], status) + if s[|s| - 1].status == status then 1 else 0
  }

  /** Completed and pending nodes together are never more than all nodes. */
  lemma {:induction false} CompletedAndPendingWithinTotal(s: seq<Node>)
    ensures CountStatus(s, Completed) + CountStatus(s, Pending) <= |s|
  {
    if s != [] {
      CompletedAndPendingWithinTotal(s[..|s| - 1]);
    }
  }

  /** A round's entry of roundStats. */
  datatype RoundStat = RoundStat(total: nat, completed: nat, pending: nat)

  /** The response of getBracketStats. */
  datatype BracketStats = BracketStats(
    totalMatches: nat,
    completedMatches: nat,
    pendingMatches: nat,
    currentRound: RoundName,
    totalRounds: nat,
    isSeeded: bool,
    status: BracketStatus,
    roundStats: map<RoundName, RoundStat>)

  /** The rounds getBracketStats reports on; third_place is not among them. */
  const StatRounds: seq<RoundName> := [RoundOf32, RoundOf16, QuarterFinals, SemiFinals, Final]

  /** The statistics of one round's view. */
  function StatOf(view: seq<Node>): RoundStat {
    RoundStat(|view|, CountStatus(view, Completed), CountStatus(view, Pending))
  }

  /** roundStats after the loop has visited the rounds `rs`: an entry for each visited
      round that has nodes. */
  function RoundStatsOver(s: seq<Node>, rs: seq<RoundName>): map<RoundName, RoundStat> {
    if rs == [] then map[]
    else
      var m := RoundStatsOver(s, rs[..|rs| - 1]);
      var r := rs[|rs| - 1];
      if |MatchesByRound(s, r)| > 0 then m[r := StatOf(MatchesByRound(s, r))] else m
  }

  /** roundStats lists exactly the visited rounds that have nodes, each with its own
      counts, within its total. */
  lemma {:induction false} RoundStatsListing(s: seq<Node>, rs: seq<RoundName>)
    ensures forall r :: r in RoundStatsOver(s, rs) <==> r in rs && |MatchesByRound(s, r)| > 0
    ensures forall r :: r in RoundStatsOver(s, rs) ==>
              && RoundStatsOver(s, rs)[r] == StatOf(MatchesByRound(s, r))
              && RoundStatsOver(s, rs)[r].completed + RoundStatsOver(s, rs)[r].pending
                   <= RoundStatsOver(s, rs)[r].total
  {
    if rs != [] {
      RoundStatsListing(s, rs[..|rs| - 1]);
      assert rs == rs[..|rs| - 1] + [rs[|rs| - 1]];
      CompletedAndPendingWithinTotal(MatchesByRound(s, rs[|rs| - 1]));
    }
  }

  /** One more round visited adds its entry when it has nodes. */
  lemma RoundStatsStep(s: seq<Node>, rs: seq<RoundName>, i: nat)
    requires i < |rs|
    ensures RoundStatsOver(s, rs[..i + 1]) ==
              if |MatchesByRound(s, rs[i])| > 0 then RoundStatsOver(s, rs[..i])[rs[i] := StatOf(MatchesByRound(s, rs[i]))]
              else RoundStatsOver(s, rs[..i])
  {
    assert rs[..i + 1][..i] == rs[..i];
  }

  /** getBracketStats: the overall counts, the bracket's fields, and a roundStats entry
      for each reported round that has nodes. */
  method GetBracketStats(b: Bracket) returns (stats: BracketStats)
    ensures stats.totalMatches == |b.nodes|
    ensures stats.completedMatches == CountStatus(b.nodes, Completed)
    ensures stats.pendingMatches == CountStatus(b.nodes, Pending)
    ensures stats.completedMatches + stats.pendingMatches <= stats.totalMatches
    ensures stats.currentRound == b.currentRound && stats.totalRounds == b.totalRounds
    ensures stats.isSeeded == b.isSeeded && stats.status == b.status
    ensures stats.roundStats == RoundStatsOver(b.nodes, StatRounds)
  {
    CompletedAndPendingWithinTotal(b.nodes);
    var roundStats: map<RoundName, RoundStat> := map[];
    var rounds := StatRounds;
    var i := 0;
    while i < |rounds|
      invariant 0 <= i <= |rounds|
      invariant roundStats == RoundStatsOver(b.nodes, rounds[..i])
    {
      var round := rounds[i];
      var roundMatches := MatchesByRound(b.nodes, round);
      RoundStatsStep(b.nodes, rounds, i);
      if |roundMatches| > 0 {
        roundStats := roundStats[round := StatOf(roundMatches)];
      }
      i := i + 1;
    }
    assert rounds[..|rounds|] == rounds;
    stats := BracketStats(|b.nodes|, CountStatus(b.nodes, Completed), CountStatus(b.nodes, Pending),
                          b.currentRound, b.totalRounds, b.isSeeded, b.status, roundStats);
  }
}
