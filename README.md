# Table-tennis tournament engine: a Dafny model

This project models the core of a table-tennis tournament backend and proves properties
of the model. The core is:

- the single-elimination bracket engine, covering generation, seeding, recording a result
  with the winner's advancement, and statistics;
- the bracket, match, tournament and registration records with their schema methods;
- the guards of the tournament handlers, and the legacy sixteen-player pairing;
- the referral price and cashback arithmetic of the user handlers.

Identities are naturals, dates are integers (milliseconds) and "now" is always a
parameter. Every handler is a method over in-memory state that returns a success or
error value. What the handlers look up in the database (a tournament, its registrations,
an existing bracket, a user by code) is passed in as input.

Files:

| file | module | what it holds |
|---|---|---|
| `wrappers.dfy` | `Wrappers` | `Option`, `Outcome`, `Result` |
| `rounds.dfy` | `Rounds` | round names; the participant-count table; `getNextRoundMatches` as an `indexOf` over the six-name order list, proved equal to a written-out successor table |
| `bracket_model.dfy` | `BracketModel` | bracket nodes; the `Bracket` class; `getMatchesByRound`, `isRoundComplete`, `advanceToNextRound`; lemmas on round views |
| `match_model.dfy` | `MatchModel` | the `Match` class; best-of-N `addSetResult` and the invariant it keeps |
| `tournament_model.dfy` | `TournamentModel` | the `Tournament` class and its bounded participant counter |
| `registration_model.dfy` | `RegistrationModel` | the `Registration` class; the pending → approved / rejected / withdrawn machine; the approved-registration query |
| `bracket_controller.dfy` | `BracketController` | generation (node-building loops proved against a layout function), seeding, result recording and advancement, statistics |
| `tournament_controller.dfy` | `TournamentController` | guards of create / update / delete; registration with its duplicate-check loop; status update; the legacy seed sort and pairing loop |
| `user_controller.dfy` | `UserController` | registration price, cashback formula and eligibility, referral-code validation, field merges |

Imperative source code becomes Dafny methods with `modifies` clauses and loop
invariants. Each method is proved against a specification function, for example
`BuildNodes` against `Layout`, `ReseatRound` against `Reseated`, `DecideAndAdvance`
against `RecordResult`, and `GetBracketStats` against `RoundStatsOver`. The properties
the code promises are then proved about those functions as lemmas.

## Model

| member | source | states |
|---|---|---|
| Rounds.RoundTopology | controllers/bracketController.js:63-75 | totalRounds equals the number of names, between 4 and 7; exactly the counts up to 16 get the four-name bracket |
| Rounds.TopologyIsCatalogSuffix | controllers/bracketController.js:63-75 | each row is the last totalRounds names of the catalogue round_of_128 … final |
| Rounds.TopologyNamesDistinct | controllers/bracketController.js:63-75 | the names of every row are distinct, and the last is always final |
| Rounds.TopologyIsSmallestBracket | controllers/bracketController.js:63-75 | for 1..128 participants, the row is the smallest power-of-two bracket (at least 16) that holds n |
| Rounds.TopologyInSchema | controllers/bracketController.js:63-75 | every name of the row is in the node schema's round enum iff n ≤ 32 |
| Rounds.IndexOfSpec | models/TournamentBracket.js:98 | indexOf is -1 iff the name is absent, and otherwise the first position holding it |
| Rounds.IndexFromSpec | models/TournamentBracket.js:98 | the search from k finds the first occurrence at or after k, or -1 |
| Rounds.NextRoundIsSuccessor | models/TournamentBracket.js:93-103 | getNextRoundMatches equals the written-out successor table: one step along the order list, final → third_place, third_place → none, and round_of_64 / round_of_128 → round_of_32 |
| Rounds.NextRoundInSchema | models/TournamentBracket.js:93-103 | the next round is never the round itself, and is always a name the schemas accept |
| Rounds.TopologyChain | controllers/bracketController.js:63-75 | for up to 64 participants, each name of the row is followed by the next one in the successor table; final is followed by third_place, which the row does not contain |
| Rounds.RoundOf128SkipsRoundOf64 | models/TournamentBracket.js:93-103 | above 64 participants, the order list sends round_of_128 to round_of_32 and skips the row's round_of_64 |
| BracketModel.MatchesByRound | models/TournamentBracket.js:88-90 | the filter's result is no longer than the nodes, and every node in it has round r |
| BracketModel.RoundPositions | models/TournamentBracket.js:88-90 | the i-th node of round r's view is the node at array index p[i] |
| BracketModel.PositionsIncrease | models/TournamentBracket.js:88-90 | the view keeps array order |
| BracketModel.PositionsCover | models/TournamentBracket.js:88-90 | every node of round r is in the view |
| BracketModel.MatchesByRoundAppend | models/TournamentBracket.js:88-90 | filtering a concatenation concatenates the filters |
| BracketModel.RoundCompleteIff | models/TournamentBracket.js:106-109 | isRoundComplete(r) iff every node whose round is r is completed, so it holds vacuously for a round without nodes |
| BracketModel.UpdateAtPosition | models/TournamentBracket.js:88-90 | replacing one node of a round changes exactly that entry of its view and no other round's view |
| BracketModel.ViewAfterRoundUpdate | controllers/bracketController.js:178-194 | an update confined to one round's nodes leaves every other round's view unchanged |
| BracketModel.Bracket.constructor | models/TournamentBracket.js:56-85 | a new bracket has no nodes, status generating, current round round_of_32, and is not seeded |
| BracketModel.Bracket.AdvanceToNextRound | models/TournamentBracket.js:112-123 | changes only currentRound, by one step of getNextRoundMatches; does nothing at third_place |
| MatchModel.SetsToWin | models/Match.js:113-127 | sets needed to win lie in 1..4 |
| MatchModel.FormatAgreesWithSetsToWin | models/Match.js:96-127 | the matchFormat text of every round is "Best of 2k-1 sets" (or the one-set knockout) for its setsToWin k |
| MatchModel.SetWinnerSymmetric | models/Match.js:156-163 | swapping the scores swaps the set winner; a draw is exactly equal scores |
| MatchModel.WinsAppend | models/Match.js:172-177 | appending a set adds one win to the side that won it and none to any other |
| MatchModel.WinsPartition | models/Match.js:176-177 | player1 wins + player2 wins + draws = number of sets, so draws count for neither side |
| MatchModel.Match.Create | models/Match.js:27-93 | a new match is scheduled, with no sets and no result, and satisfies the best-of-N invariant |
| MatchModel.Match.AddSetResult | models/Match.js:141-187 | refuses a completed or cancelled match and scores outside 0..11 with no change; otherwise appends exactly one set; the match becomes completed iff a side reaches setsToWin (player1 checked first), else in_progress; the invariant "a completed match's winner has exactly setsToWin wins, the loser fewer" is preserved |
| MatchModel.IsCompletedIsStatus | models/Match.js:130-138 | under the invariant, the isCompleted virtual is exactly status completed |
| MatchModel.FinalDecidedByFourthSet | models/Match.js:141-184 | a final at three player1 wins is completed by a fourth won set, with player1 as winner |
| TournamentModel.Tournament.constructor | models/Tournament.js:3-41 | a new tournament holds the given name, description, dates, bounds and fee, is in registration with no participants, and is valid when the name has 1..100 characters, a description at most 500, maxParticipants is in 16..128 and the fee is non-negative |
| TournamentModel.Tournament.AddParticipant | models/Tournament.js:97-103 | adds one participant iff not full, otherwise fails with no change; 0 ≤ current ≤ max is preserved |
| TournamentModel.Tournament.RemoveParticipant | models/Tournament.js:106-112 | removes one participant iff there is one, otherwise fails with no change; the bounds are preserved |
| TournamentModel.AddThenRemove | models/Tournament.js:97-112 | adding then removing a participant restores the counter |
| RegistrationModel.Registration.constructor | models/TournamentRegistration.js:3-74 | a new registration is pending, unpaid, unseeded, undecided and active |
| RegistrationModel.Registration.Approve | models/TournamentRegistration.js:85-99 | only a pending, paid registration is approved, recording who approved it and when; otherwise it fails with no change |
| RegistrationModel.Registration.Reject | models/TournamentRegistration.js:102-113 | only a pending registration is rejected, recording the reason, who decided and when |
| RegistrationModel.Registration.Withdraw | models/TournamentRegistration.js:116-125 | always withdraws and deactivates: the "completed" guard never fires |
| RegistrationModel.DecisionIsFinal | models/TournamentRegistration.js:85-113 | after a successful approve or reject, a second approve and a second reject both fail |
| RegistrationModel.ApprovedRegistrations | models/TournamentRegistration.js:128-135 | selects exactly the registrations of the store that belong to the tournament and are approved, paid and active |
| RegistrationModel.ApprovedSelectionIsActive | models/TournamentRegistration.js:80-135 | the query's filter for a registration's own tournament is exactly the isRegistrationActive virtual |
| BracketController.DestinationInRange | controllers/bracketController.js:305-311 | position x of round r has a destination floor(x/2) inside round r+1, with the round sizes of the generation loops |
| BracketController.FinalRoundHasOneNode | controllers/bracketController.js:83-117 | for 1..128 participants, the last round of the row has exactly one node |
| BracketController.BuildNodes | controllers/bracketController.js:78-117 | the two node-building loops produce exactly the layout: first-round pairs 2i/2i+1, empty placeholders of ceil(first/2^r) nodes, match numbers running on |
| BracketController.LayoutShape | controllers/bracketController.js:79-117 | node k has match number k+1, lies at (x, y) with x inside its round's size and round = names[y], is pending with no winner or match, and is empty past the first round |
| BracketController.LayoutRoundView | controllers/bracketController.js:85-117 | with distinct names, the view of round j is exactly the nodes generated for it, so its i-th node has x = i |
| BracketController.FirstRoundSeatsEveryone | controllers/bracketController.js:83-102 | the first round seats every participant exactly once, in registration order |
| BracketController.SixteenParticipantsGiveFifteenNodes | controllers/bracketController.js:63-117 | 16 participants give 15 nodes, 8 of them in round_of_16 |
| BracketController.GeneratedNodesAccepted | controllers/bracketController.js:63-128 | the generated nodes pass the node schema's round enum iff n ≤ 32 |
| BracketController.GenerateRefusal | controllers/bracketController.js:22-128 | generation goes ahead iff the tournament is in registration, the deadline has passed, n ≥ 16, there is no bracket, and n ≤ 32 (so the save succeeds) |
| BracketController.GenerateTournamentBracket | controllers/bracketController.js:9-154 | on a refusal, nothing is created and nothing changes; otherwise a new bracket holds the layout, status generated, the first name as current round, totalRounds = number of names, and the tournament moves to seeding |
| BracketController.GenerationRefusedAsWritten | controllers/bracketController.js:38-48 | the participant query as written finds nobody, so generation is always refused, for too few participants once the status and deadline checks pass |
| BracketController.AdvanceTarget | controllers/bracketController.js:305-311 | a target exists iff there is a next round whose view has a node floor(x/2); that node is of the next round, differs from the decided node, and is the view's entry floor(x/2) |
| BracketController.TargetFollowsShape | controllers/bracketController.js:305-311 | where a winner goes depends only on the rounds and positions of the nodes |
| BracketController.TableChained | controllers/bracketController.js:63-75 | for up to 64 participants the row is a chain of getNextRoundMatches ending at final, and has no third_place |
| BracketController.LayoutAdvancesInner | controllers/bracketController.js:305-311 | in the layout, the winner of a node of round y before the last goes to the node at (floor(x/2), y+1) |
| BracketController.LayoutAdvancesFinal | controllers/bracketController.js:305-311 | in the layout, the final's winner goes nowhere, because third_place has no nodes |
| BracketController.GeneratedBracketAdvances | controllers/bracketController.js:305-322 | in any bracket shaped like a generated one (up to 64 participants), a winner advances iff the node is not the final, and then to position (floor(x/2), y+1) |
| BracketController.ReseatRound | controllers/bracketController.js:183-194 | the seeding loop keeps every node's round and position, changes no node of another round, and turns the round's view into its reseated view |
| BracketController.SeedTournamentBracket | controllers/bracketController.js:157-221 | refused, with no change, unless the bracket is generated; otherwise the current round's nodes take seedOrder[2i] / seedOrder[2i+1] where in range, nothing else changes, the bracket is seeded and active, and the tournament becomes active if it still exists |
| BracketController.SeedingSeatsTheOrder | controllers/bracketController.js:183-194 | seeding a generated bracket with an order as long as the participant list seats exactly that order in the first round |
| BracketController.ResultRefusal | controllers/bracketController.js:270-300 | a result is recorded iff the node exists and, when it has no match record, the new record passes the match schema |
| BracketController.LoserIsTheOtherPlayer | controllers/bracketController.js:293 | when the winner is one of two different players, the loser is the other one |
| BracketController.DecideAndAdvance | controllers/bracketController.js:279-322 | the node updates of the handler compute RecordResult |
| BracketController.UpdateMatchResult | controllers/bracketController.js:257-353 | a refusal changes nothing; otherwise the node is decided, the winner seated in the target, a completed match record is created iff the node had none (loser the other slot), and currentRound moves one step iff the current round is complete |
| BracketController.RecordResultKeepsShape | controllers/bracketController.js:279-322 | recording a result keeps every node's round and position |
| BracketController.RecordResultEffect | controllers/bracketController.js:279-322 | the node gets winner and status completed, the target gets the winner in player1 (x even) or player2 (x odd) and becomes pending, and no other node changes |
| BracketController.WinnerReachesNextRound | controllers/bracketController.js:304-322 | in a generated bracket, the winner of any node but the final is seated in the node at (floor(x/2), y+1), in the slot the parity of x picks; the final's result seats nobody |
| BracketController.CurrentRoundStep | controllers/bracketController.js:326-333 | currentRound changes iff its round is complete and is not third_place, and then by exactly one successor step |
| BracketController.LoserAsWritten | controllers/bracketController.js:293 | as written, computing the loser fails iff the winner id is the request's JSON string |
| BracketController.GeneratedNodesRejectRequestsAsWritten | controllers/bracketController.js:283-294 | as written, every node of a generated bracket has no match record, so every acceptable request on it fails at the comparison |
| BracketController.CompletedAndPendingWithinTotal | controllers/bracketController.js:369-371 | completed + pending ≤ total |
| BracketController.RoundStatsListing | controllers/bracketController.js:379-391 | roundStats has an entry exactly for the listed rounds with nodes, each with that round's own counts, and completed + pending ≤ total |
| BracketController.GetBracketStats | controllers/bracketController.js:356-408 | the overall counts, the bracket's fields, completed + pending ≤ total, and the roundStats built by the loop over the five listed rounds |
| TournamentController.CreateRefusal | controllers/tournamentController.js:9-54 | creation goes ahead iff the name is present with 1..100 characters, a given description has at most 500, all three dates are present with now < start < end and deadline < start, maxParticipants is given and in 16..128, and a given fee is non-negative; the start-date refusal happens exactly when a present start is not after now |
| TournamentController.CreateTournament | controllers/tournamentController.js:9-54 | creation fails with exactly the refusal above; on success, a fresh valid tournament in registration with no participants, the given name, description, dates and bounds, and the fee defaulting to 1500 |
| TournamentController.MissingDateReachesSave | models/Tournament.js:15-26 | a missing date passes the handler's comparisons (every comparison with an invalid Date is false) and is refused by the save's required validator: a missing start always, a missing end or deadline whenever the present dates pass the handler |
| TournamentController.CreatedTournamentOpenUntilDeadline | models/Tournament.js:92-94 | a tournament in registration is open exactly until its deadline, which comes before the start |
| TournamentController.UpdateRefusal | controllers/tournamentController.js:149-163 | an update is allowed iff the user is the creator or an admin, and the tournament is in registration or before its start |
| TournamentController.UpdateGuardNeedsBoth | controllers/tournamentController.js:158 | the start-date guard also looks at the status: a tournament in registration can be updated after its start |
| TournamentController.DeleteTournament | controllers/tournamentController.js:198-215 | refused unless the user is the creator or an admin and there are no participants; otherwise only isActive becomes false |
| TournamentController.RegisterRefusal | controllers/tournamentController.js:245-286 | registration goes ahead iff the tournament is in registration, before the deadline, not full, the player is not registered, and a payment method is given |
| TournamentController.RegisterForTournament | controllers/tournamentController.js:245-289 | refusals change nothing; otherwise exactly one pending registration at the tournament's fee is appended and the counter goes up by one; one registration per (tournament, player), count = counter, and the tournament's bounds are preserved |
| TournamentController.UpdateRegistrationStatus | controllers/tournamentController.js:348-363 | 'approved' runs approve, 'rejected' needs a non-empty reason and runs reject, and any other status is refused; refusals change nothing |
| TournamentController.SortBySeedSorted | controllers/tournamentController.js:411-412 | the sort leaves seeds in non-increasing order (a missing seed counts as 0) |
| TournamentController.SortBySeedPermutes | controllers/tournamentController.js:411-412 | the sort loses and adds no registration |
| TournamentController.SortBySeedStable | controllers/tournamentController.js:411-412 | registrations with equal keys keep their relative order |
| TournamentController.GenerateBracket | controllers/tournamentController.js:393-433 | refused, with no change, unless the tournament is seeding and has at least 16 approved registrations; otherwise 8 fresh scheduled round_of_16 matches pair sorted entrants 2k and 2k+1, numbered k+1, at start + k·30 min, with no sets, winner or loser, and the tournament becomes active |
| TournamentController.PairedAreBestSeeded | controllers/tournamentController.js:411-413 | the sixteen paired entrants have seeds no lower than any entrant left out, and the sorted list is a permutation of the approved ones |
| UserController.JsRound | controllers/userController.js:104 | Math.round(num/den) is the integer r with r ≤ num/den + 1/2 < r + 1 |
| UserController.CashbackClosedForm | controllers/userController.js:98-105 | for 3 ≤ count < 30 the cashback is 150 + 50·(count−3), in 150..1450; from 30 on it is 1500 |
| UserController.CashbackMonotone | controllers/userController.js:98-105 | more referrals never give less cashback |
| UserController.User.constructor | controllers/userController.js:67-81 | the new user carries the computed discount and price, with total discount = referral discount, and no referrals or cashback |
| UserController.RegisterPricing | controllers/userController.js:37-64 | no code → 1500; unknown code → refused; on success discount + price = 1500, and a code needs a referrer with at least 30 referrals and gives 50 off |
| UserController.RegisterUser | controllers/userController.js:29-108 | refuses a taken email and the code refusals; on success the user has the computed price, and with a code the referrer's count goes up by one and the cashback is granted on first eligibility only |
| UserController.ReferralCountStuckBelowThreshold | controllers/userController.js:53 | a code whose holder has fewer than 30 referrals is always refused by registration |
| UserController.ValidateReferralCode | controllers/userController.js:343-387 | valid iff the code is given, known and its holder has at least 3 referrals; valid gives 50 off 1500, insufficient gives 0 off and 1500 |
| UserController.ThresholdMismatch | controllers/userController.js:53-64 | between 3 and 29 referrals a code is quoted valid but refused at registration; from 30 on both agree on 1450 |
| UserController.Merge | controllers/userController.js:217-221 | the merged field is the given value or the current one, and is empty only when both are |
| UserController.MergeIdempotent | controllers/userController.js:217-221 | merging twice is merging once; an empty value keeps the field, and a non-empty one replaces it |
| UserController.UpdateUserProfile | controllers/userController.js:217-221 | each of the five profile fields takes the given value when it is non-empty and is kept otherwise |
| UserController.UpdateUserStatus | controllers/userController.js:319-320 | only the supplied statuses change |

## Left out

- Persistence and HTTP: Mongoose `save`, `find`, `populate`, `insertMany`, `findByIdAndUpdate`, async plumbing and response bodies. Each handler returns a success or error value instead.
- Lookups by id that return 404 (tournament, bracket, node, registration, user not found): the record is an input. A missing node in `updateMatchResult` is an out-of-range index.
- Dates: dates are integers and "now" is a parameter. In createTournament a missing date and an unparsable one are both modelled as an absent date; `new Date(...)` parsing itself is not modelled.
- TournamentController.CreateRefusal: the name and description are taken as already trimmed, because the schema's `trim` setter runs before its validators and whitespace trimming is not modelled. The save reports all failing validators together; the model reports the first, in the order of the schema's paths. prizePool is not modelled: it has defaults and no validators.
- generateTournamentBracket's participants: the query as written finds nobody (see Findings). The model takes the participant ids as an input list in registration order.
- models/User.js is not part of this model. Its defaults for registrationStatus and paymentStatus ("pending") and for referralCount / cashback fields (0, false, 0) are assumed.
- JWT signing, password hashing and comparison, and `generateReferralCode`: external libraries and code outside the model. The new user's referral code is not modelled.
- The user fields email, password and paymentMethod are not tracked.
- updateTournament's body merge via `findByIdAndUpdate(req.body)`: only its guard is modelled (`UpdateRefusal`).
- getTournamentBracket, getTournaments, getTournamentById, getTournamentRegistrations, getTournamentMatches, getPendingRegistrations, loginUser, getUserProfile and the other read-only handlers: queries with no logic beyond filtering.
- controllers/paymentController.js, routes/*.js, config/database.js, vercel.js, deploy.config.js and the test scripts: file handling, routing, validation middleware and infrastructure.
- Concurrency: concurrent `updateMatchResult` calls and the two separate saves in that handler are not modelled; each handler runs to completion.
- The node schema's `nextMatch` field: nothing in the handlers sets it.
- seedTournamentBracket's casting of the seed order's strings to ObjectIds: seed ids are naturals.
- The rejection reason's trim and 200-character limit and the notes field: text validators not modelled.
- MatchModel.SetAccepted / BracketController.MatchRecordAccepted: the sets of a request are assumed well typed: both scores present and integer, and a winner among player1, player2 and draw. The set schema also accepts fractional scores and refuses a set without a winner, which the integer scores and the `SetWinner` datatype cannot express.
- BracketController.GeneratedBracketAdvances: proved for up to 64 participants. Above that, generation is refused anyway, because round_of_64 / round_of_128 nodes fail the schema.
- BracketController.UpdateMatchResult: ids are compared as ids. The handler as written fails on a JSON winner id (see Findings); the model records the corrected behaviour.
- Where the code differs from what a bracket engine would be expected to do, the model follows the code:
  - recording into a completed node is not refused;
  - the winner is not checked to be one of the node's players;
  - the bracket status never becomes completed;
  - seeding sets the tournament active.

## Findings

| source | as written | input that shows it | evidently intended | confidence | as-written member | corrected member |
|---|---|---|---|---|---|---|
| controllers/bracketController.js:293 | `winnerId.equals(node.player1)` is called on `winnerId` taken from the JSON request body, which is a string, and a string has no `equals` method | any request on a node whose matchId is null, which is every node of a freshly generated bracket | compare the winner id with player1's id and take the other slot as loser | high, not executed | BracketController.GeneratedNodesRejectRequestsAsWritten | BracketController.LoserIsTheOtherPlayer |
| controllers/bracketController.js:38-48 | the participant query filters registrations on status 'confirmed', which the registration status enum (pending, approved, rejected, withdrawn) never holds | any tournament in registration after its deadline, whatever registrations it has | select the tournament's approved registrations as participants | high, not executed | BracketController.GenerationRefusedAsWritten | BracketController.GenerateTournamentBracket |
