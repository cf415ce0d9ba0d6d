/** Round names and the two fixed round tables of the bracket engine: the topology table
    that picks the round names from the participant count, and the order list that
    getNextRoundMatches walks with indexOf. */
module Rounds {
  import opened Wrappers

  /** Every round name the code ever produces. round_of_64 and round_of_128 are only
      produced by the topology table; neither schema enum nor the order list has them. */
  datatype RoundName =
    | RoundOf128 | RoundOf64 | RoundOf32 | RoundOf16
    | QuarterFinals | SemiFinals | Final | ThirdPlace

  /** The names the node schema and the match schema accept for `round`. */
  predicate InSchemaEnum(r: RoundName) {
    r in {RoundOf32, RoundOf16, QuarterFinals, SemiFinals, Final, ThirdPlace}
  }

  /** The order list of getNextRoundMatches and advanceToNextRound. */
  const RoundOrder: seq<RoundName> :=
    [RoundOf32, RoundOf16, QuarterFinals, SemiFinals, Final, ThirdPlace]

  /** JavaScript's Array.prototype.indexOf: the first index holding r, or -1. */
  function IndexOf(s: seq<RoundName>, r: RoundName): (i: int)
    ensures -1 <= i < |s|
  {
    IndexFrom(s, r, 0)
  }

  /** The search of indexOf from position k on. */
  function IndexFrom(s: seq<RoundName>, r: RoundName, k: nat): (i: int)
    requires k <= |s|
    ensures -1 <= i < |s|
    decreases |s| - k
  {
    if k == |s| then -1
    else if s[k] == r then k
    else IndexFrom(s, r, k + 1)
  }

  /** The search from k finds the first position at or after k that holds r, and -1
      when there is none. */
  lemma {:induction false} IndexFromSpec(s: seq<RoundName>, r: RoundName, k: nat)
    requires k <= |s|
    ensures var i := IndexFrom(s, r, k);
            && (i == -1 <==> r !in s[k..])
            && (0 <= i ==> k <= i && s[i] == r && r !in s[k..i])
    decreases |s| - k
  {
    if k < |s| && s[k] != r {
      IndexFromSpec(s, r, k + 1);
      assert s[k..] == [s[k]] + s[k + 1..];
      var i := IndexFrom(s, r, k + 1);
      if 0 <= i {
        assert s[k..i] == [s[k]] + s[k + 1..i];
      }
    }
  }

  /** indexOf is -1 exactly for a name absent from s, and otherwise the first position
      holding the name. */
  lemma IndexOfSpec(s: seq<RoundName>, r: RoundName)
    ensures var i := IndexOf(s, r);
            && (i == -1 <==> r !in s)
            && (0 <= i ==> s[i] == r && r !in s[..i])
  {
    IndexFromSpec(s, r, 0);
    assert s[0..] == s;
    var i := IndexOf(s, r);
    if 0 <= i {
      assert s[0..i] == s[..i];
    }
  }

  /** getNextRoundMatches: the name after r in RoundOrder, none after third_place, and
      round_of_32 for a name absent from the list (indexOf gives -1, and -1 + 1 = 0). */
  function NextRound(r: RoundName): Option<RoundName> {
    var i := IndexOf(RoundOrder, r);
    if i < |RoundOrder| - 1 then Some(RoundOrder[i + 1]) else None
  }

  /** The topology of a bracket: the totalRounds value and the round names. */
  datatype Topology = Topology(totalRounds: nat, names: seq<RoundName>)

  /** The participant-count table of generateTournamentBracket, thresholds verbatim. */
  function RoundTopology(n: nat): (t: Topology)
    ensures t.totalRounds == |t.names| && 4 <= |t.names| <= 7
    ensures |t.names| == 4 <==> n <= 16
  {
    if n <= 16 then Topology(4, [RoundOf16, QuarterFinals, SemiFinals, Final])
    else if n <= 32 then Topology(5, [RoundOf32, RoundOf16, QuarterFinals, SemiFinals, Final])
    else if n <= 64 then
      Topology(6, [RoundOf64, RoundOf32, RoundOf16, QuarterFinals, SemiFinals, Final])
    else
      Topology(7, [RoundOf128, RoundOf64, RoundOf32, RoundOf16, QuarterFinals, SemiFinals, Final])
  }

  /** The position of a name in the sequence of rounds a bracket plays, largest first. */
  function Rank(r: RoundName): nat {
    match r
    case RoundOf128 => 0
    case RoundOf64 => 1
    case RoundOf32 => 2
    case RoundOf16 => 3
    case QuarterFinals => 4
    case SemiFinals => 5
    case Final => 6
    case ThirdPlace => 7
  }

  /** The name of each rank below the third-place match. */
  function Catalog(i: nat): (r: RoundName)
    requires i < 7
    ensures Rank(r) == i
  {
    if i == 0 then RoundOf128 else if i == 1 then RoundOf64 else if i == 2 then RoundOf32
    else if i == 3 then RoundOf16 else if i == 4 then QuarterFinals
    else if i == 5 then SemiFinals else Final
  }

  /** Each row of the table lists the last totalRounds names of the catalogue, so the
      bracket always ends with the final. */
  lemma TopologyIsCatalogSuffix(n: nat)
    ensures var names := RoundTopology(n).names;
            forall j :: 0 <= j < |names| ==> names[j] == Catalog(7 - |names| + j)
  {
    var names := RoundTopology(n).names;
    forall j | 0 <= j < |names|
      ensures names[j] == Catalog(7 - |names| + j)
    {
      if n <= 16 {
      } else if n <= 32 {
      } else if n <= 64 {
      } else {
      }
    }
  }

  function Pow2(k: nat): (p: nat)
    ensures p >= 1
  {
    if k == 0 then 1 else 2 * Pow2(k - 1)
  }

  predicate Distinct(names: seq<RoundName>) {
    forall i, j :: 0 <= i < j < |names| ==> names[i] != names[j]
  }

  /** In a list without repeats no name occurs before its own position. */
  lemma DistinctNotBefore(names: seq<RoundName>, j: nat)
    requires j < |names| && Distinct(names)
    ensures names[j] !in names[..j]
  {
  }

  /** Whatever n, the table's names are distinct and end with the final. */
  lemma TopologyNamesDistinct(n: nat)
    ensures var names := RoundTopology(n).names;
            Distinct(names) && names[|names| - 1] == Final
  {
    var names := RoundTopology(n).names;
    TopologyIsCatalogSuffix(n);
    forall i, j | 0 <= i < j < |names|
      ensures names[i] != names[j]
    {
      assert Rank(names[i]) < Rank(names[j]);
    }
  }

  /** The table picks the smallest bracket size, a power of two no smaller than n, with
      16 as the least. */
  lemma TopologyIsSmallestBracket(n: nat)
    requires 1 <= n <= 128
    ensures var names := RoundTopology(n).names;
            && n <= Pow2(|names|)
            && (|names| == 4 || Pow2(|names| - 1) < n)
  {
    assert Pow2(4) == 16 && Pow2(5) == 32 && Pow2(6) == 64 && Pow2(7) == 128 by {
      assert Pow2(1) == 2 && Pow2(2) == 4 && Pow2(3) == 8;
    }
  }

  /** In a list without repeats, indexOf finds the one position holding r. */
  lemma IndexOfDistinct(s: seq<RoundName>, r: RoundName, k: nat)
    requires Distinct(s) && k < |s| && s[k] == r
    ensures IndexOf(s, r) == k
  {
    IndexOfSpec(s, r);
    var i := IndexOf(s, r);
    assert r in s;
  }

  /** The successor table written out name by name: the reference NextRound is checked
      against. */
  function Successor(r: RoundName): Option<RoundName> {
    match r
    case RoundOf128 => Some(RoundOf32)
    case RoundOf64 => Some(RoundOf32)
    case RoundOf32 => Some(RoundOf16)
    case RoundOf16 => Some(QuarterFinals)
    case QuarterFinals => Some(SemiFinals)
    case SemiFinals => Some(Final)
    case Final => Some(ThirdPlace)
    case ThirdPlace => None
  }

  /** getNextRoundMatches agrees with the written-out table on every name. */
  lemma NextRoundIsSuccessor(r: RoundName)
    ensures NextRound(r) == Successor(r)
  {
    IndexOfSpec(RoundOrder, r);
    if r in RoundOrder {
      assert Distinct(RoundOrder);
      var k :| 0 <= k < |RoundOrder| && RoundOrder[k] == r;
      IndexOfDistinct(RoundOrder, r, k);
    }
  }

  /** getNextRoundMatches never names r itself, and what it names is always one the
      schemas accept. */
  lemma NextRoundInSchema(r: RoundName)
    ensures NextRound(r).Some? ==> NextRound(r).value != r && InSchemaEnum(NextRound(r).value)
  {
    NextRoundIsSuccessor(r);
  }

  /** From round_of_64 on, the table steps through the catalogue one rank at a time,
      and sends the final to third_place. */
  lemma CatalogStep(i: nat)
    requires 1 <= i < 7
    ensures Successor(Catalog(i)) == if i < 6 then Some(Catalog(i + 1)) else Some(ThirdPlace)
  {
  }
  /** In a bracket of up to 64 participants every name is followed, in the successor
      table, by the next name of the bracket; the final is followed by third_place, a
      round the bracket does not have. With NextRoundIsSuccessor this is the chain
      getNextRoundMatches walks. */
  lemma TopologyChain(n: nat)
    requires n <= 64
    ensures var names := RoundTopology(n).names;
            && (forall j :: 0 <= j < |names| - 1 ==> Successor(names[j]) == Some(names[j + 1]))
            && Successor(names[|names| - 1]) == Some(ThirdPlace) && ThirdPlace !in names
  {
    var names := RoundTopology(n).names;
    TopologyIsCatalogSuffix(n);
    forall j | 0 <= j < |names|
      ensures Successor(names[j]) == if j < |names| - 1 then Some(names[j + 1]) else Some(ThirdPlace)
    {
      CatalogStep(7 - |names| + j);
    }
    assert forall j :: 0 <= j < |names| ==> Rank(names[j]) < 7;
  }

  /** For 65 to 128 participants the order list sends round_of_128 to round_of_32,
      skipping the bracket's round_of_64. */
  lemma RoundOf128SkipsRoundOf64(n: nat)
    requires 64 < n
    ensures var names := RoundTopology(n).names;
            names[0] == RoundOf128 && names[1] == RoundOf64 && NextRound(names[0]) == Some(RoundOf32)
  {
    NextRoundIsSuccessor(RoundOf128);
  }

  /** The node schema accepts every name of the table's choice exactly when n <= 32. */
  lemma TopologyInSchema(n: nat)
    ensures (forall j :: 0 <= j < |RoundTopology(n).names| ==> InSchemaEnum(RoundTopology(n).names[j]))
            <==> n <= 32
  {
    TopologyIsCatalogSuffix(n);
    if n > 32 {
      assert !InSchemaEnum(RoundTopology(n).names[0]);
    }
  }
}
