/** The Division class and its elimination decision: the trivial pre-check,
    the network build, and the dispatch to one of the two solvers. */
module Badminton {
  import opened Wrappers
  import opened Teams
  import opened Network
  import opened Shape
  import opened Solvers

  /** The two solver names is_eliminated recognises. */
  const NetworkFlowsSolver: string := "Network Flows"
  const LinearProgrammingSolver: string := "Linear Programming"

  /** `other` already has more wins than `candidate` can reach. */
  predicate Outpaces(candidate: Team, other: Team)
  {
    candidate.wins + candidate.remaining < other.wins
  }

  /** The trivial check: some other team already has more wins than the
      candidate can reach. */
  predicate TriviallyEliminated(teams: seq<Team>, c: int)
    requires 0 <= c < |teams|
  {
    exists o :: 0 <= o < |teams| && o != c && Outpaces(teams[c], teams[o])
  }

  /** What is_eliminated returns, with the maximum flow and the optimum of the
      linear program as functions of the network. */
  function Eliminated(teams: seq<Team>, c: int, solver: string,
                      maxFlow: Graph -> int, lpOptimum: Graph -> real): Result<bool>
  {
    if !(0 <= c < |teams|) then Err(KeyError(c))
    else match Saturated(teams, c)
      case Err(e) => Err(e)
      case Ok(sat) =>
        var g := NetworkOf(teams, c, sat);
        if TriviallyEliminated(teams, c) then Ok(true)
        else if solver == NetworkFlowsSolver then NetworkFlowsResult(g, sat, maxFlow(g))
        else if solver == LinearProgrammingSolver then LinearProgrammingResult(g, sat, lpOptimum(g))
        else Ok(false)
  }

  /** A built network with an item has T as well as S: an item is a pair of
      two teams besides the candidate. */
  lemma ItemsMeanBothEnds(teams: seq<Team>, c: int, sat: seq<SatEntry>)
    requires Saturated(teams, c) == Ok(sat)
    ensures 0 <= c < |teams|
    ensures HasNode(NetworkOf(teams, c, sat), Source) <==> sat != []
    ensures sat != [] ==> HasNode(NetworkOf(teams, c, sat), Sink)
  {
    SaturatedItems(teams, c, sat);
    SourcePresent(teams, c, sat);
    SinkPresent(teams, c, sat);
    if sat != [] {
      assert sat[0].pair.first != c && 0 <= sat[0].pair.first < |teams|;
    }
  }

  /** is_eliminated raises whatever create_network raises, and a KeyError for
      an unknown candidate. */
  lemma EliminatedErrors(teams: seq<Team>, c: int, solver: string,
                         maxFlow: Graph -> int, lpOptimum: Graph -> real)
    ensures Saturated(teams, c).Err? ==>
              Eliminated(teams, c, solver, maxFlow, lpOptimum) == Err(Saturated(teams, c).error)
    ensures !(0 <= c < |teams|) ==> Eliminated(teams, c, solver, maxFlow, lpOptimum) == Err(KeyError(c))
    ensures 0 <= c < |teams| && Saturated(teams, c).Err? ==>
              Eliminated(teams, c, solver, maxFlow, lpOptimum) == Err(ValueError(NotInInput))
  {
    SaturatedOkIff(teams, c);
  }

  /** Once the network is built, is_eliminated raises exactly when a solver
      runs on a network without S: no item, no trivial elimination, and either
      network flows, or linear programming past its pre-check. The error is
      networkx's for the missing node S. */
  lemma SolverErrors(teams: seq<Team>, c: int, solver: string,
                     maxFlow: Graph -> int, lpOptimum: Graph -> real)
    requires Saturated(teams, c).Ok?
    ensures 0 <= c < |teams|
    ensures var sat := Saturated(teams, c).value;
            Eliminated(teams, c, solver, maxFlow, lpOptimum).Err? <==>
              sat == [] && !TriviallyEliminated(teams, c) &&
              (solver == NetworkFlowsSolver ||
               (solver == LinearProgrammingSolver && !HasNegativeCapacity(NetworkOf(teams, c, sat))))
    ensures Eliminated(teams, c, solver, maxFlow, lpOptimum).Err? ==>
              Eliminated(teams, c, solver, maxFlow, lpOptimum) == Err(NetworkXError("S"))
  {
    ItemsMeanBothEnds(teams, c, Saturated(teams, c).value);
  }

  /** A trivially eliminated team is eliminated whatever the solver, once the
      network can be built. */
  lemma TrivialIsEliminated(teams: seq<Team>, c: int, solver: string,
                            maxFlow: Graph -> int, lpOptimum: Graph -> real)
    requires 0 <= c < |teams| && Saturated(teams, c).Ok?
    requires TriviallyEliminated(teams, c)
    ensures Eliminated(teams, c, solver, maxFlow, lpOptimum) == Ok(true)
  {
  }

  /** A solver name other than the two known ones leaves the trivial verdict. */
  lemma UnknownSolver(teams: seq<Team>, c: int, solver: string,
                      maxFlow: Graph -> int, lpOptimum: Graph -> real)
    requires 0 <= c < |teams| && Saturated(teams, c).Ok?
    requires solver != NetworkFlowsSolver && solver != LinearProgrammingSolver
    ensures Eliminated(teams, c, solver, maxFlow, lpOptimum) == Ok(TriviallyEliminated(teams, c))
  {
  }

  /** The negative-capacity pre-check of linear_programming fires exactly when
      some pair has a negative number of games left or some other team already
      has at least as many wins as the candidate can reach. */
  lemma NegativeCapacityMeansBehind(teams: seq<Team>, c: int, sat: seq<SatEntry>)
    requires 0 <= c < |teams|
    ensures HasNegativeCapacity(NetworkOf(teams, c, sat)) <==>
              (exists k :: 0 <= k < |sat| && sat[k].games < 0) ||
              (exists o :: 0 <= o < |teams| && o != c && teams[c].wins + teams[c].remaining <= teams[o].wins)
  {
    NegativeCapacityIff(teams, c, sat);
    forall o | 0 <= o < |teams|
      ensures Headroom(teams[c], teams[o]) < 0 <==> teams[c].wins + teams[c].remaining <= teams[o].wins
    {
      HeadroomNegative(teams[c], teams[o]);
    }
  }

  /** A trivially eliminated candidate always trips that pre-check, so the
      linear-programming path agrees with the trivial check. */
  lemma TrivialImpliesNegativeCapacity(teams: seq<Team>, c: int, sat: seq<SatEntry>)
    requires 0 <= c < |teams|
    requires TriviallyEliminated(teams, c)
    ensures HasNegativeCapacity(NetworkOf(teams, c, sat))
  {
    var o :| 0 <= o < |teams| && o != c && Outpaces(teams[c], teams[o]);
    NegativeCapacityMeansBehind(teams, c, sat);
  }

  /** With the network-flows solver, and a maximum flow that is the value of
      an assignment within the capacities, the candidate is eliminated exactly
      when it is trivially eliminated or the flow falls short of the games
      left among the other teams; without an item, networkx raises for S. */
  lemma NetworkFlowsDecision(teams: seq<Team>, c: int, maxFlow: Graph -> int, lpOptimum: Graph -> real,
                             sat: seq<SatEntry>, f: seq<real>)
    requires Saturated(teams, c) == Ok(sat)
    requires 0 <= c < |teams|
    requires WithinCapacity(NetworkOf(teams, c, sat), f)
    requires maxFlow(NetworkOf(teams, c, sat)) as real == FlowValue(NetworkOf(teams, c, sat), f)
    ensures Eliminated(teams, c, NetworkFlowsSolver, maxFlow, lpOptimum) ==
              if TriviallyEliminated(teams, c) then Ok(true)
              else if sat == [] then Err(NetworkXError("S"))
              else Ok(FlowValue(NetworkOf(teams, c, sat), f) < TotalGames(sat) as real)
  {
    SaturationBound(teams, c, sat, f);
    ItemsMeanBothEnds(teams, c, sat);
  }

  /** With the linear-programming solver, and an optimum that is the value of
      an assignment within the capacities, the candidate is eliminated exactly
      when it is trivially eliminated or the optimum is at least the tolerance
      below the games left; without an item, networkx raises for S. */
  lemma LinearProgrammingDecision(teams: seq<Team>, c: int, maxFlow: Graph -> int, lpOptimum: Graph -> real,
                                  sat: seq<SatEntry>, f: seq<real>)
    requires Saturated(teams, c) == Ok(sat)
    requires 0 <= c < |teams|
    requires WithinCapacity(NetworkOf(teams, c, sat), f)
    requires lpOptimum(NetworkOf(teams, c, sat)) == FlowValue(NetworkOf(teams, c, sat), f)
    ensures Eliminated(teams, c, LinearProgrammingSolver, maxFlow, lpOptimum) ==
              if TriviallyEliminated(teams, c) then Ok(true)
              else if sat == [] then Err(NetworkXError("S"))
              else Ok(FlowValue(NetworkOf(teams, c, sat), f) <= TotalGames(sat) as real - Tolerance)
  {
    SaturationBound(teams, c, sat, f);
    WithinCapacityNonNegative(NetworkOf(teams, c, sat), f);
    ItemsMeanBothEnds(teams, c, sat);
  }

  /** When no capacity is negative and the optimum of the linear program is
      within the tolerance of the maximum flow, both solvers give the same
      answer, raising included. */
  lemma SolversAgree(teams: seq<Team>, c: int, maxFlow: Graph -> int, lpOptimum: Graph -> real,
                     sat: seq<SatEntry>)
    requires Saturated(teams, c) == Ok(sat)
    requires 0 <= c < |teams|
    requires !HasNegativeCapacity(NetworkOf(teams, c, sat))
    requires Abs(lpOptimum(NetworkOf(teams, c, sat)) - maxFlow(NetworkOf(teams, c, sat)) as real) < Tolerance
    ensures Eliminated(teams, c, NetworkFlowsSolver, maxFlow, lpOptimum) ==
            Eliminated(teams, c, LinearProgrammingSolver, maxFlow, lpOptimum)
  {
    var g := NetworkOf(teams, c, sat);
    ItemsMeanBothEnds(teams, c, sat);
    VerdictsAgree(g, sat, maxFlow(g), lpOptimum(g));
  }

  /** Two teams level on 5 wins with no games left: neither is trivially
      eliminated; the linear-programming path declares team 0 eliminated,
      because max_allowed(0, 1) is -1, and the network-flows path raises,
      because no pair means no node S. */
  lemma TwoTeamTie(maxFlow: Graph -> int, lpOptimum: Graph -> real)
    ensures var teams := [Team(0, "A", 5, 0, 0, [0, 0]), Team(1, "B", 5, 0, 0, [0, 0])];
            !TriviallyEliminated(teams, 0) &&
            Eliminated(teams, 0, LinearProgrammingSolver, maxFlow, lpOptimum) == Ok(true) &&
            Eliminated(teams, 0, NetworkFlowsSolver, maxFlow, lpOptimum) == Err(NetworkXError("S"))
  {
    var teams := [Team(0, "A", 5, 0, 0, [0, 0]), Team(1, "B", 5, 0, 0, [0, 0])];
    assert OtherIds(2, 0) == [1] by {
      assert OtherIds(1, 0) == [];
    }
    assert PairsOf(2, 0) == [];
    assert Saturated(teams, 0) == Ok([]);
    var g := NetworkOf(teams, 0, []);
    assert g[0] == Edge(TeamNode(1), Sink, Some(-1));
    SourcePresent(teams, 0, []);
  }

  /** A tie at the top with games left elsewhere: A has 5 wins and none left,
      B has 5 wins and one game left against C, C has none. A is not trivially
      eliminated. Linear programming declares A eliminated at the pre-check
      (max_allowed(A, B) is -1), while network flows passes the graph on and
      answers "eliminated" only if the maximum flow differs from the one game
      left. With the negative capacity read as zero, the assignment sending 1
      along S, (B, C), C, T respects every capacity and conserves flow, and no
      assignment within those capacities sends more than 1. */
  lemma TieSolversDisagree(maxFlow: Graph -> int, lpOptimum: Graph -> real)
    ensures var teams := [Team(0, "A", 5, 0, 0, [0, 0, 0]), Team(1, "B", 5, 0, 1, [0, 0, 1]),
                          Team(2, "C", 0, 0, 1, [0, 1, 0])];
            var g := NetworkOf(teams, 0, [SatEntry(Pair(1, 2), 1)]);
            !TriviallyEliminated(teams, 0) &&
            Eliminated(teams, 0, LinearProgrammingSolver, maxFlow, lpOptimum) == Ok(true) &&
            Eliminated(teams, 0, NetworkFlowsSolver, maxFlow, lpOptimum) == Ok(maxFlow(g) != 1) &&
            WithinClampedCapacity(g, [1.0, 0.0, 1.0, 0.0, 1.0]) &&
            Conserves(g, [1.0, 0.0, 1.0, 0.0, 1.0]) &&
            FlowValue(g, [1.0, 0.0, 1.0, 0.0, 1.0]) == 1.0 &&
            forall h :: WithinClampedCapacity(g, h) ==> FlowValue(g, h) <= 1.0
  {
    var teams := [Team(0, "A", 5, 0, 0, [0, 0, 0]), Team(1, "B", 5, 0, 1, [0, 0, 1]),
                  Team(2, "C", 0, 0, 1, [0, 1, 0])];
    var sat := [SatEntry(Pair(1, 2), 1)];
    assert OtherIds(3, 0) == [1, 2] by {
      assert OtherIds(1, 0) == [];
      assert OtherIds(2, 0) == [1];
    }
    assert PairsOf(3, 0) == [Pair(1, 2)] by {
      assert Combinations([2]) == [];
    }
    assert Lookups(teams, [Pair(1, 2)]) == sat by {
      assert [Pair(1, 2)][1..] == [];
    }
    assert Saturated(teams, 0) == Ok(sat);
    var g := NetworkOf(teams, 0, sat);
    var pn := PairNode(Pair(1, 2));
    assert g == [Edge(Source, pn, Some(1)), Edge(pn, TeamNode(1), None), Edge(pn, TeamNode(2), None),
                 Edge(TeamNode(1), Sink, Some(-1)), Edge(TeamNode(2), Sink, Some(4))] by {
      assert SecondLayer(sat) == PairEdges(sat[0]) by {
        assert sat[..0] == [];
      }
    }
    assert TotalGames(sat) == 1 by {
      assert sat[..0] == [];
    }
    TieFlowConserved(g);
    TieFlowBounded(g);
    assert g[0].from == Source && g[3].to == Sink;
  }

  /** The network of the tie above, with the negative capacity into T read as
      zero: sending 1 along S, (B, C), C, T respects the capacities and
      conserves flow at the pair and team nodes. */
  lemma TieFlowConserved(g: Graph)
    requires g == [Edge(Source, PairNode(Pair(1, 2)), Some(1)),
                   Edge(PairNode(Pair(1, 2)), TeamNode(1), None),
                   Edge(PairNode(Pair(1, 2)), TeamNode(2), None),
                   Edge(TeamNode(1), Sink, Some(-1)), Edge(TeamNode(2), Sink, Some(4))]
    ensures WithinClampedCapacity(g, [1.0, 0.0, 1.0, 0.0, 1.0])
    ensures Conserves(g, [1.0, 0.0, 1.0, 0.0, 1.0])
    ensures FlowValue(g, [1.0, 0.0, 1.0, 0.0, 1.0]) == 1.0
  {
    var pn := PairNode(Pair(1, 2));
    var f := [1.0, 0.0, 1.0, 0.0, 1.0];
    assert g[..4][..3] == g[..3] && f[..4][..3] == f[..3];
    assert g[..3][..2] == g[..2] && f[..3][..2] == f[..2];
    assert g[..2][..1] == g[..1] && f[..2][..1] == f[..1];
    assert g[..1][..0] == [] && f[..1][..0] == [];
    assert Conserves(g, f) by {
      assert InFlow(g[..1], f[..1], pn) == 1.0;
      assert InFlow(g[..2], f[..2], pn) == 1.0;
      assert InFlow(g[..3], f[..3], pn) == 1.0;
      assert InFlow(g[..4], f[..4], pn) == 1.0;
      assert OutFlow(g[..1], f[..1], pn) == 0.0;
      assert OutFlow(g[..2], f[..2], pn) == 0.0;
      assert OutFlow(g[..3], f[..3], pn) == 1.0;
      assert OutFlow(g[..4], f[..4], pn) == 1.0;
      assert InFlow(g[..1], f[..1], TeamNode(1)) == 0.0;
      assert InFlow(g[..2], f[..2], TeamNode(1)) == 0.0;
      assert InFlow(g[..3], f[..3], TeamNode(1)) == 0.0;
      assert InFlow(g[..4], f[..4], TeamNode(1)) == 0.0;
      assert OutFlow(g[..1], f[..1], TeamNode(1)) == 0.0;
      assert OutFlow(g[..2], f[..2], TeamNode(1)) == 0.0;
      assert OutFlow(g[..3], f[..3], TeamNode(1)) == 0.0;
      assert OutFlow(g[..4], f[..4], TeamNode(1)) == 0.0;
      assert InFlow(g[..1], f[..1], TeamNode(2)) == 0.0;
      assert InFlow(g[..2], f[..2], TeamNode(2)) == 0.0;
      assert InFlow(g[..3], f[..3], TeamNode(2)) == 1.0;
      assert InFlow(g[..4], f[..4], TeamNode(2)) == 1.0;
      assert OutFlow(g[..1], f[..1], TeamNode(2)) == 0.0;
      assert OutFlow(g[..2], f[..2], TeamNode(2)) == 0.0;
      assert OutFlow(g[..3], f[..3], TeamNode(2)) == 0.0;
      assert OutFlow(g[..4], f[..4], TeamNode(2)) == 0.0;
    }
    assert FlowValue(g[..1], f[..1]) == 1.0;
    assert FlowValue(g[..2], f[..2]) == 1.0;
    assert FlowValue(g[..3], f[..3]) == 1.0;
    assert FlowValue(g[..4], f[..4]) == 1.0;
  }

  /** In the same network no assignment within the clamped capacities sends
      more than 1 out of S. */
  lemma TieFlowBounded(g: Graph)
    requires g == [Edge(Source, PairNode(Pair(1, 2)), Some(1)),
                   Edge(PairNode(Pair(1, 2)), TeamNode(1), None),
                   Edge(PairNode(Pair(1, 2)), TeamNode(2), None),
                   Edge(TeamNode(1), Sink, Some(-1)), Edge(TeamNode(2), Sink, Some(4))]
    ensures forall h :: WithinClampedCapacity(g, h) ==> FlowValue(g, h) <= 1.0
  {
    forall h | WithinClampedCapacity(g, h)
      ensures FlowValue(g, h) <= 1.0
    {
      assert h[..4][..3] == h[..3] && h[..3][..2] == h[..2] && h[..2][..1] == h[..1];
      assert g[..4][..3] == g[..3] && g[..3][..2] == g[..2] && g[..2][..1] == g[..1];
      assert FlowValue(g[..1], h[..1]) == h[0];
      assert FlowValue(g[..2], h[..2]) == h[0];
      assert FlowValue(g[..3], h[..3]) == h[0];
      assert FlowValue(g[..4], h[..4]) == h[0];
    }
  }

  /** What create_network leaves in G when it raises. */
  function PartialNetwork(teams: seq<Team>, c: int): Graph
  {
    if !(0 <= c < |teams|) then []
    else FirstLayer(Lookups(teams, PairsOf(|teams|, c)))
  }

  /** create_network raises once a lookup fails: what it recorded until then
      is the partial network. */
  lemma SaturatedStopped(teams: seq<Team>, c: int, sat: seq<SatEntry>)
    requires 0 <= c < |teams|
    requires Lookups(teams, PairsOf(|teams|, c)) == sat
    requires |sat| < |PairsOf(|teams|, c)|
    ensures Saturated(teams, c) == Err(ValueError(NotInInput))
    ensures PartialNetwork(teams, c) == FirstLayer(sat)
  {
  }

  /** create_network returns once every lookup has succeeded. */
  lemma SaturatedDone(teams: seq<Team>, c: int, sat: seq<SatEntry>)
    requires 0 <= c < |teams|
    requires Lookups(teams, PairsOf(|teams|, c)) == sat
    requires |sat| == |PairsOf(|teams|, c)|
    ensures Saturated(teams, c) == Ok(sat)
  {
  }

  /** A row of the input once parsed: name, wins, losses, remaining, and the
      games left against each team in row order. */
  datatype Row = Row(name: string, wins: int, losses: int, remaining: int, against: seq<int>)

  class Division {
    /** The teams, indexed by id. */
    var teams: seq<Team>
    /** The flow network of the last create_network call. */
    var G: Graph

    /** Every team's id is its index. */
    predicate Valid()
      reads this`teams
    {
      forall i :: 0 <= i < |teams| ==> teams[i].id == i
    }

    /** A division over already parsed rows: row i becomes the team with id i. */
    constructor (rows: seq<Row>)
      ensures Valid() && G == []
      ensures |teams| == |rows|
      ensures forall i :: 0 <= i < |rows| ==>
                teams[i] == Team(i, rows[i].name, rows[i].wins, rows[i].losses, rows[i].remaining, rows[i].against)
    {
      teams := seq(|rows|, i requires 0 <= i < |rows| =>
                 Team(i, rows[i].name, rows[i].wins, rows[i].losses, rows[i].remaining, rows[i].against));
      G := [];
    }

    /** checkTeam: passes when the team's id is a key of the division (the
        keys are 0 up to the number of teams), raises ValueError otherwise. */
    function CheckTeam(team: Team): (r: Outcome)
      reads this
      ensures r.Pass? <==> 0 <= team.id < |teams|
      ensures r.Fail? ==> r.error == ValueError(NotInInput)
    {
      if !(0 <= team.id < |teams|) then Fail(ValueError(NotInInput)) else Pass
    }

    /** Every team of a valid division passes the check. */
    lemma MembersPassCheck()
      requires Valid()
      ensures forall i :: 0 <= i < |teams| ==> CheckTeam(teams[i]) == Pass
    {
    }

    /** How many games team `t2` can win without finishing ahead of team `t1`
        when `t1` wins all its remaining games; a KeyError for an unknown id. */
    function MaxAllowed(t1: int, t2: int): (r: Result<int>)
      reads this
      ensures r.Ok? <==> 0 <= t1 < |teams| && 0 <= t2 < |teams|
      ensures r.Ok? ==> r.value == teams[t1].wins + teams[t1].remaining - teams[t2].wins - 1
      ensures !(0 <= t1 < |teams|) ==> r == Err(KeyError(t1))
      ensures 0 <= t1 < |teams| && !(0 <= t2 < |teams|) ==> r == Err(KeyError(t2))
    {
      if !(0 <= t1 < |teams|) then Err(KeyError(t1))
      else if !(0 <= t2 < |teams|) then Err(KeyError(t2))
      else Ok(Headroom(teams[t1], teams[t2]))
    }

    /** linear_programming: return at the first capacitated edge of G with a
        negative capacity; otherwise networkx raises when G has no S, and the
        optimum is compared with the games left. G is only read. */
    method LinearProgramming(saturated: seq<SatEntry>, lpOptimum: Graph -> real) returns (r: Result<bool>)
      ensures r == LinearProgrammingResult(G, saturated, lpOptimum(G))
    {
      var k := 0;
      while k < |G|
        invariant 0 <= k <= |G|
        invariant forall i :: 0 <= i < k ==> !(G[i].capacity.Some? && G[i].capacity.value < 0)
      {
        var d := G[k].capacity;
        if d.Some? && d.value < 0 {
          return Ok(true);
        }
        k := k + 1;
      }
      if !HasNode(G, Source) {
        return Err(NetworkXError("S"));
      }
      var gamesRemaining := TotalGames(saturated);
      var flow := lpOptimum(G);
      r := Ok(!(Abs(flow - gamesRemaining as real) < Tolerance));
    }

    /** create_network: reset G, then add the edges of each layer in turn and
        return the saturated-edges items. */
    method CreateNetwork(teamID: int) returns (r: Result<seq<SatEntry>>)
      modifies this`G
      ensures teams == old(teams)
      ensures r == Saturated(teams, teamID)
      ensures r.Ok? ==> G == NetworkOf(teams, teamID, r.value)
      ensures r.Err? ==> G == PartialNetwork(teams, teamID)
    {
      var saturated: seq<SatEntry> := [];
      G := [];
      var all := teams;
      if !(0 <= teamID < |all|) {
        return Err(KeyError(teamID));
      }
      var remaining := OtherIds(|all|, teamID);
      var pairs := Combinations(remaining);
      assert pairs == PairsOf(|all|, teamID);
      ghost var items := Lookups(all, pairs);
      var k := 0;
      while k < |pairs|
        invariant 0 <= k <= |items|
        invariant saturated == items[..k]
        invariant G == FirstLayer(saturated)
      {
        PairsOfSound(|all|, teamID);
        LookupsPrefix(all, pairs);
        var pair := pairs[k];
        var num := all[pair.first].GetAgainst(pair.second);
        assert num == Lookup(all, pairs[k]);
        if num.Err? {
          assert k == |items|;
          assert saturated == items;
          SaturatedStopped(all, teamID, saturated);
          return Err(num.error);
        }
        PrefixStep(items, k);
        FirstLayerAppend(saturated, SatEntry(pair, num.value));
        saturated := saturated + [SatEntry(pair, num.value)];
        G := G + [Edge(Source, PairNode(pair), Some(num.value))];
        k := k + 1;
      }
      SaturatedDone(all, teamID, saturated);
      ghost var first := FirstLayer(saturated);
      assert G == first;
      var j := 0;
      while j < |saturated|
        invariant 0 <= j <= |saturated|
        invariant G == first + SecondLayer(saturated[..j])
      {
        var pair := saturated[j].pair;
        G := G + [Edge(PairNode(pair), TeamNode(pair.first), None),
                  Edge(PairNode(pair), TeamNode(pair.second), None)];
        SecondLayerStep(saturated, j);
        j := j + 1;
      }
      assert saturated[..j] == saturated;
      ghost var layers := G;
      ghost var third := ThirdLayer(all, teamID, remaining);
      var t := 0;
      while t < |remaining|
        invariant 0 <= t <= |remaining|
        invariant G == layers + third[..t]
      {
        var team := remaining[t];
        var cap := MaxAllowed(teamID, team);
        var e := Edge(TeamNode(team), Sink, Some(cap.value));
        ThirdLayerStep(all, teamID, remaining, t);
        G := G + [e];
        t := t + 1;
      }
      assert third[..t] == third;
      assert G == NetworkOf(all, teamID, saturated);
      return Ok(saturated);
    }

    /** is_eliminated: the trivial check over a copy of the teams without the
        candidate, then create_network, then the chosen solver unless the
        trivial check already decided. An unknown solver name leaves the
        trivial verdict. */
    method IsEliminated(teamID: int, solver: string, maxFlow: Graph -> int, lpOptimum: Graph -> real)
      returns (r: Result<bool>)
      modifies this`G
      ensures teams == old(teams)
      ensures r == Eliminated(teams, teamID, solver, maxFlow, lpOptimum)
      ensures !(0 <= teamID < |teams|) ==> G == old(G)
      ensures 0 <= teamID < |teams| && Saturated(teams, teamID).Ok? ==>
                G == NetworkOf(teams, teamID, Saturated(teams, teamID).value)
      ensures 0 <= teamID < |teams| && Saturated(teams, teamID).Err? ==> G == PartialNetwork(teams, teamID)
    {
      var flag1 := false;
      if !(0 <= teamID < |teams|) {
        return Err(KeyError(teamID));
      }
      var team := teams[teamID];
      var temp := teams[..teamID] + teams[teamID + 1..];
      var k := 0;
      while k < |temp|
        invariant 0 <= k <= |temp|
        invariant flag1 <==> exists i :: 0 <= i < k && Outpaces(team, temp[i])
      {
        if team.wins + team.remaining < temp[k].wins {
          flag1 := true;
        }
        k := k + 1;
      }
      assert flag1 <==> TriviallyEliminated(teams, teamID) by {
        if flag1 {
          var i :| 0 <= i < |temp| && Outpaces(team, temp[i]);
          if i < teamID {
            assert temp[i] == teams[i];
          } else {
            assert temp[i] == teams[i + 1];
          }
        }
        if TriviallyEliminated(teams, teamID) {
          var o :| 0 <= o < |teams| && o != teamID && Outpaces(team, teams[o]);
          if o < teamID {
            assert temp[o] == teams[o];
          } else {
            assert temp[o - 1] == teams[o];
          }
        }
      }
      var saturated := CreateNetwork(teamID);
      if saturated.Err? {
        return Err(saturated.error);
      }
      if !flag1 {
        if solver == NetworkFlowsSolver {
          var verdict := NetworkFlowsResult(G, saturated.value, maxFlow(G));
          if verdict.Err? {
            return Err(verdict.error);
          }
          flag1 := verdict.value;
        } else if solver == LinearProgrammingSolver {
          var verdict := LinearProgramming(saturated.value, lpOptimum);
          if verdict.Err? {
            return Err(verdict.error);
          }
          flag1 := verdict.value;
        }
      }
      return Ok(flag1);
    }
  }
}
