/** The decision rules of the two solvers. The maximum flow that networkx
    computes and the optimum of the linear program that picos and cvxopt solve
    are inputs here; what is modelled is what each solver does with them. */
module Solvers {
  import opened Wrappers
  import opened Teams
  import opened Network
  import opened Shape

  /** network_flows's rule: eliminated unless the maximum flow equals the games
      left among the other teams. */
  function NetworkFlowsVerdict(maxFlow: int, sat: seq<SatEntry>): bool
  {
    maxFlow != TotalGames(sat)
  }

  /** The tolerance linear_programming compares its optimum with. */
  const Tolerance: real := 0.1

  function Abs(x: real): real
  {
    if x < 0.0 then -x else x
  }

  /** linear_programming's rule: eliminated at once when some capacity is
      negative; otherwise eliminated unless the optimum is within the
      tolerance of the games left. */
  function LinearProgrammingVerdict(g: Graph, sat: seq<SatEntry>, optimum: real): bool
  {
    HasNegativeCapacity(g) || !(Abs(optimum - TotalGames(sat) as real) < Tolerance)
  }

  /** What network_flows returns on graph `g` with maximum flow `maxFlow`:
      networkx raises when S or T is not a node, checking S first; otherwise
      the rule above. */
  function NetworkFlowsResult(g: Graph, sat: seq<SatEntry>, maxFlow: int): (r: Result<bool>)
    ensures r.Err? <==> !HasNode(g, Source) || !HasNode(g, Sink)
    ensures !HasNode(g, Source) ==> r == Err(NetworkXError("S"))
    ensures HasNode(g, Source) && !HasNode(g, Sink) ==> r == Err(NetworkXError("T"))
    ensures r.Ok? ==> (r.value <==> maxFlow != TotalGames(sat))
  {
    if !HasNode(g, Source) then Err(NetworkXError("S"))
    else if !HasNode(g, Sink) then Err(NetworkXError("T"))
    else Ok(NetworkFlowsVerdict(maxFlow, sat))
  }

  /** What linear_programming returns on graph `g` with optimum `optimum`: the
      negative-capacity pre-check comes first; past it, the objective asks for
      the successors of S, which networkx refuses when S is not a node;
      otherwise the rule above. */
  function LinearProgrammingResult(g: Graph, sat: seq<SatEntry>, optimum: real): Result<bool>
  {
    if HasNegativeCapacity(g) then Ok(true)
    else if !HasNode(g, Source) then Err(NetworkXError("S"))
    else Ok(LinearProgrammingVerdict(g, sat, optimum))
  }

  /** An assignment of one flow value per edge that respects the capacity
      constraints of the linear program: every flow non-negative, and at most
      the capacity on every capacitated edge. */
  predicate WithinCapacity(g: Graph, f: seq<real>)
  {
    |f| == |g| &&
    forall k :: 0 <= k < |g| ==> 0.0 <= f[k] && (g[k].capacity.Some? ==> f[k] <= g[k].capacity.value as real)
  }

  /** The linear program's objective F: the flow on the edges leaving S. */
  function FlowValue(g: Graph, f: seq<real>): real
    requires |f| == |g|
  {
    if g == [] then 0.0
    else FlowValue(g[..|g| - 1], f[..|f| - 1]) + (if g[|g| - 1].from == Source then f[|f| - 1] else 0.0)
  }

  /** The flow an assignment sends along the edges of `g` that end at `n`. */
  function InFlow(g: Graph, f: seq<real>, n: Node): real
    requires |f| == |g|
  {
    if g == [] then 0.0
    else InFlow(g[..|g| - 1], f[..|f| - 1], n) + (if g[|g| - 1].to == n then f[|f| - 1] else 0.0)
  }

  /** The flow an assignment sends along the edges of `g` that start at `n`. */
  function OutFlow(g: Graph, f: seq<real>, n: Node): real
    requires |f| == |g|
  {
    if g == [] then 0.0
    else OutFlow(g[..|g| - 1], f[..|f| - 1], n) + (if g[|g| - 1].from == n then f[|f| - 1] else 0.0)
  }

  predicate ConservedAt(g: Graph, f: seq<real>, n: Node)
    requires |f| == |g|
  {
    n == Source || n == Sink || InFlow(g, f, n) == OutFlow(g, f, n)
  }

  /** The conservation constraints of the linear program: at every node of
      `g` other than S and T, the flow in equals the flow out. */
  predicate Conserves(g: Graph, f: seq<real>)
    requires |f| == |g|
  {
    forall k :: 0 <= k < |g| ==> ConservedAt(g, f, g[k].from) && ConservedAt(g, f, g[k].to)
  }

  /** The capacity constraints with a negative capacity read as zero, so that
      such an edge carries nothing. */
  predicate WithinClampedCapacity(g: Graph, f: seq<real>)
  {
    |f| == |g| &&
    forall k :: 0 <= k < |g| ==>
      0.0 <= f[k] &&
      (g[k].capacity.Some? ==> f[k] <= if g[k].capacity.value < 0 then 0.0 else g[k].capacity.value as real)
  }

  /** No assignment within capacity moves more out of S than the capacities
      leaving S allow, provided each of those edges is capacitated. */
  lemma {:induction false} FlowValueBounded(g: Graph, f: seq<real>)
    requires WithinCapacity(g, f)
    requires SourceEdgesHaveCapacity(g)
    ensures FlowValue(g, f) <= SourceCapacity(g) as real
    decreases |g|
  {
    if g != [] {
      var m := |g| - 1;
      assert WithinCapacity(g[..m], f[..m]);
      FlowValueBounded(g[..m], f[..m]);
    }
  }

  /** No capacity is negative where an assignment within capacity exists. */
  lemma WithinCapacityNonNegative(g: Graph, f: seq<real>)
    requires WithinCapacity(g, f)
    ensures !HasNegativeCapacity(g)
  {
  }

  /** Saturation: in the network built for a candidate, no assignment within
      capacity, integral or not, has a value above the games left among the
      other teams. */
  lemma SaturationBound(teams: seq<Team>, c: int, sat: seq<SatEntry>, f: seq<real>)
    requires 0 <= c < |teams|
    requires WithinCapacity(NetworkOf(teams, c, sat), f)
    ensures FlowValue(NetworkOf(teams, c, sat), f) <= TotalGames(sat) as real
  {
    SourceEdgesCapacitated(teams, c, sat);
    FlowValueBounded(NetworkOf(teams, c, sat), f);
    SourceCapacityIsTotalGames(teams, c, sat);
  }

  /** network_flows says "not eliminated" exactly when the flow saturates every
      edge out of S. */
  lemma NetworkFlowsSaturates(teams: seq<Team>, c: int, sat: seq<SatEntry>, maxFlow: int)
    requires 0 <= c < |teams|
    ensures !NetworkFlowsVerdict(maxFlow, sat) <==> maxFlow == SourceCapacity(NetworkOf(teams, c, sat))
  {
    SourceCapacityIsTotalGames(teams, c, sat);
  }

  /** With no negative capacity, an optimum closer than the tolerance to the
      maximum flow makes the two solvers agree. */
  lemma VerdictsAgree(g: Graph, sat: seq<SatEntry>, maxFlow: int, optimum: real)
    requires !HasNegativeCapacity(g)
    requires Abs(optimum - maxFlow as real) < Tolerance
    ensures LinearProgrammingVerdict(g, sat, optimum) == NetworkFlowsVerdict(maxFlow, sat)
  {
    var total := TotalGames(sat);
    if maxFlow < total {
      assert maxFlow as real <= total as real - 1.0;
    } else if maxFlow > total {
      assert maxFlow as real >= total as real + 1.0;
    }
  }
}
