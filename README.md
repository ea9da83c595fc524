# Badminton elimination

A Dafny model of the badminton elimination program in
`badminton_elimination.py`. A *division* holds teams with ids 0 to n-1.
Each team has wins, losses, games remaining and a list of the games it still
plays against each team. The program decides whether a candidate team is
*mathematically eliminated*, meaning it can no longer finish with more wins
than every other team. There are three parts to the decision:

- A trivial check: is some other team already ahead of anything the candidate
  can reach?
- The construction of a flow network with three layers of edges:
  - S to a node for every pair of other teams, with capacity the games left
    between the two teams;
  - each pair node to its two team nodes, with no capacity;
  - each other team to T, with capacity `max_allowed` (how many more games that
    team may win and still finish below the candidate).
- One of two solvers:
  - *network flows* compares the maximum flow with the games left;
  - *linear programming* first looks for a negative capacity and then compares
    the optimum of the flow program with the games left, within 0.1.

The model follows the program's structure:

- `Teams` holds the `Team` record and `get_against`. Python list indexing is
  modelled, negative indexes counting from the end.
- `Network` holds `remaining_teams`, `itertools.combinations`, the
  saturated-edges dictionary and the three layers of edges. The network is an
  edge list in the order `create_network` adds the edges.
- `Shape` proves what the built network looks like: the out-edges of every
  node, where the candidate does not appear, the total capacity out of S, and
  when a capacity is negative.
- `Solvers` holds the decision rules of the two solvers and the
  flow-conservation bound behind them.
- `Badminton` holds the `Division` class, with fields `teams` and `G`.
  `create_network` and `is_eliminated` are methods that update `G` in place.
  `linear_programming` is a method that only reads `G`. `network_flows` is
  `Solvers.NetworkFlowsResult` applied to `G`. The module also holds `Eliminated`, the function that
  states what `is_eliminated` returns, and the lemmas about it.

The maximum flow (networkx) and the optimum of the linear program (picos with
cvxopt) are parameters: functions from the network to a number. The model
states what each solver does with that number. It also models networkx's
error for a node missing from the graph. `network_flows` raises for a missing
S, then for a missing T. The linear program raises for a missing S when it
lists the successors of S.

Outcomes of the code worth knowing, each proved in the model:

- **Two teams tied.** Team A and team B both have five wins and no games left,
  so A is not trivially eliminated. The linear-programming path answers
  "eliminated", because `max_allowed` gives -1 and the negative-capacity
  pre-check fires. The network-flows path raises, because without a pair of
  other teams the graph has no S. `Badminton.TwoTeamTie` proves both.
  `Badminton.NegativeCapacityMeansBehind` covers ties in general: the pre-check
  fires whenever another team already has at least as many wins as the
  candidate can reach.
- **The two solvers can disagree on a tie with games left.** A has five wins
  and no games left. B has five wins and one game left, against C. C has no
  wins. Linear programming answers "eliminated" at the pre-check. Network flows
  answers "eliminated" only when networkx's maximum flow differs from 1. So the
  two disagree exactly when that maximum flow is 1. `Badminton.TieSolversDisagree`
  proves both answers. It also proves that 1 is the maximum once the negative
  capacity into T is read as zero. Sending 1 along S, (B, C), C, T respects
  those capacities and conserves flow, and no assignment within them sends
  more. The model does not prove that networkx reads a negative capacity that
  way. The agreement lemmas therefore cover only networks without a negative
  capacity.
- **No pair to play.** When the candidate faces a single other team that is not
  trivially ahead, the graph has no S. Network flows then raises, and so does
  linear programming unless a capacity is negative. `Badminton.SolverErrors`
  proves exactly when this happens.
- **Negative ids in `get_against`.** A negative id reads from the end of the
  list, as Python indexing does. Only an index outside the list raises
  `ValueError`.

## Model

| member | source | states |
|---|---|---|
| Teams.Team.GetAgainst | badminton_elimination.py:268-277 | succeeds exactly for the indexes Python lists accept (from -len up to len-1); a non-negative index reads that entry, a negative one counts from the end; every other index raises ValueError("Team does not exist in given input.") |
| Teams.GetAgainstNegativeWraps | badminton_elimination.py:273 | a negative index reads the same entry as that index plus the length of the list |
| Teams.HeadroomNegative | badminton_elimination.py:136-138 | the max_allowed arithmetic is negative exactly when the other team already has at least as many wins as the candidate can reach |
| Network.OtherIds | badminton_elimination.py:100-102 | remaining_teams holds ids of the division other than the candidate, n-1 of them when the candidate is a team |
| Network.OtherIdsComplete | badminton_elimination.py:100-102 | every other id is in remaining_teams, in increasing (dictionary) order |
| Network.CombinationsMembers | badminton_elimination.py:105 | itertools.combinations(s, 2) yields exactly the pairs of two elements of s taken in the order they occur |
| Network.CombinationsOrdered | badminton_elimination.py:105 | over increasing ids, the pairs come in lexicographic order, each with first < second |
| Network.CombinationsCount | badminton_elimination.py:105 | there are len(s)*(len(s)-1)/2 pairs |
| Network.PairsOfKeys | badminton_elimination.py:100-105 | the pairs of other teams are strictly increasing in lexicographic order, hence pairwise distinct |
| Network.PairsOfSound | badminton_elimination.py:100-105 | every pair is (i, j) with i < j, both ids in range and neither the candidate |
| Network.PairsOfComplete | badminton_elimination.py:100-105 | every (i, j) with i < j of two other teams is one of the pairs |
| Network.LookupsPrefix | badminton_elimination.py:105-108 | the recorded items are the successful get_against lookups of the first pairs, in order; when they stop short, the next lookup is the one that raised |
| Network.SaturatedItems | badminton_elimination.py:95-108 | on success the saturated-edges keys are the pairs in order, distinct and avoiding the candidate, and each value is the first team's against entry for the second |
| Network.SaturatedOkIff | badminton_elimination.py:105-108 | create_network succeeds exactly when the candidate is a team and every other team has an against entry for every later other team; an unknown candidate is a KeyError, any other failure is the ValueError of get_against |
| Shape.SecondLayerAt | badminton_elimination.py:110-113 | the second layer has two edges per item, the item's pair to its first team and then to its second |
| Shape.SecondLayerOut | badminton_elimination.py:110-113 | within the second layer, a pair node has exactly its item's two edges, and a pair that is no key has none |
| Shape.NetworkLayers | badminton_elimination.py:104-117 | the network has three edges per item plus one per other team: first the S edges in item order, then the two pair edges of each item, then each other team's edge to T with its max_allowed |
| Shape.SourceOutEdges | badminton_elimination.py:107-108 | the edges leaving S are one per item, to its pair node, carrying its games |
| Shape.PairOutEdges | badminton_elimination.py:110-113 | every pair node has exactly two outgoing edges, uncapacitated, to its two teams |
| Shape.TeamOutEdges | badminton_elimination.py:115-117 | every other team has exactly one outgoing edge, to T, with capacity max_allowed(candidate, team) |
| Shape.SinkOutEdges | badminton_elimination.py:95-117 | no edge leaves T |
| Shape.CandidateAbsent | badminton_elimination.py:100-117 | no edge of the network starts or ends at the candidate's node or at a pair containing the candidate |
| Shape.SourceCapacityIsTotalGames | badminton_elimination.py:104-108 | the capacities out of S add up to the sum of the saturated-edges values |
| Shape.SourceEdgesCapacitated | badminton_elimination.py:108 | every edge out of S has a capacity |
| Shape.FirstLayerNegative | badminton_elimination.py:176-182 | the first layer has a negative capacity exactly when some pair has negative games left |
| Shape.ThirdLayerNegative | badminton_elimination.py:176-182 | the third layer has a negative capacity exactly when some other team's max_allowed is negative |
| Shape.NegativeCapacityIff | badminton_elimination.py:174-182 | the pre-check finds a negative capacity in the network exactly when some pair has negative games left or some other team's max_allowed is negative |
| Shape.SourcePresent | badminton_elimination.py:104-108 | the built network has the node S exactly when there is a saturated-edges item |
| Shape.SinkPresent | badminton_elimination.py:115-117 | the built network has the node T exactly when the division has a team besides the candidate |
| Solvers.FlowValueBounded | badminton_elimination.py:186-206 | a real-valued assignment within the capacity constraints (non-negative, at most each capacity) moves no more out of S than the capacities out of S |
| Solvers.WithinCapacityNonNegative | badminton_elimination.py:174-191 | an assignment within the capacities exists only for a network without a negative capacity |
| Solvers.SaturationBound | badminton_elimination.py:186-206 | in the built network no real-valued assignment within the capacities moves more out of S than the games left between the other teams |
| Solvers.NetworkFlowsResult | badminton_elimination.py:140-155 | raises networkx's error for a missing S, then for a missing T; otherwise answers "eliminated" exactly when the maximum flow differs from the games left |
| Solvers.NetworkFlowsSaturates | badminton_elimination.py:150-155 | network_flows answers "not eliminated" exactly when the maximum flow equals the total capacity out of S |
| Solvers.VerdictsAgree | badminton_elimination.py:220-227 | with no negative capacity and an optimum within 0.1 of the integer maximum flow, the two solvers agree |
| Badminton.EliminatedErrors | badminton_elimination.py:65-82 | whenever create_network raises, is_eliminated raises the same exception; an unknown candidate is a KeyError, any other failure the ValueError of get_against |
| Badminton.SolverErrors | badminton_elimination.py:75-82 | once the network is built, is_eliminated raises exactly when there is no pair, the candidate is not trivially eliminated, and the solver is network flows, or linear programming finds no negative capacity; the error is networkx's for S |
| Badminton.TrivialIsEliminated | badminton_elimination.py:71-76 | a trivially eliminated team is eliminated whatever the solver, once the network is built |
| Badminton.UnknownSolver | badminton_elimination.py:76-82 | a solver name other than the two known ones leaves the trivial verdict |
| Badminton.NegativeCapacityMeansBehind | badminton_elimination.py:176-182 | the pre-check fires exactly when some pair has negative games left or some other team already has at least as many wins as the candidate can reach |
| Badminton.TrivialImpliesNegativeCapacity | badminton_elimination.py:71-73 | a trivially eliminated candidate always trips the negative-capacity pre-check |
| Badminton.NetworkFlowsDecision | badminton_elimination.py:71-78 | with network flows and a maximum flow that is the value of an assignment within the capacities: trivially eliminated gives True; otherwise no pair raises networkx's error for S, and with pairs the candidate is eliminated exactly when the flow falls short of the games left |
| Badminton.LinearProgrammingDecision | badminton_elimination.py:71-82 | with linear programming and an optimum that is the value of an assignment within the capacities: trivially eliminated gives True; otherwise no pair raises networkx's error for S, and with pairs the candidate is eliminated exactly when the optimum is at least 0.1 below the games left |
| Badminton.SolversAgree | badminton_elimination.py:76-80 | with no negative capacity and an optimum within 0.1 of the maximum flow, is_eliminated gives the same result with either solver, raising included |
| Badminton.TwoTeamTie | badminton_elimination.py:140-183 | two teams level on five wins with no games left: team 0 is not trivially eliminated, linear programming declares it eliminated, and network flows raises for the missing S |
| Badminton.TieSolversDisagree | badminton_elimination.py:140-183 | three teams with a tie at the top and one game left elsewhere: the candidate is not trivially eliminated; linear programming declares it eliminated, and network flows only when the maximum flow is not 1; with the negative capacity read as zero, an assignment conserving flow sends 1 and none sends more |
| Badminton.TieFlowConserved | badminton_elimination.py:186-206 | in that network, the assignment sending 1 along S, (B, C), C, T is non-negative, within every capacity (the negative one read as zero), conserves flow at every node other than S and T, and has objective 1 |
| Badminton.TieFlowBounded | badminton_elimination.py:186-206 | in that network, no non-negative assignment within the capacities (the negative one read as zero) has an objective above 1 |
| Badminton.Division.constructor | badminton_elimination.py:24-43 | row i of the parsed input becomes the team with id i; G starts empty |
| Badminton.Division.CheckTeam | badminton_elimination.py:230-234 | passes exactly when the team's id is a key of the division, else raises ValueError("Team does not exist in given input.") |
| Badminton.Division.MembersPassCheck | badminton_elimination.py:41-43 | every team of the division passes checkTeam |
| Badminton.Division.MaxAllowed | badminton_elimination.py:131-138 | for two known ids, the first team's wins plus remaining, minus the second's wins, minus one; a KeyError names the first unknown id |
| Badminton.Division.LinearProgramming | badminton_elimination.py:174-227 | returns True at a negative capacity; otherwise raises networkx's error when G has no S, and else returns whether the optimum is 0.1 or more away from the games left |
| Badminton.Division.CreateNetwork | badminton_elimination.py:95-129 | returns what Saturated states; on success G is the three layers in order; on a raise G holds the S edges added before the failing lookup; teams unchanged |
| Badminton.Division.IsEliminated | badminton_elimination.py:65-82 | returns what Eliminated states for every solver name, solver errors included; leaves G as create_network left it (unchanged on a KeyError for the candidate), and leaves teams unchanged |

## Left out

- Reading the input file (`readDivision`'s file I/O and string splitting): the constructor takes the rows already parsed. A malformed file is not modelled.
- The maximum-flow computation of networkx: it is a parameter of `NetworkFlowsResult`, `Eliminated` and `IsEliminated`. Its error for a missing S or T is modelled as `NetworkXError` naming the node; the exact exception class networkx raises is not.
- networkx's treatment of negative capacities in the maximum-flow computation: the maximum flow is a parameter. For a network with a negative capacity the model does not fix its value. Badminton.TieSolversDisagree states the maximum with a negative capacity read as zero, but that networkx computes this value is not modelled.
- Badminton.SolversAgree: covers only networks without a negative capacity, because with a tie the linear-programming pre-check answers True while network flows may not (Badminton.TieSolversDisagree).
- Badminton.NetworkFlowsDecision: the flow is an assignment within the capacities, which exists only for a network without a negative capacity (Solvers.WithinCapacityNonNegative); for other networks the verdict is stated by Eliminated alone.
- Building and solving the linear program with picos and cvxopt, and the floating-point value of `F`: the optimum is a parameter and is compared as an exact real.
- The `show` drawing branch of `create_network` (matplotlib), the debug `print` calls of `network_flows`, `__str__` of both classes, and the `__main__` block: they are output only.
- `get_against`'s default argument `None`: indexing a list with `None` raises, which is the same ValueError the model gives for any index outside the list. Only integer ids are modelled.
- networkx node identity: pair nodes, team nodes, S and T are distinct constructors. A team id that collides with the strings 'S' or 'T' cannot arise from the integer ids.
