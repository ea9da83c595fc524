/** The flow network that create_network builds for one candidate team:
    source S, one node per 2-combination of the other teams, one node per
    other team, sink T. This module defines the network as a value; the
    class Badminton.Division builds it step by step. */
module Network {
  import opened Wrappers
  import opened Teams

  /** A key of the saturated-edges dictionary: two team ids, in input order. */
  datatype Pair = Pair(first: int, second: int)

  datatype Node = Source | Sink | PairNode(pair: Pair) | TeamNode(id: int)

  /** A directed edge; `capacity` is None on the uncapacitated pair-to-team edges. */
  datatype Edge = Edge(from: Node, to: Node, capacity: Option<int>)

  /** The directed graph, as its edges in the order they are added. */
  type Graph = seq<Edge>

  /** One item of the saturated-edges dictionary: a pair of teams and the games
      they have left against each other. */
  datatype SatEntry = SatEntry(pair: Pair, games: int)

  ghost predicate Increasing(s: seq<int>)
  {
    forall a, b :: 0 <= a < b < |s| ==> s[a] < s[b]
  }

  /** The order in which itertools.combinations produces pairs of an
      increasing sequence: lexicographic. */
  predicate PairBefore(p: Pair, q: Pair)
  {
    p.first < q.first || (p.first == q.first && p.second < q.second)
  }

  /** The ids of a division of `n` teams once the candidate `c` is removed
      from a copy of the dictionary, in input order. */
  function OtherIds(n: nat, c: int): (ids: seq<int>)
    ensures forall k :: 0 <= k < |ids| ==> 0 <= ids[k] < n && ids[k] != c
    ensures |ids| == if 0 <= c < n then n - 1 else n
  {
    if n == 0 then [] else OtherIds(n - 1, c) + (if n - 1 == c then [] else [n - 1])
  }

  /** Every id but the candidate's is there, once, in increasing order. */
  lemma {:induction false} OtherIdsComplete(n: nat, c: int)
    ensures forall x :: 0 <= x < n && x != c ==> x in OtherIds(n, c)
    ensures Increasing(OtherIds(n, c))
  {
    if n > 0 {
      OtherIdsComplete(n - 1, c);
    }
  }

  /** The pairs of `x` with each element of `rest`, in order. */
  function PairsWith(x: int, rest: seq<int>): (r: seq<Pair>)
  {
    seq(|rest|, k requires 0 <= k < |rest| => Pair(x, rest[k]))
  }

  /** itertools.combinations(s, 2). */
  function Combinations(s: seq<int>): seq<Pair>
    decreases |s|
  {
    if |s| == 0 then [] else PairsWith(s[0], s[1..]) + Combinations(s[1..])
  }

  /** `p` is made of two elements of `s`, taken in the order they occur. */
  ghost predicate IsCombination(p: Pair, s: seq<int>)
  {
    exists a, b :: 0 <= a < b < |s| && p == Pair(s[a], s[b])
  }

  /** Every 2-combination of `s` is produced, and nothing else. */
  lemma {:induction false} CombinationsMembers(s: seq<int>)
    ensures forall k :: 0 <= k < |Combinations(s)| ==> IsCombination(Combinations(s)[k], s)
    ensures forall a, b :: 0 <= a < b < |s| ==> Pair(s[a], s[b]) in Combinations(s)
    decreases |s|
  {
    if |s| > 0 {
      var rest := s[1..];
      var row := PairsWith(s[0], rest);
      var tail := Combinations(rest);
      CombinationsMembers(rest);
      assert Combinations(s) == row + tail;
      forall k | 0 <= k < |Combinations(s)|
        ensures IsCombination(Combinations(s)[k], s)
      {
        if k < |row| {
          assert Combinations(s)[k] == Pair(s[0], s[k + 1]);
        } else {
          assert Combinations(s)[k] == tail[k - |row|];
          assert IsCombination(tail[k - |row|], rest);
          var a, b :| 0 <= a < b < |rest| && tail[k - |row|] == Pair(rest[a], rest[b]);
          assert Combinations(s)[k] == Pair(s[a + 1], s[b + 1]);
        }
      }
      forall a, b | 0 <= a < b < |s|
        ensures Pair(s[a], s[b]) in Combinations(s)
      {
        if a == 0 {
          assert row[b - 1] == Pair(s[a], s[b]);
        } else {
          assert rest[a - 1] == s[a] && rest[b - 1] == s[b];
          assert Pair(rest[a - 1], rest[b - 1]) in tail;
        }
      }
    }
  }

  /** For an increasing `s`, every pair is in order and starts at or after
      the first element. */
  lemma {:induction false} CombinationsInOrder(s: seq<int>)
    requires Increasing(s)
    ensures forall k :: 0 <= k < |Combinations(s)| ==>
              Combinations(s)[k].first < Combinations(s)[k].second
    ensures |s| > 0 ==> forall k :: 0 <= k < |Combinations(s)| ==> s[0] <= Combinations(s)[k].first
    decreases |s|
  {
    if |s| > 0 {
      var rest := s[1..];
      var row := PairsWith(s[0], rest);
      var tail := Combinations(rest);
      assert Increasing(rest);
      CombinationsInOrder(rest);
      var all := Combinations(s);
      assert all == row + tail;
      forall k | 0 <= k < |all|
        ensures all[k].first < all[k].second && s[0] <= all[k].first
      {
        if k < |row| {
          assert all[k] == Pair(s[0], s[k + 1]);
        } else {
          assert all[k] == tail[k - |row|];
          assert s[0] < s[1] == rest[0];
        }
      }
    }
  }

  /** For an increasing `s`, every pair is in order and the pairs come in
      strictly increasing lexicographic order, so none is repeated. */
  lemma {:induction false} CombinationsOrdered(s: seq<int>)
    requires Increasing(s)
    ensures forall k :: 0 <= k < |Combinations(s)| ==>
              Combinations(s)[k].first < Combinations(s)[k].second
    ensures forall a, b :: 0 <= a < b < |Combinations(s)| ==>
              PairBefore(Combinations(s)[a], Combinations(s)[b])
    decreases |s|
  {
    CombinationsInOrder(s);
    if |s| > 0 {
      var rest := s[1..];
      var row := PairsWith(s[0], rest);
      var tail := Combinations(rest);
      assert Increasing(rest);
      CombinationsOrdered(rest);
      CombinationsInOrder(rest);
      var all := Combinations(s);
      assert all == row + tail;
      forall a, b | 0 <= a < b < |all|
        ensures PairBefore(all[a], all[b])
      {
        if b < |row| {
          assert all[a] == Pair(s[0], s[a + 1]) && all[b] == Pair(s[0], s[b + 1]);
        } else if a < |row| {
          assert all[b] == tail[b - |row|];
          assert s[0] < s[1] == rest[0];
        } else {
          assert all[a] == tail[a - |row|] && all[b] == tail[b - |row|];
        }
      }
    }
  }

  /** There are |s| choose 2 combinations. */
  lemma {:induction false} CombinationsCount(s: seq<int>)
    ensures 2 * |Combinations(s)| == |s| * (|s| - 1)
    decreases |s|
  {
    if |s| > 0 {
      CombinationsCount(s[1..]);
      var n := |s|;
      assert |Combinations(s)| == (n - 1) + |Combinations(s[1..])|;
      assert (n - 1) * (n - 2) + 2 * (n - 1) == n * (n - 1);
    }
  }

  /** The keys of saturated_edges for candidate `c` in a division of `n` teams. */
  function PairsOf(n: nat, c: int): seq<Pair>
  {
    Combinations(OtherIds(n, c))
  }

  /** The keys are exactly the unordered pairs of distinct teams other than the
      candidate, each once, smaller id first, in lexicographic order. */
  lemma PairsOfKeys(n: nat, c: int)
    ensures forall k :: 0 <= k < |PairsOf(n, c)| ==>
              var p := PairsOf(n, c)[k];
              0 <= p.first < p.second < n && p.first != c && p.second != c
    ensures forall i, j :: 0 <= i < j < n && i != c && j != c ==> Pair(i, j) in PairsOf(n, c)
    ensures forall a, b :: 0 <= a < b < |PairsOf(n, c)| ==>
              PairBefore(PairsOf(n, c)[a], PairsOf(n, c)[b])
    ensures 0 <= c < n ==> 2 * |PairsOf(n, c)| == (n - 1) * (n - 2)
  {
    var ids := OtherIds(n, c);
    OtherIdsComplete(n, c);
    CombinationsOrdered(ids);
    CombinationsCount(ids);
    PairsOfSound(n, c);
    PairsOfComplete(n, c);
  }

  lemma PairsOfSound(n: nat, c: int)
    ensures forall k :: 0 <= k < |PairsOf(n, c)| ==>
              var p := PairsOf(n, c)[k];
              0 <= p.first < p.second < n && p.first != c && p.second != c
  {
    var ids := OtherIds(n, c);
    var ps := PairsOf(n, c);
    OtherIdsComplete(n, c);
    CombinationsMembers(ids);
    forall k | 0 <= k < |ps|
      ensures 0 <= ps[k].first < ps[k].second < n && ps[k].first != c && ps[k].second != c
    {
      assert IsCombination(ps[k], ids);
      var a, b :| 0 <= a < b < |ids| && ps[k] == Pair(ids[a], ids[b]);
      assert ids[a] < ids[b];
    }
  }

  lemma PairsOfComplete(n: nat, c: int)
    ensures forall i, j :: 0 <= i < j < n && i != c && j != c ==> Pair(i, j) in PairsOf(n, c)
  {
    var ids := OtherIds(n, c);
    OtherIdsComplete(n, c);
    CombinationsMembers(ids);
    forall i, j | 0 <= i < j < n && i != c && j != c
      ensures Pair(i, j) in PairsOf(n, c)
    {
      assert i in ids && j in ids;
      var a :| 0 <= a < |ids| && ids[a] == i;
      var b :| 0 <= b < |ids| && ids[b] == j;
      assert a < b;
      assert Pair(ids[a], ids[b]) in Combinations(ids);
    }
  }

  /** The head-to-head lookup create_network makes for one pair: a KeyError
      for an unknown first team, otherwise get_against. */
  function Lookup(teams: seq<Team>, p: Pair): Result<int>
  {
    if !(0 <= p.first < |teams|) then Err(KeyError(p.first))
    else teams[p.first].GetAgainst(p.second)
  }

  /** Team `i` has an entry for team `j` in its head-to-head list. */
  predicate Scheduled(teams: seq<Team>, i: int, j: int)
    requires 0 <= i < |teams|
  {
    0 <= j < |teams[i].against|
  }

  /** The saturated-edges items recorded before the first failing lookup. */
  function Lookups(teams: seq<Team>, pairs: seq<Pair>): (r: seq<SatEntry>)
    ensures |r| <= |pairs|
  {
    if pairs == [] then []
    else match Lookup(teams, pairs[0])
      case Ok(games) => [SatEntry(pairs[0], games)] + Lookups(teams, pairs[1..])
      case Err(_) => []
  }

  /** The items are the successful lookups of a prefix of the pairs, in order;
      when they stop short, the next lookup is the one that failed. */
  lemma {:induction false} LookupsPrefix(teams: seq<Team>, pairs: seq<Pair>)
    ensures var r := Lookups(teams, pairs);
            forall k :: 0 <= k < |r| ==>
              Lookup(teams, pairs[k]).Ok? && r[k] == SatEntry(pairs[k], Lookup(teams, pairs[k]).value)
    ensures var r := Lookups(teams, pairs);
            |r| < |pairs| ==> Lookup(teams, pairs[|r|]).Err?
    decreases |pairs|
  {
    if pairs != [] {
      LookupsPrefix(teams, pairs[1..]);
    }
  }

  /** What create_network returns for candidate `c`: a KeyError when `c` is
      not a team, a ValueError when some lookup fails, and otherwise every pair
      with its games left. */
  function Saturated(teams: seq<Team>, c: int): Result<seq<SatEntry>>
  {
    if !(0 <= c < |teams|) then Err(KeyError(c))
    else
      var pairs := PairsOf(|teams|, c);
      var sat := Lookups(teams, pairs);
      if |sat| == |pairs| then Ok(sat) else Err(ValueError(NotInInput))
  }

  /** The items of saturated_edges: keys are the pairs of PairsOf in order,
      hence pairwise distinct, and each value is the first team's entry
      for the second. */
  lemma SaturatedItems(teams: seq<Team>, c: int, sat: seq<SatEntry>)
    requires Saturated(teams, c) == Ok(sat)
    ensures 0 <= c < |teams|
    ensures |sat| == |PairsOf(|teams|, c)|
    ensures forall k :: 0 <= k < |sat| ==> sat[k].pair == PairsOf(|teams|, c)[k]
    ensures forall k :: 0 <= k < |sat| ==>
              var p := sat[k].pair;
              0 <= p.first < p.second < |teams| && p.first != c && p.second != c &&
              Scheduled(teams, p.first, p.second) && sat[k].games == teams[p.first].against[p.second]
    ensures forall a, b :: 0 <= a < b < |sat| ==> PairBefore(sat[a].pair, sat[b].pair)
    ensures forall a, b :: 0 <= a < b < |sat| ==> sat[a].pair != sat[b].pair
  {
    PairsOfKeys(|teams|, c);
    PairsOfSound(|teams|, c);
    LookupsPrefix(teams, PairsOf(|teams|, c));
  }

  /** create_network succeeds exactly when the candidate is a team and every
      other team has an entry for every other team after it. */
  lemma SaturatedOkIff(teams: seq<Team>, c: int)
    ensures Saturated(teams, c).Ok? <==>
              0 <= c < |teams| &&
              forall i, j :: 0 <= i < j < |teams| && i != c && j != c ==> Scheduled(teams, i, j)
    ensures !(0 <= c < |teams|) ==> Saturated(teams, c) == Err(KeyError(c))
    ensures 0 <= c < |teams| && Saturated(teams, c).Err? ==> Saturated(teams, c) == Err(ValueError(NotInInput))
  {
    if 0 <= c < |teams| {
      var pairs := PairsOf(|teams|, c);
      PairsOfKeys(|teams|, c);
      PairsOfSound(|teams|, c);
      LookupsPrefix(teams, pairs);
      var sat := Lookups(teams, pairs);
      if |sat| == |pairs| {
        forall i, j | 0 <= i < j < |teams| && i != c && j != c
          ensures Scheduled(teams, i, j)
        {
          var k :| 0 <= k < |pairs| && pairs[k] == Pair(i, j);
          assert Lookup(teams, pairs[k]).Ok?;
        }
      } else {
        assert Lookup(teams, pairs[|sat|]).Err?;
        var p := pairs[|sat|];
        assert !Scheduled(teams, p.first, p.second);
      }
    }
  }

  /** Layer 0: an edge from S to each pair node, with the pair's games as capacity. */
  function FirstLayer(sat: seq<SatEntry>): Graph
  {
    seq(|sat|, k requires 0 <= k < |sat| => Edge(Source, PairNode(sat[k].pair), Some(sat[k].games)))
  }

  /** The two uncapacitated edges from a pair node to its teams. */
  function PairEdges(e: SatEntry): Graph
  {
    [Edge(PairNode(e.pair), TeamNode(e.pair.first), None),
     Edge(PairNode(e.pair), TeamNode(e.pair.second), None)]
  }

  /** The lookup loop of create_network, one pair at a time: a successful
      lookup adds an item; a failing one ends the items. */
  lemma LookupsStep(teams: seq<Team>, pairs: seq<Pair>, k: nat)
    requires k < |pairs|
    ensures Lookup(teams, pairs[k]).Err? ==> Lookups(teams, pairs[k..]) == []
    ensures Lookup(teams, pairs[k]).Ok? ==>
              Lookups(teams, pairs[k..]) ==
              [SatEntry(pairs[k], Lookup(teams, pairs[k]).value)] + Lookups(teams, pairs[k + 1..])
  {
    assert pairs[k..][0] == pairs[k];
    assert pairs[k..][1..] == pairs[k + 1..];
  }

  /** One more element of a prefix. */
  lemma PrefixStep<T>(s: seq<T>, k: int)
    requires 0 <= k < |s|
    ensures s[..k + 1] == s[..k] + [s[k]]
  {
  }

  /** The lookups stop at the k-th pair when its lookup fails. */
  lemma LookupsStopAt(teams: seq<Team>, pairs: seq<Pair>, sat: seq<SatEntry>, k: nat)
    requires |sat| == k < |pairs|
    requires Lookups(teams, pairs) == sat + Lookups(teams, pairs[k..])
    requires Lookup(teams, pairs[k]).Err?
    ensures Lookups(teams, pairs) == sat
  {
    LookupsStep(teams, pairs, k);
  }

  /** A successful lookup of the k-th pair extends the items by one. */
  lemma LookupsAdvance(teams: seq<Team>, pairs: seq<Pair>, sat: seq<SatEntry>, k: nat)
    requires |sat| == k < |pairs|
    requires Lookups(teams, pairs) == sat + Lookups(teams, pairs[k..])
    requires Lookup(teams, pairs[k]).Ok?
    ensures Lookups(teams, pairs) ==
              (sat + [SatEntry(pairs[k], Lookup(teams, pairs[k]).value)]) + Lookups(teams, pairs[k + 1..])
  {
    LookupsStep(teams, pairs, k);
  }

  /** The lookups have all been made once k reaches the end. */
  lemma LookupsDone(teams: seq<Team>, pairs: seq<Pair>, sat: seq<SatEntry>)
    requires |sat| == |pairs|
    requires Lookups(teams, pairs) == sat + Lookups(teams, pairs[|pairs|..])
    ensures Lookups(teams, pairs) == sat
  {
    assert pairs[|pairs|..] == [];
  }

  lemma FirstLayerAppend(sat: seq<SatEntry>, e: SatEntry)
    ensures FirstLayer(sat + [e]) == FirstLayer(sat) + [Edge(Source, PairNode(e.pair), Some(e.games))]
  {
  }

  /** Layer 1: the pair edges of every item, in dictionary order. */
  function SecondLayer(sat: seq<SatEntry>): Graph
  {
    if sat == [] then [] else SecondLayer(sat[..|sat| - 1]) + PairEdges(sat[|sat| - 1])
  }

  /** Layer 2: an edge from each team of `ids` to T, capacity max_allowed(c, team). */
  function ThirdLayer(teams: seq<Team>, c: int, ids: seq<int>): Graph
    requires 0 <= c < |teams|
    requires forall k :: 0 <= k < |ids| ==> 0 <= ids[k] < |teams|
  {
    seq(|ids|, k requires 0 <= k < |ids| => Edge(TeamNode(ids[k]), Sink, Some(Headroom(teams[c], teams[ids[k]]))))
  }

  /** Layer 1 grows by the two edges of one more item. */
  lemma SecondLayerStep(sat: seq<SatEntry>, j: int)
    requires 0 <= j < |sat|
    ensures SecondLayer(sat[..j + 1]) == SecondLayer(sat[..j]) + PairEdges(sat[j])
  {
    assert sat[..j + 1][..j] == sat[..j];
  }

  /** Layer 2 grows by the edge of one more team. */
  lemma ThirdLayerStep(teams: seq<Team>, c: int, ids: seq<int>, t: int)
    requires 0 <= c < |teams|
    requires forall k :: 0 <= k < |ids| ==> 0 <= ids[k] < |teams|
    requires 0 <= t < |ids|
    ensures ThirdLayer(teams, c, ids)[..t + 1] ==
            ThirdLayer(teams, c, ids)[..t] + [Edge(TeamNode(ids[t]), Sink, Some(Headroom(teams[c], teams[ids[t]])))]
  {
    var third := ThirdLayer(teams, c, ids);
    assert third[..t + 1] == third[..t] + [third[t]];
  }

  /** The whole graph create_network leaves in G once it succeeds. */
  function NetworkOf(teams: seq<Team>, c: int, sat: seq<SatEntry>): Graph
    requires 0 <= c < |teams|
  {
    FirstLayer(sat) + SecondLayer(sat) + ThirdLayer(teams, c, OtherIds(|teams|, c))
  }

  /** The edges leaving node `n`, in order. */
  function OutEdges(g: Graph, n: Node): Graph
  {
    if g == [] then []
    else OutEdges(g[..|g| - 1], n) + (if g[|g| - 1].from == n then [g[|g| - 1]] else [])
  }

  /** Sum of the capacities of the edges leaving S. */
  function SourceCapacity(g: Graph): int
  {
    if g == [] then 0
    else
      var e := g[|g| - 1];
      SourceCapacity(g[..|g| - 1]) + (if e.from == Source && e.capacity.Some? then e.capacity.value else 0)
  }

  /** sum(saturated_edges.values()): the games left among the other teams. */
  function TotalGames(sat: seq<SatEntry>): int
  {
    if sat == [] then 0 else TotalGames(sat[..|sat| - 1]) + sat[|sat| - 1].games
  }

  /** Some capacitated edge has a negative capacity. */
  predicate HasNegativeCapacity(g: Graph)
  {
    exists k :: 0 <= k < |g| && g[k].capacity.Some? && g[k].capacity.value < 0
  }

  /** `n` is a node of `g`: networkx adds a node with the first edge that
      starts or ends there. */
  predicate HasNode(g: Graph, n: Node)
  {
    exists k :: 0 <= k < |g| && (g[k].from == n || g[k].to == n)
  }

  /** `n` is the node of team `c` or a pair node that contains `c`. */
  predicate Involves(n: Node, c: int)
  {
    n == TeamNode(c) || (n.PairNode? && (n.pair.first == c || n.pair.second == c))
  }
}
