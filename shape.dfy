/** What the network built for a candidate looks like: which edges leave each
    node, what the source side adds up to, where capacities can be negative,
    and that the candidate is nowhere in it. */
module Shape {
  import opened Wrappers
  import opened Teams
  import opened Network

  lemma {:induction false} OutEdgesAppend(a: Graph, b: Graph, n: Node)
    ensures OutEdges(a + b, n) == OutEdges(a, n) + OutEdges(b, n)
    decreases |b|
  {
    if b != [] {
      var m := |b| - 1;
      assert (a + b)[..|a + b| - 1] == a + b[..m];
      OutEdgesAppend(a, b[..m], n);
    } else {
      assert a + b == a;
    }
  }

  lemma {:induction false} OutEdgesNone(g: Graph, n: Node)
    requires forall k :: 0 <= k < |g| ==> g[k].from != n
    ensures OutEdges(g, n) == []
    decreases |g|
  {
    if g != [] {
      OutEdgesNone(g[..|g| - 1], n);
    }
  }

  lemma {:induction false} OutEdgesAll(g: Graph, n: Node)
    requires forall k :: 0 <= k < |g| ==> g[k].from == n
    ensures OutEdges(g, n) == g
    decreases |g|
  {
    if g != [] {
      OutEdgesAll(g[..|g| - 1], n);
    }
  }

  /** When exactly one edge leaves `n`, that edge is all OutEdges finds. */
  lemma OutEdgesSingle(g: Graph, n: Node, j: nat)
    requires j < |g| && g[j].from == n
    requires forall k :: 0 <= k < |g| && k != j ==> g[k].from != n
    ensures OutEdges(g, n) == [g[j]]
  {
    var before, at, after := g[..j], [g[j]], g[j + 1..];
    assert g == before + at + after;
    OutEdgesAppend(before + at, after, n);
    OutEdgesAppend(before, at, n);
    assert forall k :: 0 <= k < |before| ==> before[k] == g[k];
    OutEdgesNone(before, n);
    assert forall k :: 0 <= k < |after| ==> after[k] == g[j + 1 + k];
    OutEdgesNone(after, n);
    OutEdgesAll(at, n);
  }

  /** Layer 1 lists the two pair edges of each item in turn. */
  lemma {:induction false} SecondLayerAt(sat: seq<SatEntry>)
    ensures |SecondLayer(sat)| == 2 * |sat|
    ensures forall k :: 0 <= k < |SecondLayer(sat)| ==> SecondLayer(sat)[k] == PairEdges(sat[k / 2])[k % 2]
    decreases |sat|
  {
    if sat != [] {
      var m := |sat| - 1;
      var front := sat[..m];
      SecondLayerAt(front);
      var sl := SecondLayer(sat);
      assert sl == SecondLayer(front) + PairEdges(sat[m]);
      forall k | 0 <= k < |sl|
        ensures sl[k] == PairEdges(sat[k / 2])[k % 2]
      {
        if k < 2 * m {
          assert sl[k] == SecondLayer(front)[k];
          assert front[k / 2] == sat[k / 2];
        } else {
          assert k / 2 == m;
          assert sl[k] == PairEdges(sat[m])[k - 2 * m];
        }
      }
    }
  }

  /** The pair node of an item that no other item shares has exactly its two
      pair edges in layer 1. */
  lemma {:induction false} SecondLayerOut(sat: seq<SatEntry>, p: Pair)
    requires forall a, b :: 0 <= a < b < |sat| ==> sat[a].pair != sat[b].pair
    ensures (forall k :: 0 <= k < |sat| ==> sat[k].pair != p) ==> OutEdges(SecondLayer(sat), PairNode(p)) == []
    ensures forall k :: 0 <= k < |sat| && sat[k].pair == p ==>
              OutEdges(SecondLayer(sat), PairNode(p)) == PairEdges(sat[k])
    decreases |sat|
  {
    if sat != [] {
      var m := |sat| - 1;
      var front := sat[..m];
      SecondLayerOut(front, p);
      var pe := PairEdges(sat[m]);
      OutEdgesAppend(SecondLayer(front), pe, PairNode(p));
      if sat[m].pair == p {
        OutEdgesAll(pe, PairNode(p));
        assert forall k :: 0 <= k < |front| ==> front[k].pair != p;
      } else {
        OutEdgesNone(pe, PairNode(p));
        forall k | 0 <= k < |sat| && sat[k].pair == p
          ensures OutEdges(SecondLayer(sat), PairNode(p)) == PairEdges(sat[k])
        {
          assert k < m && front[k] == sat[k];
        }
      }
    }
  }

  /** The edges of the built network, by layer. */
  lemma NetworkLayers(teams: seq<Team>, c: int, sat: seq<SatEntry>)
    requires 0 <= c < |teams|
    ensures var g := NetworkOf(teams, c, sat);
            var ids := OtherIds(|teams|, c);
            |g| == 3 * |sat| + |ids| &&
            (forall k :: 0 <= k < |sat| ==> g[k] == Edge(Source, PairNode(sat[k].pair), Some(sat[k].games))) &&
            (forall k :: 0 <= k < 2 * |sat| ==> g[|sat| + k] == PairEdges(sat[k / 2])[k % 2]) &&
            (forall k :: 0 <= k < |ids| ==>
               g[3 * |sat| + k] == Edge(TeamNode(ids[k]), Sink, Some(Headroom(teams[c], teams[ids[k]]))))
  {
    SecondLayerAt(sat);
  }

  /** S has exactly one edge per item of saturated_edges, carrying its games. */
  lemma SourceOutEdges(teams: seq<Team>, c: int, sat: seq<SatEntry>)
    requires 0 <= c < |teams|
    ensures OutEdges(NetworkOf(teams, c, sat), Source) == FirstLayer(sat)
  {
    var first, second, third := FirstLayer(sat), SecondLayer(sat), ThirdLayer(teams, c, OtherIds(|teams|, c));
    SecondLayerAt(sat);
    OutEdgesAppend(first + second, third, Source);
    OutEdgesAppend(first, second, Source);
    OutEdgesAll(first, Source);
    OutEdgesNone(second, Source);
    OutEdgesNone(third, Source);
  }

  /** Every pair node has exactly two outgoing edges, to its two teams, and
      neither has a capacity. */
  lemma PairOutEdges(teams: seq<Team>, c: int, sat: seq<SatEntry>, k: nat)
    requires Saturated(teams, c) == Ok(sat)
    requires k < |sat|
    ensures 0 <= c < |teams|
    ensures OutEdges(NetworkOf(teams, c, sat), PairNode(sat[k].pair)) ==
              [Edge(PairNode(sat[k].pair), TeamNode(sat[k].pair.first), None),
               Edge(PairNode(sat[k].pair), TeamNode(sat[k].pair.second), None)]
  {
    assert 0 <= c < |teams| && forall a, b :: 0 <= a < b < |sat| ==> sat[a].pair != sat[b].pair by {
      SaturatedItems(teams, c, sat);
    }
    var n := PairNode(sat[k].pair);
    var first, second, third := FirstLayer(sat), SecondLayer(sat), ThirdLayer(teams, c, OtherIds(|teams|, c));
    OutEdgesAppend(first + second, third, n);
    OutEdgesAppend(first, second, n);
    OutEdgesNone(first, n);
    OutEdgesNone(third, n);
    SecondLayerOut(sat, sat[k].pair);
  }

  /** No edge of layers 0 and 1 leaves a team node. */
  lemma PairLayersNoTeamOut(sat: seq<SatEntry>, o: int)
    ensures OutEdges(FirstLayer(sat) + SecondLayer(sat), TeamNode(o)) == []
  {
    var first, second := FirstLayer(sat), SecondLayer(sat);
    SecondLayerAt(sat);
    OutEdgesAppend(first, second, TeamNode(o));
    OutEdgesNone(first, TeamNode(o));
    OutEdgesNone(second, TeamNode(o));
  }

  /** In layer 2, each other team has exactly its edge to T. */
  lemma ThirdLayerTeamOut(teams: seq<Team>, c: int, o: int)
    requires 0 <= c < |teams| && 0 <= o < |teams| && o != c
    ensures OutEdges(ThirdLayer(teams, c, OtherIds(|teams|, c)), TeamNode(o)) ==
              [Edge(TeamNode(o), Sink, Some(Headroom(teams[c], teams[o])))]
  {
    var ids := OtherIds(|teams|, c);
    var n := TeamNode(o);
    var third := ThirdLayer(teams, c, ids);
    OtherIdsComplete(|teams|, c);
    assert o in ids;
    var j :| 0 <= j < |ids| && ids[j] == o;
    forall k | 0 <= k < |third| && k != j
      ensures third[k].from != n
    {
      if k < j { assert ids[k] < ids[j]; } else { assert ids[j] < ids[k]; }
    }
    OutEdgesSingle(third, n, j);
  }

  /** Every team but the candidate has exactly one outgoing edge: to T, with
      capacity max_allowed(candidate, team). */
  lemma TeamOutEdges(teams: seq<Team>, c: int, sat: seq<SatEntry>, o: int)
    requires 0 <= c < |teams| && 0 <= o < |teams| && o != c
    ensures OutEdges(NetworkOf(teams, c, sat), TeamNode(o)) ==
              [Edge(TeamNode(o), Sink, Some(Headroom(teams[c], teams[o])))]
  {
    var third := ThirdLayer(teams, c, OtherIds(|teams|, c));
    OutEdgesAppend(FirstLayer(sat) + SecondLayer(sat), third, TeamNode(o));
    PairLayersNoTeamOut(sat, o);
    ThirdLayerTeamOut(teams, c, o);
  }

  /** No edge leaves T. */
  lemma SinkOutEdges(teams: seq<Team>, c: int, sat: seq<SatEntry>)
    requires 0 <= c < |teams|
    ensures OutEdges(NetworkOf(teams, c, sat), Sink) == []
  {
    NetworkLayers(teams, c, sat);
    var g := NetworkOf(teams, c, sat);
    forall k | 0 <= k < |g|
      ensures g[k].from != Sink
    {
      if k < |sat| {
      } else if k < 3 * |sat| {
        assert g[k] == PairEdges(sat[(k - |sat|) / 2])[(k - |sat|) % 2];
      } else {
        assert g[k] == g[3 * |sat| + (k - 3 * |sat|)];
      }
    }
    OutEdgesNone(g, Sink);
  }

  /** No edge of `g` touches team `c`. */
  predicate Avoids(g: Graph, c: int)
  {
    forall k :: 0 <= k < |g| ==> !Involves(g[k].from, c) && !Involves(g[k].to, c)
  }

  lemma AvoidsAppend(a: Graph, b: Graph, c: int)
    requires Avoids(a, c) && Avoids(b, c)
    ensures Avoids(a + b, c)
  {
    forall k | 0 <= k < |a + b|
      ensures !Involves((a + b)[k].from, c) && !Involves((a + b)[k].to, c)
    {
      if k >= |a| {
        assert (a + b)[k] == b[k - |a|];
      }
    }
  }

  /** The candidate appears nowhere: no edge starts or ends at its team node or
      at a pair node that contains it. */
  lemma CandidateAbsent(teams: seq<Team>, c: int, sat: seq<SatEntry>)
    requires Saturated(teams, c) == Ok(sat)
    ensures 0 <= c < |teams|
    ensures Avoids(NetworkOf(teams, c, sat), c)
  {
    SaturatedItems(teams, c, sat);
    var ids := OtherIds(|teams|, c);
    var first, second, third := FirstLayer(sat), SecondLayer(sat), ThirdLayer(teams, c, ids);
    assert Avoids(first, c);
    SecondLayerAt(sat);
    forall k | 0 <= k < |second|
      ensures !Involves(second[k].from, c) && !Involves(second[k].to, c)
    {
      var i := k / 2;
      assert second[k] == PairEdges(sat[i])[k % 2];
      assert sat[i].pair.first != c && sat[i].pair.second != c;
    }
    assert Avoids(third, c);
    AvoidsAppend(first, second, c);
    AvoidsAppend(first + second, third, c);
  }

  lemma {:induction false} SourceCapacityAppend(a: Graph, b: Graph)
    ensures SourceCapacity(a + b) == SourceCapacity(a) + SourceCapacity(b)
    decreases |b|
  {
    if b != [] {
      var m := |b| - 1;
      assert (a + b)[..|a + b| - 1] == a + b[..m];
      SourceCapacityAppend(a, b[..m]);
    } else {
      assert a + b == a;
    }
  }

  lemma {:induction false} SourceCapacityNone(g: Graph)
    requires forall k :: 0 <= k < |g| ==> g[k].from != Source
    ensures SourceCapacity(g) == 0
    decreases |g|
  {
    if g != [] {
      SourceCapacityNone(g[..|g| - 1]);
    }
  }

  lemma {:induction false} SourceCapacityFirstLayer(sat: seq<SatEntry>)
    ensures SourceCapacity(FirstLayer(sat)) == TotalGames(sat)
    decreases |sat|
  {
    if sat != [] {
      var m := |sat| - 1;
      assert FirstLayer(sat)[..m] == FirstLayer(sat[..m]);
      SourceCapacityFirstLayer(sat[..m]);
    }
  }

  /** The capacities leaving S add up to sum(saturated_edges.values()), the
      games_remaining both solvers compare against. */
  lemma SourceCapacityIsTotalGames(teams: seq<Team>, c: int, sat: seq<SatEntry>)
    requires 0 <= c < |teams|
    ensures SourceCapacity(NetworkOf(teams, c, sat)) == TotalGames(sat)
  {
    var first, second, third := FirstLayer(sat), SecondLayer(sat), ThirdLayer(teams, c, OtherIds(|teams|, c));
    SecondLayerAt(sat);
    SourceCapacityAppend(first + second, third);
    SourceCapacityAppend(first, second);
    SourceCapacityFirstLayer(sat);
    SourceCapacityNone(second);
    SourceCapacityNone(third);
  }

  /** Every edge out of S in `g` has a capacity. */
  predicate SourceEdgesHaveCapacity(g: Graph)
  {
    forall k :: 0 <= k < |g| && g[k].from == Source ==> g[k].capacity.Some?
  }

  lemma SourceEdgesAppend(a: Graph, b: Graph)
    requires SourceEdgesHaveCapacity(a) && SourceEdgesHaveCapacity(b)
    ensures SourceEdgesHaveCapacity(a + b)
  {
    forall k | 0 <= k < |a + b| && (a + b)[k].from == Source
      ensures (a + b)[k].capacity.Some?
    {
      if k >= |a| {
        assert (a + b)[k] == b[k - |a|];
      }
    }
  }

  /** Every edge out of S in the built network has a capacity. */
  lemma SourceEdgesCapacitated(teams: seq<Team>, c: int, sat: seq<SatEntry>)
    requires 0 <= c < |teams|
    ensures SourceEdgesHaveCapacity(NetworkOf(teams, c, sat))
  {
    var first, second, third := FirstLayer(sat), SecondLayer(sat), ThirdLayer(teams, c, OtherIds(|teams|, c));
    SecondLayerUncapacitated(sat);
    SourceEdgesAppend(first, second);
    SourceEdgesAppend(first + second, third);
  }

  lemma HasNegativeCapacityAppend(a: Graph, b: Graph)
    ensures HasNegativeCapacity(a + b) <==> HasNegativeCapacity(a) || HasNegativeCapacity(b)
  {
    if HasNegativeCapacity(a + b) {
      var k :| 0 <= k < |a + b| && (a + b)[k].capacity.Some? && (a + b)[k].capacity.value < 0;
      if k >= |a| {
        assert b[k - |a|] == (a + b)[k];
      } else {
        assert a[k] == (a + b)[k];
      }
    }
    if HasNegativeCapacity(a) {
      var k :| 0 <= k < |a| && a[k].capacity.Some? && a[k].capacity.value < 0;
      assert (a + b)[k] == a[k];
    }
    if HasNegativeCapacity(b) {
      var k :| 0 <= k < |b| && b[k].capacity.Some? && b[k].capacity.value < 0;
      assert (a + b)[|a| + k] == b[k];
    }
  }

  lemma FirstLayerNegative(sat: seq<SatEntry>)
    ensures HasNegativeCapacity(FirstLayer(sat)) <==> exists k :: 0 <= k < |sat| && sat[k].games < 0
  {
    if exists k :: 0 <= k < |sat| && sat[k].games < 0 {
      var k :| 0 <= k < |sat| && sat[k].games < 0;
      assert FirstLayer(sat)[k].capacity == Some(sat[k].games);
    }
  }

  /** No edge of layer 1 has a capacity, and none leaves S. */
  lemma SecondLayerUncapacitated(sat: seq<SatEntry>)
    ensures forall k :: 0 <= k < |SecondLayer(sat)| ==>
              SecondLayer(sat)[k].capacity.None? && SecondLayer(sat)[k].from.PairNode?
    ensures !HasNegativeCapacity(SecondLayer(sat))
  {
    SecondLayerAt(sat);
    var second := SecondLayer(sat);
    forall k | 0 <= k < |second|
      ensures second[k].capacity.None? && second[k].from.PairNode?
    {
      assert second[k] == PairEdges(sat[k / 2])[k % 2];
    }
  }

  /** The position of `x` in `s`. */
  ghost function IndexOf(s: seq<int>, x: int): (i: nat)
    requires x in s
    ensures i < |s| && s[i] == x
  {
    var i :| 0 <= i < |s| && s[i] == x; i
  }

  lemma ThirdLayerNegativeAt(teams: seq<Team>, c: int, ids: seq<int>)
    requires 0 <= c < |teams|
    requires forall k :: 0 <= k < |ids| ==> 0 <= ids[k] < |teams|
    ensures HasNegativeCapacity(ThirdLayer(teams, c, ids)) <==>
              exists i :: 0 <= i < |ids| && Headroom(teams[c], teams[ids[i]]) < 0
  {
    var third := ThirdLayer(teams, c, ids);
    if exists i :: 0 <= i < |ids| && Headroom(teams[c], teams[ids[i]]) < 0 {
      var i :| 0 <= i < |ids| && Headroom(teams[c], teams[ids[i]]) < 0;
      assert third[i].capacity == Some(Headroom(teams[c], teams[ids[i]]));
    }
  }

  lemma ThirdLayerNegative(teams: seq<Team>, c: int)
    requires 0 <= c < |teams|
    ensures HasNegativeCapacity(ThirdLayer(teams, c, OtherIds(|teams|, c))) <==>
              exists o :: 0 <= o < |teams| && o != c && Headroom(teams[c], teams[o]) < 0
  {
    var ids := OtherIds(|teams|, c);
    var third := ThirdLayer(teams, c, ids);
    ThirdLayerNegativeAt(teams, c, ids);
    OtherIdsComplete(|teams|, c);
    assert (exists o :: 0 <= o < |teams| && o != c && Headroom(teams[c], teams[o]) < 0) ==>
             HasNegativeCapacity(third) by {
      if exists o :: 0 <= o < |teams| && o != c && Headroom(teams[c], teams[o]) < 0 {
        var o :| 0 <= o < |teams| && o != c && Headroom(teams[c], teams[o]) < 0;
        var i := IndexOf(ids, o);
        assert Headroom(teams[c], teams[ids[i]]) < 0;
      }
    }
  }

  /** A capacity in the built network is negative exactly when some pair has a
      negative games count or some team other than the candidate has a
      negative max_allowed. */
  lemma NegativeCapacityIff(teams: seq<Team>, c: int, sat: seq<SatEntry>)
    requires 0 <= c < |teams|
    ensures HasNegativeCapacity(NetworkOf(teams, c, sat)) <==>
              (exists k :: 0 <= k < |sat| && sat[k].games < 0) ||
              (exists o :: 0 <= o < |teams| && o != c && Headroom(teams[c], teams[o]) < 0)
  {
    var first, second, third := FirstLayer(sat), SecondLayer(sat), ThirdLayer(teams, c, OtherIds(|teams|, c));
    HasNegativeCapacityAppend(first + second, third);
    HasNegativeCapacityAppend(first, second);
    FirstLayerNegative(sat);
    SecondLayerUncapacitated(sat);
    ThirdLayerNegative(teams, c);
  }

  /** S is a node of the built network exactly when saturated_edges has an
      item, that is, when two other teams exist. */
  lemma SourcePresent(teams: seq<Team>, c: int, sat: seq<SatEntry>)
    requires 0 <= c < |teams|
    ensures HasNode(NetworkOf(teams, c, sat), Source) <==> sat != []
  {
    NetworkLayers(teams, c, sat);
    var g := NetworkOf(teams, c, sat);
    if sat != [] {
      assert g[0].from == Source;
    } else {
      forall k | 0 <= k < |g|
        ensures g[k].from != Source && g[k].to != Source
      {
        assert g[3 * |sat| + k] == g[k];
      }
    }
  }

  /** T is a node of the built network exactly when the division has a team
      besides the candidate. */
  lemma SinkPresent(teams: seq<Team>, c: int, sat: seq<SatEntry>)
    requires 0 <= c < |teams|
    ensures HasNode(NetworkOf(teams, c, sat), Sink) <==> |teams| > 1
  {
    NetworkLayers(teams, c, sat);
    var g := NetworkOf(teams, c, sat);
    var ids := OtherIds(|teams|, c);
    if |teams| > 1 {
      assert g[3 * |sat|].to == Sink;
    } else {
      forall k | 0 <= k < |g|
        ensures g[k].from != Sink && g[k].to != Sink
      {
        if k < |sat| {
        } else {
          assert g[|sat| + (k - |sat|)] == PairEdges(sat[(k - |sat|) / 2])[(k - |sat|) % 2];
        }
      }
    }
  }
}
