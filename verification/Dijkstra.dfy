// Shortest paths over a frozen road graph, with lazy deletion of stale queue
// entries and an early exit at the destination.
module Dijkstra {

  datatype Road = Road(distance: real, speedLimit: real, congestion: int)

  datatype Edge = Edge(to: nat, road: Road)

  // adj[u] lists the outgoing edges of node u.
  datatype Graph = Graph(adj: seq<seq<Edge>>)

  datatype Dist = Inf | Fin(value: real)

  function WeightMinutes(r: Road): real {
    if r.speedLimit <= 0.0 then r.distance
    else (r.distance / r.speedLimit) * (1.0 + (r.congestion - 1) as real / 10.0) * 60.0
  }

  // A positive speed limit leaves the sign to the distance and the congestion.
  lemma WeightNonNegativeIff(r: Road)
    ensures WeightMinutes(r) >= 0.0 <==>
            if r.speedLimit <= 0.0 || r.congestion > -9 then r.distance >= 0.0
            else r.congestion == -9 || r.distance <= 0.0
  {
    if r.speedLimit > 0.0 {
      var base := r.distance / r.speedLimit;
      var mult := 1.0 + (r.congestion - 1) as real / 10.0;
      assert base * r.speedLimit == r.distance;
      SignOfProduct(base, r.speedLimit);
      SignOfProduct(base, mult);
      assert WeightMinutes(r) == base * mult * 60.0;
    }
  }

  // At congestion 1 that is the time to cover the distance at the speed limit; every level
  // more adds a tenth of it. Without a speed limit it is the distance.
  lemma MinutesAtSpeed(r: Road)
    ensures var free := WeightMinutes(r.(congestion := 1));
      r.speedLimit > 0.0 ==>
        && free / 60.0 * r.speedLimit == r.distance
        && WeightMinutes(r) == free + (r.congestion - 1) as real * (free / 10.0)
    ensures r.speedLimit <= 0.0 ==> WeightMinutes(r) == r.distance
  {
    if r.speedLimit > 0.0 {
      var free := r.distance / r.speedLimit;
      var level := (r.congestion - 1) as real;
      assert free * r.speedLimit == r.distance;
      assert WeightMinutes(r.(congestion := 1)) == free * 60.0;
      assert free * (1.0 + level / 10.0) == free + free * level / 10.0;
      assert WeightMinutes(r) == free * 60.0 + level * (free * 60.0 / 10.0);
    }
  }

  lemma SignOfProduct(x: real, y: real)
    ensures y > 0.0 ==> (x * y >= 0.0 <==> x >= 0.0)
    ensures y < 0.0 ==> (x * y >= 0.0 <==> x <= 0.0)
    ensures y == 0.0 ==> x * y == 0.0
  {
    if x > 0.0 && y > 0.0 { assert x * y > 0.0; }
    if x < 0.0 && y > 0.0 { assert (-x) * y > 0.0; }
    if x > 0.0 && y < 0.0 { assert x * (-y) > 0.0; }
    if x < 0.0 && y < 0.0 { assert (-x) * (-y) > 0.0; }
  }

  // The graph as the search sees it: targets and travel times.
  datatype Arc = Arc(to: int, weight: real)

  datatype Network = Network(adj: seq<seq<Arc>>)

  function Weighted(g: Graph): (a: Network) {
    Network(seq(|g.adj|, u requires 0 <= u < |g.adj| =>
      seq(|g.adj[u]|, k requires 0 <= k < |g.adj[u]| =>
        Arc(g.adj[u][k].to, WeightMinutes(g.adj[u][k].road)))))
  }

  ghost predicate WellFormed(g: Network) {
    forall u, k :: 0 <= u < |g.adj| && 0 <= k < |g.adj[u]| ==>
      0 <= g.adj[u][k].to < |g.adj| && g.adj[u][k].weight >= 0.0
  }

  // Walks ---------------------------------------------------------------------

  ghost predicate ValidNodes(g: Network, p: seq<int>) {
    forall i :: 0 <= i < |p| ==> 0 <= p[i] < |g.adj|
  }

  // The k-th outgoing edge of u leads to v.
  ghost predicate Leads(g: Network, u: int, k: int, v: int)
    requires 0 <= u < |g.adj|
  {
    0 <= k < |g.adj[u]| && g.adj[u][k].to == v
  }

  ghost function Weight(g: Network, u: int, k: int): real
    requires 0 <= u < |g.adj| && 0 <= k < |g.adj[u]|
  {
    g.adj[u][k].weight
  }

  // w is the weight of the node sequence p along some choice of parallel roads.
  ghost predicate Costs(g: Network, p: seq<int>, w: real)
    requires ValidNodes(g, p)
    decreases |p|
  {
    if |p| == 0 then false
    else if |p| == 1 then w == 0.0
    else
      var u, v := p[|p| - 2], p[|p| - 1];
      exists k :: Leads(g, u, k, v) && Costs(g, p[..|p| - 1], w - Weight(g, u, k))
  }

  ghost predicate IsWalk(g: Network, src: int, dst: int, p: seq<int>, w: real) {
    |p| > 0 && p[0] == src && p[|p| - 1] == dst && ValidNodes(g, p) && Costs(g, p, w)
  }

  ghost predicate Distinct(s: seq<int>) {
    forall i, j :: 0 <= i < j < |s| ==> s[i] != s[j]
  }

  function Nodes(n: nat): (s: set<int>)
    ensures forall i :: 0 <= i < n ==> i in s
  {
    if n == 0 then {} else Nodes(n - 1) + {n - 1}
  }

  // The priority queue --------------------------------------------------------

  datatype Item = Item(node: int, priority: real)

  // The contents of the heap-backed queue. PopItem removes any entry of least
  // priority: which of several equal ones comes first is left open.
  class PriorityQueue {
    var items: multiset<Item>

    constructor ()
      ensures items == multiset{}
    {
      items := multiset{};
    }

    method PushItem(node: int, priority: real)
      modifies this
      ensures items == old(items) + multiset{Item(node, priority)}
    {
      items := items + multiset{Item(node, priority)};
    }

    method PopItem() returns (it: Item, ok: bool)
      modifies this
      ensures ok <==> old(items) != multiset{}
      ensures !ok ==> items == old(items)
      ensures ok ==> it in old(items) && items == old(items) - multiset{it}
      ensures ok ==> forall other :: other in old(items) ==> it.priority <= other.priority
    {
      if items == multiset{} {
        return Item(0, 0.0), false;
      }
      LeastExists(items);
      it :| it in items && forall other :: other in items ==> it.priority <= other.priority;
      ok := true;
      items := items - multiset{it};
    }
  }

  lemma {:induction false} LeastExists(q: multiset<Item>)
    requires q != multiset{}
    ensures exists it :: it in q && forall other :: other in q ==> it.priority <= other.priority
  {
    var x :| x in q;
    var rest := q - multiset{x};
    if rest == multiset{} {
      assert q == multiset{x};
    } else {
      LeastExists(rest);
      var y :| y in rest && forall other :: other in rest ==> y.priority <= other.priority;
      var z := if x.priority <= y.priority then x else y;
      forall other | other in q ensures z.priority <= other.priority {
        if other != x { assert other in rest; }
      }
      assert z in q;
    }
  }

  // Invariants of the main loop -----------------------------------------------
  //
  // D and P are the dist and prev tables, Q the queue, ord the nodes settled so
  // far in the order they were settled.

  ghost predicate Tables(g: Network, src: int, D: seq<Dist>, P: seq<int>, ord: seq<int>) {
    && |D| == |P| == |g.adj|
    && 0 <= src < |D| && D[src] == Fin(0.0) && P[src] == -1
    && Distinct(ord)
    && (forall i :: 0 <= i < |ord| ==> 0 <= ord[i] < |D| && D[ord[i]].Fin?)
    && (forall v :: 0 <= v < |D| && D[v].Fin? ==> D[v].value >= 0.0)
  }

  // A finite label other than the source's comes from an edge out of a settled
  // predecessor.
  ghost predicate Justified(g: Network, src: int, D: seq<Dist>, P: seq<int>, ord: seq<int>, v: int)
    requires |D| == |P| == |g.adj| && 0 <= v < |D|
  {
    v != src && D[v].Fin? ==>
      P[v] in ord && 0 <= P[v] < |D| && D[P[v]].Fin? &&
      exists k :: Leads(g, P[v], k, v) && D[v].value == D[P[v]].value + Weight(g, P[v], k)
  }

  // Predecessors are settled, and settled earlier; labels grow along ord.
  ghost predicate Labels(g: Network, src: int, D: seq<Dist>, P: seq<int>, ord: seq<int>)
    requires Tables(g, src, D, P, ord)
  {
    && (forall v {:trigger Justified(g, src, D, P, ord, v)} :: 0 <= v < |D| ==> Justified(g, src, D, P, ord, v))
    && (forall i {:trigger EarlierIn(ord, i, P[ord[i]])} ::
          0 <= i < |ord| && ord[i] != src ==> EarlierIn(ord, i, P[ord[i]]))
    && (forall i, j :: 0 <= i < j < |ord| ==> D[ord[i]].value <= D[ord[j]].value)
  }

  ghost predicate EarlierIn(ord: seq<int>, i: int, x: int) {
    exists j :: 0 <= j < i && j < |ord| && ord[j] == x
  }

  ghost predicate Queued(D: seq<Dist>, Q: multiset<Item>, ord: seq<int>) {
    && (forall it :: it in Q ==>
          (0 <= it.node < |D| && D[it.node].Fin? && D[it.node].value <= it.priority))
    && (forall it :: it in Q && it.node in ord ==> D[it.node].value < it.priority)
    && (forall v :: 0 <= v < |D| && D[v].Fin? && v !in ord ==> Q[Item(v, D[v].value)] == 1)
  }

  ghost predicate Frontier(D: seq<Dist>, Q: multiset<Item>, ord: seq<int>)
    requires forall i :: 0 <= i < |ord| ==> 0 <= ord[i] < |D| && D[ord[i]].Fin?
  {
    forall it, i :: it in Q && 0 <= i < |ord| ==> D[ord[i]].value <= it.priority
  }

  // The first k edges of u have been relaxed.
  ghost predicate Relaxed(g: Network, D: seq<Dist>, u: int, k: int)
    requires |D| == |g.adj| && 0 <= u < |D| && D[u].Fin? && k <= |g.adj[u]|
    requires WellFormed(g)
  {
    forall j {:trigger g.adj[u][j]} :: 0 <= j < k ==>
      var v := g.adj[u][j].to;
      D[v].Fin? && D[v].value <= D[u].value + Weight(g, u, j)
  }

  // All settled nodes but the last are fully relaxed, the last one up to k.
  ghost predicate Settled(g: Network, src: int, D: seq<Dist>, P: seq<int>, ord: seq<int>, k: nat)
    requires WellFormed(g) && Tables(g, src, D, P, ord)
  {
    && (forall i :: 0 <= i < |ord| - 1 ==> Relaxed(g, D, ord[i], |g.adj[ord[i]]|))
    && (|ord| > 0 ==> k <= |g.adj[ord[|ord| - 1]]| && Relaxed(g, D, ord[|ord| - 1], k))
  }

  ghost function LastDegree(g: Network, ord: seq<int>): nat {
    if ord == [] || !(0 <= ord[|ord| - 1] < |g.adj|) then 0 else |g.adj[ord[|ord| - 1]]|
  }

  ghost predicate Inv(g: Network, src: int, D: seq<Dist>, P: seq<int>, Q: multiset<Item>, ord: seq<int>, k: nat) {
    WellFormed(g) && Tables(g, src, D, P, ord) && Labels(g, src, D, P, ord) &&
    Queued(D, Q, ord) && Frontier(D, Q, ord) && Settled(g, src, D, P, ord, k)
  }

  // A walk that ends at an unsettled node passed the frontier on the way, so it
  // weighs at least as much as the least label m outside the settled set.
  lemma {:induction false} FrontierBound(g: Network, src: int, D: seq<Dist>, P: seq<int>,
                                         ord: seq<int>, p: seq<int>, w: real, m: Dist)
    requires WellFormed(g) && Tables(g, src, D, P, ord)
    requires Settled(g, src, D, P, ord, LastDegree(g, ord))
    requires ValidNodes(g, p) && |p| > 0 && p[0] == src && Costs(g, p, w)
    requires forall v :: 0 <= v < |D| && D[v].Fin? && v !in ord ==> m.Fin? && m.value <= D[v].value
    ensures (p[|p| - 1] in ord && D[p[|p| - 1]].value <= w) || (m.Fin? && m.value <= w)
    decreases |p|
  {
    if |p| > 1 {
      var u, v := p[|p| - 2], p[|p| - 1];
      var k :| Leads(g, u, k, v) && Costs(g, p[..|p| - 1], w - Weight(g, u, k));
      FrontierBound(g, src, D, P, ord, p[..|p| - 1], w - Weight(g, u, k), m);
      assert p[..|p| - 1][|p| - 2] == u;
      if u in ord {
        var i :| 0 <= i < |ord| && ord[i] == u;
        assert Relaxed(g, D, u, |g.adj[u]|);
        assert g.adj[u][k].to == v;
      }
    }
  }

  // Reconstruction ------------------------------------------------------------

  // Positions in ord of the chain of predecessors that ends at ord[i].
  ghost function Ranks(P: seq<int>, ord: seq<int>, i: nat): (r: seq<nat>)
    requires i < |ord| && Ranked(P, ord)
    ensures |r| > 0 && r[|r| - 1] == i
    ensures forall a, b :: 0 <= a < b < |r| ==> r[a] < r[b]
    decreases i
  {
    if P[ord[i]] == -1 then [i]
    else
      assert EarlierIn(ord, i, P[ord[i]]);
      var j :| 0 <= j < i && j < |ord| && ord[j] == P[ord[i]];
      Ranks(P, ord, j) + [i]
  }

  ghost predicate Ranked(P: seq<int>, ord: seq<int>) {
    && (forall i :: 0 <= i < |ord| ==> 0 <= ord[i] < |P|)
    && (forall i {:trigger EarlierIn(ord, i, P[ord[i]])} ::
          0 <= i < |ord| && P[ord[i]] != -1 ==> EarlierIn(ord, i, P[ord[i]]))
    && Distinct(ord)
  }

  ghost function NodesAt(ord: seq<int>, r: seq<nat>): (p: seq<int>)
    requires forall a :: 0 <= a < |r| ==> r[a] < |ord|
  {
    seq(|r|, a requires 0 <= a < |r| => ord[r[a]])
  }

  ghost function Trace(P: seq<int>, ord: seq<int>, i: nat): (p: seq<int>)
    requires i < |ord| && Ranked(P, ord)
    ensures |p| > 0 && p[|p| - 1] == ord[i] && Distinct(p)
  {
    var r := Ranks(P, ord, i);
    NodesAt(ord, r)
  }

  // The chain of ord[i] extends the chain of its predecessor.
  lemma TraceStep(P: seq<int>, ord: seq<int>, i: nat) returns (j: nat)
    requires i < |ord| && Ranked(P, ord) && P[ord[i]] != -1
    ensures j < i && ord[j] == P[ord[i]] && Trace(P, ord, i) == Trace(P, ord, j) + [ord[i]]
  {
    assert EarlierIn(ord, i, P[ord[i]]);
    j :| 0 <= j < i && j < |ord| && ord[j] == P[ord[i]] && Ranks(P, ord, i) == Ranks(P, ord, j) + [i];
  }

  lemma {:induction false} TraceCost(g: Network, src: int, D: seq<Dist>, P: seq<int>, ord: seq<int>, i: nat)
    requires Tables(g, src, D, P, ord) && Labels(g, src, D, P, ord) && Ranked(P, ord) && i < |ord|
    ensures IsWalk(g, src, ord[i], Trace(P, ord, i), D[ord[i]].value)
    decreases i
  {
    var v, t := ord[i], Trace(P, ord, i);
    if P[v] == -1 {
      assert v == src;
    } else {
      var j := TraceStep(P, ord, i);
      TraceCost(g, src, D, P, ord, j);
      assert t[..|t| - 1] == Trace(P, ord, j);
      assert t[|t| - 2] == P[v];
      assert Justified(g, src, D, P, ord, v);
    }
  }

  // Steps of the main loop ----------------------------------------------------

  // Relaxing an edge of the last settled node reaches an unsettled node.
  lemma UnsettledTarget(g: Network, src: int, D: seq<Dist>, P: seq<int>, ord: seq<int>, k: nat)
    requires WellFormed(g) && Tables(g, src, D, P, ord) && Labels(g, src, D, P, ord)
    requires |ord| > 0 && k < LastDegree(g, ord) && Improves(g, D, ord[|ord| - 1], k)
    ensures g.adj[ord[|ord| - 1]][k].to !in ord
    ensures g.adj[ord[|ord| - 1]][k].to != src
  {
    var u, v := ord[|ord| - 1], g.adj[ord[|ord| - 1]][k].to;
    forall i | 0 <= i < |ord| ensures D[ord[i]].value <= D[u].value + Weight(g, u, k) {}
  }

  ghost predicate Improves(g: Network, D: seq<Dist>, u: int, k: int)
    requires WellFormed(g) && |D| == |g.adj| && 0 <= u < |D| && D[u].Fin? && 0 <= k < |g.adj[u]|
  {
    var v := g.adj[u][k].to;
    D[v].Inf? || D[u].value + Weight(g, u, k) < D[v].value
  }

  // Relaxing an edge keeps the invariant.
  lemma RelaxKeeps(g: Network, src: int, D: seq<Dist>, P: seq<int>, Q: multiset<Item>, ord: seq<int>, k: nat)
    requires Inv(g, src, D, P, Q, ord, k)
    requires |ord| > 0 && k < LastDegree(g, ord) && Improves(g, D, ord[|ord| - 1], k)
    ensures var u := ord[|ord| - 1];
      var v, alt := g.adj[u][k].to, D[u].value + Weight(g, u, k);
      Inv(g, src, D[v := Fin(alt)], P[v := u], Q + multiset{Item(v, alt)}, ord, k + 1)
  {
    var u := ord[|ord| - 1];
    var v, alt := g.adj[u][k].to, D[u].value + Weight(g, u, k);
    UnsettledTarget(g, src, D, P, ord, k);
    RelaxKeepsTables(g, src, D, P, ord, v, alt, u);
    RelaxKeepsLabels(g, src, D, P, ord, k, D[v := Fin(alt)], P[v := u]);
    RelaxKeepsQueue(D, Q, ord, v, alt);
    RelaxKeepsFrontier(D, Q, ord, v, alt);
    RelaxKeepsSettled(g, src, D, P, ord, k, D[v := Fin(alt)], P[v := u]);
  }

  lemma RelaxKeepsTables(g: Network, src: int, D: seq<Dist>, P: seq<int>, ord: seq<int>, v: int, alt: real, u: int)
    requires Tables(g, src, D, P, ord) && 0 <= v < |D| && v !in ord && v != src && alt >= 0.0
    ensures Tables(g, src, D[v := Fin(alt)], P[v := u], ord)
  {
  }

  lemma RelaxKeepsLabels(g: Network, src: int, D: seq<Dist>, P: seq<int>, ord: seq<int>, k: nat,
                         D': seq<Dist>, P': seq<int>)
    requires WellFormed(g) && Tables(g, src, D, P, ord) && Labels(g, src, D, P, ord)
    requires |ord| > 0 && k < LastDegree(g, ord)
    requires var u := ord[|ord| - 1];
      var v := g.adj[u][k].to;
      v !in ord && D' == D[v := Fin(D[u].value + Weight(g, u, k))] && P' == P[v := u]
    requires Tables(g, src, D', P', ord)
    ensures Labels(g, src, D', P', ord)
  {
    var u := ord[|ord| - 1];
    var v := g.adj[u][k].to;
    assert Leads(g, u, k, v);
    forall x | 0 <= x < |D| ensures Justified(g, src, D', P', ord, x) {
      assert Justified(g, src, D, P, ord, x);
    }
    forall i | 0 <= i < |ord| && ord[i] != src ensures EarlierIn(ord, i, P'[ord[i]]) {
      assert EarlierIn(ord, i, P[ord[i]]);
    }
  }

  lemma RelaxKeepsQueue(D: seq<Dist>, Q: multiset<Item>, ord: seq<int>, v: int, alt: real)
    requires Queued(D, Q, ord)
    requires 0 <= v < |D| && v !in ord && (D[v].Inf? || alt < D[v].value)
    ensures Queued(D[v := Fin(alt)], Q + multiset{Item(v, alt)}, ord)
  {
    assert Item(v, alt) !in Q;
  }

  lemma RelaxKeepsFrontier(D: seq<Dist>, Q: multiset<Item>, ord: seq<int>, v: int, alt: real)
    requires forall i :: 0 <= i < |ord| ==> 0 <= ord[i] < |D| && D[ord[i]].Fin?
    requires Frontier(D, Q, ord) && 0 <= v < |D| && v !in ord
    requires forall i :: 0 <= i < |ord| ==> D[ord[i]].value <= alt
    ensures Frontier(D[v := Fin(alt)], Q + multiset{Item(v, alt)}, ord)
  {
  }

  lemma RelaxKeepsSettled(g: Network, src: int, D: seq<Dist>, P: seq<int>, ord: seq<int>, k: nat,
                          D': seq<Dist>, P': seq<int>)
    requires WellFormed(g) && Tables(g, src, D, P, ord) && Settled(g, src, D, P, ord, k)
    requires |ord| > 0 && k < LastDegree(g, ord) && Improves(g, D, ord[|ord| - 1], k)
    requires var u := ord[|ord| - 1];
      var v := g.adj[u][k].to;
      v !in ord && D' == D[v := Fin(D[u].value + Weight(g, u, k))]
    requires Tables(g, src, D', P', ord)
    ensures Settled(g, src, D', P', ord, k + 1)
  {
    forall i | 0 <= i < |ord| - 1 ensures Relaxed(g, D', ord[i], |g.adj[ord[i]]|) {
      assert Relaxed(g, D, ord[i], |g.adj[ord[i]]|);
    }
  }

  // A popped entry that is not stale settles its node.
  lemma SettleKeeps(g: Network, src: int, D: seq<Dist>, P: seq<int>, Q: multiset<Item>, ord: seq<int>, it: Item)
    requires Inv(g, src, D, P, Q, ord, LastDegree(g, ord))
    requires it in Q && forall other :: other in Q ==> it.priority <= other.priority
    requires it.priority <= D[it.node].value
    ensures it.node !in ord
    ensures Inv(g, src, D, P, Q - multiset{it}, ord + [it.node], 0)
  {
    var ord' := ord + [it.node];
    assert D[it.node].value == it.priority;
    assert Tables(g, src, D, P, ord');
    SettleKeepsLabels(g, src, D, P, ord, it.node);
    SettleKeepsQueue(D, Q, ord, it);
    assert Settled(g, src, D, P, ord', 0) by {
      forall i | 0 <= i < |ord'| - 1 ensures Relaxed(g, D, ord'[i], |g.adj[ord'[i]]|) {
        assert ord'[i] == ord[i];
      }
    }
  }

  lemma SettleKeepsLabels(g: Network, src: int, D: seq<Dist>, P: seq<int>, ord: seq<int>, u: int)
    requires Tables(g, src, D, P, ord) && Labels(g, src, D, P, ord) && Tables(g, src, D, P, ord + [u])
    requires 0 <= u < |D| && D[u].Fin? && forall i :: 0 <= i < |ord| ==> D[ord[i]].value <= D[u].value
    ensures Labels(g, src, D, P, ord + [u])
  {
    var ord' := ord + [u];
    forall v | 0 <= v < |D| ensures Justified(g, src, D, P, ord', v) {
      assert Justified(g, src, D, P, ord, v);
    }
    forall i | 0 <= i < |ord'| && ord'[i] != src ensures EarlierIn(ord', i, P[ord'[i]]) {
      if i < |ord| {
        assert EarlierIn(ord, i, P[ord[i]]);
        var j :| 0 <= j < i && j < |ord| && ord[j] == P[ord[i]];
        assert ord'[j] == P[ord'[i]];
      } else {
        assert Justified(g, src, D, P, ord, u);
        var j :| 0 <= j < |ord| && ord[j] == P[u];
        assert ord'[j] == P[u];
      }
    }
  }

  lemma SettleKeepsQueue(D: seq<Dist>, Q: multiset<Item>, ord: seq<int>, it: Item)
    requires Queued(D, Q, ord) && it in Q && it.node !in ord && it.priority == D[it.node].value
    requires forall other :: other in Q ==> it.priority <= other.priority
    requires forall i :: 0 <= i < |ord| ==> 0 <= ord[i] < |D| && D[ord[i]].Fin?
    requires Frontier(D, Q, ord)
    ensures Queued(D, Q - multiset{it}, ord + [it.node])
    ensures Frontier(D, Q - multiset{it}, ord + [it.node])
  {
    assert it == Item(it.node, D[it.node].value);
  }

  // Nothing lighter than the first fresh entry for dst can reach dst.
  lemma ExitIsOptimal(g: Network, src: int, dst: int, D: seq<Dist>, P: seq<int>, Q: multiset<Item>,
                      ord: seq<int>, it: Item)
    requires Inv(g, src, D, P, Q, ord, LastDegree(g, ord))
    requires it in Q && it.node == dst && D[dst].value == it.priority
    requires forall other :: other in Q ==> it.priority <= other.priority
    ensures Optimal(g, src, dst, D[dst])
  {
    forall p, w | IsWalk(g, src, dst, p, w) ensures it.priority <= w {
      forall v | 0 <= v < |D| && D[v].Fin? && v !in ord ensures it.priority <= D[v].value {
        assert Item(v, D[v].value) in Q;
      }
      FrontierBound(g, src, D, P, ord, p, w, Fin(it.priority));
    }
  }

  // With an empty queue every reachable node is settled.
  lemma ExhaustionIsOptimal(g: Network, src: int, dst: int, D: seq<Dist>, P: seq<int>, ord: seq<int>)
    requires Inv(g, src, D, P, multiset{}, ord, LastDegree(g, ord)) && 0 <= dst < |D|
    ensures Optimal(g, src, dst, D[dst])
    ensures D[dst].Fin? ==> dst in ord
  {
    var none: multiset<Item> := multiset{};
    assert forall v :: 0 <= v < |D| && D[v].Fin? && v !in ord ==> none[Item(v, D[v].value)] == 1;
    forall p, w | IsWalk(g, src, dst, p, w) ensures D[dst].Fin? && D[dst].value <= w {
      FrontierBound(g, src, D, P, ord, p, w, Inf);
    }
  }

  lemma InitHolds(g: Network, src: int, D: seq<Dist>, P: seq<int>, Q: multiset<Item>)
    requires WellFormed(g) && |D| == |P| == |g.adj| && 0 <= src < |D|
    requires forall v :: 0 <= v < |D| ==> P[v] == -1 && D[v] == if v == src then Fin(0.0) else Inf
    requires Q == multiset{Item(src, 0.0)}
    ensures Inv(g, src, D, P, Q, [], 0)
  {
    assert forall v :: 0 <= v < |D| ==> (v != src ==> D[v].Inf?);
  }

  lemma InQueue(g: Network, src: int, D: seq<Dist>, P: seq<int>, Q: multiset<Item>, ord: seq<int>, it: Item)
    requires Inv(g, src, D, P, Q, ord, LastDegree(g, ord)) && it in Q
    ensures 0 <= it.node < |D| && D[it.node].Fin? && D[it.node].value <= it.priority
  {
  }

  lemma DropStale(g: Network, src: int, D: seq<Dist>, P: seq<int>, Q: multiset<Item>, ord: seq<int>, it: Item)
    requires Inv(g, src, D, P, Q, ord, LastDegree(g, ord))
    requires it in Q && it.priority > D[it.node].value
    ensures Inv(g, src, D, P, Q - multiset{it}, ord, LastDegree(g, ord))
  {
  }

  lemma SkipKeeps(g: Network, src: int, D: seq<Dist>, P: seq<int>, Q: multiset<Item>, ord: seq<int>, k: nat)
    requires Inv(g, src, D, P, Q, ord, k)
    requires |ord| > 0 && k < LastDegree(g, ord) && !Improves(g, D, ord[|ord| - 1], k)
    ensures Inv(g, src, D, P, Q, ord, k + 1)
  {
  }

  lemma InvRanked(g: Network, src: int, D: seq<Dist>, P: seq<int>, ord: seq<int>)
    requires Tables(g, src, D, P, ord) && Labels(g, src, D, P, ord)
    ensures Ranked(P, ord)
  {
    forall i | 0 <= i < |ord| && P[ord[i]] != -1 ensures EarlierIn(ord, i, P[ord[i]]) {
      assert ord[i] != src;
    }
  }

  ghost predicate Optimal(g: Network, src: int, dst: int, d: Dist) {
    forall p, w :: IsWalk(g, src, dst, p, w) ==> d.Fin? && d.value <= w
  }

  // The algorithm -------------------------------------------------------------

  // Reads one edge: its target and its travel time.
  method Neighbor(g: Graph, u: nat, k: nat) returns (v: int, w: real)
    requires u < |g.adj| && k < |g.adj[u]|
    ensures Arc(v, w) == Weighted(g).adj[u][k]
  {
    v, w := g.adj[u][k].to, WeightMinutes(g.adj[u][k].road);
  }

  method Degree(g: Graph, u: nat) returns (d: nat)
    requires u < |g.adj|
    ensures |Weighted(g).adj| == |g.adj| && d == |Weighted(g).adj[u]|
  {
    d := |g.adj[u]|;
  }

  // The chain down to top, as far as it has been followed: u, of rank i, comes next.
  ghost predicate Followed(P: seq<int>, ord: seq<int>, top: nat, u: int, i: nat, path: seq<int>)
    requires Ranked(P, ord) && top < |ord|
  {
    if u == -1 then path == Trace(P, ord, top)
    else i < |ord| && ord[i] == u && Trace(P, ord, top) == Trace(P, ord, i) + path
  }

  lemma FollowStep(P: seq<int>, ord: seq<int>, top: nat, u: int, i: nat, path: seq<int>) returns (j: nat)
    requires Ranked(P, ord) && top < |ord| && u != -1 && Followed(P, ord, top, u, i, path)
    ensures 0 <= u < |P| && Followed(P, ord, top, P[u], j, [u] + path) && (P[u] != -1 ==> j < i)
  {
    if P[u] == -1 {
      j := i;
      assert Trace(P, ord, i) == [u];
    } else {
      j := TraceStep(P, ord, i);
      assert Trace(P, ord, j) + [u] + path == Trace(P, ord, j) + ([u] + path);
    }
  }

  // Follows prev back from dst, putting each node in front.
  method Rebuild(prev: array<int>, dst: int, ghost ord: seq<int>, ghost top: nat) returns (path: seq<int>)
    requires Ranked(prev[..], ord) && top < |ord| && ord[top] == dst
    ensures path == Trace(prev[..], ord, top)
  {
    path := [];
    var u := dst;
    ghost var i := top;
    assert Trace(prev[..], ord, top) + [] == Trace(prev[..], ord, top);
    while u != -1
      invariant Followed(prev[..], ord, top, u, i, path)
      decreases if u == -1 then 0 else i + 1
    {
      i := FollowStep(prev[..], ord, top, u, i, path);
      path := [u] + path;
      u := prev[u];
    }
  }

  // One turn of the inner loop, for the edge from u to v of weight w.
  method RelaxEdge(ghost a: Network, ghost src: int, u: nat, v: int, w: real, dist: array<Dist>, prev: array<int>,
                   pq: PriorityQueue, ghost ord: seq<int>, ghost k: nat)
    requires ord != [] && ord[|ord| - 1] == u && k < LastDegree(a, ord) && a.adj[u][k] == Arc(v, w)
    requires Inv(a, src, dist[..], prev[..], pq.items, ord, k)
    modifies dist, prev, pq
    ensures Inv(a, src, dist[..], prev[..], pq.items, ord, k + 1)
  {
    var alt := dist[u].value + w;
    ghost var D, P, Q := dist[..], prev[..], pq.items;
    if dist[v].Inf? || alt < dist[v].value {
      RelaxKeeps(a, src, D, P, Q, ord, k);
      dist[v] := Fin(alt);
      prev[v] := u;
      pq.PushItem(v, alt);
      assert dist[..] == D[v := Fin(alt)];
      assert prev[..] == P[v := u];
      assert pq.items == Q + multiset{Item(v, alt)};
    } else {
      SkipKeeps(a, src, D, P, Q, ord, k);
    }
  }

  // The inner loop: relaxes every edge of the node just settled.
  method RelaxEdges(g: Graph, ghost a: Network, ghost src: int, u: nat, dist: array<Dist>, prev: array<int>,
                    pq: PriorityQueue, ghost ord: seq<int>)
    requires ord != [] && ord[|ord| - 1] == u && u < |g.adj| == |a.adj|
    requires a == Weighted(g)
    requires Inv(a, src, dist[..], prev[..], pq.items, ord, 0)
    modifies dist, prev, pq
    ensures Inv(a, src, dist[..], prev[..], pq.items, ord, LastDegree(a, ord))
  {
    var d := Degree(g, u);
    var k := 0;
    while k < d
      invariant 0 <= k <= d
      invariant Inv(a, src, dist[..], prev[..], pq.items, ord, k)
    {
      var v, w := Neighbor(g, u, k);
      RelaxEdge(a, src, u, v, w, dist, prev, pq, ord, k);
      k := k + 1;
    }
  }

  // What the main loop leaves behind.
  ghost predicate Searched(a: Network, src: int, dst: int, D: seq<Dist>, P: seq<int>, ord: seq<int>) {
    && Tables(a, src, D, P, ord) && Labels(a, src, D, P, ord) && 0 <= dst < |D|
    && Optimal(a, src, dst, D[dst])
    && (D[dst].Fin? ==> dst in ord)
  }

  method Search(g: Graph, ghost a: Network, src: nat, dst: nat)
    returns (dist: array<Dist>, prev: array<int>, ghost ord: seq<int>)
    requires a == Weighted(g) && WellFormed(a) && src < |g.adj| == |a.adj| && dst < |g.adj|
    ensures Searched(a, src, dst, dist[..], prev[..], ord)
  {
    var n := |g.adj|;
    dist := new Dist[n](_ => Inf);
    prev := new int[n](_ => -1);
    var pq := new PriorityQueue();
    dist[src] := Fin(0.0);
    pq.PushItem(src, 0.0);
    ord := [];
    ghost var unsettled := Nodes(n);
    InitHolds(a, src, dist[..], prev[..], pq.items);
    while true
      invariant Inv(a, src, dist[..], prev[..], pq.items, ord, LastDegree(a, ord))
      invariant dst !in ord
      invariant forall v :: 0 <= v < n && v !in ord ==> v in unsettled
      invariant fresh(pq) && fresh(dist) && fresh(prev)
      decreases unsettled, |pq.items|
    {
      ghost var before := pq.items;
      var it, ok := pq.PopItem();
      if !ok {
        ExhaustionIsOptimal(a, src, dst, dist[..], prev[..], ord);
        break;
      }
      var u := it.node;
      InQueue(a, src, dist[..], prev[..], before, ord, it);
      if it.priority > dist[u].value {
        DropStale(a, src, dist[..], prev[..], before, ord, it);
        continue;
      }
      SettleKeeps(a, src, dist[..], prev[..], before, ord, it);
      if u == dst {
        ExitIsOptimal(a, src, dst, dist[..], prev[..], before, ord, it);
        ord := ord + [u];
        break;
      }
      ord, unsettled := ord + [u], unsettled - {u};
      RelaxEdges(g, a, src, u, dist, prev, pq, ord);
    }
  }

  // The chain of predecessors of a settled destination is a lightest walk.
  lemma ChainIsLightest(a: Network, src: int, dst: int, D: seq<Dist>, P: seq<int>, ord: seq<int>, top: nat)
    requires Searched(a, src, dst, D, P, ord) && D[dst].Fin? && top < |ord| && ord[top] == dst
    ensures Ranked(P, ord)
    ensures IsLightest(a, src, dst, Trace(P, ord, top), D[dst].value)
  {
    InvRanked(a, src, D, P, ord);
    TraceCost(a, src, D, P, ord, top);
  }

  // A lightest walk that visits no node twice.
  ghost predicate IsLightest(a: Network, src: int, dst: int, p: seq<int>, w: real) {
    && IsWalk(a, src, dst, p, w) && Distinct(p)
    && forall q, x :: IsWalk(a, src, dst, q, x) ==> w <= x
  }

  ghost predicate Reachable(a: Network, src: int, dst: int) {
    exists p, w :: IsWalk(a, src, dst, p, w)
  }

  // Drives over the roads themselves -------------------------------------------------

  // A drive along the nodes p: out of the i-th it takes road number ks[i].
  ghost predicate Drives(g: Graph, p: seq<int>, ks: seq<int>) {
    && |p| == |ks| + 1 && (forall i :: 0 <= i < |p| ==> 0 <= p[i] < |g.adj|)
    && forall i :: 0 <= i < |ks| ==> 0 <= ks[i] < |g.adj[p[i]]| && g.adj[p[i]][ks[i]].to == p[i + 1]
  }

  // The minutes of all roads it takes.
  ghost function Minutes(g: Graph, p: seq<int>, ks: seq<int>): real
    requires Drives(g, p, ks)
    decreases |ks|
  {
    var n := |ks|;
    if n == 0 then 0.0
    else Minutes(g, p[..n], ks[..n - 1]) + WeightMinutes(g.adj[p[n - 1]][ks[n - 1]].road)
  }

  ghost predicate DrivesTo(g: Graph, src: int, dst: int, p: seq<int>, ks: seq<int>) {
    Drives(g, p, ks) && p[0] == src && p[|p| - 1] == dst
  }

  // Roads lead to nodes and take no negative time.
  ghost predicate Sensible(g: Graph) {
    forall u, k :: 0 <= u < |g.adj| && 0 <= k < |g.adj[u]| ==>
      g.adj[u][k].to < |g.adj| && WeightMinutes(g.adj[u][k].road) >= 0.0
  }

  lemma {:induction false} DriveCosts(g: Graph, p: seq<int>, ks: seq<int>)
    requires Drives(g, p, ks)
    ensures ValidNodes(Weighted(g), p) && Costs(Weighted(g), p, Minutes(g, p, ks))
    decreases |ks|
  {
    var n := |ks|;
    if n > 0 {
      DriveCosts(g, p[..n], ks[..n - 1]);
      assert Leads(Weighted(g), p[n - 1], ks[n - 1], p[n]);
    }
  }

  lemma {:induction false} CostsDrive(g: Graph, p: seq<int>, w: real) returns (ks: seq<int>)
    requires ValidNodes(Weighted(g), p) && Costs(Weighted(g), p, w)
    ensures Drives(g, p, ks) && Minutes(g, p, ks) == w
    decreases |p|
  {
    var n := |p| - 1;
    if n == 0 {
      ks := [];
    } else {
      var a := Weighted(g);
      var k :| Leads(a, p[n - 1], k, p[n]) && Costs(a, p[..n], w - Weight(a, p[n - 1], k));
      var rest := CostsDrive(g, p[..n], w - Weight(a, p[n - 1], k));
      ks := rest + [k];
      OneRoadMore(g, p, rest, k);
    }
  }

  lemma OneRoadMore(g: Graph, p: seq<int>, ks: seq<int>, k: int)
    requires |p| == |ks| + 2 && Drives(g, p[..|ks| + 1], ks) && 0 <= p[|ks| + 1] < |g.adj|
    requires 0 <= k < |g.adj[p[|ks|]]| && g.adj[p[|ks|]][k].to == p[|ks| + 1]
    ensures Drives(g, p, ks + [k])
    ensures Minutes(g, p, ks + [k]) == Minutes(g, p[..|ks| + 1], ks) + WeightMinutes(g.adj[p[|ks|]][k].road)
  {
    var n := |ks|;
    var q := p[..n + 1];
    forall i | 0 <= i <= n ensures 0 <= (ks + [k])[i] < |g.adj[p[i]]| && g.adj[p[i]][(ks + [k])[i]].to == p[i + 1] {
      if i < n {
        assert q[i] == p[i] && q[i + 1] == p[i + 1];
      }
    }
    assert (ks + [k])[..n] == ks;
  }

  // The walks of the search are the drives, and weigh their minutes.
  lemma WalkIffDrive(g: Graph, src: int, dst: int, p: seq<int>, w: real)
    ensures IsWalk(Weighted(g), src, dst, p, w) <==>
      exists ks :: DrivesTo(g, src, dst, p, ks) && Minutes(g, p, ks) == w
  {
    if IsWalk(Weighted(g), src, dst, p, w) {
      var ks := CostsDrive(g, p, w);
      assert DrivesTo(g, src, dst, p, ks);
    }
    if ks :| DrivesTo(g, src, dst, p, ks) && Minutes(g, p, ks) == w {
      DriveCosts(g, p, ks);
    }
  }

  // No drive takes fewer minutes than w.
  ghost predicate NoneFaster(g: Graph, src: int, dst: int, w: real) {
    forall p, ks :: DrivesTo(g, src, dst, p, ks) ==> w <= Minutes(g, p, ks)
  }

  lemma LightestIsFastest(g: Graph, src: int, dst: int, p: seq<int>, w: real)
    requires IsLightest(Weighted(g), src, dst, p, w)
    ensures Distinct(p) && exists ks :: DrivesTo(g, src, dst, p, ks) && Minutes(g, p, ks) == w
    ensures NoneFaster(g, src, dst, w)
  {
    WalkIffDrive(g, src, dst, p, w);
    forall q, ks | DrivesTo(g, src, dst, q, ks) ensures w <= Minutes(g, q, ks) {
      WalkIffDrive(g, src, dst, q, Minutes(g, q, ks));
    }
  }

  lemma ReachableIffDrive(g: Graph, src: int, dst: int)
    ensures Reachable(Weighted(g), src, dst) <==> exists p, ks :: DrivesTo(g, src, dst, p, ks)
  {
    if Reachable(Weighted(g), src, dst) {
      var p, w :| IsWalk(Weighted(g), src, dst, p, w);
      WalkIffDrive(g, src, dst, p, w);
    }
    if p, ks :| DrivesTo(g, src, dst, p, ks) {
      WalkIffDrive(g, src, dst, p, Minutes(g, p, ks));
    }
  }

  // No path exactly when no drive leads there; else a drive that visits no node twice,
  // takes the minutes returned, and no drive takes fewer.
  method ShortestPath(g: Graph, src: nat, dst: nat) returns (path: seq<int>, total: Dist)
    requires Sensible(g) && src < |g.adj| && dst < |g.adj|
    ensures path == [] <==> total.Inf?
    ensures total.Inf? <==> !exists p, ks :: DrivesTo(g, src, dst, p, ks)
    ensures total.Fin? ==> Distinct(path) && NoneFaster(g, src, dst, total.value)
    ensures total.Fin? ==> exists ks :: DrivesTo(g, src, dst, path, ks) && Minutes(g, path, ks) == total.value
  {
    ghost var a := Weighted(g);
    var dist, prev, ord := Search(g, a, src, dst);
    ReachableIffDrive(g, src, dst);
    if dist[dst].Inf? {
      return [], Inf;
    }
    ghost var top :| 0 <= top < |ord| && ord[top] == dst;
    ChainIsLightest(a, src, dst, dist[..], prev[..], ord, top);
    path := Rebuild(prev, dst, ord, top);
    total := dist[dst];
    LightestIsFastest(g, src, dst, path, total.value);
  }
}
