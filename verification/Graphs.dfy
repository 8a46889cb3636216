/** Dependency graphs: each vertex is listed with the vertices it depends on. */
module Graphs {

  type Graph = map<string, seq<string>>

  ghost predicate Closed(g: Graph) {
    forall v, d | v in g && d in g[v] :: d in g
  }

  ghost predicate Edge(g: Graph, v: string, d: string) {
    v in g && d in g[v]
  }

  /** Every dependency ranks below its dependents. */
  ghost predicate IsRank(g: Graph, rank: map<string, nat>) {
    forall v, d | Edge(g, v, d) :: v in rank && d in rank && rank[d] < rank[v]
  }

  ghost predicate IsPath(g: Graph, p: seq<string>) {
    forall i, j | 0 <= i < j < |p| && j == i + 1 :: Edge(g, p[i], p[j])
  }

  ghost predicate IsCycle(g: Graph, p: seq<string>) {
    |p| >= 2 && p[0] == p[|p| - 1] && IsPath(g, p)
  }

  ghost predicate IsAcyclic(g: Graph) {
    forall p :: !IsCycle(g, p)
  }

  lemma {:induction false} PathDescends(g: Graph, rank: map<string, nat>, p: seq<string>, i: nat, j: nat)
    requires IsRank(g, rank) && IsPath(g, p) && i < j < |p|
    ensures p[i] in rank && p[j] in rank && rank[p[j]] < rank[p[i]]
    decreases j
  {
    assert Edge(g, p[j - 1], p[j]);
    if i + 1 < j {
      PathDescends(g, rank, p, i, j - 1);
    }
  }

  lemma RankExcludesCycles(g: Graph, rank: map<string, nat>)
    requires IsRank(g, rank)
    ensures IsAcyclic(g)
  {
    forall p ensures !IsCycle(g, p) {
      if IsCycle(g, p) {
        PathDescends(g, rank, p, 0, |p| - 1);
      }
    }
  }

  /** Each vertex comes after all of its dependencies. */
  ghost predicate IsOrder(g: Graph, order: seq<string>) {
    && (forall v | v in order :: v in g)
    && (forall i, j | 0 <= i < j < |order| :: order[i] != order[j])
    && (forall i, d | 0 <= i < |order| && d in g[order[i]] :: d in order[..i])
  }

  lemma OrderExtends(g: Graph, order: seq<string>, v: string)
    requires IsOrder(g, order) && v in g && v !in order && forall d | d in g[v] :: d in order
    ensures IsOrder(g, order + [v])
  {
    var longer := order + [v];
    assert forall i | 0 <= i < |order| :: longer[..i] == order[..i];
    assert longer[..|order|] == order;
  }

  ghost function Position(order: seq<string>, v: string): (i: nat)
    requires v in order
    ensures i < |order| && order[i] == v
  {
    if order[0] == v then 0 else 1 + Position(order[1..], v)
  }

  ghost function RankOf(order: seq<string>): map<string, nat> {
    map v | v in order :: Position(order, v)
  }

  lemma OrderRanks(g: Graph, order: seq<string>)
    requires IsOrder(g, order) && forall v | v in g :: v in order
    ensures IsRank(g, RankOf(order))
  {
    forall v, d | Edge(g, v, d) ensures d in order && Position(order, d) < Position(order, v) {
      var i := Position(order, v);
      assert order[i] == v && d in order[..i];
      var k :| 0 <= k < i && order[..i][k] == d;
      assert order[k] == order[Position(order, d)];
    }
  }
}
