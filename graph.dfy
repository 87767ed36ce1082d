/**
 * The graph record handed to the writers, and its closest-node query.
 */
module Graphs {
  import opened Wrappers
  import opened GraphModel

  /**
   * A graph: its numeric map id (used by the 2016 format), its textual map id and optional
   * map name (used by the 2018 format), and its nodes as vertex references, in order.
   */
  datatype Graph = Graph(mapId: int, textMapId: string, mapName: Option<string>, nodes: seq<VRef>)

  predicate NodesIn(vs: seq<Vertex>, nodes: seq<VRef>) {
    forall n :: 0 <= n < |nodes| ==> nodes[n] < |vs|
  }

  /** The distance from `point` to each node, in node order. */
  function Distances(vs: seq<Vertex>, nodes: seq<VRef>, point: Point, distance: (Point, Point) -> real): (ds: seq<real>)
    requires NodesIn(vs, nodes)
    ensures |ds| == |nodes|
    ensures forall n :: 0 <= n < |nodes| ==> ds[n] == distance(point, vs[nodes[n]].point)
  {
    seq(|nodes|, n requires 0 <= n < |nodes| => distance(point, vs[nodes[n]].point))
  }

  /** Position `k` holds a minimal value, and every earlier position a strictly larger one. */
  predicate IsFirstMinimum(ds: seq<real>, k: nat) {
    && k < |ds|
    && (forall j :: 0 <= j < |ds| ==> ds[k] <= ds[j])
    && (forall j :: 0 <= j < k ==> ds[k] < ds[j])
  }

  /** There is at most one first minimum: the answer of findClosestNode is determined. */
  lemma FirstMinimumUnique(ds: seq<real>, k1: nat, k2: nat)
    requires IsFirstMinimum(ds, k1) && IsFirstMinimum(ds, k2)
    ensures ds[k1] == ds[k2] && k1 == k2
  {
  }

  /** Graph.findClosestNode: the first node of minimal distance, none for an empty graph. */
  method FindClosestNode(vs: seq<Vertex>, graph: Graph, point: Point, distance: (Point, Point) -> real)
    returns (node: Option<VRef>)
    requires NodesIn(vs, graph.nodes)
    ensures node.None? <==> graph.nodes == []
    ensures node.Some? ==> exists k: nat :: IsFirstMinimum(Distances(vs, graph.nodes, point, distance), k) && node.value == graph.nodes[k]
  {
    ghost var ds := Distances(vs, graph.nodes, point, distance);
    node := None;
    var minDis: Option<real> := None;  // None stands for positive infinity
    ghost var best: nat := 0;
    var n := 0;
    while n < |graph.nodes|
      invariant 0 <= n <= |graph.nodes|
      invariant node.None? <==> n == 0
      invariant minDis.None? <==> n == 0
      invariant n > 0 ==> best < n && node == Some(graph.nodes[best]) && minDis == Some(ds[best])
      invariant n > 0 ==> forall j :: 0 <= j < n ==> ds[best] <= ds[j]
      invariant n > 0 ==> forall j :: 0 <= j < best ==> ds[best] < ds[j]
    {
      var dis := distance(point, vs[graph.nodes[n]].point);
      if minDis.None? || dis < minDis.value {
        node := Some(graph.nodes[n]);
        minDis := Some(dis);
        best := n;
      }
      n := n + 1;
    }
    if node.Some? {
      assert IsFirstMinimum(ds, best);
    }
  }

  /** Graph.transpose is not implemented: it always returns null. */
  function Transpose(graph: Graph): (r: Option<Graph>)
    ensures r.None?
  {
    None
  }
}
