/**
 * Path reconstruction from a list of vertices, in the shortest-length mode: between each pair
 * of consecutive vertices, the shortest successor arc leading to the second one.
 */
module Paths {
  import opened Wrappers
  import opened GraphModel
  import opened Graphs

  datatype Path = Path(graph: Graph, arcs: seq<Arc>)

  /** The exceptions of the constructor: `nodes.get(0)` on an empty list, or a missing link. */
  datatype PathError = IndexOutOfBounds | NoArcBetween(fromId: int, toId: int)

  /** Arc `succ[j]` leads to a vertex whose id is `targetId` (`getDestination().equals(node)`). */
  predicate Leads(vs: seq<Vertex>, succ: seq<Arc>, j: int, targetId: int) {
    0 <= j < |succ| && succ[j].destination < |vs| && vs[succ[j].destination].id == targetId
  }

  /** `succ[k]` leads to the target with minimal length, and no earlier matching arc is as short. */
  predicate IsShortestLink(vs: seq<Vertex>, succ: seq<Arc>, targetId: int, k: nat) {
    && Leads(vs, succ, k, targetId)
    && (forall j :: 0 <= j < |succ| && Leads(vs, succ, j, targetId) ==> succ[k].length <= succ[j].length)
    && (forall j :: 0 <= j < k && Leads(vs, succ, j, targetId) ==> succ[k].length < succ[j].length)
  }

  /** The shortest link, when one exists, is unique. */
  lemma ShortestLinkUnique(vs: seq<Vertex>, succ: seq<Arc>, targetId: int, k1: nat, k2: nat)
    requires IsShortestLink(vs, succ, targetId, k1) && IsShortestLink(vs, succ, targetId, k2)
    ensures succ[k1].length == succ[k2].length && k1 == k2
  {
  }

  predicate HasLink(vs: seq<Vertex>, succ: seq<Arc>, targetId: int) {
    exists j :: 0 <= j < |succ| && Leads(vs, succ, j, targetId)
  }

  /** The inner loop of the constructor: the index of the shortest arc towards `targetId`, if any. */
  method ShortestLink(vs: seq<Vertex>, succ: seq<Arc>, targetId: int) returns (r: Option<nat>)
    ensures r.None? <==> !HasLink(vs, succ, targetId)
    ensures r.Some? ==> IsShortestLink(vs, succ, targetId, r.value)
  {
    r := None;
    var minCost: Option<int> := None;  // None stands for positive infinity
    var j := 0;
    while j < |succ|
      invariant 0 <= j <= |succ|
      invariant r.None? <==> minCost.None?
      invariant r.None? ==> forall i :: 0 <= i < j ==> !Leads(vs, succ, i, targetId)
      invariant r.Some? ==> r.value < j && minCost == Some(succ[r.value].length)
      invariant r.Some? ==> Leads(vs, succ, r.value, targetId)
      invariant r.Some? ==> forall i :: 0 <= i < j && Leads(vs, succ, i, targetId) ==> succ[r.value].length <= succ[i].length
      invariant r.Some? ==> forall i :: 0 <= i < r.value && Leads(vs, succ, i, targetId) ==> succ[r.value].length < succ[i].length
    {
      var arc := succ[j];
      var cost := arc.length;
      if Leads(vs, succ, j, targetId) && (minCost.None? || cost < minCost.value) {
        r := Some(j);
        minCost := Some(cost);
      }
      j := j + 1;
    }
  }

  /** `arc` is the shortest successor of `from` leading to a vertex with the id of `to`. */
  predicate IsLinkArc(vs: seq<Vertex>, from: VRef, to: VRef, arc: Arc)
    requires from < |vs| && to < |vs|
  {
    exists j: nat :: j < |vs[from].successors| && IsShortestLink(vs, vs[from].successors, vs[to].id, j)
                     && arc == vs[from].successors[j]
  }

  /** Each arc `arcs[k]` is the shortest link from `nodes[k]` to `nodes[k+1]`. */
  predicate LinksThrough(vs: seq<Vertex>, nodes: seq<VRef>, arcs: seq<Arc>)
    requires NodesIn(vs, nodes)
  {
    && |arcs| == |nodes| - 1
    && forall k :: 0 <= k < |arcs| ==> IsLinkArc(vs, nodes[k], nodes[k + 1], arcs[k])
  }

  /** The links from `nodes[k]` to `nodes[k+1]` exist for every `k < n`. */
  predicate LinkedUpTo(vs: seq<Vertex>, nodes: seq<VRef>, n: int)
    requires NodesIn(vs, nodes) && n < |nodes|
  {
    forall k :: 0 <= k < n ==> HasLink(vs, vs[nodes[k]].successors, vs[nodes[k + 1]].id)
  }

  /** Path(graph, nodes, SHORTEST_LENGTH). */
  method NewPath(vs: seq<Vertex>, graph: Graph, nodes: seq<VRef>) returns (r: Result<Path, PathError>)
    requires NodesIn(vs, nodes)
    ensures nodes == [] <==> r == Err(IndexOutOfBounds)
    ensures r.Ok? ==> r.value.graph == graph && LinksThrough(vs, nodes, r.value.arcs)
    ensures r.Err? && nodes != [] ==>
      (exists k :: 0 <= k < |nodes| - 1 && LinkedUpTo(vs, nodes, k)
         && !HasLink(vs, vs[nodes[k]].successors, vs[nodes[k + 1]].id)
         && r.error == NoArcBetween(vs[nodes[k]].id, vs[nodes[k + 1]].id))
  {
    if nodes == [] {
      return Err(IndexOutOfBounds);
    }
    var arcs: seq<Arc> := [];
    var current := nodes[0];
    var i := 1;
    while i < |nodes|
      invariant 1 <= i <= |nodes|
      invariant current == nodes[i - 1]
      invariant |arcs| == i - 1
      invariant LinkedUpTo(vs, nodes, i - 1)
      invariant forall k :: 0 <= k < |arcs| ==> IsLinkArc(vs, nodes[k], nodes[k + 1], arcs[k])
    {
      var node := nodes[i];
      var minArc := ShortestLink(vs, vs[current].successors, vs[node].id);
      if minArc.None? {
        return Err(NoArcBetween(vs[current].id, vs[node].id));
      }
      var arc := vs[current].successors[minArc.value];
      assert IsLinkArc(vs, current, node, arc);
      assert HasLink(vs, vs[current].successors, vs[node].id);
      arcs := arcs + [arc];
      current := node;
      i := i + 1;
    }
    r := Ok(Path(graph, arcs));
  }

  /** getOrigin: the first arc's origin; `arcs.get(0)` throws on an empty path. */
  function GetOrigin(p: Path): (r: Result<VRef, PathError>)
    ensures r.Err? <==> p.arcs == []
    ensures r.Ok? ==> r.value == p.arcs[0].origin
  {
    if p.arcs == [] then Err(IndexOutOfBounds) else Ok(p.arcs[0].origin)
  }

  /** getDestination: the last arc's destination; it throws on an empty path. */
  function GetDestination(p: Path): (r: Result<VRef, PathError>)
    ensures r.Err? <==> p.arcs == []
    ensures r.Ok? ==> r.value == p.arcs[|p.arcs| - 1].destination
  {
    if p.arcs == [] then Err(IndexOutOfBounds) else Ok(p.arcs[|p.arcs| - 1].destination)
  }

  /**
   * A path reconstructed through two or more vertices of a well-formed arena starts at the
   * first of them and ends at a vertex with the id of the last one.
   */
  lemma EndsOfPath(vs: seq<Vertex>, graph: Graph, nodes: seq<VRef>, p: Path)
    requires WellFormed(vs) && NodesIn(vs, nodes) && |nodes| >= 2
    requires p.graph == graph && LinksThrough(vs, nodes, p.arcs)
    ensures GetOrigin(p) == Ok(nodes[0])
    ensures GetDestination(p).Ok? && GetDestination(p).value < |vs|
    ensures vs[GetDestination(p).value].id == vs[nodes[|nodes| - 1]].id
  {
    assert IsLinkArc(vs, nodes[0], nodes[1], p.arcs[0]);
    var m := |p.arcs| - 1;
    assert IsLinkArc(vs, nodes[m], nodes[m + 1], p.arcs[m]);
  }

  /** A single vertex gives an empty path, which has neither origin nor destination. */
  lemma SingleNodePath(vs: seq<Vertex>, nodes: seq<VRef>, p: Path)
    requires NodesIn(vs, nodes) && |nodes| == 1 && LinksThrough(vs, nodes, p.arcs)
    ensures p.arcs == [] && GetOrigin(p).Err? && GetDestination(p).Err?
  {
  }

  /** isValid is not implemented: always false. */
  function IsValid(p: Path): (r: bool)
    ensures !r
  {
    false
  }

  /** getLength is not implemented: always 0. */
  function GetLength(p: Path): (r: int)
    ensures r == 0
  {
    0
  }

  /** getMinimumTravelTime is not implemented: always 0. */
  function GetMinimumTravelTime(p: Path): (r: real)
    ensures r == 0.0
  {
    0.0
  }
}
