/**
 * The Osmosis sink: it collects nodes into an id map and ways into a list, then converts the
 * ways to arcs and renumbers the vertices met as arc ends densely, in first-encounter order.
 */
module Task {
  import opened Wrappers
  import opened JavaString
  import opened Osm
  import opened GraphModel
  import opened Graphs
  import opened Sequences
  import opened WayConversion
  import SpeedData
  import opened RoadInformation

  /** Every id of the map leads to a vertex of the arena carrying that id, as `process` builds it. */
  predicate Consistent(vs: seq<Vertex>, vertices: map<int, VRef>) {
    forall id :: id in vertices ==> vertices[id] < |vs| && vs[vertices[id]].id == id
  }

  /** The original ids of the arc ends in the order renumbering visits them: origin, then destination, arc by arc. */
  function EndpointIds(vs: seq<Vertex>, arcs: seq<Arc>): (e: seq<int>)
    requires EndsIn(vs, arcs)
    ensures |e| == 2 * |arcs|
    ensures forall k :: 0 <= k < |arcs| ==> e[2 * k] == vs[arcs[k].origin].id && e[2 * k + 1] == vs[arcs[k].destination].id
    decreases |arcs|
  {
    if arcs == [] then []
    else
      var last := arcs[|arcs| - 1];
      EndpointIds(vs, arcs[..|arcs| - 1]) + [vs[last.origin].id, vs[last.destination].id]
  }

  /** Each end of each arc is the vertex the id map holds for that end's id, as for every arc built from the map. */
  predicate EndsMapped(vs: seq<Vertex>, vertices: map<int, VRef>, arcs: seq<Arc>) {
    && EndsIn(vs, arcs)
    && forall k :: 0 <= k < |arcs| ==>
         (&& vs[arcs[k].origin].id in vertices && vertices[vs[arcs[k].origin].id] == arcs[k].origin
          && vs[arcs[k].destination].id in vertices && vertices[vs[arcs[k].destination].id] == arcs[k].destination)
  }

  /** The id at each position of the visit is a key of the map and leads into the arena. */
  lemma EndIdAtMapped(vs: seq<Vertex>, vertices: map<int, VRef>, arcs: seq<Arc>, j: nat)
    requires EndsMapped(vs, vertices, arcs) && j < 2 * |arcs|
    ensures EndpointIds(vs, arcs)[j] in vertices && vertices[EndpointIds(vs, arcs)[j]] < |vs|
  {
    var e := EndpointIds(vs, arcs);
    var q := j / 2;
    assert 2 * q <= j <= 2 * q + 1 && q < |arcs|;
    if j == 2 * q {
      assert e[j] == vs[arcs[q].origin].id;
    } else {
      assert e[j] == vs[arcs[q].destination].id;
    }
  }

  /** Every visited id is a key of the map and leads into the arena. */
  lemma EndIdsMapped(vs: seq<Vertex>, vertices: map<int, VRef>, arcs: seq<Arc>)
    requires EndsMapped(vs, vertices, arcs)
    ensures forall x :: x in EndpointIds(vs, arcs) ==> x in vertices && vertices[x] < |vs|
  {
    var e := EndpointIds(vs, arcs);
    forall x | x in e
      ensures x in vertices && vertices[x] < |vs|
    {
      var j :| 0 <= j < |e| && e[j] == x;
      EndIdAtMapped(vs, vertices, arcs, j);
    }
  }

  /** The distinct ids among the first `s` visited, in first-encounter order: the vertices created so far. */
  function Visited(vs: seq<Vertex>, vertices: map<int, VRef>, arcs: seq<Arc>, s: nat): (d: seq<int>)
    requires EndsMapped(vs, vertices, arcs) && s <= 2 * |arcs|
    ensures forall k :: 0 <= k < |d| ==> d[k] in vertices && vertices[d[k]] < |vs|
  {
    var p := EndpointIds(vs, arcs)[..s];
    VisitedMapped(vs, vertices, arcs, p, Dedup(p));
    Dedup(p)
  }

  /** The ids visited so far are numbered as they are in the whole visit, and all of them once the visit ends. */
  lemma VisitedPrefix(vs: seq<Vertex>, vertices: map<int, VRef>, arcs: seq<Arc>, s: nat)
    requires EndsMapped(vs, vertices, arcs) && s <= 2 * |arcs|
    ensures Visited(vs, vertices, arcs, s) <= Dedup(EndpointIds(vs, arcs))
    ensures s == 2 * |arcs| ==> Visited(vs, vertices, arcs, s) == Dedup(EndpointIds(vs, arcs))
  {
    var e := EndpointIds(vs, arcs);
    var p := e[..s];
    assert p + e[s..] == e;
    DedupPrefix(p, e[s..]);
    assert s == |e| ==> p == e;
  }

  lemma VisitedMapped(vs: seq<Vertex>, vertices: map<int, VRef>, arcs: seq<Arc>, p: seq<int>, d: seq<int>)
    requires EndsMapped(vs, vertices, arcs) && p <= EndpointIds(vs, arcs)
    requires forall k :: 0 <= k < |d| ==> d[k] in p
    ensures forall k :: 0 <= k < |d| ==> d[k] in vertices && vertices[d[k]] < |vs|
  {
    var e := EndpointIds(vs, arcs);
    EndIdsMapped(vs, vertices, arcs);
    forall k | 0 <= k < |d|
      ensures d[k] in vertices && vertices[d[k]] < |vs|
    {
      var j :| 0 <= j < |p| && p[j] == d[k];
      assert e[j] == d[k];
    }
  }

  /** The vertices renumbering creates: vertex k has id k and the position of the old vertex of the k-th distinct id. */
  function NewVertices(vs: seq<Vertex>, vertices: map<int, VRef>, d: seq<int>): (r: seq<Vertex>)
    requires forall k :: 0 <= k < |d| ==> d[k] in vertices && vertices[d[k]] < |vs|
    ensures |r| == |d|
    ensures forall k :: 0 <= k < |d| ==> r[k] == Vertex(k, vs[vertices[d[k]]].point, [])
  {
    seq(|d|, k requires 0 <= k < |d| => Vertex(k, vs[vertices[d[k]]].point, []))
  }

  /** The references base, base+1, ..., base+n-1. */
  function Range(base: nat, n: nat): (r: seq<VRef>)
    ensures |r| == n && forall k :: 0 <= k < n ==> r[k] == base + k
  {
    seq(n, k requires 0 <= k < n => base + k)
  }

  lemma RangeSnoc(base: nat, n: nat)
    ensures Range(base, n + 1) == Range(base, n) + [base + n]
  {
  }

  /** The id map once the ids `d` have been given the new vertices base, base+1, ...: other entries are untouched. */
  function Remap(vertices: map<int, VRef>, d: seq<int>, base: nat): (r: map<int, VRef>)
    ensures r.Keys == vertices.Keys
  {
    map x | x in vertices :: if x in d then base + IndexOf(d, x) else vertices[x]
  }

  /** An arc recreated between the new vertices of its ends' ids. */
  function RenumberArc(vs: seq<Vertex>, e: seq<int>, base: nat, a: Arc): Arc
    requires a.origin < |vs| && a.destination < |vs| && vs[a.origin].id in e && vs[a.destination].id in e
  {
    a.(origin := base + Number(e, vs[a.origin].id), destination := base + Number(e, vs[a.destination].id))
  }

  /** The first n arcs, recreated between the new vertices numbered from `base`. */
  function RenumberArcs(vs: seq<Vertex>, base: nat, arcs: seq<Arc>, n: nat): (r: seq<Arc>)
    requires EndsIn(vs, arcs) && n <= |arcs|
    ensures |r| == n
    ensures forall k :: 0 <= k < n ==> r[k] == RenumberArc(vs, EndpointIds(vs, arcs), base, arcs[k])
  {
    var e := EndpointIds(vs, arcs);
    seq(n, k requires 0 <= k < n => RenumberArc(vs, e, base, arcs[k]))
  }

  lemma RenumberArcsSnoc(vs: seq<Vertex>, base: nat, arcs: seq<Arc>, n: nat)
    requires EndsIn(vs, arcs) && n < |arcs|
    ensures EndpointIds(vs, arcs)[2 * n] == vs[arcs[n].origin].id && EndpointIds(vs, arcs)[2 * n + 1] == vs[arcs[n].destination].id
    ensures RenumberArcs(vs, base, arcs, n + 1)
         == RenumberArcs(vs, base, arcs, n) + [RenumberArc(vs, EndpointIds(vs, arcs), base, arcs[n])]
  {
    var e := EndpointIds(vs, arcs);
    var r0, r1 := RenumberArcs(vs, base, arcs, n), RenumberArcs(vs, base, arcs, n + 1);
    var t := r0 + [RenumberArc(vs, e, base, arcs[n])];
    forall k | 0 <= k < n + 1
      ensures r1[k] == t[k]
    {
      if k < n {
        assert r1[k] == RenumberArc(vs, e, base, arcs[k]) == r0[k];
      }
    }
    assert r1 == t;
  }

  /** The arena, the id map and the node list once the ids `d` have had their vertices created and `i` arcs have been recreated. */
  ghost predicate RenumberedUpTo(vs0: seq<Vertex>, map0: map<int, VRef>, arcs: seq<Arc>, i: nat, d: seq<int>,
                                 hv: seq<Vertex>, vertices: map<int, VRef>, nodes: seq<VRef>)
    requires EndsIn(vs0, arcs) && i <= |arcs|
    requires forall k :: 0 <= k < |d| ==> d[k] in map0 && map0[d[k]] < |vs0|
  {
    var x := vs0 + NewVertices(vs0, map0, d);
    var r := RenumberArcs(vs0, |vs0|, arcs, i);
    && nodes == Range(|vs0|, |d|)
    && OriginsIn(x, r) && hv == Attach(x, r)
    && vertices == Remap(map0, d, |vs0|)
  }

  /** The state of the renumbering loop after `i` arcs have been recreated and `s` arc ends visited. */
  ghost predicate Renumbering(vs0: seq<Vertex>, map0: map<int, VRef>, arcs: seq<Arc>, i: nat, s: nat,
                              hv: seq<Vertex>, vertices: map<int, VRef>, nodes: seq<VRef>)
    requires EndsMapped(vs0, map0, arcs)
  {
    && i <= |arcs| && 2 * i <= s <= 2 * |arcs|
    && RenumberedUpTo(vs0, map0, arcs, i, Visited(vs0, map0, arcs, s), hv, vertices, nodes)
  }

  /** Before the loop: nothing visited, nothing created, the arena and the map as they were. */
  lemma RenumberStart(vs0: seq<Vertex>, map0: map<int, VRef>, arcs: seq<Arc>)
    requires EndsMapped(vs0, map0, arcs)
    ensures Renumbering(vs0, map0, arcs, 0, 0, vs0, map0, [])
  {
    var d := Visited(vs0, map0, arcs, 0);
    assert EndpointIds(vs0, arcs)[..0] == [];
    assert d == [];
    assert vs0 + NewVertices(vs0, map0, d) == vs0;
    assert RenumberArcs(vs0, |vs0|, arcs, 0) == [];
    assert Remap(map0, d, |vs0|) == map0;
  }

  /** During the loop the old vertices keep their ids and points; one vertex has been appended per visited id. */
  lemma RenumberingArena(vs0: seq<Vertex>, map0: map<int, VRef>, arcs: seq<Arc>, i: nat, s: nat,
                         hv: seq<Vertex>, vertices: map<int, VRef>, nodes: seq<VRef>)
    requires EndsMapped(vs0, map0, arcs)
    requires Renumbering(vs0, map0, arcs, i, s, hv, vertices, nodes)
    ensures |hv| == |vs0| + |nodes| && |nodes| == |Visited(vs0, map0, arcs, s)|
    ensures forall v :: 0 <= v < |vs0| ==> hv[v].id == vs0[v].id && hv[v].point == vs0[v].point
  {
    var d := Visited(vs0, map0, arcs, s);
    var x := vs0 + NewVertices(vs0, map0, d);
    forall v | 0 <= v < |vs0|
      ensures hv[v].id == vs0[v].id && hv[v].point == vs0[v].point
    {
      assert x[v] == vs0[v];
    }
  }

  /** Visiting an id seen before changes nothing: its map entry already leads to a new vertex. */
  lemma VisitSeen(vs0: seq<Vertex>, map0: map<int, VRef>, arcs: seq<Arc>, i: nat, s: nat,
                  hv: seq<Vertex>, vertices: map<int, VRef>, nodes: seq<VRef>)
    requires EndsMapped(vs0, map0, arcs) && s < 2 * |arcs|
    requires Renumbering(vs0, map0, arcs, i, s, hv, vertices, nodes)
    requires EndpointIds(vs0, arcs)[s] in EndpointIds(vs0, arcs)[..s]
    ensures EndpointIds(vs0, arcs)[s] in vertices && vertices[EndpointIds(vs0, arcs)[s]] >= |vs0|
    ensures Renumbering(vs0, map0, arcs, i, s + 1, hv, vertices, nodes)
  {
    VisitedSeen(vs0, map0, arcs, s);
    SeenRemapped(vs0, map0, arcs, s);
  }

  /** The visited ids do not change on an id seen before. */
  lemma VisitedSeen(vs0: seq<Vertex>, map0: map<int, VRef>, arcs: seq<Arc>, s: nat)
    requires EndsMapped(vs0, map0, arcs) && s < 2 * |arcs|
    requires EndpointIds(vs0, arcs)[s] in EndpointIds(vs0, arcs)[..s]
    ensures Visited(vs0, map0, arcs, s + 1) == Visited(vs0, map0, arcs, s)
  {
    DedupSliceStep(EndpointIds(vs0, arcs), s);
  }

  /** An id seen before is remapped to a new vertex. */
  lemma SeenRemapped(vs0: seq<Vertex>, map0: map<int, VRef>, arcs: seq<Arc>, s: nat)
    requires EndsMapped(vs0, map0, arcs) && s < 2 * |arcs|
    requires EndpointIds(vs0, arcs)[s] in EndpointIds(vs0, arcs)[..s]
    ensures EndpointIds(vs0, arcs)[s] in map0
    ensures Remap(map0, Visited(vs0, map0, arcs, s), |vs0|)[EndpointIds(vs0, arcs)[s]] >= |vs0|
  {
    var e := EndpointIds(vs0, arcs);
    var x := e[s];
    InDedup(e[..s], x);
    EndIdsMapped(vs0, map0, arcs);
    assert x in map0;
  }

  /** Visiting a new id appends a vertex numbered by the count so far, at the old vertex's position, and remaps the id to it. */
  lemma VisitNew(vs0: seq<Vertex>, map0: map<int, VRef>, arcs: seq<Arc>, i: nat, s: nat,
                 hv: seq<Vertex>, vertices: map<int, VRef>, nodes: seq<VRef>)
    requires EndsMapped(vs0, map0, arcs) && s < 2 * |arcs|
    requires Renumbering(vs0, map0, arcs, i, s, hv, vertices, nodes)
    requires EndpointIds(vs0, arcs)[s] !in EndpointIds(vs0, arcs)[..s]
    ensures EndpointIds(vs0, arcs)[s] in map0 && map0[EndpointIds(vs0, arcs)[s]] < |vs0|
    ensures vertices[EndpointIds(vs0, arcs)[s]] == map0[EndpointIds(vs0, arcs)[s]] && |hv| == |vs0| + |nodes|
    ensures
      var id := EndpointIds(vs0, arcs)[s];
      Renumbering(vs0, map0, arcs, i, s + 1, hv + [Vertex(|nodes|, hv[map0[id]].point, [])],
                  vertices[id := |hv|], nodes + [|hv|])
  {
    var e := EndpointIds(vs0, arcs);
    NewNotVisited(vs0, map0, arcs, e, s);
    RenumberedSnoc(vs0, map0, arcs, i, Visited(vs0, map0, arcs, s), hv, vertices, nodes, e[s]);
  }

  /** One new id: a vertex is appended for it, numbered by the count so far, and its map entry leads there. */
  lemma RenumberedSnoc(vs0: seq<Vertex>, map0: map<int, VRef>, arcs: seq<Arc>, i: nat, d: seq<int>,
                       hv: seq<Vertex>, vertices: map<int, VRef>, nodes: seq<VRef>, id: int)
    requires EndsIn(vs0, arcs) && i <= |arcs|
    requires forall k :: 0 <= k < |d| ==> d[k] in map0 && map0[d[k]] < |vs0|
    requires RenumberedUpTo(vs0, map0, arcs, i, d, hv, vertices, nodes)
    requires id !in d && id in map0 && map0[id] < |vs0|
    ensures vertices[id] == map0[id] && |hv| == |vs0| + |nodes|
    ensures forall k :: 0 <= k < |d + [id]| ==> (d + [id])[k] in map0 && map0[(d + [id])[k]] < |vs0|
    ensures RenumberedUpTo(vs0, map0, arcs, i, d + [id], hv + [Vertex(|nodes|, hv[map0[id]].point, [])],
                           vertices[id := |hv|], nodes + [|hv|])
  {
    var base := |vs0|;
    var x := vs0 + NewVertices(vs0, map0, d);
    var r := RenumberArcs(vs0, base, arcs, i);
    assert x[map0[id]] == vs0[map0[id]];
    var v := Vertex(|nodes|, vs0[map0[id]].point, []);
    assert hv[map0[id]].point == vs0[map0[id]].point;
    NewVerticesSnoc(vs0, map0, d, id);
    var d2 := d + [id];
    var x2 := vs0 + NewVertices(vs0, map0, d2);
    assert x + [v] == x2;
    AttachExtend(x, r, v);
    RemapSnoc(map0, d, id, base);
    RangeSnoc(base, |d|);
  }

  /** An id met for the first time is not among the visited ones, has a map entry, and joins them at the end. */
  lemma NewNotVisited(vs0: seq<Vertex>, map0: map<int, VRef>, arcs: seq<Arc>, e: seq<int>, s: nat)
    requires EndsMapped(vs0, map0, arcs) && e == EndpointIds(vs0, arcs) && s < |e| && e[s] !in e[..s]
    ensures e[s] in map0 && map0[e[s]] < |vs0|
    ensures e[s] !in Visited(vs0, map0, arcs, s)
    ensures Visited(vs0, map0, arcs, s + 1) == Visited(vs0, map0, arcs, s) + [e[s]]
  {
    DedupSliceStep(e, s);
    NotInDedup(e[..s], e[s]);
    EndIdAtMapped(vs0, map0, arcs, s);
  }

  /** One more visited id appends one new vertex. */
  lemma NewVerticesSnoc(vs: seq<Vertex>, vertices: map<int, VRef>, d: seq<int>, id: int)
    requires forall k :: 0 <= k < |d| ==> d[k] in vertices && vertices[d[k]] < |vs|
    requires id in vertices && vertices[id] < |vs|
    ensures forall k :: 0 <= k < |d + [id]| ==> (d + [id])[k] in vertices && vertices[(d + [id])[k]] < |vs|
    ensures NewVertices(vs, vertices, d + [id]) == NewVertices(vs, vertices, d) + [Vertex(|d|, vs[vertices[id]].point, [])]
  {
  }

  /** One more visited id, new so far, is remapped to the next new vertex. */
  lemma RemapSnoc(vertices: map<int, VRef>, d: seq<int>, id: int, base: nat)
    requires id !in d && id in vertices
    ensures Remap(vertices, d, base)[id] == vertices[id]
    ensures Remap(vertices, d + [id], base) == Remap(vertices, d, base)[id := base + |d|]
  {
    var d2 := d + [id];
    IndexOfUnique(d2, id, |d|);
    forall y | y in d
      ensures IndexOf(d2, y) == IndexOf(d, y)
    {
      FirstIndexInPrefix(d, id, y);
    }
  }

  /** After both ends are visited, the arc is recreated between their new vertices and attached to the new origin. */
  lemma ArcStep(vs0: seq<Vertex>, map0: map<int, VRef>, arcs: seq<Arc>, i: nat,
                hv: seq<Vertex>, vertices: map<int, VRef>, nodes: seq<VRef>)
    requires EndsMapped(vs0, map0, arcs) && i < |arcs|
    requires Renumbering(vs0, map0, arcs, i, 2 * i + 2, hv, vertices, nodes)
    ensures vs0[arcs[i].origin].id in vertices && vs0[arcs[i].destination].id in vertices
    ensures vertices[vs0[arcs[i].origin].id] < |hv|
    ensures
      var a := arcs[i];
      var a2 := Arc(a.id, vertices[vs0[a.origin].id], vertices[vs0[a.destination].id], a.length, a.info, a.points);
      Renumbering(vs0, map0, arcs, i + 1, 2 * i + 2, WithSuccessor(hv, a2.origin, a2), vertices, nodes)
  {
    var e := EndpointIds(vs0, arcs);
    var s := 2 * i + 2;
    var d := Visited(vs0, map0, arcs, s);
    VisitedPrefix(vs0, map0, arcs, s);
    assert e[..s][2 * i] == e[2 * i] && e[..s][2 * i + 1] == e[2 * i + 1];
    InDedup(e[..s], e[2 * i]);
    InDedup(e[..s], e[2 * i + 1]);
    RenumberedArc(vs0, map0, arcs, i, d, hv, vertices, nodes);
  }

  /** Recreating arc i between the new vertices of its ends' ids, already visited, and attaching it to its new origin. */
  lemma RenumberedArc(vs0: seq<Vertex>, map0: map<int, VRef>, arcs: seq<Arc>, i: nat, d: seq<int>,
                      hv: seq<Vertex>, vertices: map<int, VRef>, nodes: seq<VRef>)
    requires EndsIn(vs0, arcs) && i < |arcs|
    requires forall k :: 0 <= k < |d| ==> d[k] in map0 && map0[d[k]] < |vs0|
    requires RenumberedUpTo(vs0, map0, arcs, i, d, hv, vertices, nodes)
    requires d <= Dedup(EndpointIds(vs0, arcs))
    requires vs0[arcs[i].origin].id in d && vs0[arcs[i].destination].id in d
    ensures vs0[arcs[i].origin].id in vertices && vs0[arcs[i].destination].id in vertices
    ensures vertices[vs0[arcs[i].origin].id] < |hv|
    ensures
      var a := arcs[i];
      var a2 := Arc(a.id, vertices[vs0[a.origin].id], vertices[vs0[a.destination].id], a.length, a.info, a.points);
      RenumberedUpTo(vs0, map0, arcs, i + 1, d, WithSuccessor(hv, a2.origin, a2), vertices, nodes)
  {
    var e := EndpointIds(vs0, arcs);
    var a := arcs[i];
    var base := |vs0|;
    var oid, did := vs0[a.origin].id, vs0[a.destination].id;
    RenumberArcsSnoc(vs0, base, arcs, i);
    var x := vs0 + NewVertices(vs0, map0, d);
    var r := RenumberArcs(vs0, base, arcs, i);
    assert vertices == Remap(map0, d, base) && hv == Attach(x, r);
    RemapVisited(map0, d, e, base, oid);
    RemapVisited(map0, d, e, base, did);
    var a2 := Arc(a.id, vertices[oid], vertices[did], a.length, a.info, a.points);
    assert a2 == RenumberArc(vs0, e, base, a);
    AttachSnoc(x, r, a2);
  }

  /** A visited id is remapped to the new vertex of its first-encounter number. */
  lemma RemapVisited(map0: map<int, VRef>, d: seq<int>, e: seq<int>, base: nat, x: int)
    requires forall k :: 0 <= k < |d| ==> d[k] in map0
    requires d <= Dedup(e) && x in d
    ensures x in e && x in map0
    ensures Remap(map0, d, base)[x] == base + Number(e, x) && Number(e, x) < |d|
  {
    IndexOfPrefix(d, Dedup(e), x);
  }

  /** The vertices created by the whole renumbering, one per distinct end id in first-encounter order. */
  ghost function FinalNewVertices(vs0: seq<Vertex>, map0: map<int, VRef>, arcs: seq<Arc>): (r: seq<Vertex>)
    requires EndsMapped(vs0, map0, arcs)
    ensures |r| == |Dedup(EndpointIds(vs0, arcs))|
    ensures forall k :: 0 <= k < |r| ==> r[k].successors == []
  {
    VisitedPrefix(vs0, map0, arcs, 2 * |arcs|);
    NewVertices(vs0, map0, Visited(vs0, map0, arcs, 2 * |arcs|))
  }

  /** Every recreated arc starts at one of the new vertices. */
  lemma RenumberedOriginsIn(vs0: seq<Vertex>, map0: map<int, VRef>, arcs: seq<Arc>)
    requires EndsMapped(vs0, map0, arcs)
    ensures OriginsIn(vs0 + FinalNewVertices(vs0, map0, arcs), RenumberArcs(vs0, |vs0|, arcs, |arcs|))
  {
    VisitedPrefix(vs0, map0, arcs, 2 * |arcs|);
  }

  /** The arena once every arc has been recreated: the old vertices, then the new ones carrying the recreated arcs. */
  ghost function RenumberedArena(vs0: seq<Vertex>, map0: map<int, VRef>, arcs: seq<Arc>): seq<Vertex>
    requires EndsMapped(vs0, map0, arcs)
  {
    RenumberedOriginsIn(vs0, map0, arcs);
    Attach(vs0 + FinalNewVertices(vs0, map0, arcs), RenumberArcs(vs0, |vs0|, arcs, |arcs|))
  }

  /**
   * What the renumbering leaves behind: one new vertex per distinct end id, numbered after the
   * old ones and carrying the recreated arcs, and the id map pointing at the new vertices.
   */
  ghost predicate Renumbered(vs0: seq<Vertex>, map0: map<int, VRef>, arcs: seq<Arc>,
                             hv: seq<Vertex>, vertices: map<int, VRef>, nodes: seq<VRef>)
    requires EndsMapped(vs0, map0, arcs)
  {
    && nodes == Range(|vs0|, |Dedup(EndpointIds(vs0, arcs))|)
    && hv == RenumberedArena(vs0, map0, arcs)
    && vertices == Remap(map0, Dedup(EndpointIds(vs0, arcs)), |vs0|)
  }

  /** The loop's final state is the renumbered arena, with one new vertex per distinct end id. */
  lemma RenumberingDone(vs0: seq<Vertex>, map0: map<int, VRef>, arcs: seq<Arc>,
                        hv: seq<Vertex>, vertices: map<int, VRef>, nodes: seq<VRef>)
    requires EndsMapped(vs0, map0, arcs)
    requires Renumbering(vs0, map0, arcs, |arcs|, 2 * |arcs|, hv, vertices, nodes)
    ensures Renumbered(vs0, map0, arcs, hv, vertices, nodes)
  {
    VisitedPrefix(vs0, map0, arcs, 2 * |arcs|);
  }

  /** Every recreated arc starts at or after `base`: at one of the new vertices. */
  lemma RenumberedOriginsAbove(vs0: seq<Vertex>, base: nat, arcs: seq<Arc>, v: VRef)
    requires EndsIn(vs0, arcs) && v < base
    ensures forall k :: 0 <= k < |arcs| ==> RenumberArcs(vs0, base, arcs, |arcs|)[k].origin != v
  {
  }

  /** The old vertices come out of renumbering exactly as they went in; the arena grows by one vertex per distinct end id. */
  lemma RenumberedOldVertices(vs0: seq<Vertex>, map0: map<int, VRef>, arcs: seq<Arc>)
    requires EndsMapped(vs0, map0, arcs)
    ensures |RenumberedArena(vs0, map0, arcs)| == |vs0| + |Dedup(EndpointIds(vs0, arcs))|
    ensures forall v :: 0 <= v < |vs0| ==> RenumberedArena(vs0, map0, arcs)[v] == vs0[v]
  {
    var x := vs0 + FinalNewVertices(vs0, map0, arcs);
    var r := RenumberArcs(vs0, |vs0|, arcs, |arcs|);
    RenumberedOriginsIn(vs0, map0, arcs);
    forall v | 0 <= v < |vs0|
      ensures RenumberedArena(vs0, map0, arcs)[v] == vs0[v]
    {
      RenumberedOriginsAbove(vs0, |vs0|, arcs, v);
      ArcsFromNone(r, v);
      AttachSuccessors(x, r, v);
      assert x[v] == vs0[v];
    }
  }

  /** New vertex k has id k and the position of the old vertex of the k-th distinct end id. */
  lemma RenumberedNewVertex(vs0: seq<Vertex>, map0: map<int, VRef>, arcs: seq<Arc>, k: nat)
    requires EndsMapped(vs0, map0, arcs) && k < |Dedup(EndpointIds(vs0, arcs))|
    ensures |RenumberedArena(vs0, map0, arcs)| == |vs0| + |Dedup(EndpointIds(vs0, arcs))|
    ensures Dedup(EndpointIds(vs0, arcs))[k] in map0 && map0[Dedup(EndpointIds(vs0, arcs))[k]] < |vs0|
    ensures RenumberedArena(vs0, map0, arcs)[|vs0| + k].id == k
    ensures RenumberedArena(vs0, map0, arcs)[|vs0| + k].point == vs0[map0[Dedup(EndpointIds(vs0, arcs))[k]]].point
  {
    VisitedPrefix(vs0, map0, arcs, 2 * |arcs|);
    var d := Visited(vs0, map0, arcs, 2 * |arcs|);
    var nv := FinalNewVertices(vs0, map0, arcs);
    var r := RenumberArcs(vs0, |vs0|, arcs, |arcs|);
    RenumberedOriginsIn(vs0, map0, arcs);
    assert nv[k] == Vertex(k, vs0[map0[d[k]]].point, []);
    AttachAppended(vs0, nv, r, k);
  }

  /** Renumbering a well-formed arena leaves it well formed, with every listed node a vertex of it. */
  lemma RenumberedWellFormed(vs0: seq<Vertex>, map0: map<int, VRef>, arcs: seq<Arc>)
    requires EndsMapped(vs0, map0, arcs) && WellFormed(vs0)
    ensures WellFormed(RenumberedArena(vs0, map0, arcs))
    ensures NodesIn(RenumberedArena(vs0, map0, arcs), Range(|vs0|, |Dedup(EndpointIds(vs0, arcs))|))
  {
    var nv := FinalNewVertices(vs0, map0, arcs);
    var rr := RenumberArcs(vs0, |vs0|, arcs, |arcs|);
    var x := vs0 + nv;
    RenumberedOriginsIn(vs0, map0, arcs);
    RenumberedOldVertices(vs0, map0, arcs);
    forall v, k | 0 <= v < |x| && 0 <= k < |x[v].successors|
      ensures x[v].successors[k].origin == v && x[v].successors[k].destination < |x|
    {
      assert v < |vs0| && x[v] == vs0[v];
    }
    forall k | 0 <= k < |rr|
      ensures rr[k].origin < |x| && rr[k].destination < |x|
    {
      RenumberedArcFields(vs0, map0, arcs, k);
    }
    AttachWellFormed(x, rr);
  }

  /** The successors of a new vertex are exactly the recreated arcs that start at it, in order. */
  lemma RenumberedSuccessors(vs0: seq<Vertex>, map0: map<int, VRef>, arcs: seq<Arc>, v: VRef)
    requires EndsMapped(vs0, map0, arcs) && |vs0| <= v < |vs0| + |Dedup(EndpointIds(vs0, arcs))|
    ensures |RenumberedArena(vs0, map0, arcs)| == |vs0| + |Dedup(EndpointIds(vs0, arcs))|
    ensures RenumberedArena(vs0, map0, arcs)[v].successors == ArcsFrom(RenumberArcs(vs0, |vs0|, arcs, |arcs|), v)
  {
    var nv := FinalNewVertices(vs0, map0, arcs);
    var r := RenumberArcs(vs0, |vs0|, arcs, |arcs|);
    RenumberedOriginsIn(vs0, map0, arcs);
    AttachAppendedSuccessors(vs0, nv, r, v);
  }

  /** The new vertex of a visited id: numbered by first encounter, at the old vertex's position. */
  lemma RenumberedEnd(vs0: seq<Vertex>, map0: map<int, VRef>, arcs: seq<Arc>, x: int)
    requires EndsMapped(vs0, map0, arcs) && x in EndpointIds(vs0, arcs)
    ensures x in map0 && map0[x] < |vs0|
    ensures var v := |vs0| + Number(EndpointIds(vs0, arcs), x);
            var a := RenumberedArena(vs0, map0, arcs);
      v < |a| && a[v].id == v - |vs0| && a[v].point == vs0[map0[x]].point
  {
    var e := EndpointIds(vs0, arcs);
    var n := Number(e, x);
    RenumberedNewVertex(vs0, map0, arcs, n);
    assert Dedup(e)[n] == x;
  }

  /** An old vertex u at an arc end: the new vertex of its id lies at u's position. */
  lemma RenumberedEndOf(vs0: seq<Vertex>, map0: map<int, VRef>, arcs: seq<Arc>, u: VRef)
    requires EndsMapped(vs0, map0, arcs) && u < |vs0|
    requires vs0[u].id in EndpointIds(vs0, arcs) && vs0[u].id in map0 && map0[vs0[u].id] == u
    ensures |vs0| + Number(EndpointIds(vs0, arcs), vs0[u].id) < |RenumberedArena(vs0, map0, arcs)|
    ensures RenumberedArena(vs0, map0, arcs)[|vs0| + Number(EndpointIds(vs0, arcs), vs0[u].id)].point == vs0[u].point
  {
    RenumberedEnd(vs0, map0, arcs, vs0[u].id);
  }

  /** Arc k recreated: only its ends change, to the new vertices of their ids. */
  lemma RenumberedArcShape(vs0: seq<Vertex>, map0: map<int, VRef>, arcs: seq<Arc>, k: nat)
    requires EndsMapped(vs0, map0, arcs) && k < |arcs|
    ensures vs0[arcs[k].origin].id in EndpointIds(vs0, arcs) && vs0[arcs[k].destination].id in EndpointIds(vs0, arcs)
    ensures map0[vs0[arcs[k].origin].id] == arcs[k].origin && map0[vs0[arcs[k].destination].id] == arcs[k].destination
    ensures RenumberArcs(vs0, |vs0|, arcs, |arcs|)[k]
         == arcs[k].(origin := |vs0| + Number(EndpointIds(vs0, arcs), vs0[arcs[k].origin].id),
                     destination := |vs0| + Number(EndpointIds(vs0, arcs), vs0[arcs[k].destination].id))
  {
    var e := EndpointIds(vs0, arcs);
    assert e[2 * k] == vs0[arcs[k].origin].id && e[2 * k + 1] == vs0[arcs[k].destination].id;
  }

  /**
   * A recreated arc keeps the number, length, road information and shape of the old one, and its
   * ends are new vertices at the positions of the old ends.
   */
  lemma RenumberedArcFields(vs0: seq<Vertex>, map0: map<int, VRef>, arcs: seq<Arc>, k: nat)
    requires EndsMapped(vs0, map0, arcs) && k < |arcs|
    ensures RenumberArcs(vs0, |vs0|, arcs, |arcs|)[k].id == arcs[k].id
    ensures RenumberArcs(vs0, |vs0|, arcs, |arcs|)[k].length == arcs[k].length
    ensures RenumberArcs(vs0, |vs0|, arcs, |arcs|)[k].info == arcs[k].info
    ensures RenumberArcs(vs0, |vs0|, arcs, |arcs|)[k].points == arcs[k].points
    ensures |vs0| <= RenumberArcs(vs0, |vs0|, arcs, |arcs|)[k].origin < |RenumberedArena(vs0, map0, arcs)|
    ensures |vs0| <= RenumberArcs(vs0, |vs0|, arcs, |arcs|)[k].destination < |RenumberedArena(vs0, map0, arcs)|
    ensures RenumberedArena(vs0, map0, arcs)[RenumberArcs(vs0, |vs0|, arcs, |arcs|)[k].origin].point
         == vs0[arcs[k].origin].point
    ensures RenumberedArena(vs0, map0, arcs)[RenumberArcs(vs0, |vs0|, arcs, |arcs|)[k].destination].point
         == vs0[arcs[k].destination].point
  {
    var e := EndpointIds(vs0, arcs);
    var r := RenumberArcs(vs0, |vs0|, arcs, |arcs|);
    var xo, xd := vs0[arcs[k].origin].id, vs0[arcs[k].destination].id;
    RenumberedArcShape(vs0, map0, arcs, k);
    RenumberedEndOf(vs0, map0, arcs, arcs[k].origin);
    RenumberedEndOf(vs0, map0, arcs, arcs[k].destination);
    assert r[k].origin == |vs0| + Number(e, xo) && r[k].destination == |vs0| + Number(e, xd);
  }

  /** A recreated arc is among the successors of its new origin. */
  lemma RenumberedArcListed(vs0: seq<Vertex>, map0: map<int, VRef>, arcs: seq<Arc>, k: nat)
    requires EndsMapped(vs0, map0, arcs) && k < |arcs|
    ensures var a := RenumberArcs(vs0, |vs0|, arcs, |arcs|)[k];
            var A := RenumberedArena(vs0, map0, arcs);
      |vs0| <= a.origin < |A| && a in A[a.origin].successors
  {
    var r := RenumberArcs(vs0, |vs0|, arcs, |arcs|);
    RenumberedArcShape(vs0, map0, arcs, k);
    RenumberedEnd(vs0, map0, arcs, vs0[arcs[k].origin].id);
    RenumberedSuccessors(vs0, map0, arcs, r[k].origin);
    ArcsFromContains(r, k);
  }

  /** Two recreated ends are the same new vertex exactly when the old ends were the same vertex. */
  lemma RenumberedSameEnds(vs0: seq<Vertex>, map0: map<int, VRef>, arcs: seq<Arc>, k: nat, l: nat)
    requires EndsMapped(vs0, map0, arcs) && k < |arcs| && l < |arcs|
    ensures var r := RenumberArcs(vs0, |vs0|, arcs, |arcs|);
      && (r[k].origin == r[l].origin <==> arcs[k].origin == arcs[l].origin)
      && (r[k].origin == r[l].destination <==> arcs[k].origin == arcs[l].destination)
      && (r[k].destination == r[l].destination <==> arcs[k].destination == arcs[l].destination)
  {
    var e := EndpointIds(vs0, arcs);
    var r := RenumberArcs(vs0, |vs0|, arcs, |arcs|);
    assert r[k] == RenumberArc(vs0, e, |vs0|, arcs[k]);
    assert r[l] == RenumberArc(vs0, e, |vs0|, arcs[l]);
    assert e[2 * k] == vs0[arcs[k].origin].id && e[2 * k + 1] == vs0[arcs[k].destination].id;
    assert e[2 * l] == vs0[arcs[l].origin].id && e[2 * l + 1] == vs0[arcs[l].destination].id;
  }

  /** The new vertices, listed in creation order, have strictly increasing ids: sorting by compareTo leaves the list as it is. */
  lemma RenumberedNodesSorted(vs0: seq<Vertex>, map0: map<int, VRef>, arcs: seq<Arc>)
    requires EndsMapped(vs0, map0, arcs)
    ensures NodesIn(RenumberedArena(vs0, map0, arcs), Range(|vs0|, |Dedup(EndpointIds(vs0, arcs))|))
    ensures var a := RenumberedArena(vs0, map0, arcs);
            var nodes := Range(|vs0|, |Dedup(EndpointIds(vs0, arcs))|);
      forall i, j :: 0 <= i < j < |nodes| ==> CompareTo(a[nodes[i]], a[nodes[j]]) < 0
  {
    var n := |Dedup(EndpointIds(vs0, arcs))|;
    RenumberedOldVertices(vs0, map0, arcs);
    forall v | |vs0| <= v < |vs0| + n
      ensures RenumberedArena(vs0, map0, arcs)[v].id == v - |vs0|
    {
      RenumberedNewVertex(vs0, map0, arcs, v - |vs0|);
    }
  }

  /** Positions i < j holding the same element give it at least two occurrences. */
  lemma MultiplicityOfRepeat(p: seq<int>, i: nat, j: nat)
    requires i < j < |p| && p[i] == p[j]
    ensures multiset(p)[p[i]] >= 2
  {
    assert p == p[..i] + [p[i]] + p[i + 1..j] + [p[j]] + p[j + 1..];
  }

  /** Every reference occurs at most once in a range. */
  lemma {:induction false} RangeMultiplicity(base: nat, n: nat, x: int)
    ensures multiset(Range(base, n))[x] <= 1
    ensures x in Range(base, n) <==> base <= x < base + n
  {
    if n > 0 {
      RangeMultiplicity(base, n - 1, x);
      RangeSnoc(base, n - 1);
    }
  }

  /** In a strictly increasing sequence, elements j - i positions apart differ by at least j - i. */
  lemma {:induction false} IncreasingGap(p: seq<int>, i: nat, j: nat)
    requires i <= j < |p|
    requires forall a, b :: 0 <= a < b < |p| ==> p[a] < p[b]
    ensures p[j] - p[i] >= j - i
    decreases j - i
  {
    if i < j {
      IncreasingGap(p, i, j - 1);
    }
  }

  /**
   * Any list holding the same references as the new-node list and ordered by compareTo over an
   * arena where reference base+k carries id k is that list: the sort can produce nothing else.
   */
  lemma SortedRangeUnique(arena: seq<Vertex>, base: nat, n: nat, p: seq<VRef>)
    requires base + n <= |arena| && forall v :: base <= v < base + n ==> arena[v].id == v - base
    requires multiset(p) == multiset(Range(base, n))
    requires forall i :: 0 <= i < |p| ==> p[i] < |arena|
    requires forall i, j :: 0 <= i < j < |p| ==> CompareTo(arena[p[i]], arena[p[j]]) <= 0
    ensures p == Range(base, n)
  {
    assert |p| == |multiset(p)| == n;
    forall i | 0 <= i < |p|
      ensures base <= p[i] < base + n && arena[p[i]].id == p[i] - base
    {
      assert p[i] in multiset(p);
      RangeMultiplicity(base, n, p[i]);
    }
    forall i, j | 0 <= i < j < |p|
      ensures p[i] < p[j]
    {
      assert arena[p[i]].id <= arena[p[j]].id;
      if p[i] == p[j] {
        MultiplicityOfRepeat(p, i, j);
        RangeMultiplicity(base, n, p[i]);
      }
    }
    forall i | 0 <= i < |p|
      ensures p[i] == base + i
    {
      IncreasingGap(p, 0, i);
      IncreasingGap(p, i, |p| - 1);
    }
  }

  /** A single arc that loops on one vertex gives one new vertex, and the recreated arc loops on it. */
  lemma SelfLoopOneVertex(vs0: seq<Vertex>, map0: map<int, VRef>, a: Arc)
    requires EndsMapped(vs0, map0, [a]) && a.origin == a.destination
    ensures |Dedup(EndpointIds(vs0, [a]))| == 1
    ensures RenumberArcs(vs0, |vs0|, [a], 1)[0].origin == |vs0|
    ensures RenumberArcs(vs0, |vs0|, [a], 1)[0].destination == |vs0|
  {
    assert [a][0] == a;
    var x := vs0[a.origin].id;
    var e := EndpointIds(vs0, [a]);
    assert e == [x, x];
    DedupPair(x);
    assert Number(e, x) == 0;
    var r := RenumberArcs(vs0, |vs0|, [a], 1);
    assert r[0] == a.(origin := |vs0|, destination := |vs0|);
  }

  /** The id map afterwards: visited ids lead to their new vertex, every other entry is untouched. */
  lemma RemapEntries(vs0: seq<Vertex>, map0: map<int, VRef>, arcs: seq<Arc>, x: int)
    requires EndsMapped(vs0, map0, arcs) && x in map0
    ensures x in Remap(map0, Dedup(EndpointIds(vs0, arcs)), |vs0|)
    ensures x !in EndpointIds(vs0, arcs) ==> Remap(map0, Dedup(EndpointIds(vs0, arcs)), |vs0|)[x] == map0[x]
    ensures x in EndpointIds(vs0, arcs) ==>
      && map0[x] < |vs0|
      && Remap(map0, Dedup(EndpointIds(vs0, arcs)), |vs0|)[x] == |vs0| + Number(EndpointIds(vs0, arcs), x)
      && Remap(map0, Dedup(EndpointIds(vs0, arcs)), |vs0|)[x] < |RenumberedArena(vs0, map0, arcs)|
      && RenumberedArena(vs0, map0, arcs)[Remap(map0, Dedup(EndpointIds(vs0, arcs)), |vs0|)[x]].point == vs0[map0[x]].point
  {
    var e := EndpointIds(vs0, arcs);
    var d := Dedup(e);
    EndIdsMapped(vs0, map0, arcs);
    if x in e {
      InDedup(e, x);
      RenumberedNewVertex(vs0, map0, arcs, Number(e, x));
      assert d[Number(e, x)] == x;
    }
  }

  /** Adding a vertex for a node id keeps the id map consistent with the arena. */
  lemma ConsistentAdd(vs: seq<Vertex>, vertices: map<int, VRef>, id: int, point: Point)
    requires Consistent(vs, vertices)
    ensures Consistent(vs + [Vertex(id, point, [])], vertices[id := |vs|])
  {
    var ws := vs + [Vertex(id, point, [])];
    var m := vertices[id := |vs|];
    forall x | x in m
      ensures m[x] < |ws| && ws[m[x]].id == x
    {
      if x != id {
        assert ws[vertices[x]] == vs[vertices[x]];
      }
    }
  }

  /** The arcs of a way run between vertices the id map holds under their own ids. */
  lemma WayArcsEndsMapped(ids: seq<int>, marks: set<int>, vertices: map<int, VRef>, vs: seq<Vertex>,
                          info: InfoRef, distance: (Point, Point) -> real)
    requires Consistent(vs, vertices)
    ensures VerticesIn(vertices, vs)
    ensures EndsMapped(vs, vertices, WayArcs(ids, marks, vertices, vs, info, distance))
  {
    var n := FirstMissing(ids, vertices);
    var refs := Refs(ids, vertices, n);
    RefsIn(ids, vertices, vs, n);
    var m := MarkedPositions(ids, marks, n);
    WayConversion.MarkedPositionsCuts(ids, marks, n);
    var ps := PointsOf(vs, refs);
    var arcs := ArcsOf(m, refs, ps, info, distance);
    assert arcs == WayArcs(ids, marks, vertices, vs, info, distance);
    forall k | 0 <= k < |arcs|
      ensures arcs[k].origin < |vs| && arcs[k].destination < |vs|
      ensures vs[arcs[k].origin].id in vertices && vertices[vs[arcs[k].origin].id] == arcs[k].origin
      ensures vs[arcs[k].destination].id in vertices && vertices[vs[arcs[k].destination].id] == arcs[k].destination
    {
      ArcOfShape(m, k, refs, ps, info, distance);
      var a := Start(m, k);
      var b := m[k];
      assert a < b < n;
      assert ids[a] in vertices && ids[b] in vertices;
      assert arcs[k].origin == vertices[ids[a]] && arcs[k].destination == vertices[ids[b]];
      assert vs[vertices[ids[a]]].id == ids[a] && vs[vertices[ids[b]]].id == ids[b];
    }
  }

  lemma EndsMappedAppend(vs: seq<Vertex>, vertices: map<int, VRef>, a: seq<Arc>, b: seq<Arc>)
    requires EndsMapped(vs, vertices, a) && EndsMapped(vs, vertices, b)
    ensures EndsMapped(vs, vertices, a + b)
  {
    forall k | 0 <= k < |a + b|
      ensures (a + b)[k] == if k < |a| then a[k] else b[k - |a|]
    {
    }
  }

  /** The arcs of ways each converted against the id map run between mapped vertices. */
  lemma {:induction false} FlattenEndsMapped(vs: seq<Vertex>, vertices: map<int, VRef>, parts: seq<seq<Arc>>)
    requires forall w :: 0 <= w < |parts| ==> EndsMapped(vs, vertices, parts[w])
    ensures EndsMapped(vs, vertices, Flatten(parts))
    decreases |parts|
  {
    if parts != [] {
      FlattenEndsMapped(vs, vertices, parts[..|parts| - 1]);
      EndsMappedAppend(vs, vertices, Flatten(parts[..|parts| - 1]), parts[|parts| - 1]);
    }
  }

  /** Attaching successors changes no id, so arcs stay mapped in the attached arena. */
  lemma AttachEndsMapped(vs: seq<Vertex>, vertices: map<int, VRef>, arcs: seq<Arc>, other: seq<Arc>)
    requires EndsMapped(vs, vertices, arcs) && OriginsIn(vs, other)
    ensures EndsMapped(Attach(vs, other), vertices, arcs)
  {
  }

  /** What the conversion hands to the renumbering is mapped: the precondition of Renumber holds. */
  lemma ConvertedEndsMapped(ways: seq<Way>, ids: seq<nat>, marks: set<int>, vertices: map<int, VRef>, vs: seq<Vertex>,
                            infos: seq<InfoRef>, parts: seq<seq<Arc>>, distance: (Point, Point) -> real)
    requires Consistent(vs, vertices) && VerticesIn(vertices, vs) && |infos| == |ids| && |parts| == |ids|
    requires forall k :: 0 <= k < |ids| ==>
      ids[k] < |ways| && parts[k] == WayArcs(ways[ids[k]].nodeIds, marks, vertices, vs, infos[k], distance)
    ensures EndsMapped(vs, vertices, Flatten(parts))
  {
    forall k | 0 <= k < |parts|
      ensures EndsMapped(vs, vertices, parts[k])
    {
      WayArcsEndsMapped(ways[ids[k]].nodeIds, marks, vertices, vs, infos[k], distance);
    }
    FlattenEndsMapped(vs, vertices, parts);
  }

  /**
   * The converted ways, read for the renumbering: each kept way's arcs and record as the
   * conversion defines them, the arena of the converter's heap, and every listed arc end mapped in it.
   */
  lemma ConvertedForRenumbering(ways: seq<Way>, ids: seq<nat>, marks: set<int>, vertices: map<int, VRef>,
                                vs0: seq<Vertex>, infos: seq<InfoRef>, parts: seq<seq<Arc>>, arcs: seq<Arc>,
                                built: seq<Arc>, hv: seq<Vertex>, pool: map<RoadInformation, InfoRef>,
                                scaling: SpeedData.UnitScaling, distance: (Point, Point) -> real)
    requires Consistent(vs0, vertices) && VerticesIn(vertices, vs0)
    requires ConvertedAt(ways, ids, marks, vertices, vs0, infos, parts, arcs, built, hv, pool, scaling, distance)
    ensures |infos| == |ids| && |parts| == |ids| && arcs == Flatten(parts)
    ensures forall k :: 0 <= k < |ids| ==>
      && ids[k] < |ways|
      && parts[k] == WayArcs(ways[ids[k]].nodeIds, marks, vertices, vs0, infos[k], distance)
      && Roads(ways, scaling)[ids[k]] == Ok(infos[k].value)
    ensures EndsIn(vs0, built) && OriginsIn(vs0, built) && hv == Attach(vs0, built)
    ensures EndsMapped(hv, vertices, arcs)
  {
    forall k | 0 <= k < |ids|
      ensures ids[k] < |ways|
      ensures parts[k] == WayArcs(ways[ids[k]].nodeIds, marks, vertices, vs0, infos[k], distance)
      ensures Roads(ways, scaling)[ids[k]] == Ok(infos[k].value)
    {
      assert WayConverted(ways[ids[k]], Roads(ways, scaling)[ids[k]], marks, vertices, vs0, infos[k], parts[k], pool,
                          distance);
    }
    ConvertedEndsMapped(ways, ids, marks, vertices, vs0, infos, parts, distance);
    AttachEndsMapped(vs0, vertices, arcs, built);
  }

  /**
   * The conversion half of complete: a converter over the collected vertices turns the ways into
   * arcs, appending them to the heap, with `threads` processors.
   */
  method ConvertWays(heap: Heap, ways: seq<Way>, vertices: map<int, VRef>, distance: (Point, Point) -> real,
                     scaling: SpeedData.UnitScaling, threads: int)
    returns (r: Result<seq<Arc>, ConversionError>, ghost infos: seq<InfoRef>, ghost parts: seq<seq<Arc>>,
             ghost built: seq<Arc>, ghost collected: seq<seq<Arc>>, ghost tails: seq<seq<Arc>>,
             ghost tinfos: seq<InfoRef>)
    requires Consistent(heap.vertices, vertices)
    modifies heap
    ensures (exists w :: 0 <= w < |ways| && ways[w].nodeIds == []) ==> r == Err(IndexOutOfBounds)
    ensures (forall w :: 0 <= w < |ways| ==> ways[w].nodeIds != []) ==>
      && (threads == 0 ==> r == Err(DivisionByZero))
      && (threads < 0 ==> r == Err(NegativeArraySize))
      && (threads > 0 && !RangesUpright(|ways|, threads, threads) ==> r == Err(IllegalArgument))
    ensures r.Ok? <==>
      && (forall w :: 0 <= w < |ways| ==> ways[w].nodeIds != [])
      && threads > 0 && RangesUpright(|ways|, threads, threads)
    ensures r.Ok? ==>
      && threads > 0 && RangesUpright(|ways|, threads, threads)
      && var kept := KeptWays(Failing(ways, vertices, scaling), threads, threads);
      && |infos| == |kept| && |parts| == |kept| && r.value == Flatten(parts)
      && (forall k :: 0 <= k < |kept| ==>
            && kept[k] < |ways|
            && parts[k] == WayArcs(ways[kept[k]].nodeIds, Repeated(AllIds(ways)) + WayEnds(ways), vertices,
                                   old(heap.vertices), infos[k], distance)
            && Roads(ways, scaling)[kept[k]] == Ok(infos[k].value))
      && EndsIn(old(heap.vertices), built)
      && heap.vertices == Attach(old(heap.vertices), built)
      && EndsMapped(heap.vertices, vertices, r.value)
      && ThreadsAttached(ways, threads, threads, Repeated(AllIds(ways)) + WayEnds(ways), vertices, old(heap.vertices),
                         scaling, distance, r.value, built, collected, tails, tinfos)
      && (forall k :: 0 <= k < |r.value| ==>
            r.value[k].origin < |heap.vertices| && r.value[k] in heap.vertices[r.value[k].origin].successors)
  {
    ghost var vs0 := heap.vertices;
    var converter := new WayToArc(heap, vertices, distance, scaling, threads);
    r, infos, parts, built, collected, tails, tinfos := converter.ConvertAll(ways);
    if r.Ok? {
      ghost var marks := converter.nodeMarks;
      assert marks == Repeated(AllIds(ways)) + WayEnds(ways);
      ConvertedForRenumbering(ways, KeptWays(Failing(ways, vertices, scaling), threads, threads), marks, vertices, vs0,
                              infos, parts, r.value, built, heap.vertices, converter.roadinfos, scaling, distance);
      CollectedInArena(vs0, r.value, built, collected, tails);
    }
  }

  /** The sink: the nodes received so far as vertices under their ids, the ways in arrival order, and two counters. */
  class OSM2GraphTask {
    const heap: Heap
    var vertices: map<int, VRef>
    var ways: seq<Way>
    var amountOfNodesProcessed: int
    var amountOfWaysProcessed: int

    predicate Valid()
      reads this, heap
    {
      Consistent(heap.vertices, vertices) && WellFormed(heap.vertices)
    }

    /** The constructor followed by `initialize`: an empty id map and an empty way list. */
    constructor ()
      ensures fresh(heap) && heap.vertices == [] && vertices == map[] && ways == []
      ensures amountOfNodesProcessed == 0 && amountOfWaysProcessed == 0
      ensures Valid()
    {
      heap := new Heap();
      vertices := map[];
      ways := [];
      amountOfNodesProcessed := 0;
      amountOfWaysProcessed := 0;
    }

    /**
     * process: a node becomes a new vertex stored under its id (replacing any earlier one), a way
     * is appended to the list; bounds and relations are ignored. The counters are Java ints.
     */
    method Process(entity: Entity)
      requires Valid()
      modifies this, heap
      ensures Valid()
      ensures entity.NodeEntity? ==>
        (&& heap.vertices == old(heap.vertices) + [Vertex(entity.node.id, Point(entity.node.lon, entity.node.lat), [])]
         && vertices == old(vertices)[entity.node.id := |old(heap.vertices)|]
         && ways == old(ways)
         && amountOfNodesProcessed == ToInt32(old(amountOfNodesProcessed) + 1)
         && amountOfWaysProcessed == old(amountOfWaysProcessed))
      ensures entity.WayEntity? ==>
        (&& heap.vertices == old(heap.vertices) && vertices == old(vertices)
         && ways == old(ways) + [entity.way]
         && amountOfNodesProcessed == old(amountOfNodesProcessed)
         && amountOfWaysProcessed == ToInt32(old(amountOfWaysProcessed) + 1))
      ensures entity.BoundEntity? || entity.RelationEntity? ==>
        (&& heap.vertices == old(heap.vertices) && vertices == old(vertices) && ways == old(ways)
         && amountOfNodesProcessed == old(amountOfNodesProcessed)
         && amountOfWaysProcessed == old(amountOfWaysProcessed))
    {
      match entity
      case BoundEntity =>
      case NodeEntity(node) =>
        ConsistentAdd(heap.vertices, vertices, node.id, Point(node.lon, node.lat));
        NewVertexWellFormed(heap.vertices, node.id, Point(node.lon, node.lat));
        var v := heap.NewVertex(node.id, Point(node.lon, node.lat));
        vertices := vertices[node.id := v];
        amountOfNodesProcessed := ToInt32(amountOfNodesProcessed + 1);
      case WayEntity(way) =>
        ways := ways + [way];
        amountOfWaysProcessed := ToInt32(amountOfWaysProcessed + 1);
      case RelationEntity =>
    }

    /**
     * One end of the arc being renumbered: when the map still holds the old vertex for its id, a
     * vertex numbered `nodes.size()` is created at the old one's position, listed and put in the map.
     */
    method VisitEnd(id: int, oldEnd: VRef, nodes: seq<VRef>, ghost vs0: seq<Vertex>, ghost map0: map<int, VRef>,
                    ghost arcs: seq<Arc>, ghost i: nat, ghost s: nat)
      returns (nodes2: seq<VRef>)
      requires EndsMapped(vs0, map0, arcs) && s < 2 * |arcs|
      requires Renumbering(vs0, map0, arcs, i, s, heap.vertices, vertices, nodes)
      requires id == EndpointIds(vs0, arcs)[s] && id in map0 && oldEnd == map0[id]
      modifies this, heap
      ensures Renumbering(vs0, map0, arcs, i, s + 1, heap.vertices, vertices, nodes2)
      ensures ways == old(ways) && amountOfNodesProcessed == old(amountOfNodesProcessed)
      ensures amountOfWaysProcessed == old(amountOfWaysProcessed)
    {
      ghost var e := EndpointIds(vs0, arcs);
      if id in e[..s] {
        VisitSeen(vs0, map0, arcs, i, s, heap.vertices, vertices, nodes);
      } else {
        VisitNew(vs0, map0, arcs, i, s, heap.vertices, vertices, nodes);
      }
      if vertices[id] == oldEnd {
        if id in e[..s] {
          assert false;
        }
        var v := heap.NewVertex(|nodes|, heap.vertices[oldEnd].point);
        nodes2 := nodes + [v];
        vertices := vertices[id := v];
      } else {
        nodes2 := nodes;
      }
    }

    /**
     * The renumbering loop of complete: for each arc in order, its origin and then its destination
     * get a new vertex on their first visit, and the arc is recreated between the new vertices.
     */
    method Renumber(arcs: seq<Arc>) returns (nodes: seq<VRef>)
      requires EndsMapped(heap.vertices, vertices, arcs)
      modifies this, heap
      ensures Renumbered(old(heap.vertices), old(vertices), arcs, heap.vertices, vertices, nodes)
      ensures ways == old(ways) && amountOfNodesProcessed == old(amountOfNodesProcessed)
      ensures amountOfWaysProcessed == old(amountOfWaysProcessed)
    {
      ghost var vs0 := heap.vertices;
      ghost var map0 := vertices;
      RenumberStart(vs0, map0, arcs);
      nodes := [];
      var i := 0;
      while i < |arcs|
        invariant i <= |arcs|
        invariant Renumbering(vs0, map0, arcs, i, 2 * i, heap.vertices, vertices, nodes)
        invariant ways == old(ways) && amountOfNodesProcessed == old(amountOfNodesProcessed)
        invariant amountOfWaysProcessed == old(amountOfWaysProcessed)
      {
        nodes := RenumberOne(arcs[i], nodes, vs0, map0, arcs, i);
        i := i + 1;
      }
      RenumberingDone(vs0, map0, arcs, heap.vertices, vertices, nodes);
    }

    /**
     * complete, up to the writing of the file: the ways are converted to arcs over the collected
     * vertices, the arc ends are renumbered, and the graph is built from the new vertices. An
     * exception of the conversion's own thread ends it before the renumbering; one inside a
     * worker thread does not, and the renumbering runs on the arcs collected.
     */
    method Complete(mapId: int, textMapId: string, mapName: Option<string>, distance: (Point, Point) -> real,
                    scaling: SpeedData.UnitScaling, threads: int)
      returns (r: Result<Graph, ConversionError>, ghost arcs: seq<Arc>, ghost infos: seq<InfoRef>,
               ghost parts: seq<seq<Arc>>, ghost built: seq<Arc>)
      requires Valid()
      modifies this, heap
      ensures ways == old(ways) && amountOfNodesProcessed == old(amountOfNodesProcessed)
      ensures amountOfWaysProcessed == old(amountOfWaysProcessed)
      ensures (exists w :: 0 <= w < |ways| && ways[w].nodeIds == []) ==> r == Err(IndexOutOfBounds)
      ensures (forall w :: 0 <= w < |ways| ==> ways[w].nodeIds != []) ==>
        && (threads == 0 ==> r == Err(DivisionByZero))
        && (threads < 0 ==> r == Err(NegativeArraySize))
        && (threads > 0 && !RangesUpright(|ways|, threads, threads) ==> r == Err(IllegalArgument))
      ensures r.Ok? <==>
        && (forall w :: 0 <= w < |ways| ==> ways[w].nodeIds != [])
        && threads > 0 && RangesUpright(|ways|, threads, threads)
      ensures r.Ok? ==>
        && threads > 0 && RangesUpright(|ways|, threads, threads)
        && var kept := KeptWays(Failing(ways, old(vertices), scaling), threads, threads);
        && |infos| == |kept| && |parts| == |kept| && arcs == Flatten(parts)
        && (forall k :: 0 <= k < |kept| ==>
              && kept[k] < |ways|
              && parts[k] == WayArcs(ways[kept[k]].nodeIds, Repeated(AllIds(ways)) + WayEnds(ways), old(vertices),
                                     old(heap.vertices), infos[k], distance)
              && Roads(ways, scaling)[kept[k]] == Ok(infos[k].value))
        && EndsIn(old(heap.vertices), built)
        && EndsMapped(Attach(old(heap.vertices), built), old(vertices), arcs)
        && Renumbered(Attach(old(heap.vertices), built), old(vertices), arcs, heap.vertices, vertices, r.value.nodes)
        && WellFormed(heap.vertices) && NodesIn(heap.vertices, r.value.nodes)
        && r.value.mapId == mapId && r.value.textMapId == textMapId && r.value.mapName == mapName
    {
      ghost var vs0 := heap.vertices;
      var converted;
      ghost var collected, tails, tinfos;
      converted, infos, parts, built, collected, tails, tinfos := ConvertWays(heap, ways, vertices, distance, scaling,
                                                                              threads);
      if converted.Err? {
        return Err(converted.error), [], infos, parts, built;
      }
      arcs := converted.value;
      AttachWellFormed(vs0, built);
      var nodes := Renumber(converted.value);
      RenumberedWellFormed(Attach(vs0, built), old(vertices), arcs);
      r := Ok(Graph(mapId, textMapId, mapName, nodes));
    }

    /** One iteration of the renumbering loop, for arc i. */
    method RenumberOne(arc: Arc, nodes: seq<VRef>, ghost vs0: seq<Vertex>, ghost map0: map<int, VRef>,
                       ghost arcs: seq<Arc>, ghost i: nat)
      returns (nodes2: seq<VRef>)
      requires EndsMapped(vs0, map0, arcs) && i < |arcs| && arc == arcs[i]
      requires Renumbering(vs0, map0, arcs, i, 2 * i, heap.vertices, vertices, nodes)
      modifies this, heap
      ensures Renumbering(vs0, map0, arcs, i + 1, 2 * i + 2, heap.vertices, vertices, nodes2)
      ensures ways == old(ways) && amountOfNodesProcessed == old(amountOfNodesProcessed)
      ensures amountOfWaysProcessed == old(amountOfWaysProcessed)
    {
      RenumberingArena(vs0, map0, arcs, i, 2 * i, heap.vertices, vertices, nodes);
      var originId := heap.vertices[arc.origin].id;
      var destinationId := heap.vertices[arc.destination].id;
      var nodes1 := VisitEnd(originId, arc.origin, nodes, vs0, map0, arcs, i, 2 * i);
      nodes2 := VisitEnd(destinationId, arc.destination, nodes1, vs0, map0, arcs, i, 2 * i + 1);
      ArcStep(vs0, map0, arcs, i, heap.vertices, vertices, nodes2);
      var copy := heap.NewArcWithPoints(arc.id, vertices[originId], vertices[destinationId], arc.length, arc.info, arc.points);
    }
  }
}
