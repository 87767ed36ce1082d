/**
 * Vertices and arcs of the routable graph. Vertex objects live in an arena (`Heap`): a vertex
 * reference is its index there. Vertices are updated in place when an arc is attached to its
 * origin; arcs are immutable once built.
 */
module GraphModel {
  import opened Wrappers
  import opened RoadInformation

  /** A longitude/latitude pair, in degrees. */
  datatype Point = Point(longitude: real, latitude: real)

  /** A reference to a vertex object: its index in the arena. */
  type VRef = nat

  /** An arc: its number within its way, both ends, its length in metres, its road description and its shape. */
  datatype Arc = Arc(id: int, origin: VRef, destination: VRef, length: int, info: InfoRef, points: seq<Point>)

  /** A vertex: its id, its position and the arcs leaving it, in the order they were attached. */
  datatype Vertex = Vertex(id: int, point: Point, successors: seq<Arc>)

  /** What `Vertex.equals(Object)` may be handed: null, a vertex, or an object of another class. */
  datatype AnyObject = NoVertex | VertexObject(vertex: Vertex) | NonVertex

  /** Vertex.equals: another vertex with the same id; point and successors play no part. */
  predicate VertexEquals(self: Vertex, other: AnyObject) {
    other.VertexObject? && self.id == other.vertex.id
  }

  /** Vertex.compareTo: `Long.compare` on the ids. */
  function CompareTo(a: Vertex, b: Vertex): (r: int)
    ensures -1 <= r <= 1
    ensures r < 0 <==> a.id < b.id
    ensures r > 0 <==> a.id > b.id
  {
    if a.id < b.id then -1 else if a.id == b.id then 0 else 1
  }

  /** compareTo is a total order whose zero case is exactly `equals`. */
  lemma CompareToOrder(a: Vertex, b: Vertex, c: Vertex)
    ensures CompareTo(a, b) == -CompareTo(b, a)
    ensures CompareTo(a, b) <= 0 && CompareTo(b, c) <= 0 ==> CompareTo(a, c) <= 0
    ensures CompareTo(a, b) == 0 <==> VertexEquals(a, VertexObject(b))
    ensures CompareTo(a, a) == 0
  {
  }

  /** equals is an equivalence on vertices and is false for null and for other classes. */
  lemma VertexEqualsProperties(a: Vertex, b: Vertex, c: Vertex)
    ensures VertexEquals(a, VertexObject(a))
    ensures VertexEquals(a, VertexObject(b)) ==> VertexEquals(b, VertexObject(a))
    ensures VertexEquals(a, VertexObject(b)) && VertexEquals(b, VertexObject(c)) ==> VertexEquals(a, VertexObject(c))
    ensures !VertexEquals(a, NoVertex) && !VertexEquals(a, NonVertex)
    ensures VertexEquals(a, VertexObject(Vertex(a.id, b.point, b.successors)))
  {
  }

  /** The arena after `arc` has been appended to the successors of vertex `v`. */
  function WithSuccessor(vs: seq<Vertex>, v: VRef, arc: Arc): seq<Vertex>
    requires v < |vs|
  {
    vs[v := vs[v].(successors := vs[v].successors + [arc])]
  }

  /** addSuccessor appends at the end; earlier successors and every other vertex are unchanged. */
  lemma WithSuccessorEffect(vs: seq<Vertex>, v: VRef, arc: Arc)
    requires v < |vs|
    ensures |WithSuccessor(vs, v, arc)| == |vs|
    ensures WithSuccessor(vs, v, arc)[v].id == vs[v].id && WithSuccessor(vs, v, arc)[v].point == vs[v].point
    ensures |WithSuccessor(vs, v, arc)[v].successors| == |vs[v].successors| + 1
    ensures WithSuccessor(vs, v, arc)[v].successors[..|vs[v].successors|] == vs[v].successors
    ensures WithSuccessor(vs, v, arc)[v].successors[|vs[v].successors|] == arc
    ensures forall u :: 0 <= u < |vs| && u != v ==> WithSuccessor(vs, v, arc)[u] == vs[u]
  {
    var s := vs[v].successors;
    assert (s + [arc])[..|s|] == s;
  }

  /** Every successor of a vertex starts at that vertex and ends at a vertex of the arena. */
  predicate WellFormed(vs: seq<Vertex>) {
    forall v, k :: 0 <= v < |vs| && 0 <= k < |vs[v].successors| ==>
      vs[v].successors[k].origin == v && vs[v].successors[k].destination < |vs|
  }

  /** Attaching an arc to its own origin, towards a vertex of the arena, keeps the arena well formed. */
  lemma WithSuccessorWellFormed(vs: seq<Vertex>, arc: Arc)
    requires WellFormed(vs) && arc.origin < |vs| && arc.destination < |vs|
    ensures WellFormed(WithSuccessor(vs, arc.origin, arc))
  {
    var ws := WithSuccessor(vs, arc.origin, arc);
    forall v, k | 0 <= v < |ws| && 0 <= k < |ws[v].successors|
      ensures ws[v].successors[k].origin == v && ws[v].successors[k].destination < |ws|
    {
      if v == arc.origin {
        var s := vs[v].successors;
        if k < |s| {
          assert ws[v].successors[k] == s[k];
        }
      }
    }
  }

  /** A new vertex has no successor, and the arena stays well formed. */
  lemma NewVertexWellFormed(vs: seq<Vertex>, id: int, point: Point)
    requires WellFormed(vs)
    ensures WellFormed(vs + [Vertex(id, point, [])])
  {
    var ws := vs + [Vertex(id, point, [])];
    forall v, k | 0 <= v < |ws| && 0 <= k < |ws[v].successors|
      ensures ws[v].successors[k].origin == v && ws[v].successors[k].destination < |ws|
    {
      assert v < |vs| && ws[v] == vs[v];
    }
  }

  predicate OriginsIn(vs: seq<Vertex>, arcs: seq<Arc>) {
    forall k :: 0 <= k < |arcs| ==> arcs[k].origin < |vs|
  }

  /** Both ends of every arc lie in the arena. */
  predicate EndsIn(vs: seq<Vertex>, arcs: seq<Arc>) {
    forall k :: 0 <= k < |arcs| ==> arcs[k].origin < |vs| && arcs[k].destination < |vs|
  }

  /** The arena after each of `arcs` has been appended, in order, to its own origin. */
  function Attach(vs: seq<Vertex>, arcs: seq<Arc>): (r: seq<Vertex>)
    requires OriginsIn(vs, arcs)
    ensures |r| == |vs|
    ensures forall v :: 0 <= v < |vs| ==> r[v].id == vs[v].id && r[v].point == vs[v].point
    decreases |arcs|
  {
    if arcs == [] then vs
    else
      var last := arcs[|arcs| - 1];
      var p := Attach(vs, arcs[..|arcs| - 1]);
      WithSuccessor(p, last.origin, last)
  }

  /** Attaching arcs whose ends lie in a well-formed arena keeps it well formed. */
  lemma {:induction false} AttachWellFormed(vs: seq<Vertex>, arcs: seq<Arc>)
    requires WellFormed(vs) && EndsIn(vs, arcs)
    ensures WellFormed(Attach(vs, arcs))
    decreases |arcs|
  {
    if arcs != [] {
      var init := arcs[..|arcs| - 1];
      var last := arcs[|arcs| - 1];
      assert EndsIn(vs, init);
      AttachWellFormed(vs, init);
      WithSuccessorWellFormed(Attach(vs, init), last);
    }
  }

  /** The arcs of `arcs` that leave `v`, in order. */
  function ArcsFrom(arcs: seq<Arc>, v: VRef): (r: seq<Arc>)
    ensures |r| <= |arcs|
    ensures forall k :: 0 <= k < |r| ==> r[k].origin == v && r[k] in arcs
  {
    if arcs == [] then []
    else ArcsFrom(arcs[..|arcs| - 1], v) + (if arcs[|arcs| - 1].origin == v then [arcs[|arcs| - 1]] else [])
  }

  /** Attaching one more arc extends the attached arena by that arc. */
  lemma AttachSnoc(vs: seq<Vertex>, arcs: seq<Arc>, a: Arc)
    requires OriginsIn(vs, arcs) && a.origin < |vs|
    ensures OriginsIn(vs, arcs + [a])
    ensures Attach(vs, arcs + [a]) == WithSuccessor(Attach(vs, arcs), a.origin, a)
  {
    assert (arcs + [a])[..|arcs|] == arcs;
  }

  /** After attaching, each vertex has its old successors followed by the arcs leaving it, in order. */
  lemma {:induction false} AttachSuccessors(vs: seq<Vertex>, arcs: seq<Arc>, v: VRef)
    requires OriginsIn(vs, arcs) && v < |vs|
    ensures Attach(vs, arcs)[v].successors == vs[v].successors + ArcsFrom(arcs, v)
    decreases |arcs|
  {
    if arcs != [] {
      var init := arcs[..|arcs| - 1];
      var last := arcs[|arcs| - 1];
      assert OriginsIn(vs, init);
      AttachSuccessors(vs, init, v);
      WithSuccessorEffect(Attach(vs, init), last.origin, last);
    }
  }

  /** Attaching two runs of arcs one after the other is attaching their concatenation. */
  lemma {:induction false} AttachAppend(vs: seq<Vertex>, a: seq<Arc>, b: seq<Arc>)
    requires OriginsIn(vs, a) && OriginsIn(vs, b)
    ensures OriginsIn(Attach(vs, a), b) && OriginsIn(vs, a + b)
    ensures Attach(Attach(vs, a), b) == Attach(vs, a + b)
    decreases |b|
  {
    if b == [] {
      assert a + b == a;
    } else {
      var bi := b[..|b| - 1];
      var last := b[|b| - 1];
      assert OriginsIn(vs, bi);
      AttachAppend(vs, a, bi);
      assert a + b == (a + bi) + [last];
      AttachSnoc(vs, a + bi, last);
    }
  }

  /** A vertex appended after the origins of some arcs is left untouched by attaching them. */
  lemma {:induction false} AttachExtend(vs: seq<Vertex>, arcs: seq<Arc>, v: Vertex)
    requires OriginsIn(vs, arcs)
    ensures OriginsIn(vs + [v], arcs)
    ensures Attach(vs + [v], arcs) == Attach(vs, arcs) + [v]
    decreases |arcs|
  {
    if arcs != [] {
      var init := arcs[..|arcs| - 1];
      var last := arcs[|arcs| - 1];
      assert OriginsIn(vs, init);
      AttachExtend(vs, init, v);
      var p := Attach(vs, init);
      assert WithSuccessor(p + [v], last.origin, last) == WithSuccessor(p, last.origin, last) + [v];
    }
  }

  /** ArcsFrom distributes over concatenation. */
  lemma {:induction false} ArcsFromAppend(a: seq<Arc>, b: seq<Arc>, v: VRef)
    ensures ArcsFrom(a + b, v) == ArcsFrom(a, v) + ArcsFrom(b, v)
    decreases |b|
  {
    if b == [] {
      assert a + b == a;
    } else {
      var bi := b[..|b| - 1];
      assert (a + b)[..|a + b| - 1] == a + bi;
      ArcsFromAppend(a, bi, v);
    }
  }

  /** No arc leaves `v` when no arc starts there. */
  lemma {:induction false} ArcsFromNone(arcs: seq<Arc>, v: VRef)
    requires forall k :: 0 <= k < |arcs| ==> arcs[k].origin != v
    ensures ArcsFrom(arcs, v) == []
    decreases |arcs|
  {
    if arcs != [] {
      ArcsFromNone(arcs[..|arcs| - 1], v);
    }
  }

  /** Every arc is among the arcs leaving its own origin. */
  lemma {:induction false} ArcsFromContains(arcs: seq<Arc>, k: nat)
    requires k < |arcs|
    ensures arcs[k] in ArcsFrom(arcs, arcs[k].origin)
    decreases |arcs|
  {
    if k < |arcs| - 1 {
      var init := arcs[..|arcs| - 1];
      assert init[k] == arcs[k];
      ArcsFromContains(init, k);
    }
  }

  /** A vertex appended with no successors ends up with exactly the attached arcs that leave it. */
  lemma AttachAppended(vs: seq<Vertex>, nv: seq<Vertex>, arcs: seq<Arc>, k: nat)
    requires OriginsIn(vs + nv, arcs) && k < |nv| && nv[k].successors == []
    ensures Attach(vs + nv, arcs)[|vs| + k] == nv[k].(successors := ArcsFrom(arcs, |vs| + k))
  {
    AttachSuccessors(vs + nv, arcs, |vs| + k);
    assert (vs + nv)[|vs| + k] == nv[k];
  }

  /** The successors of an appended vertex with none of its own are the attached arcs leaving it. */
  lemma AttachAppendedSuccessors(vs: seq<Vertex>, nv: seq<Vertex>, arcs: seq<Arc>, v: VRef)
    requires OriginsIn(vs + nv, arcs) && |vs| <= v < |vs| + |nv| && nv[v - |vs|].successors == []
    ensures Attach(vs + nv, arcs)[v].successors == ArcsFrom(arcs, v)
  {
    AttachSuccessors(vs + nv, arcs, v);
    assert (vs + nv)[v] == nv[v - |vs|];
  }

  /** The vertex objects of the program. */
  class Heap {
    var vertices: seq<Vertex>

    constructor ()
      ensures vertices == []
    {
      vertices := [];
    }

    /** `new Vertex(id, point)`: a fresh vertex with an empty successor list. */
    method NewVertex(id: int, point: Point) returns (v: VRef)
      modifies this
      ensures v == |old(vertices)|
      ensures vertices == old(vertices) + [Vertex(id, point, [])]
    {
      v := |vertices|;
      vertices := vertices + [Vertex(id, point, [])];
    }

    /** Vertex.addSuccessor. */
    method AddSuccessor(v: VRef, arc: Arc)
      requires v < |vertices|
      modifies this
      ensures vertices == WithSuccessor(old(vertices), v, arc)
    {
      vertices := vertices[v := vertices[v].(successors := vertices[v].successors + [arc])];
    }

    /** The four-value Arc constructor: no shape points; the arc is appended to its origin. */
    method NewArc(id: int, origin: VRef, destination: VRef, length: int, info: InfoRef) returns (a: Arc)
      requires origin < |vertices|
      modifies this
      ensures a == Arc(id, origin, destination, length, info, [])
      ensures vertices == WithSuccessor(old(vertices), origin, a)
    {
      a := Arc(id, origin, destination, length, info, []);
      AddSuccessor(origin, a);
    }

    /** The Arc constructor with a point list; the arc is appended to its origin. */
    method NewArcWithPoints(id: int, origin: VRef, destination: VRef, length: int, info: InfoRef, points: seq<Point>)
      returns (a: Arc)
      requires origin < |vertices|
      modifies this
      ensures a == Arc(id, origin, destination, length, info, points)
      ensures vertices == WithSuccessor(old(vertices), origin, a)
    {
      a := Arc(id, origin, destination, length, info, points);
      AddSuccessor(origin, a);
    }
  }
}
