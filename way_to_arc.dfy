/**
 * The conversion of tagged ways into arcs: tag filtering, road-information interning, junction
 * marking over all ways, and the cutting of each way into arcs at its marked nodes.
 */
module WayConversion {
  import opened Wrappers
  import opened JavaString
  import opened Osm
  import opened RoadInformation
  import RoadTypeData
  import SpeedData
  import AccessData
  import opened GraphModel
  import Sequences

  /** The exceptions a conversion can raise. */
  datatype ConversionError =
    | SpeedFailure(e: SpeedData.SpeedError)  // from getMaximumSpeed
    | IndexOutOfBounds                       // nodes.get(0) on an empty way in findVertex
    | NoSuchElement                          // itNodes.next() on an empty way in convert
    | NullPointer(nodeId: int)               // a way node with no vertex
    | DivisionByZero                         // ways.size() / threads with no thread
    | NegativeArraySize                      // new WayToArcProcessor[threads] for a negative count
    | IllegalArgument                        // new ArrayList<>(last - first) for an inverted range

  /** USEFUL_TAGS of WayToArc. */
  function LocalUsefulTags(): seq<string> {
    ["name", "highway", "natural", "junction", "maxspeed", "oneway"]
  }

  /** isUsefulTag: the key is one of the six local tags or one of the access tags. */
  predicate IsUsefulTag(key: string) {
    key in LocalUsefulTags() || key in AccessData.UsefulTags()
  }

  /** The kept keys, listed out: 6 road keys and 15 access keys. */
  lemma UsefulTagKeys(key: string)
    ensures IsUsefulTag(key) <==>
      key in {"name", "highway", "natural", "junction", "maxspeed", "oneway",
              "access", "foot", "vehicle", "bicycle", "motor_vehicle", "motorcycle", "moped",
              "mofa", "motorcar", "agricultural", "hgv", "psv", "bus", "minibus", "share_taxi"}
  {
  }

  /** The road types that are one way unless tagged otherwise. */
  predicate OneWayByDefault(roadType: Option<RoadType>) {
    roadType.Some? && roadType.value in {Motorway, MotorwayLink, TrunkLink, PrimaryLink, Roundabout}
  }

  /** getOneWay. */
  function GetOneWay(tags: Tags, roadType: Option<RoadType>): (r: bool)
    ensures "oneway" in tags ==> (r <==> ToLower(tags["oneway"]) in {"yes", "true", "1"})
    ensures "oneway" !in tags ==> (r <==> OneWayByDefault(roadType))
  {
    if "oneway" in tags then
      var s := ToLower(tags["oneway"]);
      s == "yes" || s == "true" || s == "1"
    else
      roadType.Some? && (roadType.value == Motorway || roadType.value == MotorwayLink
        || roadType.value == TrunkLink || roadType.value == PrimaryLink || roadType.value == Roundabout)
  }

  /** A present oneway tag decides alone: the road type then plays no part. */
  lemma OneWayTagDecides(tags: Tags, t1: Option<RoadType>, t2: Option<RoadType>)
    requires "oneway" in tags
    ensures GetOneWay(tags, t1) == GetOneWay(tags, t2)
  {
  }

  /** The map the tag loop builds: useful tags only, a later tag overriding an earlier one with the same key. */
  function KeptTags(tags: seq<Tag>): (m: Tags)
    ensures forall k :: k in m ==> IsUsefulTag(k)
    ensures forall i :: 0 <= i < |tags| && IsUsefulTag(tags[i].key) ==> tags[i].key in m
    decreases |tags|
  {
    if tags == [] then map[]
    else
      var m := KeptTags(tags[..|tags| - 1]);
      var t := tags[|tags| - 1];
      if IsUsefulTag(t.key) then m[t.key := t.value] else m
  }

  /** A kept key holds the value of its last occurrence among the way's tags. */
  lemma {:induction false} LastTagWins(tags: seq<Tag>, i: nat)
    requires i < |tags| && IsUsefulTag(tags[i].key)
    requires forall j :: i < j < |tags| ==> tags[j].key != tags[i].key
    ensures tags[i].key in KeptTags(tags) && KeptTags(tags)[tags[i].key] == tags[i].value
    decreases |tags|
  {
    if i < |tags| - 1 {
      LastTagWins(tags[..|tags| - 1], i);
    }
  }

  /** A key no tag carries is not kept. */
  lemma {:induction false} AbsentKeyNotKept(tags: seq<Tag>, key: string)
    requires forall j :: 0 <= j < |tags| ==> tags[j].key != key
    ensures key !in KeptTags(tags)
    decreases |tags|
  {
    if tags != [] {
      AbsentKeyNotKept(tags[..|tags| - 1], key);
    }
  }

  /** The road information computed from the kept tags of a way, before interning. */
  function RoadInformationOf(tags: Tags, scaling: SpeedData.UnitScaling): (r: Result<RoadInformation, ConversionError>)
    ensures r.Err? <==> SpeedData.GetMaximumSpeed(tags, Some(RoadTypeData.GetRoadType(tags)), scaling).Err?
    ensures r.Ok? ==> r.value.name == Some(if "name" in tags then tags["name"] else "")
  {
    var roadType := Some(RoadTypeData.GetRoadType(tags));
    var speed := SpeedData.GetMaximumSpeed(tags, roadType, scaling);
    if speed.Err? then Err(SpeedFailure(speed.error))
    else
      Ok(RoadInformation(roadType.value, AccessData.AccessType(tags, roadType), GetOneWay(tags, roadType),
                         speed.value, Some(if "name" in tags then tags["name"] else "")))
  }

  /** The tag loop of getOrCreateRoadInformation. */
  method KeepUsefulTags(wayTags: seq<Tag>) returns (tags: Tags)
    ensures tags == KeptTags(wayTags)
  {
    tags := map[];
    var i := 0;
    while i < |wayTags|
      invariant 0 <= i <= |wayTags|
      invariant tags == KeptTags(wayTags[..i])
    {
      var tag := wayTags[i];
      assert wayTags[..i + 1][..i] == wayTags[..i];
      if IsUsefulTag(tag.key) {
        tags := tags[tag.key := tag.value];
      }
      i := i + 1;
    }
    assert wayTags[..i] == wayTags;
  }

  /** The body of getOrCreateRoadInformation between the tag loop and the pool lookup. */
  method ComputeRoadInformation(tags: Tags, scaling: SpeedData.UnitScaling) returns (r: Result<RoadInformation, ConversionError>)
    ensures r == RoadInformationOf(tags, scaling)
  {
    var roadType := RoadTypeData.GetRoadType(tags);
    var maxSpeed := SpeedData.GetMaximumSpeed(tags, Some(roadType), scaling);
    if maxSpeed.Err? {
      return Err(SpeedFailure(maxSpeed.error));
    }
    var oneWay := GetOneWay(tags, Some(roadType));
    var access := AccessData.GetAccessType(tags, Some(roadType));
    var name := if "name" in tags then tags["name"] else "";
    r := Ok(RoadInformation(roadType, access, oneWay, maxSpeed.value, Some(name)));
  }

  /** The fields of the computed record come from the resolvers of its kept tags. */
  lemma RoadInformationFields(tags: Tags, scaling: SpeedData.UnitScaling)
    requires RoadInformationOf(tags, scaling).Ok?
    ensures RoadInformationOf(tags, scaling).value.roadType == RoadTypeData.GetRoadType(tags)
    ensures RoadInformationOf(tags, scaling).value.access == AccessData.AccessType(tags, Some(RoadTypeData.GetRoadType(tags)))
    ensures RoadInformationOf(tags, scaling).value.oneWay == GetOneWay(tags, Some(RoadTypeData.GetRoadType(tags)))
    ensures Ok(RoadInformationOf(tags, scaling).value.maxSpeed)
         == SpeedData.GetMaximumSpeed(tags, Some(RoadTypeData.GetRoadType(tags)), scaling)
  {
  }

  /** All node ids of the ways, way after way. */
  function AllIds(ways: seq<Way>): (r: seq<int>)
    decreases |ways|
  {
    if ways == [] then [] else AllIds(ways[..|ways| - 1]) + ways[|ways| - 1].nodeIds
  }

  /** The first and last node ids of the (non-empty) ways. */
  function WayEnds(ways: seq<Way>): (r: set<int>)
    decreases |ways|
  {
    if ways == [] then {}
    else
      var ids := ways[|ways| - 1].nodeIds;
      WayEnds(ways[..|ways| - 1]) + (if ids == [] then {} else {ids[0], ids[|ids| - 1]})
  }

  /** The ids occurring two or more times. */
  function Repeated(s: seq<int>): (r: set<int>)
    ensures forall x :: x in r ==> x in s
  {
    set x | x in s && multiset(s)[x] >= 2
  }

  lemma RepeatedSnoc(s: seq<int>, x: int)
    ensures Repeated(s + [x]) == Repeated(s) + (if x in s then {x} else {})
  {
    assert multiset(s + [x]) == multiset(s) + multiset{x};
    if x in s {
      assert multiset(s)[x] >= 1;
    }
  }

  /** An id is repeated exactly when it occurs at two different positions. */
  lemma {:induction false} RepeatedIff(s: seq<int>, x: int)
    ensures x in Repeated(s) <==> exists i, j :: 0 <= i < j < |s| && s[i] == x && s[j] == x
    decreases |s|
  {
    if s != [] {
      var init := s[..|s| - 1];
      var y := s[|s| - 1];
      assert s == init + [y];
      RepeatedSnoc(init, y);
      RepeatedIff(init, x);
      if x in Repeated(s) && x !in Repeated(init) {
        assert x == y && x in init;
        var i :| 0 <= i < |init| && init[i] == x;
        assert s[i] == x && s[|s| - 1] == x;
      }
      if x !in Repeated(s) {
        forall i, j | 0 <= i < j < |s| && s[i] == x
          ensures s[j] != x
        {
          if j < |s| - 1 {
            assert init[i] == x && init[j] == s[j];
          } else {
            assert init[i] == x;
          }
        }
      } else if x in Repeated(init) {
        var i, j :| 0 <= i < j < |init| && init[i] == x && init[j] == x;
        assert s[i] == x && s[j] == x;
      }
    }
  }

  /** AllIds of a way sequence is AllIds of its prefix, then the rest. */
  lemma {:induction false} AllIdsAppend(a: seq<Way>, b: seq<Way>)
    ensures AllIds(a + b) == AllIds(a) + AllIds(b)
    decreases |b|
  {
    if b == [] {
      assert a + b == a;
    } else {
      var bi := b[..|b| - 1];
      assert (a + b)[..|a + b| - 1] == a + bi;
      AllIdsAppend(a, bi);
    }
  }

  /** An id of any way is among all ids. */
  lemma {:induction false} InAllIds(ways: seq<Way>, w: nat, x: int)
    requires w < |ways| && x in ways[w].nodeIds
    ensures x in AllIds(ways)
    decreases |ways|
  {
    if w < |ways| - 1 {
      InAllIds(ways[..|ways| - 1], w, x);
    }
  }

  /** An id shared by two different ways is repeated over all ways. */
  lemma SharedIdIsRepeated(ways: seq<Way>, w1: nat, w2: nat, x: int)
    requires w1 < w2 < |ways| && x in ways[w1].nodeIds && x in ways[w2].nodeIds
    ensures x in Repeated(AllIds(ways))
  {
    var a, b := ways[..w2], ways[w2..];
    assert ways == a + b;
    AllIdsAppend(a, b);
    InAllIds(a, w1, x);
    InAllIds(b, 0, x);
    var s := AllIds(ways);
    assert multiset(s) == multiset(AllIds(a)) + multiset(AllIds(b));
    assert multiset(AllIds(a))[x] >= 1 && multiset(AllIds(b))[x] >= 1;
  }

  /** An id occurring twice in one way is repeated over all ways. */
  lemma RepeatedInOneWay(ways: seq<Way>, w: nat, x: int)
    requires w < |ways| && x in Repeated(ways[w].nodeIds)
    ensures x in Repeated(AllIds(ways))
  {
    var a, c := ways[..w], ways[w + 1..];
    assert ways == a + ([ways[w]] + c);
    AllIdsAppend(a, [ways[w]] + c);
    AllIdsAppend([ways[w]], c);
    assert AllIds([ways[w]]) == ways[w].nodeIds;
    assert multiset(AllIds(ways)) == multiset(AllIds(a)) + multiset(ways[w].nodeIds) + multiset(AllIds(c));
  }

  /** The first and last ids of every non-empty way are ends, and nothing else is. */
  lemma {:induction false} WayEndsIff(ways: seq<Way>, x: int)
    ensures x in WayEnds(ways) <==>
      exists w :: 0 <= w < |ways| && ways[w].nodeIds != []
        && (x == ways[w].nodeIds[0] || x == ways[w].nodeIds[|ways[w].nodeIds| - 1])
    decreases |ways|
  {
    if ways != [] {
      var init := ways[..|ways| - 1];
      WayEndsIff(init, x);
      if x in WayEnds(init) {
        var w :| 0 <= w < |init| && init[w].nodeIds != []
          && (x == init[w].nodeIds[0] || x == init[w].nodeIds[|init[w].nodeIds| - 1]);
        assert ways[w] == init[w];
      }
    }
  }

  /** The position of the first id of `ids` that has no vertex, or |ids| if every id has one. */
  function FirstMissing(ids: seq<int>, vertices: map<int, VRef>): (p: nat)
    ensures p <= |ids|
    ensures forall j :: 0 <= j < p ==> ids[j] in vertices
    ensures p < |ids| ==> ids[p] !in vertices
    decreases |ids|
  {
    if ids == [] || ids[0] !in vertices then 0 else 1 + FirstMissing(ids[1..], vertices)
  }

  /** Every vertex reference of the id map points into the arena. */
  predicate VerticesIn(vertices: map<int, VRef>, vs: seq<Vertex>) {
    forall id :: id in vertices ==> vertices[id] < |vs|
  }

  /** The positions 1 <= j < n of `ids` whose node is marked, in increasing order. */
  function MarkedPositions(ids: seq<int>, marks: set<int>, n: nat): (m: seq<nat>)
    requires n <= |ids|
    ensures forall k :: 0 <= k < |m| ==> 1 <= m[k] < n && ids[m[k]] in marks
    decreases n
  {
    if n <= 1 then []
    else MarkedPositions(ids, marks, n - 1) + (if ids[n - 1] in marks then [n - 1] else [])
  }

  /** The marked positions are valid cuts of a way with n points, in increasing order. */
  lemma {:induction false} MarkedPositionsCuts(ids: seq<int>, marks: set<int>, n: nat)
    requires n <= |ids|
    ensures Cuts(MarkedPositions(ids, marks, n), n)
    decreases n
  {
    if n > 1 {
      MarkedPositionsCuts(ids, marks, n - 1);
    }
  }

  /** Every marked position below n is listed. */
  lemma {:induction false} MarkedPositionsComplete(ids: seq<int>, marks: set<int>, n: nat)
    requires n <= |ids|
    ensures forall j :: 1 <= j < n && ids[j] in marks ==> j in MarkedPositions(ids, marks, n)
    decreases n
  {
    if n > 1 {
      MarkedPositionsComplete(ids, marks, n - 1);
    }
  }

  /** The vertex reference at each position 0 <= j < n of a way. */
  function Refs(ids: seq<int>, vertices: map<int, VRef>, n: nat): (r: seq<VRef>)
    requires n <= |ids| && forall j :: 0 <= j < n ==> ids[j] in vertices
    ensures |r| == n && forall j :: 0 <= j < n ==> r[j] == vertices[ids[j]]
  {
    seq(n, j requires 0 <= j < n => vertices[ids[j]])
  }

  /** The references of a way point into the arena when the id map does. */
  lemma RefsIn(ids: seq<int>, vertices: map<int, VRef>, vs: seq<Vertex>, n: nat)
    requires n <= |ids| && (forall j :: 0 <= j < n ==> ids[j] in vertices) && VerticesIn(vertices, vs)
    ensures forall j :: 0 <= j < n ==> Refs(ids, vertices, n)[j] < |vs|
  {
    forall j | 0 <= j < n
      ensures Refs(ids, vertices, n)[j] < |vs|
    {
      var id := ids[j];
      assert id in vertices;
      assert Refs(ids, vertices, n)[j] == vertices[id];
      assert vertices[id] < |vs|;
    }
  }

  /** The point of each reference. */
  function PointsOf(vs: seq<Vertex>, refs: seq<VRef>): (ps: seq<Point>)
    requires forall j :: 0 <= j < |refs| ==> refs[j] < |vs|
    ensures |ps| == |refs| && forall j :: 0 <= j < |refs| ==> ps[j] == vs[refs[j]].point
  {
    seq(|refs|, j requires 0 <= j < |refs| => vs[refs[j]].point)
  }

  /** The length of the polyline ps[a..b+1]: the sum of its segment distances, from the start. */
  function PathLength(ps: seq<Point>, a: nat, b: nat, distance: (Point, Point) -> real): real
    requires a <= b < |ps|
    decreases b - a
  {
    if a == b then 0.0 else PathLength(ps, a, b - 1, distance) + distance(ps[b - 1], ps[b])
  }

  /** Where arc k starts: the way's first position for k = 0, the previous cut otherwise. */
  function Start(m: seq<nat>, k: nat): nat
    requires k <= |m|
  {
    if k == 0 then 0 else m[k - 1]
  }

  predicate Cuts(m: seq<nat>, n: nat) {
    (forall k :: 0 <= k < |m| ==> 1 <= m[k] < n) && (forall k, l :: 0 <= k < l < |m| ==> m[k] < m[l])
  }

  /** Arc k of a way cut at positions `m`: from Start(m, k) up to m[k], numbered k. */
  function ArcOf(m: seq<nat>, k: nat, refs: seq<VRef>, ps: seq<Point>, info: InfoRef,
                 distance: (Point, Point) -> real): (a: Arc)
    requires k < |m| && |refs| == |ps| && Cuts(m, |ps|)
    ensures 2 <= |a.points|
  {
    assert k > 0 ==> m[k - 1] < m[k];
    var s := Start(m, k);
    Arc(k, refs[s], refs[m[k]], IntOfDouble(PathLength(ps, s, m[k], distance) * 1000.0), info, ps[s..m[k] + 1])
  }

  /** The arcs of a way cut at positions `m`, in order. */
  function ArcsOf(m: seq<nat>, refs: seq<VRef>, ps: seq<Point>, info: InfoRef,
                  distance: (Point, Point) -> real): (arcs: seq<Arc>)
    requires |refs| == |ps| && Cuts(m, |ps|)
    ensures |arcs| == |m|
    ensures forall k :: 0 <= k < |m| ==> arcs[k] == ArcOf(m, k, refs, ps, info, distance)
  {
    seq(|m|, k requires 0 <= k < |m| => ArcOf(m, k, refs, ps, info, distance))
  }

  /**
   * What convert(way) produces from the nodes it reaches: the positions before the first node
   * without a vertex (all of them when there is none), cut at the marked positions.
   */
  function WayArcs(ids: seq<int>, marks: set<int>, vertices: map<int, VRef>, vs: seq<Vertex>,
                   info: InfoRef, distance: (Point, Point) -> real): (arcs: seq<Arc>)
    requires VerticesIn(vertices, vs)
    ensures OriginsIn(vs, arcs) && EndsIn(vs, arcs)
  {
    var n := FirstMissing(ids, vertices);
    var refs := Refs(ids, vertices, n);
    RefsIn(ids, vertices, vs, n);
    var m := MarkedPositions(ids, marks, n);
    MarkedPositionsCuts(ids, marks, n);
    ArcsOfEndsIn(m, refs, PointsOf(vs, refs), info, distance, vs);
    ArcsOf(m, refs, PointsOf(vs, refs), info, distance)
  }

  /** Arc k is numbered k, ends at cut k, starts where arc k-1 ends, and spans the points in between. */
  lemma ArcOfShape(m: seq<nat>, k: nat, refs: seq<VRef>, ps: seq<Point>, info: InfoRef, distance: (Point, Point) -> real)
    requires k < |m| && |refs| == |ps| && Cuts(m, |ps|)
    ensures ArcOf(m, k, refs, ps, info, distance).id == k
    ensures ArcOf(m, k, refs, ps, info, distance).origin == refs[Start(m, k)]
    ensures ArcOf(m, k, refs, ps, info, distance).destination == refs[m[k]]
    ensures ArcOf(m, k, refs, ps, info, distance).info == info
    ensures ArcOf(m, k, refs, ps, info, distance).points == ps[Start(m, k)..m[k] + 1]
    ensures ArcOf(m, k, refs, ps, info, distance).length
         == IntOfDouble(PathLength(ps, Start(m, k), m[k], distance) * 1000.0)
  {
  }

  /** One arc per marked position, numbered from 0; consecutive arcs meet at the cut. */
  lemma ArcsOfShape(m: seq<nat>, refs: seq<VRef>, ps: seq<Point>, info: InfoRef, distance: (Point, Point) -> real,
                    arcs: seq<Arc>)
    requires |refs| == |ps| && Cuts(m, |ps|) && arcs == ArcsOf(m, refs, ps, info, distance)
    ensures forall k :: 0 <= k < |arcs| ==> arcs[k].id == k && arcs[k].destination == refs[m[k]]
    ensures |arcs| > 0 ==> arcs[0].origin == refs[0]
    ensures forall k :: 0 < k < |arcs| ==> arcs[k].origin == arcs[k - 1].destination
    ensures forall k :: 0 <= k < |arcs| ==>
      |arcs[k].points| >= 2 && arcs[k].points[0] == ps[Start(m, k)] && arcs[k].points[|arcs[k].points| - 1] == ps[m[k]]
  {
    forall k | 0 <= k < |m|
      ensures arcs[k].id == k && arcs[k].destination == refs[m[k]] && arcs[k].origin == refs[Start(m, k)]
      ensures |arcs[k].points| >= 2 && arcs[k].points[0] == ps[Start(m, k)]
      ensures arcs[k].points[|arcs[k].points| - 1] == ps[m[k]]
    {
      ArcOfShape(m, k, refs, ps, info, distance);
    }
  }

  /** Arcs between references into the arena have both ends in it. */
  lemma ArcsOfEndsIn(m: seq<nat>, refs: seq<VRef>, ps: seq<Point>, info: InfoRef, distance: (Point, Point) -> real,
                     vs: seq<Vertex>)
    requires |refs| == |ps| && Cuts(m, |ps|) && forall j :: 0 <= j < |refs| ==> refs[j] < |vs|
    ensures OriginsIn(vs, ArcsOf(m, refs, ps, info, distance)) && EndsIn(vs, ArcsOf(m, refs, ps, info, distance))
  {
    var arcs := ArcsOf(m, refs, ps, info, distance);
    forall k | 0 <= k < |arcs|
      ensures arcs[k].origin < |vs| && arcs[k].destination < |vs|
    {
      ArcOfShape(m, k, refs, ps, info, distance);
    }
  }

  /** One more cut appends one arc and leaves the earlier ones as they were. */
  lemma ArcsOfSnoc(m: seq<nat>, j: nat, refs: seq<VRef>, ps: seq<Point>, info: InfoRef, distance: (Point, Point) -> real)
    requires |refs| == |ps| && Cuts(m, |ps|) && Cuts(m + [j], |ps|)
    ensures ArcsOf(m + [j], refs, ps, info, distance)
         == ArcsOf(m, refs, ps, info, distance) + [ArcOf(m + [j], |m|, refs, ps, info, distance)]
  {
    var m2 := m + [j];
    forall k | 0 <= k < |m|
      ensures ArcOf(m2, k, refs, ps, info, distance) == ArcOf(m, k, refs, ps, info, distance)
    {
      assert m2[k] == m[k] && Start(m2, k) == Start(m, k);
    }
  }

  /**
   * The state of the node loop of convert(way) before position j: the arcs cut so far, the
   * origin of the arc under construction, its points and its accumulated length.
   */
  ghost predicate CutState(ids: seq<int>, marks: set<int>, refs: seq<VRef>, ps: seq<Point>, info: InfoRef,
                           distance: (Point, Point) -> real, j: nat, m: seq<nat>, arcs: seq<Arc>,
                           origin: VRef, points: seq<Point>, length: real)
  {
    && 1 <= j <= |ps| && |refs| == |ps| && |ps| <= |ids|
    && m == MarkedPositions(ids, marks, j) && Cuts(m, |ps|)
    && arcs == ArcsOf(m, refs, ps, info, distance)
    && Start(m, |m|) < j && origin == refs[Start(m, |m|)]
    && points == ps[Start(m, |m|)..j]
    && length == PathLength(ps, Start(m, |m|), j - 1, distance)
  }

  /** The state before the loop: no arc, the way's first node as origin. */
  lemma CutStart(ids: seq<int>, marks: set<int>, refs: seq<VRef>, ps: seq<Point>, info: InfoRef,
                 distance: (Point, Point) -> real)
    requires 1 <= |ps| <= |ids| && |refs| == |ps|
    ensures CutState(ids, marks, refs, ps, info, distance, 1, [], [], refs[0], [ps[0]], 0.0)
  {
  }

  /** An unmarked node extends the arc under construction by one point and one segment. */
  lemma CutStepPlain(ids: seq<int>, marks: set<int>, refs: seq<VRef>, ps: seq<Point>, info: InfoRef,
                     distance: (Point, Point) -> real, j: nat, m: seq<nat>, arcs: seq<Arc>,
                     origin: VRef, points: seq<Point>, length: real)
    requires CutState(ids, marks, refs, ps, info, distance, j, m, arcs, origin, points, length)
    requires j < |ps| && ids[j] !in marks
    ensures points != [] && points[|points| - 1] == ps[j - 1]
    ensures CutState(ids, marks, refs, ps, info, distance, j + 1, m, arcs, origin, points + [ps[j]],
                     length + distance(ps[j - 1], ps[j]))
  {
    var s := Start(m, |m|);
    assert ps[s..j + 1] == ps[s..j] + [ps[j]];
  }

  /** The arc a marked node closes: from the open arc's origin to the node, over the open points and the node. */
  lemma ClosedArc(ids: seq<int>, marks: set<int>, refs: seq<VRef>, ps: seq<Point>, info: InfoRef,
                  distance: (Point, Point) -> real, j: nat, m: seq<nat>, arcs: seq<Arc>,
                  origin: VRef, points: seq<Point>, length: real)
    requires CutState(ids, marks, refs, ps, info, distance, j, m, arcs, origin, points, length)
    requires j < |ps| && ids[j] in marks
    ensures Cuts(m + [j], |ps|)
    ensures Start(m + [j], |m|) == Start(m, |m|) && Start(m + [j], |m + [j]|) == j
    ensures ArcOf(m + [j], |m|, refs, ps, info, distance)
         == Arc(|arcs|, origin, refs[j], IntOfDouble((length + distance(ps[j - 1], ps[j])) * 1000.0), info, points + [ps[j]])
  {
    var s := Start(m, |m|);
    assert ps[s..j + 1] == ps[s..j] + [ps[j]];
  }

  /** A marked node closes the arc under construction, which is the next arc of the way, and starts a new one there. */
  lemma CutStepMarked(ids: seq<int>, marks: set<int>, refs: seq<VRef>, ps: seq<Point>, info: InfoRef,
                      distance: (Point, Point) -> real, j: nat, m: seq<nat>, arcs: seq<Arc>,
                      origin: VRef, points: seq<Point>, length: real)
    requires CutState(ids, marks, refs, ps, info, distance, j, m, arcs, origin, points, length)
    requires j < |ps| && ids[j] in marks
    ensures points != [] && points[|points| - 1] == ps[j - 1]
    ensures Cuts(m + [j], |ps|)
    ensures ArcOf(m + [j], |m|, refs, ps, info, distance)
         == Arc(|arcs|, origin, refs[j], IntOfDouble((length + distance(ps[j - 1], ps[j])) * 1000.0), info, points + [ps[j]])
    ensures CutState(ids, marks, refs, ps, info, distance, j + 1, m + [j],
                     arcs + [ArcOf(m + [j], |m|, refs, ps, info, distance)], refs[j], [ps[j]], 0.0)
  {
    ClosedArc(ids, marks, refs, ps, info, distance, j, m, arcs, origin, points, length);
    ArcsOfSnoc(m, j, refs, ps, info, distance);
  }

  /** `hv` is the arena `vs0` with `arcs` attached, in order, to their origins. */
  ghost predicate Attached(hv: seq<Vertex>, vs0: seq<Vertex>, arcs: seq<Arc>) {
    OriginsIn(vs0, arcs) && hv == Attach(vs0, arcs)
  }

  /** Attaching keeps every vertex's position, and attaching one more arc extends the relation. */
  lemma AttachedStep(hv: seq<Vertex>, vs0: seq<Vertex>, arcs: seq<Arc>, a: Arc)
    requires Attached(hv, vs0, arcs) && a.origin < |vs0|
    ensures |hv| == |vs0| && forall v :: 0 <= v < |vs0| ==> hv[v].point == vs0[v].point
    ensures Attached(WithSuccessor(hv, a.origin, a), vs0, arcs + [a])
  {
    AttachSnoc(vs0, arcs, a);
  }

  /** The points of a run of arcs glued back together: each later arc drops its shared first point. */
  function Glue(arcs: seq<Arc>): seq<Point>
    decreases |arcs|
  {
    if |arcs| == 0 then []
    else if |arcs| == 1 then arcs[0].points
    else
      var init := Glue(arcs[..|arcs| - 1]);
      var pts := arcs[|arcs| - 1].points;
      init + (if |pts| == 0 then [] else pts[1..])
  }

  /** The points before a cut joined to the points from the cut on. */
  lemma JoinAtCut(ps: seq<Point>, s: nat, e: nat)
    requires s <= e < |ps|
    ensures ps[..s + 1] + ps[s..e + 1][1..] == ps[..e + 1]
  {
  }

  /** Arcs whose points run from cut to cut over `ps`, glued together, give `ps` up to the last cut. */
  /** Each arc holds the points from the previous cut (or the start) to its own cut. */
  ghost predicate Spans(arcs: seq<Arc>, m: seq<nat>, ps: seq<Point>)
    decreases |arcs|
  {
    && |arcs| == |m|
    && (|arcs| == 0 ||
        (Start(m, |m| - 1) <= m[|m| - 1] < |ps|
         && arcs[|arcs| - 1].points == ps[Start(m, |m| - 1)..m[|m| - 1] + 1]
         && Spans(arcs[..|arcs| - 1], m[..|m| - 1], ps)))
  }

  lemma {:induction false} GlueCuts(arcs: seq<Arc>, m: seq<nat>, ps: seq<Point>)
    requires Spans(arcs, m, ps) && |m| > 0
    ensures m[|m| - 1] < |ps| && Glue(arcs) == ps[..m[|m| - 1] + 1]
    decreases |m|
  {
    var n := |m| - 1;
    var s, e := Start(m, n), m[n];
    var pts := arcs[n].points;
    if n > 0 {
      var ai, mi := arcs[..n], m[..n];
      GlueCuts(ai, mi, ps);
      assert Glue(ai) == ps[..s + 1] by { assert mi[|mi| - 1] == s; }
      assert Glue(arcs) == Glue(ai) + pts[1..];
      JoinAtCut(ps, s, e);
    } else {
      assert pts == ps[..e + 1];
    }
  }

  /** The first j arcs of a way span their cuts. */
  lemma {:induction false} SpansArcsOf(m: seq<nat>, refs: seq<VRef>, ps: seq<Point>, info: InfoRef,
                                       distance: (Point, Point) -> real, j: nat)
    requires |refs| == |ps| && Cuts(m, |ps|) && j <= |m|
    ensures Spans(ArcsOf(m, refs, ps, info, distance)[..j], m[..j], ps)
    decreases j
  {
    if j > 0 {
      var arcs := ArcsOf(m, refs, ps, info, distance);
      SpansArcsOf(m, refs, ps, info, distance, j - 1);
      ArcOfShape(m, j - 1, refs, ps, info, distance);
      var aj, mj := arcs[..j], m[..j];
      assert aj[..j - 1] == arcs[..j - 1] && mj[..j - 1] == m[..j - 1];
      assert aj[j - 1] == arcs[j - 1] && mj[j - 1] == m[j - 1] && Start(mj, j - 1) == Start(m, j - 1);
    }
  }

  /** Glued together, the arcs of a way give back its points up to the last cut. */
  lemma GlueArcsOf(m: seq<nat>, refs: seq<VRef>, ps: seq<Point>, info: InfoRef,
                   distance: (Point, Point) -> real)
    requires |refs| == |ps| && Cuts(m, |ps|) && |m| > 0
    ensures Glue(ArcsOf(m, refs, ps, info, distance)) == ps[..m[|m| - 1] + 1]
  {
    var arcs := ArcsOf(m, refs, ps, info, distance);
    SpansArcsOf(m, refs, ps, info, distance, |m|);
    assert arcs[..|m|] == arcs && m[..|m|] == m;
    GlueCuts(arcs, m, ps);
  }

  /**
   * A way whose nodes all have vertices and whose last node is marked (as findVertex marks it)
   * is covered by its arcs: glued back together they give all of its points.
   */
  lemma WayArcsCoverWay(ids: seq<int>, marks: set<int>, vertices: map<int, VRef>, vs: seq<Vertex>,
                        info: InfoRef, distance: (Point, Point) -> real)
    requires VerticesIn(vertices, vs) && FirstMissing(ids, vertices) == |ids| && |ids| >= 2
    requires ids[|ids| - 1] in marks
    ensures |Glue(WayArcs(ids, marks, vertices, vs, info, distance))| == |ids|
    ensures forall j :: 0 <= j < |ids| ==>
      ids[j] in vertices && vertices[ids[j]] < |vs| &&
      Glue(WayArcs(ids, marks, vertices, vs, info, distance))[j] == vs[vertices[ids[j]]].point
  {
    var n := |ids|;
    var refs := Refs(ids, vertices, n);
    RefsIn(ids, vertices, vs, n);
    var ps := PointsOf(vs, refs);
    var m := MarkedPositions(ids, marks, n);
    MarkedPositionsCuts(ids, marks, n);
    assert n - 1 in m;
    GlueArcsOf(m, refs, ps, info, distance);
    assert ps[..n] == ps;
  }

  /** A way of a single node gives no arc. */
  lemma SingleNodeWay(ids: seq<int>, marks: set<int>, vertices: map<int, VRef>, vs: seq<Vertex>,
                      info: InfoRef, distance: (Point, Point) -> real)
    requires VerticesIn(vertices, vs) && |ids| == 1
    ensures WayArcs(ids, marks, vertices, vs, info, distance) == []
  {
  }

  /** The arcs of a way are as many as its marked positions after the first, where its vertices reach. */
  lemma WayArcsCount(ids: seq<int>, marks: set<int>, vertices: map<int, VRef>, vs: seq<Vertex>,
                     info: InfoRef, distance: (Point, Point) -> real)
    requires VerticesIn(vertices, vs)
    ensures |WayArcs(ids, marks, vertices, vs, info, distance)|
         == |MarkedPositions(ids, marks, FirstMissing(ids, vertices))|
  {
  }

  /** The arcs of the ways taken one after another. */
  function Flatten(parts: seq<seq<Arc>>): seq<Arc>
    decreases |parts|
  {
    if parts == [] then [] else Flatten(parts[..|parts| - 1]) + parts[|parts| - 1]
  }

  /**
   * The threads split the ways into ranges [i*n, min((i+1)*n, size)) with n = size/threads + 1.
   * The range of thread i, as (first, last).
   */
  function Chunk(i: nat, size: nat, threads: nat): (r: (nat, nat))
    requires threads > 0
  {
    var n := size / threads + 1;
    (i * n, if (i + 1) * n < size then (i + 1) * n else size)
  }

  lemma MulMonotone(a: nat, b: nat, n: nat)
    requires a <= b
    ensures a * n <= b * n
  {
    assert b * n == a * n + (b - a) * n;
  }

  /** The threads' ranges together reach past the last way. */
  lemma ChunkBound(size: nat, threads: nat)
    requires threads > 0
    ensures threads * (size / threads + 1) > size
  {
    var q := size / threads;
    assert size == threads * q + size % threads;
    assert threads * (q + 1) == threads * q + threads;
  }

  /** Consecutive ranges meet, and the last one ends at the number of ways, when no range is inverted. */
  lemma ChunksCover(size: nat, threads: nat)
    requires threads > 0 && (threads - 1) * (size / threads + 1) <= size
    ensures Chunk(0, size, threads).0 == 0
    ensures forall i :: 0 <= i < threads ==> Chunk(i, size, threads).0 <= Chunk(i, size, threads).1
    ensures forall i :: 0 < i < threads ==> Chunk(i, size, threads).0 == Chunk(i - 1, size, threads).1
    ensures Chunk(threads - 1, size, threads).1 == size
  {
    var n := size / threads + 1;
    ChunkBound(size, threads);
    forall i | 0 <= i < threads
      ensures Chunk(i, size, threads).0 <= Chunk(i, size, threads).1
    {
      MulMonotone(i, threads - 1, n);
      assert (i + 1) * n == i * n + n;
    }
    forall i | 0 < i < threads
      ensures Chunk(i, size, threads).0 == Chunk(i - 1, size, threads).1
    {
      MulMonotone(i, threads - 1, n);
      assert (i - 1 + 1) * n == i * n;
    }
    assert (threads - 1 + 1) * n == threads * n;
  }

  /** With 5 ways and 4 threads the last range is (6, 5): `new ArrayList<>(last - first)` then throws. */
  lemma InvertedChunk()
    ensures Chunk(3, 5, 4) == (6, 5)
  {
  }

  /** None of the first c threads has an inverted range, so each of their processors can be created. */
  predicate RangesUpright(size: nat, threads: nat, c: nat)
    requires threads > 0
  {
    forall i :: 0 <= i < c ==> Chunk(i, size, threads).0 <= Chunk(i, size, threads).1
  }

  /** The positions lo, lo + 1, ..., hi - 1. */
  function Indices(lo: nat, hi: nat): (r: seq<nat>)
    requires lo <= hi
    ensures |r| == hi - lo && forall k :: 0 <= k < |r| ==> r[k] == lo + k
  {
    seq(hi - lo, k requires 0 <= k < hi - lo => lo + k)
  }

  /** Which ways throw in convert(way), one flag per way in order. */
  function Failing(ways: seq<Way>, vertices: map<int, VRef>, scaling: SpeedData.UnitScaling): (bad: seq<bool>)
    ensures |bad| == |ways|
  {
    seq(|ways|, w requires 0 <= w < |ways| => WayError(ways[w], vertices, scaling).Some?)
  }

  /** The road information of each way, in way order, computed from its kept tags. */
  function Roads(ways: seq<Way>, scaling: SpeedData.UnitScaling): (rs: seq<Result<RoadInformation, ConversionError>>)
    ensures |rs| == |ways|
  {
    seq(|ways|, w requires 0 <= w < |ways| => RoadInformationOf(KeptTags(ways[w].tags), scaling))
  }

  /** Where a thread over positions lo..hi-1 stops: its first failing way, or hi. */
  function FirstFailure(bad: seq<bool>, lo: nat, hi: nat): (f: nat)
    requires lo <= hi <= |bad|
    ensures lo <= f <= hi
    decreases hi - lo
  {
    if lo == hi || bad[lo] then lo else FirstFailure(bad, lo + 1, hi)
  }

  /** No way of the range fails before the first failure, and the way there, if any, does. */
  lemma {:induction false} FirstFailureSound(bad: seq<bool>, lo: nat, hi: nat)
    requires lo <= hi <= |bad|
    ensures forall v :: lo <= v < FirstFailure(bad, lo, hi) ==> !bad[v]
    ensures FirstFailure(bad, lo, hi) < hi ==> bad[FirstFailure(bad, lo, hi)]
    decreases hi - lo
  {
    if lo < hi && !bad[lo] {
      FirstFailureSound(bad, lo + 1, hi);
    }
  }

  lemma IndicesSnoc(lo: nat, hi: nat)
    requires lo <= hi
    ensures Indices(lo, hi + 1) == Indices(lo, hi) + [hi]
  {
  }

  /** A thread that has passed position i without a failure stops at i exactly when way i fails. */
  lemma FirstFailureStep(bad: seq<bool>, lo: nat, hi: nat, i: nat)
    requires lo <= i < hi <= |bad| && i <= FirstFailure(bad, lo, hi)
    ensures bad[i] <==> FirstFailure(bad, lo, hi) == i
    ensures !bad[i] ==> i + 1 <= FirstFailure(bad, lo, hi)
  {
    FirstFailureSound(bad, lo, hi);
  }

  /** How far the first c ranges reach: the end of range c - 1. */
  function Reach(size: nat, threads: nat, c: nat): nat
    requires threads > 0
  {
    if c == 0 then 0 else Chunk(c - 1, size, threads).1
  }

  /** Range c starts no earlier than the first c ranges reach. */
  lemma ReachBeforeChunk(size: nat, threads: nat, c: nat)
    requires threads > 0
    ensures Reach(size, threads, c) <= Chunk(c, size, threads).0
  {
    if c > 0 {
      assert (c - 1 + 1) * (size / threads + 1) == c * (size / threads + 1);
    }
  }

  /**
   * The ways whose arcs the first c threads hand back, in the order convert(List) collects them:
   * the ways of each thread's range before that thread's first failing way.
   */
  function KeptWays(bad: seq<bool>, threads: nat, c: nat): (ids: seq<nat>)
    requires threads > 0 && c <= threads && RangesUpright(|bad|, threads, c)
    decreases c
  {
    if c == 0 then []
    else
      var r := Chunk(c - 1, |bad|, threads);
      KeptWays(bad, threads, c - 1) + Indices(r.0, FirstFailure(bad, r.0, r.1))
  }

  /** Every kept way lies below the reach of the first c ranges and does not fail. */
  lemma {:induction false} KeptWaysSound(bad: seq<bool>, threads: nat, c: nat)
    requires threads > 0 && c <= threads && RangesUpright(|bad|, threads, c)
    ensures forall k :: 0 <= k < |KeptWays(bad, threads, c)| ==>
      KeptWays(bad, threads, c)[k] < Reach(|bad|, threads, c) && !bad[KeptWays(bad, threads, c)[k]]
    decreases c
  {
    if c > 0 {
      KeptWaysSound(bad, threads, c - 1);
      var prev := KeptWays(bad, threads, c - 1);
      var r := Chunk(c - 1, |bad|, threads);
      ReachBeforeChunk(|bad|, threads, c - 1);
      FirstFailureSound(bad, r.0, r.1);
      var next := Indices(r.0, FirstFailure(bad, r.0, r.1));
      assert KeptWays(bad, threads, c) == prev + next;
      forall k | 0 <= k < |prev + next|
        ensures (prev + next)[k] < Reach(|bad|, threads, c) && !bad[(prev + next)[k]]
      {
        if k < |prev| {
          assert (prev + next)[k] == prev[k];
        } else {
          assert (prev + next)[k] == next[k - |prev|];
        }
      }
    }
  }

  /** Positions listed in strictly increasing order, so each at most once. */
  predicate Increasing(s: seq<nat>) {
    forall k, l :: 0 <= k < l < |s| ==> s[k] < s[l]
  }

  /** Increasing positions all below `bound`, then increasing positions from `bound` on, increase throughout. */
  lemma IncreasingConcat(a: seq<nat>, b: seq<nat>, bound: nat)
    requires Increasing(a) && Increasing(b)
    requires forall k :: 0 <= k < |a| ==> a[k] < bound
    requires forall k :: 0 <= k < |b| ==> bound <= b[k]
    ensures Increasing(a + b)
  {
    forall k, l | 0 <= k < l < |a + b|
      ensures (a + b)[k] < (a + b)[l]
    {
      if l < |a| {
        assert (a + b)[k] == a[k] && (a + b)[l] == a[l];
      } else if k < |a| {
        assert (a + b)[k] == a[k] && (a + b)[l] == b[l - |a|];
      } else {
        assert (a + b)[k] == b[k - |a|] && (a + b)[l] == b[l - |a|];
      }
    }
  }

  /** The kept ways come in increasing position order, so none is kept twice. */
  lemma {:induction false} KeptWaysIncreasing(bad: seq<bool>, threads: nat, c: nat)
    requires threads > 0 && c <= threads && RangesUpright(|bad|, threads, c)
    ensures Increasing(KeptWays(bad, threads, c))
    decreases c
  {
    if c > 0 {
      KeptWaysIncreasing(bad, threads, c - 1);
      KeptWaysSound(bad, threads, c - 1);
      var r := Chunk(c - 1, |bad|, threads);
      ReachBeforeChunk(|bad|, threads, c - 1);
      var next := Indices(r.0, FirstFailure(bad, r.0, r.1));
      IncreasingConcat(KeptWays(bad, threads, c - 1), next, Reach(|bad|, threads, c - 1));
    }
  }

  /** One more upright range adds its ways up to its first failure to the kept ways. */
  lemma KeptWaysStep(bad: seq<bool>, threads: nat, c: nat)
    requires threads > 0 && c < threads && RangesUpright(|bad|, threads, c)
    requires Chunk(c, |bad|, threads).0 <= Chunk(c, |bad|, threads).1
    ensures RangesUpright(|bad|, threads, c + 1)
    ensures KeptWays(bad, threads, c + 1) == KeptWays(bad, threads, c)
      + Indices(Chunk(c, |bad|, threads).0, FirstFailure(bad, Chunk(c, |bad|, threads).0, Chunk(c, |bad|, threads).1))
  {
  }

  /** Consecutive upright ranges meet: range c starts where range c - 1 ends. */
  lemma RangesMeet(size: nat, threads: nat, c: nat)
    requires threads > 0 && c < threads && RangesUpright(size, threads, c + 1)
    ensures Chunk(c, size, threads).0 == Reach(size, threads, c)
  {
    if c > 0 {
      assert Chunk(c, size, threads).0 <= Chunk(c, size, threads).1;
      assert (c - 1 + 1) * (size / threads + 1) == c * (size / threads + 1);
    }
  }

  /** When no way fails, the first c threads hand back every way up to their reach, in order. */
  lemma {:induction false} KeptAllUpTo(bad: seq<bool>, threads: nat, c: nat)
    requires threads > 0 && c <= threads && RangesUpright(|bad|, threads, c)
    requires forall w :: 0 <= w < |bad| ==> !bad[w]
    ensures KeptWays(bad, threads, c) == Indices(0, Reach(|bad|, threads, c))
    decreases c
  {
    if c > 0 {
      var r := Chunk(c - 1, |bad|, threads);
      assert RangesUpright(|bad|, threads, c - 1);
      KeptAllUpTo(bad, threads, c - 1);
      RangesMeet(|bad|, threads, c - 1);
      FirstFailureSound(bad, r.0, r.1);
      assert FirstFailure(bad, r.0, r.1) == r.1;
      assert Indices(0, r.0) + Indices(r.0, r.1) == Indices(0, r.1);
    }
  }

  /** When no way fails and every range is upright, the threads hand back all the ways, in order. */
  lemma KeptEveryWay(bad: seq<bool>, threads: nat)
    requires threads > 0 && RangesUpright(|bad|, threads, threads)
    requires forall w :: 0 <= w < |bad| ==> !bad[w]
    ensures KeptWays(bad, threads, threads) == Indices(0, |bad|)
  {
    KeptAllUpTo(bad, threads, threads);
    ChunkBound(|bad|, threads);
    assert (threads - 1 + 1) * (|bad| / threads + 1) == threads * (|bad| / threads + 1);
  }

  /**
   * With one thread the arcs handed back are those of the ways before the first failing one; the
   * later ways are dropped and the failure is not reported.
   */
  lemma OneThreadKeepsPrefix(bad: seq<bool>)
    ensures RangesUpright(|bad|, 1, 1)
    ensures KeptWays(bad, 1, 1) == Indices(0, FirstFailure(bad, 0, |bad|))
  {
    assert Chunk(0, |bad|, 1) == (0, |bad|);
    assert KeptWays(bad, 1, 0) == [];
  }

  /** Every pooled record is stored under its own value and was allocated before allocation number `next`. */
  predicate PoolInvariant(pool: map<RoadInformation, InfoRef>, next: nat) {
    forall v :: v in pool ==> pool[v].value == v && pool[v].instance < next
  }

  /** The record getOrCreateRoadInformation hands out for `value`: the pooled one, else the fresh allocation `next`. */
  function Lookup(pool: map<RoadInformation, InfoRef>, next: nat, value: RoadInformation): InfoRef {
    if value in pool then pool[value] else InfoRef(next, value)
  }

  /** The pool afterwards: the fresh allocation is kept only when no equal record was pooled. */
  function Store(pool: map<RoadInformation, InfoRef>, next: nat, value: RoadInformation): map<RoadInformation, InfoRef> {
    if value in pool then pool else pool[value := InfoRef(next, value)]
  }

  /**
   * Interning returns a record equal to its argument, keeps the pool consistent, never replaces
   * a pooled record, and leaves the handed-out record pooled.
   */
  lemma InterningProperties(pool: map<RoadInformation, InfoRef>, next: nat, value: RoadInformation)
    requires PoolInvariant(pool, next)
    ensures Lookup(pool, next, value).value == value
    ensures PoolInvariant(Store(pool, next, value), next + 1)
    ensures value in Store(pool, next, value) && Store(pool, next, value)[value] == Lookup(pool, next, value)
    ensures forall v :: v in pool ==> v in Store(pool, next, value) && Store(pool, next, value)[v] == pool[v]
    ensures Store(pool, next, value).Keys == pool.Keys + {value}
  {
  }

  /** Interning an equal record a second time hands out the instance of the first time. */
  lemma InterningIdempotent(pool: map<RoadInformation, InfoRef>, next: nat, value: RoadInformation, other: RoadInformation)
    requires FieldsEqual(value, other)
    ensures Lookup(Store(pool, next, value), next + 1, other) == Lookup(pool, next, value)
    ensures Store(Store(pool, next, value), next + 1, other) == Store(pool, next, value)
  {
    assert value == other;
  }

  /** Why convert(way) fails, if it does: the speed, then an empty way, then the first node without a vertex. */
  function WayError(way: Way, vertices: map<int, VRef>, scaling: SpeedData.UnitScaling): Option<ConversionError> {
    var ri := RoadInformationOf(KeptTags(way.tags), scaling);
    if ri.Err? then Some(ri.error)
    else if way.nodeIds == [] then Some(NoSuchElement)
    else if FirstMissing(way.nodeIds, vertices) < |way.nodeIds| then
      Some(NullPointer(way.nodeIds[FirstMissing(way.nodeIds, vertices)]))
    else None
  }

  /**
   * Way `way`, whose tags give the road information `road`, was converted into `part`, made of
   * its WayArcs with road information `info`, a record equal to `road` and pooled in `pool`.
   */
  ghost predicate WayConverted(way: Way, road: Result<RoadInformation, ConversionError>, marks: set<int>,
                               vertices: map<int, VRef>, vs: seq<Vertex>, info: InfoRef, part: seq<Arc>,
                               pool: map<RoadInformation, InfoRef>, distance: (Point, Point) -> real)
    requires VerticesIn(vertices, vs)
  {
    && part == WayArcs(way.nodeIds, marks, vertices, vs, info, distance)
    && road == Ok(info.value)
    && info.value in pool && pool[info.value] == info
  }

  /** WayArcs reads the arena only for the points of the vertices. */
  lemma WayArcsReadsPoints(ids: seq<int>, marks: set<int>, vertices: map<int, VRef>, vs1: seq<Vertex>, vs2: seq<Vertex>,
                           info: InfoRef, distance: (Point, Point) -> real)
    requires VerticesIn(vertices, vs1) && |vs1| == |vs2|
    requires forall v :: 0 <= v < |vs1| ==> vs1[v].point == vs2[v].point
    ensures VerticesIn(vertices, vs2)
    ensures WayArcs(ids, marks, vertices, vs1, info, distance) == WayArcs(ids, marks, vertices, vs2, info, distance)
  {
    var n := FirstMissing(ids, vertices);
    var refs := Refs(ids, vertices, n);
    RefsIn(ids, vertices, vs1, n);
    assert PointsOf(vs1, refs) == PointsOf(vs2, refs);
  }

  /**
   * The ways ids[0], ids[1], ... converted without error, in that order, into `parts`, whose
   * concatenation is `arcs`; `built` is every arc attached so far, the partial arcs of failed
   * ways included, and `hv` the arena with them attached.
   */
  ghost predicate ConvertedAt(ways: seq<Way>, ids: seq<nat>, marks: set<int>, vertices: map<int, VRef>,
                              vs0: seq<Vertex>, infos: seq<InfoRef>, parts: seq<seq<Arc>>, arcs: seq<Arc>,
                              built: seq<Arc>, hv: seq<Vertex>, pool: map<RoadInformation, InfoRef>,
                              scaling: SpeedData.UnitScaling, distance: (Point, Point) -> real)
    requires VerticesIn(vertices, vs0)
  {
    && |infos| == |ids| && |parts| == |ids| && arcs == Flatten(parts)
    && EndsIn(vs0, built) && hv == Attach(vs0, built)
    && forall k {:trigger ids[k]} :: 0 <= k < |ids| ==>
         ids[k] < |ways|
         && WayConverted(ways[ids[k]], Roads(ways, scaling)[ids[k]], marks, vertices, vs0, infos[k], parts[k], pool, distance)
  }

  /** More arcs attached, within the arena, and a pool that only grew keep the conversion state. */
  lemma ConvertedGrow(ways: seq<Way>, ids: seq<nat>, marks: set<int>, vertices: map<int, VRef>, vs0: seq<Vertex>,
                      infos: seq<InfoRef>, parts: seq<seq<Arc>>, arcs: seq<Arc>, built: seq<Arc>, hv: seq<Vertex>,
                      pool: map<RoadInformation, InfoRef>, pool2: map<RoadInformation, InfoRef>,
                      scaling: SpeedData.UnitScaling, distance: (Point, Point) -> real, extra: seq<Arc>)
    requires VerticesIn(vertices, vs0) && EndsIn(vs0, extra)
    requires ConvertedAt(ways, ids, marks, vertices, vs0, infos, parts, arcs, built, hv, pool, scaling, distance)
    requires forall v :: v in pool ==> v in pool2 && pool2[v] == pool[v]
    ensures OriginsIn(hv, extra)
    ensures ConvertedAt(ways, ids, marks, vertices, vs0, infos, parts, arcs, built + extra, Attach(hv, extra),
                        pool2, scaling, distance)
  {
    AttachAppend(vs0, built, extra);
    assert EndsIn(vs0, built + extra) by {
      forall k | 0 <= k < |built + extra|
        ensures (built + extra)[k] == if k < |built| then built[k] else extra[k - |built|]
      {
      }
    }
    forall k | 0 <= k < |ids|
      ensures WayConverted(ways[ids[k]], Roads(ways, scaling)[ids[k]], marks, vertices, vs0, infos[k], parts[k], pool2,
                           distance)
    {
      assert WayConverted(ways[ids[k]], Roads(ways, scaling)[ids[k]], marks, vertices, vs0, infos[k], parts[k], pool,
                          distance);
    }
  }

  /** Way w converted into `part` with a pool that only grew is recorded after the ways converted so far. */
  lemma ConvertedSnoc(ways: seq<Way>, w: nat, ids: seq<nat>, marks: set<int>, vertices: map<int, VRef>,
                      vs0: seq<Vertex>, infos: seq<InfoRef>, parts: seq<seq<Arc>>, arcs: seq<Arc>, built: seq<Arc>,
                      hv: seq<Vertex>, pool: map<RoadInformation, InfoRef>, pool2: map<RoadInformation, InfoRef>,
                      scaling: SpeedData.UnitScaling, distance: (Point, Point) -> real, info: InfoRef, part: seq<Arc>)
    requires VerticesIn(vertices, vs0) && w < |ways|
    requires ConvertedAt(ways, ids, marks, vertices, vs0, infos, parts, arcs, built, hv, pool, scaling, distance)
    requires forall v :: v in pool ==> v in pool2 && pool2[v] == pool[v]
    requires WayConverted(ways[w], Roads(ways, scaling)[w], marks, vertices, vs0, info, part, pool2, distance)
    ensures OriginsIn(hv, part)
    ensures ConvertedAt(ways, ids + [w], marks, vertices, vs0, infos + [info], parts + [part], arcs + part,
                        built + part, Attach(hv, part), pool2, scaling, distance)
  {
    ConvertedGrow(ways, ids, marks, vertices, vs0, infos, parts, arcs, built, hv, pool, pool2, scaling, distance, part);
    var ids2, infos2, parts2 := ids + [w], infos + [info], parts + [part];
    assert parts2[..|parts|] == parts;
    forall k | 0 <= k < |ids2|
      ensures ids2[k] < |ways|
        && WayConverted(ways[ids2[k]], Roads(ways, scaling)[ids2[k]], marks, vertices, vs0, infos2[k], parts2[k], pool2,
                        distance)
    {
      if k < |ids| {
        assert ids2[k] == ids[k] && infos2[k] == infos[k] && parts2[k] == parts[k];
      }
    }
  }

  /** The arcs convert(way) attaches to the arena, whether or not it then fails: none when the speed is rejected. */
  ghost function LeftAttached(way: Way, marks: set<int>, vertices: map<int, VRef>, vs: seq<Vertex>, info: InfoRef,
                          scaling: SpeedData.UnitScaling, distance: (Point, Point) -> real): (arcs: seq<Arc>)
    requires VerticesIn(vertices, vs)
    ensures EndsIn(vs, arcs)
  {
    if RoadInformationOf(KeptTags(way.tags), scaling).Ok? then WayArcs(way.nodeIds, marks, vertices, vs, info, distance)
    else []
  }

  /**
   * convert(way) on way w, from the arena `vsw`, pool and counter reached so far: the arcs it
   * attaches join the conversion state, and a way without error is also recorded with them.
   */
  lemma ConvertedStep(ways: seq<Way>, w: nat, ids: seq<nat>, marks: set<int>, vertices: map<int, VRef>,
                      vs0: seq<Vertex>, infos: seq<InfoRef>, parts: seq<seq<Arc>>, arcs: seq<Arc>, built: seq<Arc>,
                      vsw: seq<Vertex>, poolw: map<RoadInformation, InfoRef>, nextw: nat,
                      scaling: SpeedData.UnitScaling, distance: (Point, Point) -> real, info: InfoRef)
    requires VerticesIn(vertices, vs0) && w < |ways| && PoolInvariant(poolw, nextw)
    requires ConvertedAt(ways, ids, marks, vertices, vs0, infos, parts, arcs, built, vsw, poolw, scaling, distance)
    requires RoadInformationOf(KeptTags(ways[w].tags), scaling).Ok? ==>
      info == Lookup(poolw, nextw, RoadInformationOf(KeptTags(ways[w].tags), scaling).value)
    ensures VerticesIn(vertices, vsw)
    ensures var ri := RoadInformationOf(KeptTags(ways[w].tags), scaling);
            var part := LeftAttached(ways[w], marks, vertices, vs0, info, scaling, distance);
            var pool2 := if ri.Ok? then Store(poolw, nextw, ri.value) else poolw;
      && (ri.Ok? ==> part == WayArcs(ways[w].nodeIds, marks, vertices, vsw, info, distance))
      && (ri.Err? ==> part == [] && Attach(vsw, part) == vsw)
      && OriginsIn(vsw, part)
      && ConvertedAt(ways, ids, marks, vertices, vs0, infos, parts, arcs, built + part, Attach(vsw, part),
                     pool2, scaling, distance)
      && (WayError(ways[w], vertices, scaling).None? ==>
            ConvertedAt(ways, ids + [w], marks, vertices, vs0, infos + [info], parts + [part], arcs + part,
                        built + part, Attach(vsw, part), pool2, scaling, distance))
  {
    var ri := RoadInformationOf(KeptTags(ways[w].tags), scaling);
    var part := LeftAttached(ways[w], marks, vertices, vs0, info, scaling, distance);
    if ri.Ok? {
      InterningProperties(poolw, nextw, ri.value);
      WayArcsReadsPoints(ways[w].nodeIds, marks, vertices, vsw, vs0, info, distance);
      var pool2 := Store(poolw, nextw, ri.value);
      ConvertedGrow(ways, ids, marks, vertices, vs0, infos, parts, arcs, built, vsw, poolw, pool2, scaling, distance, part);
      if WayError(ways[w], vertices, scaling).None? {
        assert WayConverted(ways[w], Roads(ways, scaling)[w], marks, vertices, vs0, info, part, pool2, distance);
        ConvertedSnoc(ways, w, ids, marks, vertices, vs0, infos, parts, arcs, built, vsw, poolw, pool2, scaling, distance, info, part);
      }
    } else {
      ConvertedGrow(ways, ids, marks, vertices, vs0, infos, parts, arcs, built, vsw, poolw, poolw, scaling, distance, part);
      assert built + part == built;
    }
  }

  /**
   * What thread t leaves in the arena besides the arcs it collects: the partial arcs of its
   * first failing way, attached with that way's record `tinfo`, or nothing when its whole
   * range converted.
   */
  ghost predicate ThreadTail(ways: seq<Way>, threads: nat, t: nat, marks: set<int>, vertices: map<int, VRef>,
                             vs0: seq<Vertex>, scaling: SpeedData.UnitScaling, distance: (Point, Point) -> real,
                             tail: seq<Arc>, tinfo: InfoRef)
    requires threads > 0 && VerticesIn(vertices, vs0) && Chunk(t, |ways|, threads).0 <= Chunk(t, |ways|, threads).1
  {
    var r := Chunk(t, |ways|, threads);
    var f := FirstFailure(Failing(ways, vertices, scaling), r.0, r.1);
    tail == if f < r.1 then LeftAttached(ways[f], marks, vertices, vs0, tinfo, scaling, distance) else []
  }

  /** Each thread's collected arcs followed by its tail, thread after thread: the order they reach the arena. */
  function Interleave(collected: seq<seq<Arc>>, tails: seq<seq<Arc>>): seq<Arc>
    requires |collected| == |tails|
    decreases |collected|
  {
    if collected == [] then []
    else Interleave(collected[..|collected| - 1], tails[..|tails| - 1]) + collected[|collected| - 1] + tails[|tails| - 1]
  }

  /**
   * The arena after the first i threads: thread t collected `collected[t]` and left `tails[t]`
   * behind, `arcs` is what they collected and `built` everything they attached, in that order.
   */
  ghost predicate ThreadsAttached(ways: seq<Way>, threads: nat, i: nat, marks: set<int>, vertices: map<int, VRef>,
                                  vs0: seq<Vertex>, scaling: SpeedData.UnitScaling, distance: (Point, Point) -> real,
                                  arcs: seq<Arc>, built: seq<Arc>, collected: seq<seq<Arc>>, tails: seq<seq<Arc>>,
                                  tinfos: seq<InfoRef>)
    requires threads > 0 && i <= threads && RangesUpright(|ways|, threads, i) && VerticesIn(vertices, vs0)
  {
    && |collected| == i && |tails| == i && |tinfos| == i
    && arcs == Flatten(collected) && built == Interleave(collected, tails)
    && forall t {:trigger tails[t]} :: 0 <= t < i ==>
         ThreadTail(ways, threads, t, marks, vertices, vs0, scaling, distance, tails[t], tinfos[t])
  }

  /** One more thread, with its collected arcs and its tail, extends the attached arcs by both. */
  lemma ThreadsAttachedSnoc(ways: seq<Way>, threads: nat, i: nat, marks: set<int>, vertices: map<int, VRef>,
                            vs0: seq<Vertex>, scaling: SpeedData.UnitScaling, distance: (Point, Point) -> real,
                            arcs: seq<Arc>, built: seq<Arc>, collected: seq<seq<Arc>>, tails: seq<seq<Arc>>,
                            tinfos: seq<InfoRef>, part: seq<Arc>, tail: seq<Arc>, tinfo: InfoRef)
    requires threads > 0 && i < threads && RangesUpright(|ways|, threads, i + 1) && VerticesIn(vertices, vs0)
    requires ThreadsAttached(ways, threads, i, marks, vertices, vs0, scaling, distance, arcs, built, collected, tails,
                             tinfos)
    requires ThreadTail(ways, threads, i, marks, vertices, vs0, scaling, distance, tail, tinfo)
    ensures ThreadsAttached(ways, threads, i + 1, marks, vertices, vs0, scaling, distance, arcs + part,
                            built + part + tail, collected + [part], tails + [tail], tinfos + [tinfo])
  {
    assert (collected + [part])[..i] == collected;
    assert (tails + [tail])[..i] == tails;
    forall t | 0 <= t < i + 1
      ensures ThreadTail(ways, threads, t, marks, vertices, vs0, scaling, distance, (tails + [tail])[t],
                         (tinfos + [tinfo])[t])
    {
      if t < i {
        assert (tails + [tail])[t] == tails[t] && (tinfos + [tinfo])[t] == tinfos[t];
      }
    }
  }

  /** Every arc the threads collect is among the arcs they attached. */
  lemma {:induction false} CollectedAttached(collected: seq<seq<Arc>>, tails: seq<seq<Arc>>)
    requires |collected| == |tails|
    ensures forall k :: 0 <= k < |Flatten(collected)| ==> Flatten(collected)[k] in Interleave(collected, tails)
    decreases |collected|
  {
    if collected != [] {
      var n := |collected| - 1;
      CollectedAttached(collected[..n], tails[..n]);
      var before := Flatten(collected[..n]);
      var inner := Interleave(collected[..n], tails[..n]);
      forall k | 0 <= k < |Flatten(collected)|
        ensures Flatten(collected)[k] in Interleave(collected, tails)
      {
        if k < |before| {
          assert Flatten(collected)[k] == before[k];
          assert before[k] in inner;
        } else {
          assert Flatten(collected)[k] == collected[n][k - |before|];
          assert Interleave(collected, tails)[|inner| + k - |before|] == collected[n][k - |before|];
        }
      }
    }
  }

  /** An arc attached to an arena is among its origin's successors there. */
  lemma AttachedIsSuccessor(vs: seq<Vertex>, built: seq<Arc>, a: Arc)
    requires OriginsIn(vs, built) && a in built
    ensures a.origin < |vs| && a in Attach(vs, built)[a.origin].successors
  {
    var j :| 0 <= j < |built| && built[j] == a;
    ArcsFromContains(built, j);
    AttachSuccessors(vs, built, a.origin);
  }

  /**
   * After the threads, the arena holds every collected arc among its origin's successors, and
   * what it holds beyond them are the failing ways' partial arcs.
   */
  lemma CollectedInArena(vs0: seq<Vertex>, arcs: seq<Arc>, built: seq<Arc>, collected: seq<seq<Arc>>,
                         tails: seq<seq<Arc>>)
    requires |collected| == |tails| && arcs == Flatten(collected) && built == Interleave(collected, tails)
    requires EndsIn(vs0, built)
    ensures OriginsIn(vs0, built)
    ensures forall k :: 0 <= k < |arcs| ==>
      arcs[k].origin < |vs0| && arcs[k] in Attach(vs0, built)[arcs[k].origin].successors
  {
    CollectedAttached(collected, tails);
    forall k | 0 <= k < |arcs|
      ensures arcs[k].origin < |vs0| && arcs[k] in Attach(vs0, built)[arcs[k].origin].successors
    {
      AttachedIsSuccessor(vs0, built, arcs[k]);
    }
  }

  /** findVertex after its first w ways: none is empty, `current` holds their ids, and the marks were extended by their repeated ids and ends. */
  ghost predicate ScannedUpTo(ways: seq<Way>, w: nat, current: set<int>, marks0: set<int>, marks: set<int>)
  {
    && w <= |ways|
    && (forall v :: 0 <= v < w ==> ways[v].nodeIds != [])
    && (forall x :: x in current <==> x in AllIds(ways[..w]))
    && marks == marks0 + Repeated(AllIds(ways[..w])) + WayEnds(ways[..w])
  }

  lemma RepeatedGrows(s: seq<int>, t: seq<int>)
    ensures Repeated(s) <= Repeated(s + t)
  {
    assert multiset(s + t) == multiset(s) + multiset(t);
  }

  /** Scanning a non-empty way w, then marking its ends, extends the findVertex state to w + 1 ways. */
  lemma ScannedStep(ways: seq<Way>, w: nat, current0: set<int>, current: set<int>, marks0: set<int>,
                     marks: set<int>, marks2: set<int>)
    requires w < |ways| && ways[w].nodeIds != []
    requires ScannedUpTo(ways, w, current0, marks0, marks)
    requires forall x :: x in current <==> x in AllIds(ways[..w]) + ways[w].nodeIds
    requires marks2 == marks + Repeated(AllIds(ways[..w]) + ways[w].nodeIds)
                       + {ways[w].nodeIds[0], ways[w].nodeIds[|ways[w].nodeIds| - 1]}
    ensures ScannedUpTo(ways, w + 1, current, marks0, marks2)
  {
    var before, nodes := AllIds(ways[..w]), ways[w].nodeIds;
    assert ways[..w + 1][..w] == ways[..w];
    assert AllIds(ways[..w + 1]) == before + nodes;
    assert WayEnds(ways[..w + 1]) == WayEnds(ways[..w]) + {nodes[0], nodes[|nodes| - 1]};
    RepeatedGrows(before, nodes);
  }

  /** The conversion state: junction marks and the road-information pool over a shared vertex arena. */
  class WayToArc {
    const heap: Heap
    const vertices: map<int, VRef>
    var nodeMarks: set<int>
    var roadinfos: map<RoadInformation, InfoRef>
    /** The number of RoadInformation objects allocated so far: the next one's identity. */
    var nextInstance: nat
    const distance: (Point, Point) -> real
    const scaling: SpeedData.UnitScaling
    /** configuration.getThreads(). */
    const threads: int

    predicate PoolValid()
      reads this
    {
      PoolInvariant(roadinfos, nextInstance)
    }

    predicate Valid()
      reads this, heap
    {
      PoolValid() && VerticesIn(vertices, heap.vertices)
    }

    constructor (heap: Heap, vertices: map<int, VRef>, distance: (Point, Point) -> real, scaling: SpeedData.UnitScaling,
                 threads: int)
      requires VerticesIn(vertices, heap.vertices)
      ensures this.heap == heap && this.vertices == vertices
      ensures this.distance == distance && this.scaling == scaling && this.threads == threads
      ensures nodeMarks == {} && roadinfos == map[] && nextInstance == 0
      ensures Valid()
    {
      this.heap := heap;
      this.vertices := vertices;
      this.distance := distance;
      this.scaling := scaling;
      this.threads := threads;
      nodeMarks := {};
      roadinfos := map[];
      nextInstance := 0;
    }

    /** The pool lookup of getOrCreateRoadInformation: a fresh object is allocated, and kept only if no equal one is pooled. */
    method Intern(value: RoadInformation) returns (r: InfoRef)
      requires PoolValid()
      modifies this
      ensures PoolValid() && nodeMarks == old(nodeMarks) && nextInstance == old(nextInstance) + 1
      ensures r == Lookup(old(roadinfos), old(nextInstance), value)
      ensures roadinfos == Store(old(roadinfos), old(nextInstance), value)
    {
      r := InfoRef(nextInstance, value);
      nextInstance := nextInstance + 1;
      if value !in roadinfos {
        roadinfos := roadinfos[value := r];
      } else {
        r := roadinfos[value];
      }
    }

    /** getOrCreateRoadInformation. */
    method GetOrCreateRoadInformation(way: Way) returns (r: Result<InfoRef, ConversionError>)
      requires PoolValid()
      modifies this
      ensures PoolValid() && nodeMarks == old(nodeMarks)
      ensures r.Err? <==> RoadInformationOf(KeptTags(way.tags), scaling).Err?
      ensures r.Err? ==>
        (r.error == RoadInformationOf(KeptTags(way.tags), scaling).error
         && roadinfos == old(roadinfos) && nextInstance == old(nextInstance))
      ensures r.Ok? ==>
        (r.value == Lookup(old(roadinfos), old(nextInstance), RoadInformationOf(KeptTags(way.tags), scaling).value)
         && roadinfos == Store(old(roadinfos), old(nextInstance), RoadInformationOf(KeptTags(way.tags), scaling).value)
         && nextInstance == old(nextInstance) + 1)
    {
      var tags := KeepUsefulTags(way.tags);
      var computed := ComputeRoadInformation(tags, scaling);
      if computed.Err? {
        return Err(computed.error);
      }
      var roadinfo := Intern(computed.value);
      r := Ok(roadinfo);
    }

    /**
     * convert(way): the arcs of the way, cut at its marked nodes; each is attached to its origin
     * as it is built. A node without a vertex stops the conversion with the arcs built so far
     * left attached.
     */
    method Convert(way: Way) returns (r: Result<seq<Arc>, ConversionError>, ghost info: InfoRef)
      requires Valid()
      modifies this, heap
      ensures Valid() && nodeMarks == old(nodeMarks)
      ensures r.Err? <==> WayError(way, vertices, scaling).Some?
      ensures r.Err? ==> WayError(way, vertices, scaling) == Some(r.error)
      ensures RoadInformationOf(KeptTags(way.tags), scaling).Err? ==>
        (roadinfos == old(roadinfos) && nextInstance == old(nextInstance) && heap.vertices == old(heap.vertices))
      ensures RoadInformationOf(KeptTags(way.tags), scaling).Ok? ==>
        (info == Lookup(old(roadinfos), old(nextInstance), RoadInformationOf(KeptTags(way.tags), scaling).value)
         && roadinfos == Store(old(roadinfos), old(nextInstance), RoadInformationOf(KeptTags(way.tags), scaling).value)
         && nextInstance == old(nextInstance) + 1
         && heap.vertices
              == Attach(old(heap.vertices), WayArcs(way.nodeIds, nodeMarks, vertices, old(heap.vertices), info, distance)))
      ensures r.Ok? ==> r.value == WayArcs(way.nodeIds, nodeMarks, vertices, old(heap.vertices), info, distance)
    {
      var roadinfo := GetOrCreateRoadInformation(way);
      if roadinfo.Err? {
        return Err(roadinfo.error), InfoRef(0, RoadInformation(Unclassified, 0, false, 0, None));
      }
      info := roadinfo.value;
      if way.nodeIds == [] {
        assert WayArcs(way.nodeIds, nodeMarks, vertices, heap.vertices, info, distance) == [];
        return Err(NoSuchElement), info;
      }
      r := CutWay(way.nodeIds, roadinfo.value);
    }

    /** One step of the node loop of convert(way): node j extends the arc under construction, and closes it when marked. */
    method AdvanceNode(ids: seq<int>, info: InfoRef, j: nat, vertex: VRef, ghost refs: seq<VRef>, ghost ps: seq<Point>,
                       ghost vs0: seq<Vertex>, ghost m: seq<nat>, arcs: seq<Arc>, origin: VRef, points: seq<Point>,
                       length: real)
      returns (ghost m2: seq<nat>, arcs2: seq<Arc>, origin2: VRef, points2: seq<Point>, length2: real)
      requires CutState(ids, nodeMarks, refs, ps, info, distance, j, m, arcs, origin, points, length)
      requires forall k :: 0 <= k < |refs| ==> refs[k] < |vs0|
      requires j < |ps| && vertex == refs[j] && ps[j] == vs0[vertex].point
      requires Attached(heap.vertices, vs0, arcs)
      requires |heap.vertices| == |vs0| && forall v :: 0 <= v < |vs0| ==> heap.vertices[v].point == vs0[v].point
      modifies heap
      ensures CutState(ids, nodeMarks, refs, ps, info, distance, j + 1, m2, arcs2, origin2, points2, length2)
      ensures Attached(heap.vertices, vs0, arcs2)
      ensures |heap.vertices| == |vs0| && forall v :: 0 <= v < |vs0| ==> heap.vertices[v].point == vs0[v].point
    {
      var newPoint := heap.vertices[vertex].point;
      if ids[j] in nodeMarks {
        m2, arcs2, origin2, points2, length2 := CloseArc(ids, info, j, vertex, refs, ps, vs0, m, arcs, origin, points, length);
      } else {
        CutStepPlain(ids, nodeMarks, refs, ps, info, distance, j, m, arcs, origin, points, length);
        m2, arcs2, origin2 := m, arcs, origin;
        length2 := length + distance(points[|points| - 1], newPoint);
        points2 := points + [newPoint];
      }
    }

    /** A marked node j: the arc under construction is built up to it, attached to its origin, and a new one starts there. */
    method CloseArc(ids: seq<int>, info: InfoRef, j: nat, vertex: VRef, ghost refs: seq<VRef>, ghost ps: seq<Point>,
                    ghost vs0: seq<Vertex>, ghost m: seq<nat>, arcs: seq<Arc>, origin: VRef, points: seq<Point>,
                    length: real)
      returns (ghost m2: seq<nat>, arcs2: seq<Arc>, origin2: VRef, points2: seq<Point>, length2: real)
      requires CutState(ids, nodeMarks, refs, ps, info, distance, j, m, arcs, origin, points, length)
      requires forall k :: 0 <= k < |refs| ==> refs[k] < |vs0|
      requires j < |ps| && ids[j] in nodeMarks && vertex == refs[j] && ps[j] == vs0[vertex].point
      requires Attached(heap.vertices, vs0, arcs)
      requires |heap.vertices| == |vs0| && forall v :: 0 <= v < |vs0| ==> heap.vertices[v].point == vs0[v].point
      modifies heap
      ensures CutState(ids, nodeMarks, refs, ps, info, distance, j + 1, m2, arcs2, origin2, points2, length2)
      ensures Attached(heap.vertices, vs0, arcs2)
      ensures |heap.vertices| == |vs0| && forall v :: 0 <= v < |vs0| ==> heap.vertices[v].point == vs0[v].point
    {
      CutStepMarked(ids, nodeMarks, refs, ps, info, distance, j, m, arcs, origin, points, length);
      var newPoint := heap.vertices[vertex].point;
      var total := length + distance(points[|points| - 1], newPoint);
      ghost var hv := heap.vertices;
      var arc := heap.NewArcWithPoints(|arcs|, origin, vertex, IntOfDouble(total * 1000.0), info, points + [newPoint]);
      assert arc == ArcOf(m + [j], |m|, refs, ps, info, distance);
      AttachedStep(hv, vs0, arcs, arc);
      arcs2 := arcs + [arc];
      m2 := m + [j];
      length2 := 0.0;
      origin2 := vertex;
      points2 := [heap.vertices[origin2].point];
    }

    /** The node loop of convert(way), after the road information is known. */
    method CutWay(ids: seq<int>, info: InfoRef) returns (r: Result<seq<Arc>, ConversionError>)
      requires ids != [] && VerticesIn(vertices, heap.vertices)
      modifies heap
      ensures heap.vertices == Attach(old(heap.vertices), WayArcs(ids, nodeMarks, vertices, old(heap.vertices), info, distance))
      ensures FirstMissing(ids, vertices) == |ids| ==> r == Ok(WayArcs(ids, nodeMarks, vertices, old(heap.vertices), info, distance))
      ensures FirstMissing(ids, vertices) < |ids| ==> r == Err(NullPointer(ids[FirstMissing(ids, vertices)]))
    {
      ghost var vs0 := heap.vertices;
      ghost var n := FirstMissing(ids, vertices);
      ghost var refs := Refs(ids, vertices, n);
      RefsIn(ids, vertices, vs0, n);
      ghost var ps := PointsOf(vs0, refs);
      if ids[0] !in vertices {
        assert n == 0 && WayArcs(ids, nodeMarks, vertices, vs0, info, distance) == [];
        return Err(NullPointer(ids[0]));
      }
      var arcs: seq<Arc> := [];
      var origin := vertices[ids[0]];
      assert origin == refs[0];
      var points := [heap.vertices[origin].point];
      assert points == [ps[0]];
      var length := 0.0;
      ghost var m: seq<nat> := [];
      CutStart(ids, nodeMarks, refs, ps, info, distance);
      var j := 1;
      while j < |ids|
        invariant j <= n
        invariant CutState(ids, nodeMarks, refs, ps, info, distance, j, m, arcs, origin, points, length)
        invariant Attached(heap.vertices, vs0, arcs)
        invariant |heap.vertices| == |vs0| && forall v :: 0 <= v < |vs0| ==> heap.vertices[v].point == vs0[v].point
      {
        var nodeId := ids[j];
        if nodeId !in vertices {
          assert j == n && arcs == WayArcs(ids, nodeMarks, vertices, vs0, info, distance);
          return Err(NullPointer(nodeId));
        }
        assert j < n;
        var vertex := vertices[nodeId];
        assert vertex == refs[j] && ps[j] == vs0[vertex].point;
        m, arcs, origin, points, length := AdvanceNode(ids, info, j, vertex, refs, ps, vs0, m, arcs, origin, points, length);
        j := j + 1;
      }
      assert j == n && arcs == WayArcs(ids, nodeMarks, vertices, vs0, info, distance);
      r := Ok(arcs);
    }

    /**
     * convert(List<Way>): findVertex over all ways, then one processor per thread over its range
     * of ways, their arc lists concatenated in thread order. The threads run here one after the
     * other. An exception inside a thread ends only that thread; the arcs of its earlier ways are
     * still collected and nothing is reported.
     */
    method ConvertAll(ways: seq<Way>) returns (r: Result<seq<Arc>, ConversionError>, ghost infos: seq<InfoRef>,
                                               ghost parts: seq<seq<Arc>>, ghost built: seq<Arc>,
                                               ghost collected: seq<seq<Arc>>, ghost tails: seq<seq<Arc>>,
                                               ghost tinfos: seq<InfoRef>)
      requires Valid()
      modifies this, heap
      ensures Valid()
      ensures (exists w :: 0 <= w < |ways| && ways[w].nodeIds == []) ==> r == Err(IndexOutOfBounds)
      ensures (forall w :: 0 <= w < |ways| ==> ways[w].nodeIds != []) ==>
        && nodeMarks == old(nodeMarks) + Repeated(AllIds(ways)) + WayEnds(ways)
        && (threads == 0 ==> r == Err(DivisionByZero))
        && (threads < 0 ==> r == Err(NegativeArraySize))
        && (threads > 0 && !RangesUpright(|ways|, threads, threads) ==> r == Err(IllegalArgument))
      ensures r.Ok? <==>
        && (forall w :: 0 <= w < |ways| ==> ways[w].nodeIds != [])
        && threads > 0 && RangesUpright(|ways|, threads, threads)
      ensures r.Ok? ==>
        && threads > 0 && RangesUpright(|ways|, threads, threads)
        && ConvertedAt(ways, KeptWays(Failing(ways, vertices, scaling), threads, threads), nodeMarks, vertices,
                       old(heap.vertices), infos, parts, r.value, built, heap.vertices, roadinfos, scaling, distance)
        && ThreadsAttached(ways, threads, threads, nodeMarks, vertices, old(heap.vertices), scaling, distance, r.value,
                           built, collected, tails, tinfos)
    {
      infos, parts, built, collected, tails, tinfos := [], [], [], [], [], [];
      var error := FindVertex(ways);
      if error.Some? {
        r := Err(error.value);
        return;
      }
      if threads == 0 {
        r := Err(DivisionByZero);
        return;
      }
      if threads < 0 {
        r := Err(NegativeArraySize);
        return;
      }
      ghost var ids;
      r, ids, infos, parts, built, collected, tails, tinfos := RunThreads(ways);
    }

    /**
     * The state of convert(List) after its first i threads: their ranges were upright, the kept
     * ways are those of KeptWays, and their arcs, records and attached arcs are as ConvertedAt says.
     */
    ghost predicate ThreadsRan(ways: seq<Way>, i: nat, vs0: seq<Vertex>, ids: seq<nat>, infos: seq<InfoRef>,
                               parts: seq<seq<Arc>>, arcs: seq<Arc>, built: seq<Arc>, collected: seq<seq<Arc>>,
                               tails: seq<seq<Arc>>, tinfos: seq<InfoRef>)
      reads this, heap
    {
      && Valid() && threads > 0 && i <= threads && VerticesIn(vertices, vs0)
      && RangesUpright(|ways|, threads, i)
      && ids == KeptWays(Failing(ways, vertices, scaling), threads, i)
      && ConvertedAt(ways, ids, nodeMarks, vertices, vs0, infos, parts, arcs, built, heap.vertices, roadinfos,
                     scaling, distance)
      && ThreadsAttached(ways, threads, i, nodeMarks, vertices, vs0, scaling, distance, arcs, built, collected, tails,
                         tinfos)
    }

    /** Before any thread has run, nothing is kept and nothing attached. */
    lemma ThreadsStart(ways: seq<Way>)
      requires Valid() && threads > 0
      ensures ThreadsRan(ways, 0, heap.vertices, [], [], [], [], [], [], [], [])
    {
      assert Flatten([]) == [];
    }

    /** The thread loop of convert(List), once findVertex is done and the thread count is positive. */
    method RunThreads(ways: seq<Way>) returns (r: Result<seq<Arc>, ConversionError>, ghost ids: seq<nat>,
                                               ghost infos: seq<InfoRef>, ghost parts: seq<seq<Arc>>,
                                               ghost built: seq<Arc>, ghost collected: seq<seq<Arc>>,
                                               ghost tails: seq<seq<Arc>>, ghost tinfos: seq<InfoRef>)
      requires Valid() && threads > 0
      modifies this, heap
      ensures Valid() && nodeMarks == old(nodeMarks)
      ensures r.Ok? <==> RangesUpright(|ways|, threads, threads)
      ensures r.Err? ==> r == Err(IllegalArgument)
      ensures r.Ok? ==> ThreadsRan(ways, threads, old(heap.vertices), ids, infos, parts, r.value, built, collected,
                                   tails, tinfos)
    {
      infos, parts, built, collected, tails, tinfos := [], [], [], [], [], [];
      var nPerThread := |ways| / threads + 1;
      ghost var vs0 := heap.vertices;
      ids := [];
      var arcs: seq<Arc> := [];
      var i := 0;
      ThreadsStart(ways);
      while i < threads
        invariant ThreadsRan(ways, i, vs0, ids, infos, parts, arcs, built, collected, tails, tinfos)
        invariant nodeMarks == old(nodeMarks) && vs0 == old(heap.vertices)
      {
        var inverted, part;
        inverted, part, ids, built, infos, parts, collected, tails, tinfos :=
          RunThread(ways, i, nPerThread, vs0, ids, arcs, built, infos, parts, collected, tails, tinfos);
        if inverted {
          break;
        }
        arcs := arcs + part;
        i := i + 1;
      }
      if i < threads {
        r := Err(IllegalArgument);
      } else {
        r := Ok(arcs);
      }
    }

    /**
     * Thread i of convert(List): its range computed from nPerThread, then a processor over it, run
     * to the range's end or its first exception. An inverted range is reported and nothing runs.
     */
    method RunThread(ways: seq<Way>, i: nat, nPerThread: int, ghost vs0: seq<Vertex>, ghost ids: seq<nat>,
                     ghost arcs: seq<Arc>, ghost built: seq<Arc>, ghost infos: seq<InfoRef>, ghost parts: seq<seq<Arc>>,
                     ghost collected: seq<seq<Arc>>, ghost tails: seq<seq<Arc>>, ghost tinfos: seq<InfoRef>)
      returns (inverted: bool, part: seq<Arc>, ghost ids2: seq<nat>, ghost built2: seq<Arc>, ghost infos2: seq<InfoRef>,
               ghost parts2: seq<seq<Arc>>, ghost collected2: seq<seq<Arc>>, ghost tails2: seq<seq<Arc>>,
               ghost tinfos2: seq<InfoRef>)
      requires ThreadsRan(ways, i, vs0, ids, infos, parts, arcs, built, collected, tails, tinfos)
      requires i < threads && nPerThread == |ways| / threads + 1
      modifies this, heap
      ensures Valid() && nodeMarks == old(nodeMarks)
      ensures inverted <==> Chunk(i, |ways|, threads).0 > Chunk(i, |ways|, threads).1
      ensures inverted ==> !RangesUpright(|ways|, threads, threads)
      ensures !inverted ==> ThreadsRan(ways, i + 1, vs0, ids2, infos2, parts2, arcs + part, built2, collected2, tails2,
                                       tinfos2)
    {
      var first := i * nPerThread;
      var last := if (i + 1) * nPerThread < |ways| then (i + 1) * nPerThread else |ways|;
      assert (first, last) == Chunk(i, |ways|, threads);
      inverted, part, ids2, built2, infos2, parts2 := first > last, [], ids, built, infos, parts;
      collected2, tails2, tinfos2 := collected, tails, tinfos;
      if !inverted {
        var processor := new WayToArcProcessor(this, ways, first, last);
        ghost var tail, tinfo;
        ids2, built2, infos2, parts2, tail, tinfo := processor.Run(vs0, ids, arcs, built, infos, parts);
        part := processor.arcs;
        KeptWaysStep(Failing(ways, vertices, scaling), threads, i);
        ThreadsAttachedSnoc(ways, threads, i, nodeMarks, vertices, vs0, scaling, distance, arcs, built, collected, tails,
                            tinfos, part, tail, tinfo);
        collected2, tails2, tinfos2 := collected + [part], tails + [tail], tinfos + [tinfo];
      }
    }

    /**
     * One iteration of a processor's loop: convert(way) on way w. On success its arcs and record
     * join the state; on an exception only the arcs it attached before failing do.
     */
    method ConvertNext(ways: seq<Way>, w: nat, ghost vs0: seq<Vertex>, ghost ids: seq<nat>, ghost arcs: seq<Arc>,
                       ghost built: seq<Arc>, ghost infos: seq<InfoRef>, ghost parts: seq<seq<Arc>>)
      returns (res: Result<seq<Arc>, ConversionError>, ghost built2: seq<Arc>, ghost infos2: seq<InfoRef>,
               ghost parts2: seq<seq<Arc>>, ghost info: InfoRef)
      requires Valid() && w < |ways| && VerticesIn(vertices, vs0)
      requires ConvertedAt(ways, ids, nodeMarks, vertices, vs0, infos, parts, arcs, built, heap.vertices, roadinfos,
                           scaling, distance)
      modifies this, heap
      ensures Valid() && nodeMarks == old(nodeMarks)
      ensures res.Err? <==> Failing(ways, vertices, scaling)[w]
      ensures built2 == built + LeftAttached(ways[w], nodeMarks, vertices, vs0, info, scaling, distance)
      ensures res.Ok? ==> res.value == LeftAttached(ways[w], nodeMarks, vertices, vs0, info, scaling, distance)
      ensures res.Err? ==>
        && infos2 == infos && parts2 == parts
        && ConvertedAt(ways, ids, nodeMarks, vertices, vs0, infos, parts, arcs, built2, heap.vertices, roadinfos,
                       scaling, distance)
      ensures res.Ok? ==>
        ConvertedAt(ways, ids + [w], nodeMarks, vertices, vs0, infos2, parts2, arcs + res.value, built2, heap.vertices,
                    roadinfos, scaling, distance)
    {
      ghost var vsw, poolw, nextw := heap.vertices, roadinfos, nextInstance;
      res, info := Convert(ways[w]);
      ConvertedStep(ways, w, ids, nodeMarks, vertices, vs0, infos, parts, arcs, built, vsw, poolw, nextw, scaling,
                    distance, info);
      ghost var part := LeftAttached(ways[w], nodeMarks, vertices, vs0, info, scaling, distance);
      built2, infos2, parts2 := built + part, infos, parts;
      if res.Ok? {
        infos2, parts2 := infos + [info], parts + [part];
      }
    }

    /** The inner loop of findVertex over one way: an id already seen is marked, a new one is remembered. */
    method MarkRepeats(nodes: seq<int>, current0: set<int>, ghost before: seq<int>) returns (current: set<int>)
      requires forall x :: x in current0 <==> x in before
      requires Repeated(before) <= nodeMarks
      modifies this
      ensures roadinfos == old(roadinfos) && nextInstance == old(nextInstance)
      ensures forall x :: x in current <==> x in before + nodes
      ensures nodeMarks == old(nodeMarks) + Repeated(before + nodes)
    {
      current := current0;
      var p := 0;
      while p < |nodes|
        invariant 0 <= p <= |nodes|
        invariant roadinfos == old(roadinfos) && nextInstance == old(nextInstance)
        invariant forall x :: x in current <==> x in before + nodes[..p]
        invariant nodeMarks == old(nodeMarks) + Repeated(before + nodes[..p])
      {
        var id := nodes[p];
        assert before + nodes[..p + 1] == (before + nodes[..p]) + [id];
        RepeatedSnoc(before + nodes[..p], id);
        if id in current {
          nodeMarks := nodeMarks + {id};
        } else {
          current := current + {id};
        }
        p := p + 1;
      }
      assert nodes[..p] == nodes;
    }

    /** One way of findVertex: its ids are scanned, then both its ends marked; an empty way throws there. */
    method ScanWay(ways: seq<Way>, w: nat, current0: set<int>, ghost marks0: set<int>)
      returns (current: set<int>, error: Option<ConversionError>)
      requires w < |ways| && ScannedUpTo(ways, w, current0, marks0, nodeMarks)
      modifies this
      ensures roadinfos == old(roadinfos) && nextInstance == old(nextInstance)
      ensures error.Some? <==> ways[w].nodeIds == []
      ensures error.Some? ==> error == Some(IndexOutOfBounds) && nodeMarks == old(nodeMarks)
      ensures error.None? ==> ScannedUpTo(ways, w + 1, current, marks0, nodeMarks)
    {
      var nodes := ways[w].nodeIds;
      ghost var before := AllIds(ways[..w]);
      current := MarkRepeats(nodes, current0, before);
      if nodes == [] {
        assert before + nodes == before;
        return current, Some(IndexOutOfBounds);
      }
      nodeMarks := nodeMarks + {nodes[0]};
      nodeMarks := nodeMarks + {nodes[|nodes| - 1]};
      ScannedStep(ways, w, current0, current, marks0, old(nodeMarks), nodeMarks);
      error := None;
    }

    /** findVertex: marks both ends of every way and every id met a second time. */
    method FindVertex(ways: seq<Way>) returns (error: Option<ConversionError>)
      modifies this
      ensures roadinfos == old(roadinfos) && nextInstance == old(nextInstance)
      ensures error.None? <==> forall w :: 0 <= w < |ways| ==> ways[w].nodeIds != []
      ensures error.None? ==> nodeMarks == old(nodeMarks) + Repeated(AllIds(ways)) + WayEnds(ways)
      ensures error.Some? ==> error == Some(IndexOutOfBounds)
      ensures error.Some? ==>
        (exists e :: 0 <= e < |ways| && ways[e].nodeIds == [] && (forall w :: 0 <= w < e ==> ways[w].nodeIds != [])
          && nodeMarks == old(nodeMarks) + Repeated(AllIds(ways[..e])) + WayEnds(ways[..e]))
    {
      var current: set<int> := {};
      ghost var marks0 := nodeMarks;
      var w := 0;
      assert ways[..0] == [];
      while w < |ways|
        invariant 0 <= w <= |ways|
        invariant roadinfos == old(roadinfos) && nextInstance == old(nextInstance)
        invariant ScannedUpTo(ways, w, current, marks0, nodeMarks)
      {
        current, error := ScanWay(ways, w, current, marks0);
        if error.Some? {
          return;
        }
        w := w + 1;
      }
      assert ways[..w] == ways;
      return None;
    }
  }

  /**
   * WayToArcProcessor: one thread of convert(List), converting ways[first..last) in order into
   * its own list of arcs and counting the ways it has done.
   */
  class WayToArcProcessor {
    const converter: WayToArc
    const ways: seq<Way>
    const first: nat
    const last: nat
    var nProcessed: int
    var arcs: seq<Arc>

    /** `new ArrayList<>(last - first)` throws on an inverted range, which convert(List) checks first. */
    constructor (converter: WayToArc, ways: seq<Way>, first: nat, last: nat)
      requires first <= last
      ensures this.converter == converter && this.ways == ways && this.first == first && this.last == last
      ensures nProcessed == 0 && arcs == []
    {
      this.converter := converter;
      this.ways := ways;
      this.first := first;
      this.last := last;
      nProcessed := 0;
      arcs := [];
    }

    /**
     * run: each way of the range converted in turn and its arcs appended. An exception in
     * convert(way) ends the thread at that way: the arcs of the earlier ways are kept, and those
     * the failing way attached before failing stay in the arena.
     */
    method Run(ghost vs0: seq<Vertex>, ghost ids0: seq<nat>, ghost prior: seq<Arc>, ghost built0: seq<Arc>,
               ghost infos0: seq<InfoRef>, ghost parts0: seq<seq<Arc>>)
      returns (ghost ids: seq<nat>, ghost built: seq<Arc>, ghost infos: seq<InfoRef>, ghost parts: seq<seq<Arc>>,
               ghost tail: seq<Arc>, ghost tinfo: InfoRef)
      requires converter.Valid() && first <= last <= |ways| && nProcessed == 0 && arcs == []
      requires VerticesIn(converter.vertices, vs0)
      requires ConvertedAt(ways, ids0, converter.nodeMarks, converter.vertices, vs0, infos0, parts0, prior, built0,
                           converter.heap.vertices, converter.roadinfos, converter.scaling, converter.distance)
      modifies this, converter, converter.heap
      ensures converter.Valid() && converter.nodeMarks == old(converter.nodeMarks)
      ensures nProcessed == FirstFailure(Failing(ways, converter.vertices, converter.scaling), first, last) - first
      ensures ids == ids0 + Indices(first, FirstFailure(Failing(ways, converter.vertices, converter.scaling), first, last))
      ensures ConvertedAt(ways, ids, converter.nodeMarks, converter.vertices, vs0, infos, parts, prior + arcs, built,
                          converter.heap.vertices, converter.roadinfos, converter.scaling, converter.distance)
      ensures built == built0 + arcs + tail
      ensures var f := FirstFailure(Failing(ways, converter.vertices, converter.scaling), first, last);
        tail == if f < last then LeftAttached(ways[f], converter.nodeMarks, converter.vertices, vs0, tinfo,
                                              converter.scaling, converter.distance) else []
    {
      ids, built, infos, parts, tail := ids0, built0, infos0, parts0, [];
      // the record of the failing way; any value serves for a range that converts whole
      tinfo := InfoRef(0, RoadInformation(Unclassified, 0, false, 0, None));
      ghost var marks := converter.nodeMarks;
      ghost var bad := Failing(ways, converter.vertices, converter.scaling);
      ghost var f := FirstFailure(bad, first, last);
      assert prior + arcs == prior;
      var i: nat := first;
      while i < last
        invariant first <= i <= f
        invariant converter.Valid() && converter.nodeMarks == marks
        invariant nProcessed == i - first
        invariant built == built0 + arcs
        invariant ids == ids0 + Indices(first, i)
        invariant ConvertedAt(ways, ids, marks, converter.vertices, vs0, infos, parts, prior + arcs, built,
                              converter.heap.vertices, converter.roadinfos, converter.scaling, converter.distance)
      {
        var stop;
        ghost var arcsBefore := arcs;
        stop, ids, built, infos, parts, tinfo := Step(i, vs0, ids0, prior, ids, built, infos, parts);
        FirstFailureStep(bad, first, last, i);
        ghost var left := LeftAttached(ways[i], marks, converter.vertices, vs0, tinfo, converter.scaling,
                                       converter.distance);
        if stop {
          tail := left;
          break;
        }
        Sequences.AppendAssoc(built0, arcsBefore, left);
        i := i + 1;
      }
      assert i == f;
    }

    /**
     * One turn of run's loop, on way i: its arcs are appended and the count raised, unless
     * convert(way) throws, which stops the thread.
     */
    method Step(i: nat, ghost vs0: seq<Vertex>, ghost ids0: seq<nat>, ghost prior: seq<Arc>, ghost ids: seq<nat>,
                ghost built: seq<Arc>, ghost infos: seq<InfoRef>, ghost parts: seq<seq<Arc>>)
      returns (stop: bool, ghost ids2: seq<nat>, ghost built2: seq<Arc>, ghost infos2: seq<InfoRef>,
               ghost parts2: seq<seq<Arc>>, ghost info: InfoRef)
      requires converter.Valid() && first <= i < last <= |ways| && nProcessed == i - first
      requires VerticesIn(converter.vertices, vs0) && ids == ids0 + Indices(first, i)
      requires ConvertedAt(ways, ids, converter.nodeMarks, converter.vertices, vs0, infos, parts, prior + arcs, built,
                           converter.heap.vertices, converter.roadinfos, converter.scaling, converter.distance)
      modifies this, converter, converter.heap
      ensures converter.Valid() && converter.nodeMarks == old(converter.nodeMarks)
      ensures stop <==> Failing(ways, converter.vertices, converter.scaling)[i]
      ensures built2 == built + LeftAttached(ways[i], converter.nodeMarks, converter.vertices, vs0, info,
                                             converter.scaling, converter.distance)
      ensures stop ==> nProcessed == old(nProcessed) && arcs == old(arcs) && ids2 == ids
      ensures !stop ==> nProcessed == old(nProcessed) + 1 && ids2 == ids0 + Indices(first, i + 1)
      ensures !stop ==> arcs == old(arcs) + LeftAttached(ways[i], converter.nodeMarks, converter.vertices, vs0, info,
                                                         converter.scaling, converter.distance)
      ensures ConvertedAt(ways, ids2, converter.nodeMarks, converter.vertices, vs0, infos2, parts2, prior + arcs, built2,
                          converter.heap.vertices, converter.roadinfos, converter.scaling, converter.distance)
    {
      var sarcs;
      sarcs, built2, infos2, parts2, info := converter.ConvertNext(ways, i, vs0, ids, prior + arcs, built, infos, parts);
      stop, ids2 := sarcs.Err?, ids;
      if sarcs.Ok? {
        IndicesSnoc(first, i);
        Sequences.AppendAssoc(ids0, Indices(first, i), [i]);
        Sequences.AppendAssoc(prior, arcs, sarcs.value);
        ids2 := ids + [i];
        arcs := arcs + sarcs.value;
        nProcessed := nProcessed + 1;
      }
    }
  }
}
