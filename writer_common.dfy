/**
 * What the two binary graph writers share: `write24bits`, the order in which they visit the
 * arcs, the road-information index table, the vertex records, the shape-point deltas and the
 * speed/one-way byte.
 */
module GraphWriting {
  import opened Wrappers
  import opened DataOutput
  import opened JavaString
  import opened RoadInformation
  import opened GraphModel
  import opened Graphs
  import opened Sequences

  /** The exceptions writeGraph can raise: writeUTF handed null, or a body over 65535 bytes. */
  datatype WriteError = NullPointer | UtfTooLong(length: nat)

  /** write24bits: `writeShort(value >> 8)`, then `writeByte(value & 0xff)`. */
  function Write24Bits(value: int): (r: seq<byte>)
    ensures |r| == 3
  {
    WriteShort(value / 0x100) + WriteByte(value % 0x100)
  }

  /** The three bytes read back, high byte first, give the low 24 bits of the argument. */
  lemma Write24BitsValue(value: int)
    ensures ReadShort(Write24Bits(value)[..2]) * 0x100 + Write24Bits(value)[2] as int == value % 0x100_0000
  {
    var r := Write24Bits(value);
    var q := value / 0x100;
    assert r[..2] == WriteShort(q);
    WriteShortValue(q);
    var hi, lo := q % 0x1_0000, value % 0x100;
    assert value == 0x100 * q + lo;
    assert q == 0x1_0000 * (q / 0x1_0000) + hi;
    Low24Bits(value, q / 0x1_0000, hi * 0x100 + lo);
  }

  /** The low 24 bits are determined by any split into a multiple of 2^24 and a 24-bit rest. */
  lemma Low24Bits(x: int, q: int, r: int)
    requires 0 <= r < 0x100_0000 && x == 0x100_0000 * q + r
    ensures x % 0x100_0000 == r
  {
  }

  /** A value of at most 24 bits is written exactly. */
  lemma Write24BitsExact(value: int)
    requires 0 <= value < 0x100_0000
    ensures ReadShort(Write24Bits(value)[..2]) * 0x100 + Write24Bits(value)[2] as int == value
  {
    Write24BitsValue(value);
  }

  /** writeUTF on a name that may be null. */
  function WriteName(name: Option<string>): (r: Result<seq<byte>, WriteError>)
    ensures r.Err? <==> name.None? || |ModifiedUtf8(name.value)| > 0xFFFF
    ensures r.Ok? ==> |r.value| >= 2 && ReadShort(r.value[..2]) == |ModifiedUtf8(name.value)|
                      && r.value[2..] == ModifiedUtf8(name.value)
  {
    if name.None? then Err(NullPointer)
    else
      var body := ModifiedUtf8(name.value);
      WriteShortValue(|body|);
      match WriteUtf(name.value)
      case Err(e) => Err(UtfTooLong(e.length))
      case Ok(bytes) =>
        assert bytes[..2] == WriteShort(|body|) && bytes[2..] == body;
        Ok(bytes)
  }

  /** Every successor of every listed node leads to a vertex of the arena. */
  predicate DestinationsIn(vs: seq<Vertex>, arcs: seq<Arc>) {
    forall k :: 0 <= k < |arcs| ==> arcs[k].destination < |vs|
  }

  /** The arcs in the order both writers visit them: node by node, each node's successors in order. */
  function ArcList(vs: seq<Vertex>, nodes: seq<VRef>): (r: seq<Arc>)
    requires NodesIn(vs, nodes)
    decreases |nodes|
  {
    if nodes == [] then []
    else ArcList(vs, nodes[..|nodes| - 1]) + vs[nodes[|nodes| - 1]].successors
  }

  /** One more node adds its successors, in order. */
  lemma ArcListSnoc(vs: seq<Vertex>, nodes: seq<VRef>, i: nat)
    requires NodesIn(vs, nodes) && i < |nodes|
    ensures ArcList(vs, nodes[..i + 1]) == ArcList(vs, nodes[..i]) + vs[nodes[i]].successors
  {
    assert nodes[..i + 1][..i] == nodes[..i];
  }

  /** In a well-formed arena every visited arc leads to a vertex of the arena. */
  lemma {:induction false} ArcListDestinations(vs: seq<Vertex>, nodes: seq<VRef>)
    requires WellFormed(vs) && NodesIn(vs, nodes)
    ensures DestinationsIn(vs, ArcList(vs, nodes))
    decreases |nodes|
  {
    if nodes != [] {
      var p := nodes[..|nodes| - 1];
      ArcListDestinations(vs, p);
      var a: seq<Arc>, b: seq<Arc> := ArcList(vs, p), vs[nodes[|nodes| - 1]].successors;
      forall k | 0 <= k < |a + b|
        ensures (a + b)[k].destination < |vs|
      {
        if k >= |a| {
          assert (a + b)[k] == b[k - |a|];
        }
      }
    }
  }

  /** The key each arc's road information is indexed under: its fields (2018) or its identity (2016). */
  function InfoKeys<K>(arcs: seq<Arc>, key: InfoRef -> K): (r: seq<K>)
    ensures |r| == |arcs| && forall k :: 0 <= k < |arcs| ==> r[k] == key(arcs[k].info)
  {
    seq(|arcs|, k requires 0 <= k < |arcs| => key(arcs[k].info))
  }

  lemma InfoKeysSnoc<K>(arcs: seq<Arc>, a: Arc, key: InfoRef -> K)
    ensures InfoKeys(arcs + [a], key) == InfoKeys(arcs, key) + [key(a.info)]
  {
    var l, r := InfoKeys(arcs + [a], key), InfoKeys(arcs, key) + [key(a.info)];
    forall k | 0 <= k < |l|
      ensures l[k] == r[k]
    {
      if k < |arcs| {
        assert (arcs + [a])[k] == arcs[k];
      }
    }
  }

  /** The arcs may be written: each leads into the arena and the key of its information has an index. */
  predicate Writable<K>(vs: seq<Vertex>, index: map<K, nat>, key: InfoRef -> K, arcs: seq<Arc>) {
    forall k :: 0 <= k < |arcs| ==> arcs[k].destination < |vs| && key(arcs[k].info) in index
  }

  lemma WritableAppend<K>(vs: seq<Vertex>, index: map<K, nat>, key: InfoRef -> K, a: seq<Arc>, b: seq<Arc>)
    requires Writable(vs, index, key, a) && Writable(vs, index, key, b)
    ensures Writable(vs, index, key, a + b)
  {
    forall k | 0 <= k < |a + b|
      ensures (a + b)[k].destination < |vs| && key((a + b)[k].info) in index
    {
      if k >= |a| {
        assert (a + b)[k] == b[k - |a|];
      }
    }
  }

  /** A node's successors are among the arcs visited. */
  lemma {:induction false} SuccessorVisited(vs: seq<Vertex>, nodes: seq<VRef>, i: nat, j: nat)
    requires NodesIn(vs, nodes) && i < |nodes| && j < |vs[nodes[i]].successors|
    ensures vs[nodes[i]].successors[j] in ArcList(vs, nodes)
    decreases |nodes|
  {
    var p := nodes[..|nodes| - 1];
    if i < |p| {
      assert p[i] == nodes[i];
      SuccessorVisited(vs, p, i, j);
    }
  }

  /** The successors of a listed node of a well-formed arena may be written with the index of their graph. */
  lemma ArcsWritable<K>(vs: seq<Vertex>, nodes: seq<VRef>, key: InfoRef -> K, i: nat)
    requires WellFormed(vs) && NodesIn(vs, nodes) && i < |nodes|
    ensures Writable(vs, FirstEncounterIndex(InfoKeys(ArcList(vs, nodes), key)), key, vs[nodes[i]].successors)
  {
    var keys, succ := InfoKeys(ArcList(vs, nodes), key), vs[nodes[i]].successors;
    forall j | 0 <= j < |succ|
      ensures key(succ[j].info) in FirstEncounterIndex(keys)
    {
      SuccessorVisited(vs, nodes, i, j);
      var k :| 0 <= k < |ArcList(vs, nodes)| && ArcList(vs, nodes)[k] == succ[j];
      ElementNumbered(keys, k);
    }
  }

  /** All the visited arcs of a well-formed arena may be written with the index of their graph. */
  lemma AllArcsWritable<K>(vs: seq<Vertex>, nodes: seq<VRef>, key: InfoRef -> K)
    requires WellFormed(vs) && NodesIn(vs, nodes)
    ensures Writable(vs, FirstEncounterIndex(InfoKeys(ArcList(vs, nodes), key)), key, ArcList(vs, nodes))
  {
    var keys := InfoKeys(ArcList(vs, nodes), key);
    ArcListDestinations(vs, nodes);
    forall k | 0 <= k < |ArcList(vs, nodes)|
      ensures key(ArcList(vs, nodes)[k].info) in FirstEncounterIndex(keys)
    {
      ElementNumbered(keys, k);
    }
  }

  /**
   * getRoadInformations: the map filled over the nodes, then their successors, putting each
   * arc's key with the map's size unless it is already present.
   */
  method IndexInfos<K(==)>(vs: seq<Vertex>, nodes: seq<VRef>, key: InfoRef -> K) returns (rinfos: map<K, nat>)
    requires NodesIn(vs, nodes)
    ensures rinfos == FirstEncounterIndex(InfoKeys(ArcList(vs, nodes), key))
  {
    rinfos := map[];
    var i := 0;
    while i < |nodes|
      invariant 0 <= i <= |nodes|
      invariant rinfos == FirstEncounterIndex(InfoKeys(ArcList(vs, nodes[..i]), key))
    {
      rinfos := IndexSuccessors(vs, nodes[..i], vs[nodes[i]].successors, key, rinfos);
      ArcListSnoc(vs, nodes, i);
      i := i + 1;
    }
    assert nodes[..i] == nodes;
  }

  /** The inner loop of getRoadInformations, over the successors of one node. */
  method IndexSuccessors<K(==)>(vs: seq<Vertex>, done: seq<VRef>, succ: seq<Arc>, key: InfoRef -> K,
                                rinfos0: map<K, nat>) returns (rinfos: map<K, nat>)
    requires NodesIn(vs, done)
    requires rinfos0 == FirstEncounterIndex(InfoKeys(ArcList(vs, done), key))
    ensures rinfos == FirstEncounterIndex(InfoKeys(ArcList(vs, done) + succ, key))
  {
    var before := ArcList(vs, done);
    assert before + succ[..0] == before;
    rinfos := rinfos0;
    var j := 0;
    while j < |succ|
      invariant 0 <= j <= |succ|
      invariant rinfos == FirstEncounterIndex(InfoKeys(before + succ[..j], key))
    {
      var k := key(succ[j].info);
      InfoKeysSnoc(before + succ[..j], succ[j], key);
      FirstEncounterIndexSnoc(InfoKeys(before + succ[..j], key), k);
      assert before + succ[..j + 1] == (before + succ[..j]) + [succ[j]];
      if k !in rinfos {
        rinfos := rinfos[k := |rinfos|];
      }
      j := j + 1;
    }
    assert succ[..j] == succ;
  }

  /** The `sortedInfos` array: each key stored at its index, whatever order the entries are visited in. */
  method SortInfos<K(0,==)>(rinfos: map<K, nat>, ghost keys: seq<K>) returns (sorted: array<K>)
    requires rinfos == FirstEncounterIndex(keys)
    ensures fresh(sorted) && sorted[..] == Dedup(keys)
  {
    FirstEncounterIndexNumbers(keys);
    sorted := new K[|rinfos|];
    var todo := rinfos.Keys;
    while todo != {}
      invariant todo <= rinfos.Keys
      invariant forall x :: x in rinfos && x !in todo ==> sorted[rinfos[x]] == x
      decreases |todo|
    {
      var x :| x in todo;
      sorted[rinfos[x]] := x;
      todo := todo - {x};
    }
    forall i | 0 <= i < sorted.Length
      ensures sorted[i] == Dedup(keys)[i]
    {
      FirstEncounterIndexDense(keys, i);
    }
  }

  /** `(int)(coordinate * 1e6)`, on exact reals. */
  function Fixed6(coordinate: real): int {
    IntOfDouble(coordinate * 1000000.0)
  }

  /** A vertex record: int32 longitude and latitude in millionths of a degree, then the successor count in one byte. */
  function VertexRecord(v: Vertex): (r: seq<byte>)
    ensures |r| == 9
    ensures ReadInt(r[..4]) == Fixed6(v.point.longitude) % 0x1_0000_0000
    ensures ReadInt(r[4..8]) == Fixed6(v.point.latitude) % 0x1_0000_0000
    ensures r[8] as int == |v.successors| % 0x100
  {
    var lon, lat := WriteInt(Fixed6(v.point.longitude)), WriteInt(Fixed6(v.point.latitude));
    WriteIntValue(Fixed6(v.point.longitude));
    WriteIntValue(Fixed6(v.point.latitude));
    var r := lon + lat + WriteByte(|v.successors|);
    assert r[..4] == lon && r[4..8] == lat;
    r
  }

  /** The vertex section: one record per node, in list order. */
  function VertexSection(vs: seq<Vertex>, nodes: seq<VRef>): (r: seq<byte>)
    requires NodesIn(vs, nodes)
    ensures |r| == 9 * |nodes|
    decreases |nodes|
  {
    if nodes == [] then []
    else VertexSection(vs, nodes[..|nodes| - 1]) + VertexRecord(vs[nodes[|nodes| - 1]])
  }

  /** Record k of the vertex section sits at offset 9k and describes node k. */
  lemma {:induction false} VertexRecordAt(vs: seq<Vertex>, nodes: seq<VRef>, k: nat)
    requires NodesIn(vs, nodes) && k < |nodes|
    ensures VertexSection(vs, nodes)[9 * k..9 * k + 9] == VertexRecord(vs[nodes[k]])
    decreases |nodes|
  {
    var p := nodes[..|nodes| - 1];
    var a, rec := VertexSection(vs, p), VertexRecord(vs[nodes[|nodes| - 1]]);
    assert VertexSection(vs, nodes) == a + rec;
    if k < |p| {
      VertexRecordAt(vs, p, k);
      assert p[k] == nodes[k];
      assert (a + rec)[9 * k..9 * k + 9] == a[9 * k..9 * k + 9];
    } else {
      assert (a + rec)[9 * k..9 * k + 9] == rec;
    }
  }

  /** The loop over the nodes writing their records. */
  method WriteVertices(vs: seq<Vertex>, nodes: seq<VRef>) returns (out: seq<byte>)
    requires NodesIn(vs, nodes)
    ensures out == VertexSection(vs, nodes)
  {
    out := [];
    var i := 0;
    while i < |nodes|
      invariant 0 <= i <= |nodes|
      invariant out == VertexSection(vs, nodes[..i])
    {
      var v := vs[nodes[i]];
      out := out + WriteInt(Fixed6(v.point.longitude)) + WriteInt(Fixed6(v.point.latitude)) + WriteByte(|v.successors|);
      assert nodes[..i + 1][..i] == nodes[..i];
      i := i + 1;
    }
    assert nodes[..i] == nodes;
  }

  /** The speed/one-way byte: `maxSpeed / 5` (Java division), with bit 7 set (`| 0x80`) for a one-way road. */
  function SpeedByte(info: RoadInformation): (r: byte)
  {
    var low := JavaDiv(info.maxSpeed, 5) % 0x100;
    if info.oneWay && low < 0x80 then (low + 0x80) as byte else low as byte
  }

  /** For speeds below 640 the byte keeps the direction in bit 7 and the speed in fives below it. */
  lemma SpeedByteDecodes(info: RoadInformation)
    requires 0 <= info.maxSpeed < 640
    ensures (SpeedByte(info) >= 0x80) == info.oneWay
    ensures SpeedByte(info) as int % 0x80 == info.maxSpeed / 5
  {
  }

  /** The two int16 offsets of point b from point a, in units of 1/200000 of a degree. */
  function Delta(a: Point, b: Point): (r: seq<byte>)
    ensures |r| == 4
  {
    WriteShort(IntOfDouble(200000.0 * (b.longitude - a.longitude)))
      + WriteShort(IntOfDouble(200000.0 * (b.latitude - a.latitude)))
  }

  /** The offsets of points 1 .. n-1, each from the point before it. */
  function Deltas(ps: seq<Point>, n: nat): (r: seq<byte>)
    requires n <= |ps|
    ensures |r| == if n <= 1 then 0 else 4 * (n - 1)
  {
    if n <= 1 then [] else Deltas(ps, n - 1) + Delta(ps[n - 2], ps[n - 1])
  }

  /** The shape of an arc: int16 `size - 2`, then the offsets of the inner points 1 .. size-2. */
  function Shape(ps: seq<Point>): (r: seq<byte>)
  {
    WriteShort(|ps| - 2) + (if |ps| < 2 then [] else Deltas(ps, |ps| - 1))
  }

  /** The shape holds the inner-point count and, at offset 4(i-1)+2, the offsets of inner point i. */
  lemma ShapeLayout(ps: seq<Point>, i: nat)
    requires 1 <= i <= |ps| - 2
    ensures |Shape(ps)| == 2 + 4 * (|ps| - 2)
    ensures ReadShort(Shape(ps)[..2]) == (|ps| - 2) % 0x1_0000
    ensures Shape(ps)[4 * (i - 1) + 2..4 * i + 2] == Delta(ps[i - 1], ps[i])
  {
    WriteShortValue(|ps| - 2);
    DeltaAt(ps, |ps| - 1, i);
    var r := Shape(ps);
    var d := Deltas(ps, |ps| - 1);
    assert r[..2] == WriteShort(|ps| - 2);
    assert r[4 * (i - 1) + 2..4 * i + 2] == d[4 * (i - 1)..4 * i];
  }

  lemma {:induction false} DeltaAt(ps: seq<Point>, n: nat, i: nat)
    requires 1 <= i < n <= |ps|
    ensures Deltas(ps, n)[4 * (i - 1)..4 * i] == Delta(ps[i - 1], ps[i])
    decreases n
  {
    var a := Deltas(ps, n - 1);
    if i < n - 1 {
      DeltaAt(ps, n - 1, i);
      assert (a + Delta(ps[n - 2], ps[n - 1]))[4 * (i - 1)..4 * i] == a[4 * (i - 1)..4 * i];
    } else {
      assert (a + Delta(ps[n - 2], ps[n - 1]))[4 * (i - 1)..4 * i] == Delta(ps[i - 1], ps[i]);
    }
  }

  /** The innermost loop of writeGraph: the inner-point count, then the offsets. */
  method WriteShape(ps: seq<Point>) returns (out: seq<byte>)
    ensures out == Shape(ps)
  {
    out := WriteShort(|ps| - 2);
    var i := 1;
    while i < |ps| - 1
      invariant 1 <= i
      invariant |ps| >= 2 ==> i <= |ps| - 1
      invariant out == WriteShort(|ps| - 2) + Deltas(ps, if |ps| < 2 then 0 else i)
    {
      out := out + WriteShort(IntOfDouble(200000.0 * (ps[i].longitude - ps[i - 1].longitude)))
                 + WriteShort(IntOfDouble(200000.0 * (ps[i].latitude - ps[i - 1].latitude)));
      i := i + 1;
    }
  }

  /** The file laid out after its header, the same in both formats: the header, the two counts, the vertex records and 255, the information records and 254, the arc records and 253. */
  function Assemble(header: seq<byte>, infoCount: nat, nodeCount: nat, vertices: seq<byte>, infos: seq<byte>, arcs: seq<byte>): seq<byte> {
    (header + WriteInt(infoCount) + WriteInt(nodeCount) + vertices) + (WriteByte(255) + infos + WriteByte(254) + arcs + WriteByte(253))
  }

  /**
   * Reading a written file back: the header, then the counts, then the vertex records, each
   * section at its offset, and the three sentinels closing their sections.
   */
  lemma AssembleLayout(header: seq<byte>, infoCount: nat, nodeCount: nat, vertices: seq<byte>, infos: seq<byte>, arcs: seq<byte>)
    requires |vertices| == 9 * nodeCount
    ensures var r, h, n, s := Assemble(header, infoCount, nodeCount, vertices, infos, arcs), |header|, nodeCount, |infos|;
      && |r| == h + 8 + 9 * n + 1 + s + 1 + |arcs| + 1
      && r[..h] == header
      && ReadInt(r[h..h + 4]) == infoCount % 0x1_0000_0000
      && ReadInt(r[h + 4..h + 8]) == nodeCount % 0x1_0000_0000
      && r[h + 8..h + 8 + 9 * n] == vertices
      && r[h + 8 + 9 * n] == 255
      && r[h + 9 + 9 * n..h + 9 + 9 * n + s] == infos
      && r[h + 9 + 9 * n + s] == 254
      && r[h + 10 + 9 * n + s..|r| - 1] == arcs
      && r[|r| - 1] == 253
  {
    var ct, cn := WriteInt(infoCount), WriteInt(nodeCount);
    var front := header + ct + cn + vertices;
    var back := WriteByte(255) + infos + WriteByte(254) + arcs + WriteByte(253);
    var h, n, s := |header|, nodeCount, |infos|;
    FrontLayout(header, ct, cn, vertices);
    BackLayout(infos, arcs);
    SliceLeft(front, back, 0, h);
    SliceLeft(front, back, h, h + 4);
    SliceLeft(front, back, h + 4, h + 8);
    SliceLeft(front, back, h + 8, h + 8 + 9 * n);
    SliceRight(front, back, h + 9 + 9 * n, h + 9 + 9 * n + s);
    SliceRight(front, back, h + 10 + 9 * n + s, |front| + |back| - 1);
    WriteIntValue(infoCount);
    WriteIntValue(nodeCount);
  }

  /** The file as written, one piece after the other. */
  lemma AssembleInOrder(header: seq<byte>, infoCount: nat, nodeCount: nat, vertices: seq<byte>, infos: seq<byte>, arcs: seq<byte>)
    ensures Assemble(header, infoCount, nodeCount, vertices, infos, arcs)
         == header + WriteInt(infoCount) + WriteInt(nodeCount) + vertices + WriteByte(255) + infos + WriteByte(254) + arcs + WriteByte(253)
  {
  }

  lemma FrontLayout(header: seq<byte>, ct: seq<byte>, cn: seq<byte>, vertices: seq<byte>)
    requires |ct| == 4 && |cn| == 4
    ensures var f, h := header + ct + cn + vertices, |header|;
      f[..h] == header && f[h..h + 4] == ct && f[h + 4..h + 8] == cn && f[h + 8..] == vertices
  {
    var h := |header|;
    var p := header + ct + cn;
    SliceLeft(p, vertices, 0, h);
    SliceLeft(p, vertices, h, h + 4);
    SliceLeft(p, vertices, h + 4, h + 8);
    SliceLeft(header + ct, cn, 0, h);
    SliceLeft(header + ct, cn, h, h + 4);
  }

  lemma BackLayout(infos: seq<byte>, arcs: seq<byte>)
    ensures var b := WriteByte(255) + infos + WriteByte(254) + arcs + WriteByte(253);
      && |b| == |infos| + |arcs| + 3 && b[0] == 255 && b[1..1 + |infos|] == infos && b[1 + |infos|] == 254
      && b[2 + |infos|..|b| - 1] == arcs && b[|b| - 1] == 253
  {
    var p := WriteByte(255) + infos;
    var q := WriteByte(254) + arcs + WriteByte(253);
    assert WriteByte(255) + infos + WriteByte(254) + arcs + WriteByte(253) == p + q;
    SliceRight(WriteByte(255), infos, 1, 1 + |infos|);
    SliceLeft(p, q, 1, 1 + |infos|);
    SliceRight(p, q, 2 + |infos|, |p| + |q| - 1);
    SliceLeft(WriteByte(254) + arcs, WriteByte(253), 1, 1 + |arcs|);
    SliceRight(WriteByte(254), arcs, 1, 1 + |arcs|);
  }
}
