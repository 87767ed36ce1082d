/**
 * BinaryGraphWriterInsa2016: the "map" format, version 4. An int32 header with the numeric
 * map id and zone 0, the vertex records, the road-information records indexed by object
 * identity and without access masks, then the arcs, each behind a zone byte.
 */
module Insa2016 {
  import opened Wrappers
  import opened DataOutput
  import opened RoadInformation
  import opened GraphModel
  import opened Graphs
  import opened Sequences
  import opened GraphWriting
  import Insa2018

  const VERSION: int := 4
  const MAGIC_NUMBER: int := 0xbacaff
  const DEFAULT_EXTENSION: string := "map"
  const DEFAULT_ZONE: int := 0

  /** getCharFromType: types without a case (pedestrian, bicycle, track) fall out of the switch to `'k'`. */
  function GetCharFromType(t: RoadType): char {
    match t
    case Motorway => 'a'
    case Trunk => 'b'
    case Primary => 'c'
    case Secondary => 'd'
    case MotorwayLink => 'e'
    case TrunkLink => 'f'
    case PrimaryLink => 'g'
    case SecondaryLink => 'h'
    case Tertiary => 'i'
    case Residential => 'j'
    case Unclassified => 'k'
    case LivingStreet => 'm'
    case Service => 'n'
    case Roundabout => 'o'
    case Coastline => 'z'
    case _ => 'k'
  }

  /** The letter a reader of this format maps back to a road type. */
  function TypeOfChar(c: char): (r: Option<RoadType>)
    ensures r.Some? ==> GetCharFromType(r.value) == c
  {
    if c == 'a' then Some(Motorway) else if c == 'b' then Some(Trunk)
    else if c == 'c' then Some(Primary) else if c == 'd' then Some(Secondary)
    else if c == 'e' then Some(MotorwayLink) else if c == 'f' then Some(TrunkLink)
    else if c == 'g' then Some(PrimaryLink) else if c == 'h' then Some(SecondaryLink)
    else if c == 'i' then Some(Tertiary) else if c == 'j' then Some(Residential)
    else if c == 'k' then Some(Unclassified) else if c == 'm' then Some(LivingStreet)
    else if c == 'n' then Some(Service) else if c == 'o' then Some(Roundabout)
    else if c == 'z' then Some(Coastline)
    else None
  }

  /** The types this format knows; the three later ones are written as unclassified roads. */
  predicate Known(t: RoadType) {
    !(t.Pedestrian? || t.Bicycle? || t.Track?)
  }

  /** A known type is recovered from its letter; an unknown one reads back as unclassified. */
  lemma CharFromTypeDecodes(t: RoadType)
    ensures Known(t) ==> TypeOfChar(GetCharFromType(t)) == Some(t)
    ensures !Known(t) ==> TypeOfChar(GetCharFromType(t)) == Some(Unclassified)
  {
  }

  /** The two formats give a type the same letter exactly when this format knows it. */
  lemma SharedLetters(t: RoadType)
    ensures GetCharFromType(t) == Insa2018.GetCharFromType(t) <==> Known(t)
  {
  }

  /** The header: magic number, version, the numeric map id and the zone, each an int32. */
  function Header(graph: Graph): (r: seq<byte>)
    ensures |r| == 16
  {
    WriteInt(MAGIC_NUMBER) + WriteInt(VERSION) + WriteInt(graph.mapId) + WriteInt(DEFAULT_ZONE)
  }

  /** The four header words read back as the magic number, the version, the map id (32 bits) and zone 0. */
  lemma HeaderLayout(graph: Graph)
    ensures var h := Header(graph);
      && ReadInt(h[..4]) == MAGIC_NUMBER && ReadInt(h[4..8]) == VERSION
      && ReadInt(h[8..12]) == graph.mapId % 0x1_0000_0000 && ReadInt(h[12..]) == 0
  {
    var m, v, i, z := WriteInt(MAGIC_NUMBER), WriteInt(VERSION), WriteInt(graph.mapId), WriteInt(DEFAULT_ZONE);
    var h := m + v + i + z;
    assert h[..4] == m && h[4..8] == v && h[8..12] == i && h[12..] == z;
    WriteIntValue(MAGIC_NUMBER);
    WriteIntValue(VERSION);
    WriteIntValue(graph.mapId);
    WriteIntValue(DEFAULT_ZONE);
  }

  /** The 2016 writer indexes road information by object identity (an IdentityHashMap). */
  function ByIdentity(info: InfoRef): InfoRef {
    info
  }

  /** The road-information objects of the arcs, in visit order. */
  function Keys(vs: seq<Vertex>, nodes: seq<VRef>): seq<InfoRef>
    requires NodesIn(vs, nodes)
  {
    InfoKeys(ArcList(vs, nodes), ByIdentity)
  }

  /** getRoadInformations. */
  method GetRoadInformations(vs: seq<Vertex>, nodes: seq<VRef>) returns (rinfos: map<InfoRef, nat>)
    requires NodesIn(vs, nodes)
    ensures rinfos == FirstEncounterIndex(Keys(vs, nodes))
  {
    rinfos := IndexInfos(vs, nodes, ByIdentity);
  }

  /**
   * The index of every written arc's information points at that very object, and two arcs
   * share an index exactly when they share the object: equal but distinct objects get
   * records of their own.
   */
  lemma InfoIndexSound(vs: seq<Vertex>, nodes: seq<VRef>, k: nat, l: nat)
    requires NodesIn(vs, nodes) && k < |ArcList(vs, nodes)| && l < |ArcList(vs, nodes)|
    requires Coherent(ArcList(vs, nodes)[k].info, ArcList(vs, nodes)[l].info)
    ensures var a, b, index, table := ArcList(vs, nodes)[k].info, ArcList(vs, nodes)[l].info,
                                      FirstEncounterIndex(Keys(vs, nodes)), Dedup(Keys(vs, nodes));
      && a in index && b in index
      && index[a] < |table| && table[index[a]] == a
      && (a.instance == b.instance <==> index[a] == index[b])
  {
    var keys := Keys(vs, nodes);
    FirstEncounterIndexNumbers(keys);
    assert keys[k] == ArcList(vs, nodes)[k].info && keys[l] == ArcList(vs, nodes)[l].info;
  }

  /** Every record of the table is the information of some written arc, at the index of that arc. */
  lemma InfoIndexDense(vs: seq<Vertex>, nodes: seq<VRef>, i: nat)
    requires NodesIn(vs, nodes) && i < |Dedup(Keys(vs, nodes))|
    ensures exists k :: 0 <= k < |ArcList(vs, nodes)| && ArcList(vs, nodes)[k].info == Dedup(Keys(vs, nodes))[i]
                        && ArcList(vs, nodes)[k].info in FirstEncounterIndex(Keys(vs, nodes))
                        && FirstEncounterIndex(Keys(vs, nodes))[ArcList(vs, nodes)[k].info] == i
  {
    var keys := Keys(vs, nodes);
    FirstEncounterIndexDense(keys, i);
    var k :| 0 <= k < |keys| && keys[k] == Dedup(keys)[i];
    assert ArcList(vs, nodes)[k].info == keys[k];
  }

  /** An information record: type letter, speed/one-way byte, then `writeUTF(name)`. */
  function InfoRecord(info: RoadInformation): (r: Result<seq<byte>, WriteError>)
    ensures r.Err? <==> WriteName(info.name).Err?
  {
    match WriteName(info.name)
    case Err(e) => Err(e)
    case Ok(name) => Ok(WriteByte(GetCharFromType(info.roadType) as int) + [SpeedByte(info)] + name)
  }

  /** The record reads back as the letter of its type, its speed byte and its name. */
  lemma InfoRecordLayout(info: RoadInformation)
    requires InfoRecord(info).Ok?
    ensures var r := InfoRecord(info).value;
      && |r| >= 4
      && r[0] as int == GetCharFromType(info.roadType) as int % 0x100
      && r[1] == SpeedByte(info)
      && r[2..] == WriteName(info.name).value
  {
    var name := WriteName(info.name).value;
    var r := WriteByte(GetCharFromType(info.roadType) as int) + [SpeedByte(info)] + name;
    assert r[2..] == name;
  }

  /** The record section: the record of each object of the table, in index order, or the first failing one's error. */
  function InfoSection(table: seq<InfoRef>): (r: Result<seq<byte>, WriteError>)
    ensures r.Err? <==> exists i :: 0 <= i < |table| && InfoRecord(table[i].value).Err?
    decreases |table|
  {
    if table == [] then Ok([])
    else
      var init := table[..|table| - 1];
      assert forall i :: 0 <= i < |init| ==> init[i] == table[i];
      match InfoSection(init)
      case Err(e) => Err(e)
      case Ok(bytes) =>
        match InfoRecord(table[|table| - 1].value)
        case Err(e) => Err(e)
        case Ok(rec) => Ok(bytes + rec)
  }

  /** When the records before `i` are written and record `i` fails, the section fails with its error. */
  lemma {:induction false} InfoSectionFirstError(table: seq<InfoRef>, i: nat)
    requires i < |table| && InfoSection(table[..i]).Ok? && InfoRecord(table[i].value).Err?
    ensures InfoSection(table) == Err(InfoRecord(table[i].value).error)
    decreases |table|
  {
    var init := table[..|table| - 1];
    if i < |init| {
      assert init[..i] == table[..i] && init[i] == table[i];
      InfoSectionFirstError(init, i);
    } else {
      assert init == table[..i];
    }
  }

  /** The loop writing the records of `sortedInfos` in index order. */
  method WriteInfos(sorted: array<InfoRef>) returns (r: Result<seq<byte>, WriteError>)
    ensures r == InfoSection(sorted[..])
  {
    var table := sorted[..];
    var out: seq<byte> := [];
    var descr := 0;
    while descr < |table|
      invariant 0 <= descr <= |table|
      invariant InfoSection(table[..descr]) == Ok(out)
    {
      var record := WriteInfo(table[descr].value);
      if record.Err? {
        InfoSectionFirstError(table, descr);
        return Err(record.error);
      }
      assert table[..descr + 1][..descr] == table[..descr];
      out := out + record.value;
      descr := descr + 1;
    }
    assert table[..descr] == table;
    r := Ok(out);
  }

  /** The body of the record loop for one information. */
  method WriteInfo(info: RoadInformation) returns (r: Result<seq<byte>, WriteError>)
    ensures r == InfoRecord(info)
  {
    var name := WriteName(info.name);
    if name.Err? {
      return Err(name.error);
    }
    r := Ok(WriteByte(GetCharFromType(info.roadType) as int) + [SpeedByte(info)] + name.value);
  }

  /**
   * An arc record: the zone byte, 24-bit destination id, 24-bit information index, the
   * length as an int16, then the shape.
   */
  function ArcRecord(vs: seq<Vertex>, index: map<InfoRef, nat>, a: Arc): (r: seq<byte>)
    requires a.destination < |vs| && a.info in index
  {
    WriteByte(DEFAULT_ZONE) + Write24Bits(vs[a.destination].id) + Write24Bits(index[a.info])
    + WriteShort(a.length) + Shape(a.points)
  }

  /** The record reads back as zone 0, the destination's id and the index (24 bits each), the length (16 bits), then the shape. */
  lemma ArcRecordLayout(vs: seq<Vertex>, index: map<InfoRef, nat>, a: Arc)
    requires a.destination < |vs| && a.info in index
    ensures var r := ArcRecord(vs, index, a);
      && |r| >= 11
      && r[0] == 0
      && ReadShort(r[1..3]) * 0x100 + r[3] as int == vs[a.destination].id % 0x100_0000
      && ReadShort(r[4..6]) * 0x100 + r[6] as int == index[a.info] % 0x100_0000
      && ReadShort(r[7..9]) == a.length % 0x1_0000
      && r[9..] == Shape(a.points)
  {
    var z, d, i, l := WriteByte(DEFAULT_ZONE), Write24Bits(vs[a.destination].id), Write24Bits(index[a.info]), WriteShort(a.length);
    var r := z + d + i + l + Shape(a.points);
    assert r[1..3] == d[..2] && r[3] == d[2] && r[4..6] == i[..2] && r[6] == i[2] && r[7..9] == l;
    assert r[9..] == Shape(a.points);
    Write24BitsValue(vs[a.destination].id);
    Write24BitsValue(index[a.info]);
    WriteShortValue(a.length);
  }

  /** The arc section: the records of `arcs`, in order. */
  function ArcSection(vs: seq<Vertex>, index: map<InfoRef, nat>, arcs: seq<Arc>): (r: seq<byte>)
    requires Writable(vs, index, ByIdentity, arcs)
    decreases |arcs|
  {
    if arcs == [] then []
    else ArcSection(vs, index, arcs[..|arcs| - 1]) + ArcRecord(vs, index, arcs[|arcs| - 1])
  }

  /** The section of a concatenation is the concatenation of the sections: arcs come out in visit order. */
  lemma {:induction false} ArcSectionAppend(vs: seq<Vertex>, index: map<InfoRef, nat>, a: seq<Arc>, b: seq<Arc>)
    requires Writable(vs, index, ByIdentity, a) && Writable(vs, index, ByIdentity, b)
    ensures Writable(vs, index, ByIdentity, a + b)
    ensures ArcSection(vs, index, a + b) == ArcSection(vs, index, a) + ArcSection(vs, index, b)
    decreases |b|
  {
    WritableAppend(vs, index, ByIdentity, a, b);
    if b == [] {
      assert a + b == a;
    } else {
      var b0 := b[..|b| - 1];
      assert Writable(vs, index, ByIdentity, b0) by {
        assert forall k :: 0 <= k < |b0| ==> b0[k] == b[k];
      }
      ArcSectionAppend(vs, index, a, b0);
      InitOfAppend(a, b);
    }
  }

  /** One more arc adds its record. */
  lemma ArcSectionSnoc(vs: seq<Vertex>, index: map<InfoRef, nat>, arcs: seq<Arc>, j: nat)
    requires Writable(vs, index, ByIdentity, arcs) && j < |arcs|
    ensures Writable(vs, index, ByIdentity, arcs[..j]) && Writable(vs, index, ByIdentity, arcs[..j + 1])
    ensures ArcSection(vs, index, arcs[..j + 1]) == ArcSection(vs, index, arcs[..j]) + ArcRecord(vs, index, arcs[j])
  {
    assert arcs[..j + 1][..j] == arcs[..j];
  }

  /** The nested loop over nodes and successors writing the arc records. */
  method WriteArcs(vs: seq<Vertex>, nodes: seq<VRef>, index: map<InfoRef, nat>) returns (out: seq<byte>)
    requires WellFormed(vs) && NodesIn(vs, nodes) && index == FirstEncounterIndex(Keys(vs, nodes))
    ensures Writable(vs, index, ByIdentity, ArcList(vs, nodes))
    ensures out == ArcSection(vs, index, ArcList(vs, nodes))
  {
    AllArcsWritable(vs, nodes, ByIdentity);
    out := [];
    var i := 0;
    while i < |nodes|
      invariant 0 <= i <= |nodes|
      invariant Writable(vs, index, ByIdentity, ArcList(vs, nodes[..i]))
      invariant out == ArcSection(vs, index, ArcList(vs, nodes[..i]))
    {
      ArcsWritable(vs, nodes, ByIdentity, i);
      var succ := vs[nodes[i]].successors;
      var bytes := WriteSuccessors(vs, index, succ);
      ArcSectionAppend(vs, index, ArcList(vs, nodes[..i]), succ);
      ArcListSnoc(vs, nodes, i);
      out := out + bytes;
      i := i + 1;
    }
    assert nodes[..i] == nodes;
  }

  /** The inner loop: the records of one node's successors. */
  method WriteSuccessors(vs: seq<Vertex>, index: map<InfoRef, nat>, succ: seq<Arc>) returns (out: seq<byte>)
    requires Writable(vs, index, ByIdentity, succ)
    ensures out == ArcSection(vs, index, succ)
  {
    out := [];
    var j := 0;
    while j < |succ|
      invariant 0 <= j <= |succ|
      invariant Writable(vs, index, ByIdentity, succ[..j])
      invariant out == ArcSection(vs, index, succ[..j])
    {
      var arc := succ[j];
      var shape := WriteShape(arc.points);
      ArcSectionSnoc(vs, index, succ, j);
      out := out + WriteByte(DEFAULT_ZONE) + Write24Bits(vs[arc.destination].id) + Write24Bits(index[arc.info])
                 + WriteShort(arc.length) + shape;
      j := j + 1;
    }
    assert succ[..j] == succ;
  }

  /** writeGraph as the bytes it writes, or the error of the first record whose name cannot be written. */
  function GraphBytes(vs: seq<Vertex>, graph: Graph): (r: Result<seq<byte>, WriteError>)
    requires WellFormed(vs) && NodesIn(vs, graph.nodes)
    ensures r.Err? <==> InfoSection(Dedup(Keys(vs, graph.nodes))).Err?
  {
    var nodes := graph.nodes;
    var keys := Keys(vs, nodes);
    AllArcsWritable(vs, nodes, ByIdentity);
    match InfoSection(Dedup(keys))
    case Err(e) => Err(e)
    case Ok(infos) =>
      Ok(Assemble(Header(graph), |Dedup(keys)|, |nodes|, VertexSection(vs, nodes), infos,
                  ArcSection(vs, FirstEncounterIndex(keys), ArcList(vs, nodes))))
  }

  /** writeGraph, with the stream modelled as the bytes appended to it; an exception is an error result. */
  method WriteGraph(vs: seq<Vertex>, graph: Graph) returns (r: Result<seq<byte>, WriteError>)
    requires WellFormed(vs) && NodesIn(vs, graph.nodes)
    ensures r == GraphBytes(vs, graph)
  {
    var out := WriteInt(MAGIC_NUMBER) + WriteInt(VERSION) + WriteInt(graph.mapId) + WriteInt(DEFAULT_ZONE);
    ghost var header := out;
    var nodes := graph.nodes;
    var infos := GetRoadInformations(vs, nodes);
    ghost var keys := Keys(vs, nodes);
    FirstEncounterIndexNumbers(keys);
    var sortedInfos := SortInfos(infos, keys);
    out := out + WriteInt(|infos|) + WriteInt(|nodes|);
    var vertices := WriteVertices(vs, nodes);
    out := out + vertices + WriteByte(255);
    var records := WriteInfos(sortedInfos);
    if records.Err? {
      return Err(records.error);
    }
    out := out + records.value + WriteByte(254);
    var arcs := WriteArcs(vs, nodes, infos);
    out := out + arcs + WriteByte(253);
    AssembleInOrder(header, |infos|, |nodes|, vertices, records.value, arcs);
    r := Ok(out);
  }
}
