/**
 * BinaryGraphWriterInsa2018: the "mapgr" format, version 8. A header with a 32-byte map-id
 * field and the map name, the vertex records, the road-information records indexed by
 * value, then the arcs node by node, each section closed by a sentinel byte.
 */
module Insa2018 {
  import opened Wrappers
  import opened DataOutput
  import opened RoadInformation
  import opened GraphModel
  import opened Graphs
  import opened Sequences
  import opened GraphWriting

  const VERSION: int := 8
  const MAGIC_NUMBER: int := 0x208BC3B3
  const DEFAULT_EXTENSION: string := "mapgr"
  const MAP_ID_FIELD_LENGTH: nat := 32

  /** getCharFromType: one letter per road type; the `'k'` after the switch is never reached. */
  function GetCharFromType(t: RoadType): char {
    match t
    case Motorway => 'a'
    case Trunk => 'b'
    case Primary => 'c'
    case Secondary => 'd'
    case MotorwayLink => 'e'
    case TrunkLink => 'f'
    case PrimaryLink => 'g'
    case SecondaryLink => 'h'
    case Tertiary => 'i'
    case Residential => 'j'
    case Unclassified => 'k'
    case LivingStreet => 'm'
    case Service => 'n'
    case Roundabout => 'o'
    case Pedestrian => 'p'
    case Bicycle => 'q'
    case Track => 'r'
    case Coastline => 'z'
  }

  /** The letter a reader maps back to a road type. */
  function TypeOfChar(c: char): (r: Option<RoadType>)
    ensures r.Some? ==> GetCharFromType(r.value) == c
  {
    if c == 'a' then Some(Motorway) else if c == 'b' then Some(Trunk)
    else if c == 'c' then Some(Primary) else if c == 'd' then Some(Secondary)
    else if c == 'e' then Some(MotorwayLink) else if c == 'f' then Some(TrunkLink)
    else if c == 'g' then Some(PrimaryLink) else if c == 'h' then Some(SecondaryLink)
    else if c == 'i' then Some(Tertiary) else if c == 'j' then Some(Residential)
    else if c == 'k' then Some(Unclassified) else if c == 'm' then Some(LivingStreet)
    else if c == 'n' then Some(Service) else if c == 'o' then Some(Roundabout)
    else if c == 'p' then Some(Pedestrian) else if c == 'q' then Some(Bicycle)
    else if c == 'r' then Some(Track) else if c == 'z' then Some(Coastline)
    else None
  }

  /** Every road type has its own letter: the type is recovered from the written character. */
  lemma CharFromTypeDecodes(t: RoadType)
    ensures TypeOfChar(GetCharFromType(t)) == Some(t)
  {
  }

  /** `Arrays.copyOf(mapId.getBytes("UTF-8"), 32)`: the UTF-8 bytes cut or zero-padded to 32. */
  function MapIdField(mapId: string): (r: seq<byte>)
    ensures |r| == MAP_ID_FIELD_LENGTH
    ensures |Utf8(mapId)| <= MAP_ID_FIELD_LENGTH ==>
      r[..|Utf8(mapId)|] == Utf8(mapId) && forall i :: |Utf8(mapId)| <= i < MAP_ID_FIELD_LENGTH ==> r[i] == 0
    ensures |Utf8(mapId)| > MAP_ID_FIELD_LENGTH ==> r == Utf8(mapId)[..MAP_ID_FIELD_LENGTH]
  {
    var b := Utf8(mapId);
    if |b| >= MAP_ID_FIELD_LENGTH then b[..MAP_ID_FIELD_LENGTH]
    else
      var r := b + seq(MAP_ID_FIELD_LENGTH - |b|, _ => 0 as byte);
      assert r[..|b|] == b;
      r
  }

  /** The information the writer needs that validate rejects when missing or too long. */
  datatype ValidateError = IdTooLong(length: nat) | NoMapName

  /** validate: the map id must take at most 32 bytes in UTF-8, and a map name must be given. */
  function Validate(mapId: string, mapName: Option<string>): (r: Result<(), ValidateError>)
    ensures r.Ok? <==> |Utf8(mapId)| <= MAP_ID_FIELD_LENGTH && mapName.Some?
    ensures |Utf8(mapId)| > MAP_ID_FIELD_LENGTH ==> r == Err(IdTooLong(|Utf8(mapId)|))
  {
    if |Utf8(mapId)| > MAP_ID_FIELD_LENGTH then Err(IdTooLong(|Utf8(mapId)|))
    else if mapName.None? then Err(NoMapName)
    else Ok(())
  }

  /** A validated id is written whole: its bytes, then zeros up to 32. */
  lemma ValidatedIdWrittenWhole(mapId: string, mapName: Option<string>)
    requires Validate(mapId, mapName).Ok?
    ensures exists pad :: MapIdField(mapId) == Utf8(mapId) + pad && forall i :: 0 <= i < |pad| ==> pad[i] == 0
  {
    var r, b := MapIdField(mapId), Utf8(mapId);
    var pad := r[|b|..];
    assert r == b + pad;
    assert forall i :: 0 <= i < |pad| ==> pad[i] == r[|b| + i];
  }

  /** The header: magic number, version, the map-id field, then `writeUTF(mapName)`. */
  function Header(graph: Graph): (r: Result<seq<byte>, WriteError>)
    ensures r.Err? <==> WriteName(graph.mapName).Err?
    ensures graph.mapName.None? ==> r == Err(NullPointer)
  {
    match WriteName(graph.mapName)
    case Err(e) => Err(e)
    case Ok(name) => Ok(WriteInt(MAGIC_NUMBER) + WriteInt(VERSION) + MapIdField(graph.textMapId) + name)
  }

  /** Magic number and version read back, then the 32-byte id field, then the name's length and bytes. */
  lemma HeaderLayout(graph: Graph)
    requires Header(graph).Ok?
    ensures var h := Header(graph).value;
            var body := ModifiedUtf8(graph.mapName.value);
      && |h| == 42 + |body|
      && ReadInt(h[..4]) == MAGIC_NUMBER && ReadInt(h[4..8]) == VERSION
      && h[8..40] == MapIdField(graph.textMapId)
      && ReadShort(h[40..42]) == |body| && h[42..] == body
  {
    var name := WriteName(graph.mapName).value;
    var m, v, f := WriteInt(MAGIC_NUMBER), WriteInt(VERSION), MapIdField(graph.textMapId);
    var h := m + v + f + name;
    assert h[..4] == m && h[4..8] == v && h[8..40] == f && h[40..42] == name[..2] && h[42..] == name[2..];
    WriteIntValue(MAGIC_NUMBER);
    WriteIntValue(VERSION);
  }

  /** The 2018 writer indexes road information by value (a HashMap on `equals`). */
  function ByValue(info: InfoRef): RoadInformation {
    info.value
  }

  /** The road-information keys of the arcs, in visit order. */
  function Keys(vs: seq<Vertex>, nodes: seq<VRef>): seq<RoadInformation>
    requires NodesIn(vs, nodes)
  {
    InfoKeys(ArcList(vs, nodes), ByValue)
  }

  /** getRoadInformations. */
  method GetRoadInformations(vs: seq<Vertex>, nodes: seq<VRef>) returns (rinfos: map<RoadInformation, nat>)
    requires NodesIn(vs, nodes)
    ensures rinfos == FirstEncounterIndex(Keys(vs, nodes))
  {
    rinfos := IndexInfos(vs, nodes, ByValue);
  }

  /**
   * The index of every written arc's information points at a record equal to it; equal records
   * (`equals`) share one index; and every index up to the number of records is used.
   */
  lemma InfoIndexSound(vs: seq<Vertex>, nodes: seq<VRef>, k: nat, l: nat)
    requires NodesIn(vs, nodes) && k < |ArcList(vs, nodes)| && l < |ArcList(vs, nodes)|
    requires Coherent(ArcList(vs, nodes)[k].info, ArcList(vs, nodes)[l].info)
    ensures var a, b, index, table := ArcList(vs, nodes)[k].info, ArcList(vs, nodes)[l].info,
                                      FirstEncounterIndex(Keys(vs, nodes)), Dedup(Keys(vs, nodes));
      && a.value in index && b.value in index
      && index[a.value] < |table| && table[index[a.value]] == a.value
      && (Equals(a, InfoObject(b)) <==> index[a.value] == index[b.value])
  {
    var keys := Keys(vs, nodes);
    FirstEncounterIndexNumbers(keys);
    assert keys[k] == ArcList(vs, nodes)[k].info.value && keys[l] == ArcList(vs, nodes)[l].info.value;
    EqualsIsValueEquality(ArcList(vs, nodes)[k].info, InfoObject(ArcList(vs, nodes)[l].info));
  }

  /** Every record of the table is the information of some written arc, at the index of that arc. */
  lemma InfoIndexDense(vs: seq<Vertex>, nodes: seq<VRef>, i: nat)
    requires NodesIn(vs, nodes) && i < |Dedup(Keys(vs, nodes))|
    ensures exists k :: 0 <= k < |ArcList(vs, nodes)| && ArcList(vs, nodes)[k].info.value == Dedup(Keys(vs, nodes))[i]
                        && ArcList(vs, nodes)[k].info.value in FirstEncounterIndex(Keys(vs, nodes))
                        && FirstEncounterIndex(Keys(vs, nodes))[ArcList(vs, nodes)[k].info.value] == i
  {
    var keys := Keys(vs, nodes);
    FirstEncounterIndexDense(keys, i);
    var k :| 0 <= k < |keys| && keys[k] == Dedup(keys)[i];
    assert ArcList(vs, nodes)[k].info.value == keys[k];
  }

  /** An information record: type letter, speed/one-way byte, int64 access, then `writeUTF(name)`. */
  function InfoRecord(info: RoadInformation): (r: Result<seq<byte>, WriteError>)
    ensures r.Err? <==> WriteName(info.name).Err?
  {
    match WriteName(info.name)
    case Err(e) => Err(e)
    case Ok(name) => Ok(WriteByte(GetCharFromType(info.roadType) as int) + [SpeedByte(info)] + WriteLong(info.access) + name)
  }

  /** The record reads back as the letter of its type, its speed byte, its access mask and its name. */
  lemma InfoRecordLayout(info: RoadInformation)
    requires InfoRecord(info).Ok?
    ensures var r := InfoRecord(info).value;
      && |r| >= 12
      && r[0] as int == GetCharFromType(info.roadType) as int % 0x100
      && r[1] == SpeedByte(info)
      && ReadLong(r[2..10]) == info.access as int
      && r[10..] == WriteName(info.name).value
  {
    var name := WriteName(info.name).value;
    var l := WriteLong(info.access);
    var r := WriteByte(GetCharFromType(info.roadType) as int) + [SpeedByte(info)] + l + name;
    assert r[2..10] == l && r[10..] == name;
    WriteLongValue(info.access);
  }

  /** The record section: each record of the table in index order, or the first failing one's error. */
  function InfoSection(table: seq<RoadInformation>): (r: Result<seq<byte>, WriteError>)
    ensures r.Err? <==> exists i :: 0 <= i < |table| && InfoRecord(table[i]).Err?
    decreases |table|
  {
    if table == [] then Ok([])
    else
      var init := table[..|table| - 1];
      assert forall i :: 0 <= i < |init| ==> init[i] == table[i];
      match InfoSection(init)
      case Err(e) => Err(e)
      case Ok(bytes) =>
        match InfoRecord(table[|table| - 1])
        case Err(e) => Err(e)
        case Ok(rec) => Ok(bytes + rec)
  }

  /** When the records before `i` are written and record `i` fails, the section fails with its error. */
  lemma {:induction false} InfoSectionFirstError(table: seq<RoadInformation>, i: nat)
    requires i < |table| && InfoSection(table[..i]).Ok? && InfoRecord(table[i]).Err?
    ensures InfoSection(table) == Err(InfoRecord(table[i]).error)
    decreases |table|
  {
    var init := table[..|table| - 1];
    if i < |init| {
      assert init[..i] == table[..i] && init[i] == table[i];
      InfoSectionFirstError(init, i);
    } else {
      assert init == table[..i];
    }
  }

  /** The loop writing the records of `sortedInfos` in index order. */
  method WriteInfos(sorted: array<RoadInformation>) returns (r: Result<seq<byte>, WriteError>)
    ensures r == InfoSection(sorted[..])
  {
    var table := sorted[..];
    var out: seq<byte> := [];
    var descr := 0;
    while descr < |table|
      invariant 0 <= descr <= |table|
      invariant InfoSection(table[..descr]) == Ok(out)
    {
      var record := WriteInfo(table[descr]);
      if record.Err? {
        InfoSectionFirstError(table, descr);
        return Err(record.error);
      }
      assert table[..descr + 1][..descr] == table[..descr];
      out := out + record.value;
      descr := descr + 1;
    }
    assert table[..descr] == table;
    r := Ok(out);
  }

  /** The body of the record loop for one information. */
  method WriteInfo(info: RoadInformation) returns (r: Result<seq<byte>, WriteError>)
    ensures r == InfoRecord(info)
  {
    var name := WriteName(info.name);
    if name.Err? {
      return Err(name.error);
    }
    r := Ok(WriteByte(GetCharFromType(info.roadType) as int) + [SpeedByte(info)] + WriteLong(info.access) + name.value);
  }

  /**
   * An arc record: 24-bit destination id, 24-bit information index, int32 `length * 1000`
   * (the int product, of which only the low 32 bits are kept either way), then the shape.
   */
  function ArcRecord(vs: seq<Vertex>, index: map<RoadInformation, nat>, a: Arc): (r: seq<byte>)
    requires a.destination < |vs| && a.info.value in index
  {
    Write24Bits(vs[a.destination].id) + Write24Bits(index[a.info.value]) + WriteInt(a.length * 1000) + Shape(a.points)
  }

  /** The record reads back as the destination's id and the index (24 bits each), the length in thousandths, then the shape. */
  lemma ArcRecordLayout(vs: seq<Vertex>, index: map<RoadInformation, nat>, a: Arc)
    requires a.destination < |vs| && a.info.value in index
    ensures var r := ArcRecord(vs, index, a);
      && |r| >= 12
      && ReadShort(r[..2]) * 0x100 + r[2] as int == vs[a.destination].id % 0x100_0000
      && ReadShort(r[3..5]) * 0x100 + r[5] as int == index[a.info.value] % 0x100_0000
      && ReadInt(r[6..10]) == a.length * 1000 % 0x1_0000_0000
      && r[10..] == Shape(a.points)
  {
    var d, i, l := Write24Bits(vs[a.destination].id), Write24Bits(index[a.info.value]), WriteInt(a.length * 1000);
    var r := d + i + l + Shape(a.points);
    assert r[..2] == d[..2] && r[2] == d[2] && r[3..5] == i[..2] && r[5] == i[2] && r[6..10] == l;
    assert r[10..] == Shape(a.points);
    Write24BitsValue(vs[a.destination].id);
    Write24BitsValue(index[a.info.value]);
    WriteIntValue(a.length * 1000);
  }

  /** The arc section: the records of `arcs`, in order. */
  function ArcSection(vs: seq<Vertex>, index: map<RoadInformation, nat>, arcs: seq<Arc>): (r: seq<byte>)
    requires Writable(vs, index, ByValue, arcs)
    decreases |arcs|
  {
    if arcs == [] then []
    else ArcSection(vs, index, arcs[..|arcs| - 1]) + ArcRecord(vs, index, arcs[|arcs| - 1])
  }

  /** The section of a concatenation is the concatenation of the sections: arcs come out in visit order. */
  lemma {:induction false} ArcSectionAppend(vs: seq<Vertex>, index: map<RoadInformation, nat>, a: seq<Arc>, b: seq<Arc>)
    requires Writable(vs, index, ByValue, a) && Writable(vs, index, ByValue, b)
    ensures Writable(vs, index, ByValue, a + b)
    ensures ArcSection(vs, index, a + b) == ArcSection(vs, index, a) + ArcSection(vs, index, b)
    decreases |b|
  {
    WritableAppend(vs, index, ByValue, a, b);
    if b == [] {
      assert a + b == a;
    } else {
      var b0 := b[..|b| - 1];
      assert Writable(vs, index, ByValue, b0) by {
        assert forall k :: 0 <= k < |b0| ==> b0[k] == b[k];
      }
      ArcSectionAppend(vs, index, a, b0);
      InitOfAppend(a, b);
    }
  }

  /** One more arc adds its record. */
  lemma ArcSectionSnoc(vs: seq<Vertex>, index: map<RoadInformation, nat>, arcs: seq<Arc>, j: nat)
    requires Writable(vs, index, ByValue, arcs) && j < |arcs|
    ensures Writable(vs, index, ByValue, arcs[..j]) && Writable(vs, index, ByValue, arcs[..j + 1])
    ensures ArcSection(vs, index, arcs[..j + 1]) == ArcSection(vs, index, arcs[..j]) + ArcRecord(vs, index, arcs[j])
  {
    assert arcs[..j + 1][..j] == arcs[..j];
  }

  /** The nested loop over nodes and successors writing the arc records. */
  method WriteArcs(vs: seq<Vertex>, nodes: seq<VRef>, index: map<RoadInformation, nat>) returns (out: seq<byte>)
    requires WellFormed(vs) && NodesIn(vs, nodes) && index == FirstEncounterIndex(Keys(vs, nodes))
    ensures Writable(vs, index, ByValue, ArcList(vs, nodes))
    ensures out == ArcSection(vs, index, ArcList(vs, nodes))
  {
    AllArcsWritable(vs, nodes, ByValue);
    out := [];
    var i := 0;
    while i < |nodes|
      invariant 0 <= i <= |nodes|
      invariant Writable(vs, index, ByValue, ArcList(vs, nodes[..i]))
      invariant out == ArcSection(vs, index, ArcList(vs, nodes[..i]))
    {
      ArcsWritable(vs, nodes, ByValue, i);
      var succ := vs[nodes[i]].successors;
      var bytes := WriteSuccessors(vs, index, succ);
      ArcSectionAppend(vs, index, ArcList(vs, nodes[..i]), succ);
      ArcListSnoc(vs, nodes, i);
      out := out + bytes;
      i := i + 1;
    }
    assert nodes[..i] == nodes;
  }

  /** The inner loop: the records of one node's successors. */
  method WriteSuccessors(vs: seq<Vertex>, index: map<RoadInformation, nat>, succ: seq<Arc>) returns (out: seq<byte>)
    requires Writable(vs, index, ByValue, succ)
    ensures out == ArcSection(vs, index, succ)
  {
    out := [];
    var j := 0;
    while j < |succ|
      invariant 0 <= j <= |succ|
      invariant Writable(vs, index, ByValue, succ[..j])
      invariant out == ArcSection(vs, index, succ[..j])
    {
      var arc := succ[j];
      var shape := WriteShape(arc.points);
      ArcSectionSnoc(vs, index, succ, j);
      out := out + Write24Bits(vs[arc.destination].id) + Write24Bits(index[arc.info.value])
                 + WriteInt(arc.length * 1000) + shape;
      j := j + 1;
    }
    assert succ[..j] == succ;
  }

  /** writeGraph as the bytes it writes, or the error of the first write that throws. */
  function GraphBytes(vs: seq<Vertex>, graph: Graph): (r: Result<seq<byte>, WriteError>)
    requires WellFormed(vs) && NodesIn(vs, graph.nodes)
    ensures r.Err? <==> Header(graph).Err? || InfoSection(Dedup(Keys(vs, graph.nodes))).Err?
  {
    var nodes := graph.nodes;
    var keys := Keys(vs, nodes);
    AllArcsWritable(vs, nodes, ByValue);
    match Header(graph)
    case Err(e) => Err(e)
    case Ok(header) =>
      match InfoSection(Dedup(keys))
      case Err(e) => Err(e)
      case Ok(infos) =>
        Ok(Assemble(header, |Dedup(keys)|, |nodes|, VertexSection(vs, nodes), infos,
                    ArcSection(vs, FirstEncounterIndex(keys), ArcList(vs, nodes))))
  }

  /** writeGraph, with the stream modelled as the bytes appended to it; an exception is an error result. */
  method WriteGraph(vs: seq<Vertex>, graph: Graph) returns (r: Result<seq<byte>, WriteError>)
    requires WellFormed(vs) && NodesIn(vs, graph.nodes)
    ensures r == GraphBytes(vs, graph)
  {
    var out := WriteInt(MAGIC_NUMBER) + WriteInt(VERSION) + MapIdField(graph.textMapId);
    var name := WriteName(graph.mapName);
    if name.Err? {
      return Err(name.error);
    }
    out := out + name.value;
    ghost var header := out;
    var nodes := graph.nodes;
    var infos := GetRoadInformations(vs, nodes);
    ghost var keys := Keys(vs, nodes);
    FirstEncounterIndexNumbers(keys);
    var sortedInfos := SortInfos(infos, keys);
    out := out + WriteInt(|infos|) + WriteInt(|nodes|);
    var vertices := WriteVertices(vs, nodes);
    out := out + vertices + WriteByte(255);
    var records := WriteInfos(sortedInfos);
    if records.Err? {
      return Err(records.error);
    }
    out := out + records.value + WriteByte(254);
    var arcs := WriteArcs(vs, nodes, infos);
    out := out + arcs + WriteByte(253);
    AssembleInOrder(header, |infos|, |nodes|, vertices, records.value, arcs);
    r := Ok(out);
  }

}
