# OSM2Graph in Dafny

OSM2Graph is an Osmosis plugin. It turns the nodes and ways of an OpenStreetMap extract
into a directed road graph, then writes that graph in one of two binary formats: INSA 2016
and INSA 2018. This project models its sequential core and proves properties of the model.

The core covers:

- **Tag resolution.** From a way's tags it derives a road type, a maximum speed and a 64-bit
  access mask.
- **Road-information interning.** The one road-information record per set of way attributes
  is pooled.
- **Way splitting.** Junction nodes are marked across all ways, and every way is cut into arcs
  at its marked nodes.
- **Graph model.** Vertices hold ordered successor lists, and building an arc appends it to
  its origin's list. `OSM2GraphTask` renumbers the vertices densely, in the order the arc ends are
  first met, and recreates every arc on the new vertices.
- **Queries.** A path is rebuilt from a node list. The closest node to a point is searched.
- **Binary writers.** Both byte-exact formats are modelled: big-endian fields, a 24-bit field,
  sentinels, an index table of road information and delta-encoded shape points.
- **Configuration.** This covers the map-id parser, the output-file extension rule and the
  writer lookup by name.

## Modules

| file | module | what it holds |
|---|---|---|
| wrappers.dfy | Wrappers | `Option` and `Result` |
| java_string.dfy | JavaString | the `String`/`Integer` library behaviour the core relies on |
| data_output.dfy | DataOutput | the `DataOutputStream` writes, UTF-8 and modified UTF-8 |
| road_information.dfy | RoadInformation | the road types and the road-information record, `equals`, `hashCode` |
| osm.dfy | Osm | tags, nodes, ways and the entities `OSM2GraphTask` receives |
| road_type_data.dfy | RoadTypeData | the highway table and `getRoadType` |
| speed_data.dfy | SpeedData | the country table, the road-type defaults, `getMaximumSpeed` |
| access_data.dfy | AccessData | the masks, `KEY_TO_MASK`, the defaults, `getAccessType` |
| sequences.dfy | Sequences | generic facts about sequences: concatenation, dedup, numbering |
| graph_model.dfy | GraphModel | `Vertex`, `Arc` and the vertex arena with its in-place successor lists |
| way_to_arc.dfy | WayConversion | `WayToArc` and its `WayToArcProcessor` threads: useful tags, one-way, interning, `findVertex`, `convert` |
| graph.dfy | Graphs | `Graph`: its node list, `findClosestNode`, `transpose` |
| path.dfy | Paths | `Path` built from a node list in shortest-length mode |
| osm2graph_task.dfy | Task | `OSM2GraphTask.process` and the renumbering in `complete` |
| writer_common.dfy | GraphWriting | the parts the two writers share: vertex records and shape-point deltas |
| writer_insa2018.dfy | Insa2018 | `BinaryGraphWriterInsa2018` |
| writer_insa2016.dfy | Insa2016 | `BinaryGraphWriterInsa2016` |
| writer_factory.dfy | WriterFactory | `GraphWriterFactory` |
| configuration.dfy | Configuration | `OSM2GraphConfiguration` |
| osm2graph_factory.dfy | Osm2GraphFactory | `OSM2GraphFactory.parseMapId` and the Osmosis task arguments |

### Representation choices

- **Vertices live in an arena.** The arena is a `seq<Vertex>` held by a `Heap` object, and a
  vertex reference is an index into it. A Java `new Vertex` / `new Arc` becomes a `Heap`
  method. Each method appends a vertex, or appends an arc to its origin's successor list in
  place.
- **Road-information identity.** A Java road-information object is an `InfoRef`: its
  allocation number paired with its field values. `equals` compares the values. The 2016
  writer's `IdentityHashMap` compares the allocation numbers.
- **Geometry is left abstract.** Points are pairs of reals. Two things are function
  parameters: `Point.distanceTo`, which is the `distance` argument of `PathLength`, `ArcOf`
  and the members that call them, and the knots/mph conversion, which is
  `SpeedData.UnitScaling`. The writers' two fixed-point quantisers are concrete:
  - `GraphWriting.Fixed6` is `(int)(coordinate * 1e6)`;
  - `GraphWriting.Delta` is `(int)(200000 * difference)` for each coordinate.

  Every `(int)` cast of a double is modelled as truncation toward zero with saturation
  (`JavaString.IntOfDouble`), on exact reals.
- **One graph record for all revisions.** The files come from different revisions, so the
  model uses one unified record. `Graph` carries:
  - an `int` map id, as in `Graph.java` and as the 2016 writer reads it;
  - a text map id and an optional map name, which the 2018 writer reads.
- **Arcs carry an id.** `WayToArc` and `OSM2GraphTask` rely on it, although `Arc.java` has no such
  field.
- **Lookup tables are keyed functions.** `SPEED_FOR_COUNTRIES` and `HIGHWAY_TO_ROADTYPE` are
  functions from a key to its entry, or to `None` for a key the map lacks, which is what `get`
  and `containsKey` observe. The access tables stay maps, because the access loop is proved for
  any key-to-mask map.
- **Threads become a sequence of processors.** `convert(List)` runs each
  `WayToArcProcessor` to completion, in thread order. `KeptWays` is the ways whose arcs are
  collected: each range up to its first way whose `convert(way)` throws.

## Model

A table, lookup or encoding that has no contract of its own has a row that names the lemma
specifying it. A few record layouts and folds are cited only on their lemma's row. For example,
`Insa2018.ArcRecord` is cited under `Insa2018.ArcRecordLayout`, and `AccessData.Fold` under
`AccessData.FoldIsUnion`. Small helper lemmas have no row when the proof of a listed member is
their only use. Examples are `Task.EndIdAtMapped`, `Task.EndIdsMapped`, `Task.RangeSnoc` and
`DataOutput.LongBytesValue`.

| member | source | states |
|---|---|---|
| RoadInformation.AllRoadTypesComplete | src/main/org/laas/osm2graph/graph/RoadInformation.java:12-31 | `values()` lists every road type |
| RoadInformation.EqualsIsValueEquality | src/main/org/laas/osm2graph/graph/RoadInformation.java:121-145 | `equals` holds exactly for another road-information object whose access, speed, name, one-way flag and type are all equal |
| RoadInformation.EqualsProperties | src/main/org/laas/osm2graph/graph/RoadInformation.java:123-128 | `equals` is reflexive and symmetric, and false for null and for an object of another class |
| RoadInformation.StringHash | src/main/org/laas/osm2graph/graph/RoadInformation.java:115 | the name's `String.hashCode` is a signed 32-bit value |
| RoadInformation.HashCode | src/main/org/laas/osm2graph/graph/RoadInformation.java:109-119 | the record hash, computed in 32-bit wrap-around arithmetic, is a signed 32-bit value |
| RoadInformation.EqualObjectsHashEqually | src/main/org/laas/osm2graph/graph/RoadInformation.java:109-145 | objects that are `equals` have the same `hashCode` |
| RoadTypeData.TableKeys | src/main/org/laas/osm2graph/model/RoadTypeData.java:13-26 | every key of `HIGHWAY_TO_ROADTYPE` is the lower-cased name of its type or one of the four extra values |
| RoadTypeData.TableNames | src/main/org/laas/osm2graph/model/RoadTypeData.java:16-18 | every road type is in the table under its lower-cased name, including coastline and roundabout |
| RoadTypeData.TableSynonyms | src/main/org/laas/osm2graph/model/RoadTypeData.java:21-25 | footway, steps and bridleway map to PEDESTRIAN and cycleway to BICYCLE |
| RoadTypeData.TableEntries | src/main/org/laas/osm2graph/model/RoadTypeData.java:13-26 | the table maps `v` to `t` exactly when `v` is `t`'s lower-cased name or a synonym of `t` |
| RoadTypeData.HighwayToRoadType | src/main/org/laas/osm2graph/model/RoadTypeData.java:13-26 | `HIGHWAY_TO_ROADTYPE`, looked up by key; no contract of its own: `RoadTypeData.TableEntries` characterises its entries |
| RoadTypeData.GetRoadType | src/main/org/laas/osm2graph/model/RoadTypeData.java:40-57 | natural=coastline (any case) gives COASTLINE; otherwise junction=roundabout gives ROUNDABOUT; otherwise a missing `highway` gives UNCLASSIFIED |
| RoadTypeData.HighwayValueDecides | src/main/org/laas/osm2graph/model/RoadTypeData.java:52-56 | with neither tag, the `highway` value gives `t` exactly when its lower case is `t`'s name or a synonym of `t`; any other value gives UNCLASSIFIED |
| RoadTypeData.CoastlineRegardless | src/main/org/laas/osm2graph/model/RoadTypeData.java:43-45 | natural=coastline gives COASTLINE whatever the other tags are |
| RoadTypeData.SynonymTypes | src/main/org/laas/osm2graph/model/RoadTypeData.java:21-56 | highway=footway, steps or bridleway (any case) gives PEDESTRIAN, and cycleway gives BICYCLE |
| SpeedData.SpeedForCode | src/main/org/laas/osm2graph/model/SpeedData.java:91-93 | the country table's speed for a known code, otherwise the supplied default |
| SpeedData.CountriesFirst | src/main/org/laas/osm2graph/model/SpeedData.java:146-175 | the first block of puts, looked up by key; no contract of its own: `SpeedData.FirstKeyUpperCase` states its keys' form |
| SpeedData.CountriesSecond | src/main/org/laas/osm2graph/model/SpeedData.java:176-205 | the second block of puts, looked up by key; no contract of its own: `SpeedData.SecondKeyUpperCase` states its keys' form |
| SpeedData.CountriesThird | src/main/org/laas/osm2graph/model/SpeedData.java:206-235 | the third block of puts, looked up by key; no contract of its own: `SpeedData.ThirdKeyUpperCase` states its keys' form |
| SpeedData.SpeedForCountries | src/main/org/laas/osm2graph/model/SpeedData.java:146-235 | `SPEED_FOR_COUNTRIES`: a later put of a key overrides an earlier one; no contract of its own: `SpeedData.SpeedForCode` and `SpeedData.CountryKeysUpperCase` state its meaning |
| SpeedData.FirstKeyUpperCase | src/main/org/laas/osm2graph/model/SpeedData.java:146-175 | each code put by these lines starts with an upper-case letter |
| SpeedData.SecondKeyUpperCase | src/main/org/laas/osm2graph/model/SpeedData.java:176-205 | each code put by these lines starts with an upper-case letter |
| SpeedData.ThirdKeyUpperCase | src/main/org/laas/osm2graph/model/SpeedData.java:206-235 | each code put by these lines starts with an upper-case letter |
| SpeedData.CountryKeysUpperCase | src/main/org/laas/osm2graph/model/SpeedData.java:145-236 | every key of `SPEED_FOR_COUNTRIES` starts with an upper-case letter |
| SpeedData.LowerCaseCodeNeverMatches | src/main/org/laas/osm2graph/model/SpeedData.java:43-93 | a lower-cased code is never in the table, so the lookup always yields the road-type default |
| SpeedData.DefaultSpeeds | src/main/org/laas/osm2graph/model/SpeedData.java:105-143 | MOTORWAY 130, TRUNK 110, PRIMARY 90, SECONDARY 70; the links and TERTIARY 50; RESIDENTIAL, SERVICE, ROUNDABOUT, LIVING_STREET, UNCLASSIFIED and TRACK 30; BICYCLE 14, PEDESTRIAN 5, COASTLINE 0; a null type gives the supplied default |
| SpeedData.MaxSpeedForRoadType | src/main/org/laas/osm2graph/model/SpeedData.java:105-143 | the switch of default speeds per road type, the supplied default for none; no contract of its own: `SpeedData.DefaultSpeeds` lists its values |
| SpeedData.TokenSpeed | src/main/org/laas/osm2graph/model/SpeedData.java:58-63 | `Integer.valueOf` of the token, or the road-type default when the parse throws |
| SpeedData.NumericSpeed | src/main/org/laas/osm2graph/model/SpeedData.java:57-75 | the numeric branch fails exactly when the split leaves no token, so `parts[0]` throws |
| SpeedData.GetMaximumSpeed | src/main/org/laas/osm2graph/model/SpeedData.java:37-78 | absent, "none" or "signal" gives the road-type default; "walk" gives 5; a value with ':' gives the road-type default; failure happens only for a value that splits to no token |
| SpeedData.SingleTokenSpeed | src/main/org/laas/osm2graph/model/SpeedData.java:57-67 | a value without spaces or ':' is parsed whole, with the road-type default when it is not a number |
| SpeedData.UnitSpeed | src/main/org/laas/osm2graph/model/SpeedData.java:65-75 | "n knots" and "n mph" are converted by the scaling; any other second token leaves the number unchanged |
| SpeedData.AllSpacesThrow | src/main/org/laas/osm2graph/model/SpeedData.java:57-59 | a non-empty value made only of spaces ends in ArrayIndexOutOfBoundsException |
| AccessData.UsefulTagsHaveMasks | src/main/org/laas/osm2graph/model/AccessData.java:28-87 | every access tag has a key mask, so `KEY_TO_MASK.get(key)` never unboxes null |
| AccessData.DefaultAccessValues | src/main/org/laas/osm2graph/model/AccessData.java:118-153 | the evaluated defaults: 0x111111111100000 for the motorway and trunk classes, all "yes" for the ordinary roads, 0x111101101111111 for TRACK, 0x100 for BICYCLE, 0x101 for PEDESTRIAN, all-unknown for COASTLINE, UNCLASSIFIED and null; the top nibble is always clear |
| AccessData.DefaultAccess | src/main/org/laas/osm2graph/model/AccessData.java:118-153 | `getDefaultAccessForRoadType`, the masks composed as the source writes them; no contract of its own: `AccessData.DefaultAccessValues` gives their evaluated values |
| AccessData.GetAccessType | src/main/org/laas/osm2graph/model/AccessData.java:160-176 | the loop computes the road-type default folded over the access tags in `USEFUL_TAGS` order |
| AccessData.FoldTags | src/main/org/laas/osm2graph/model/AccessData.java:164-173 | the loop over the tags computes the fold of one update step per tag, in order |
| AccessData.UpdateBits | src/main/org/laas/osm2graph/model/AccessData.java:172 | the update keeps every bit outside the key mask and takes the value mask's bits inside it |
| AccessData.StepKeepsOtherBits | src/main/org/laas/osm2graph/model/AccessData.java:165-172 | a present or absent tag keeps every bit outside its key mask |
| AccessData.StepSetsKeyBits | src/main/org/laas/osm2graph/model/AccessData.java:165-172 | a present tag puts its value mask's bits under its key mask; an absent tag changes nothing |
| AccessData.KeyMasksFitSixtyBits | src/main/org/laas/osm2graph/model/AccessData.java:36-107 | no entry of `KEY_TO_MASK` reaches the top nibble |
| AccessData.UpdateWithUnknown | src/main/org/laas/osm2graph/model/AccessData.java:170-172 | with MASK_UNKNOWN as the value mask, the update sets every bit of the key mask |
| AccessData.ValueIsIgnored | src/main/org/laas/osm2graph/model/AccessData.java:168-172 | `VALUE_TO_MASK` stays empty, so a present tag sets all bits of its key mask whatever its value |
| AccessData.PresentKeys | src/main/org/laas/osm2graph/model/AccessData.java:164-167 | the tags the loop does not skip are among the keys and present in the tags |
| AccessData.PresentMasksLast | src/main/org/laas/osm2graph/model/AccessData.java:164-173 | one more key adds its mask to the union exactly when that tag is present |
| AccessData.FoldIsUnion | src/main/org/laas/osm2graph/model/AccessData.java:164-173 | the loop only adds bits: the result is the start value or'ed with the masks of the present keys |
| AccessData.AccessTypeIsUnion | src/main/org/laas/osm2graph/model/AccessData.java:160-176 | `getAccessType` is the road-type default or'ed with the key masks of the present access tags |
| AccessData.NoPresentKeys | src/main/org/laas/osm2graph/model/AccessData.java:165-166 | when no key is present every iteration skips |
| AccessData.NoAccessTagsGiveDefault | src/main/org/laas/osm2graph/model/AccessData.java:162-166 | with none of the access tags present the result is exactly `getDefaultAccessForRoadType` |
| AccessData.PresentKeysByKeys | src/main/org/laas/osm2graph/model/AccessData.java:165-168 | two tag maps that agree on which keys are present select the same keys |
| AccessData.AccessDependsOnlyOnPresence | src/main/org/laas/osm2graph/model/AccessData.java:168-172 | the result depends only on which access tags are present, never on their values |
| AccessData.LaterTagDecidesItsBits | src/main/org/laas/osm2graph/model/AccessData.java:164-173 | the tag applied last decides its own group: all its key bits end up set, whatever earlier tags did |
| AccessData.UnionOfMasksFits | src/main/org/laas/osm2graph/model/AccessData.java:36-64 | any union of table masks leaves the top nibble clear |
| AccessData.AccessFitsSixtyBits | src/main/org/laas/osm2graph/model/AccessData.java:160-176 | every access value fits in 60 bits |
| AccessData.AgriculturalIsForestry | src/main/org/laas/osm2graph/model/AccessData.java:82-104 | the "agricultural" key carries MASK_FORESTRY, because the value entry at line 104 replaces the key entry at line 82 |
| Sequences.Dedup | src/main/org/laas/osm2graph/osmosis/OSM2GraphTask.java:103-112 | the distinct elements in first-encounter order: every element kept comes from the input, every input element is kept, and none twice |
| Sequences.DedupFirstEncounter | src/main/org/laas/osm2graph/osmosis/OSM2GraphTask.java:103-112 | elements are kept in the order of their first occurrence |
| Sequences.NumberFirstEncounter | src/main/org/laas/osm2graph/osmosis/OSM2GraphTask.java:104-110 | an element gets the next fresh number exactly when it was not met before |
| Sequences.FirstEncounterIndexNumbers | src/main/org/laas/osm2graph/writers/BinaryGraphWriterInsa2018.java:115-125 | a first-encounter index holds exactly the elements met, numbered densely in first-encounter order |
| Sequences.FirstEncounterIndexSnoc | src/main/org/laas/osm2graph/writers/BinaryGraphWriterInsa2018.java:119-121 | an element already indexed changes nothing; a new one gets the next number |
| Sequences.FirstEncounterIndexDense | src/main/org/laas/osm2graph/writers/BinaryGraphWriterInsa2018.java:115-125 | the i-th distinct element has index i |
| GraphModel.CompareTo | src/main/org/laas/osm2graph/graph/Vertex.java:60-63 | `Long.compare` on the ids: negative, zero or positive exactly as the first id is smaller, equal or greater |
| GraphModel.CompareToOrder | src/main/org/laas/osm2graph/graph/Vertex.java:52-63 | `compareTo` is antisymmetric, transitive and reflexive, and its zero case coincides with `equals` |
| GraphModel.VertexEqualsProperties | src/main/org/laas/osm2graph/graph/Vertex.java:52-58 | `equals` is an equivalence that compares ids only, ignoring point and successors, and is false for null and for non-vertices |
| GraphModel.VertexEquals | src/main/org/laas/osm2graph/graph/Vertex.java:52-58 | `Vertex.equals`; no contract of its own: `GraphModel.VertexEqualsProperties` states that it is an equivalence on ids |
| GraphModel.WithSuccessorEffect | src/main/org/laas/osm2graph/graph/Vertex.java:33-35 | `addSuccessor` appends the arc at the end of that vertex's list, keeps the earlier successors in order and changes no other vertex |
| GraphModel.WithSuccessorWellFormed | src/main/org/laas/osm2graph/graph/Arc.java:25-47 | adding an arc whose ends are in the arena keeps every successor list pointing into the arena |
| GraphModel.NewVertexWellFormed | src/main/org/laas/osm2graph/graph/Vertex.java:22-26 | a new vertex with no successors keeps the arena well formed |
| GraphModel.Attach | src/main/org/laas/osm2graph/graph/Arc.java:25-47 | building a sequence of arcs changes no vertex's id or point and no arena length |
| GraphModel.ArcsFrom | src/main/org/laas/osm2graph/graph/Arc.java:40-46 | the arcs of a sequence that start at one vertex, in order |
| GraphModel.AttachSnoc | src/main/org/laas/osm2graph/graph/Arc.java:40-46 | building one more arc appends it to its origin's list |
| GraphModel.AttachSuccessors | src/main/org/laas/osm2graph/graph/Arc.java:40-46 | after building a sequence of arcs, each vertex's successors are its old ones followed by the arcs that start at it, in build order |
| GraphModel.AttachAppend | src/main/org/laas/osm2graph/graph/Arc.java:40-46 | building `a` and then `b` is building `a + b` |
| GraphModel.AttachExtend | src/main/org/laas/osm2graph/graph/Vertex.java:22-26 | a vertex created later is untouched by arcs that do not start at it |
| GraphModel.ArcsFromAppend | src/main/org/laas/osm2graph/graph/Arc.java:40-46 | the arcs from a vertex distribute over concatenation |
| GraphModel.ArcsFromNone | src/main/org/laas/osm2graph/graph/Arc.java:40-46 | a vertex that starts none of the arcs receives no successor |
| GraphModel.ArcsFromContains | src/main/org/laas/osm2graph/graph/Arc.java:40-46 | every built arc is among its origin's successors |
| GraphModel.AttachWellFormed | src/main/org/laas/osm2graph/graph/Arc.java:40-46 | building arcs between vertices of a well-formed arena keeps it well formed |
| GraphModel.AttachAppended | src/main/org/laas/osm2graph/graph/Arc.java:40-46 | a fresh vertex ends up holding exactly the arcs that start at it |
| GraphModel.AttachAppendedSuccessors | src/main/org/laas/osm2graph/graph/Arc.java:40-46 | the successors of a fresh vertex are exactly the arcs that start at it |
| GraphModel.Heap.constructor | src/main/org/laas/osm2graph/osmosis/OSM2GraphTask.java:74 | `initialize` starts with no vertex at all |
| GraphModel.Heap.NewVertex | src/main/org/laas/osm2graph/graph/Vertex.java:22-26 | `new Vertex(id, point)` appends a vertex with that id and point and an empty successor list, and returns its reference |
| GraphModel.Heap.AddSuccessor | src/main/org/laas/osm2graph/graph/Vertex.java:33-35 | the vertex's successor list gains the arc at its end; nothing else changes |
| GraphModel.Heap.NewArc | src/main/org/laas/osm2graph/graph/Arc.java:25-32 | the 4-argument constructor gives an arc with those fields and no points, appended to its origin's successors |
| GraphModel.Heap.NewArcWithPoints | src/main/org/laas/osm2graph/graph/Arc.java:40-47 | the 5-argument constructor gives an arc with the caller's points, appended to its origin's successors |
| WayConversion.UsefulTagKeys | src/main/org/laas/osm2graph/model/WayToArc.java:84-85 | a tag is kept exactly when its key is one of the six local useful tags or one of the fifteen access tags |
| WayConversion.IsUsefulTag | src/main/org/laas/osm2graph/model/WayToArc.java:84-85 | a key in `USEFUL_TAGS` or in AccessData's useful tags; no contract of its own: `WayConversion.UsefulTagKeys` lists the keys |
| WayConversion.GetOneWay | src/main/org/laas/osm2graph/model/WayToArc.java:118-130 | a present `oneway` tag gives true exactly when its lower case is yes, true or 1; an absent one gives true exactly for MOTORWAY, MOTORWAY_LINK, TRUNK_LINK, PRIMARY_LINK and ROUNDABOUT |
| WayConversion.OneWayByDefault | src/main/org/laas/osm2graph/model/WayToArc.java:124-128 | the road types that are one way without a `oneway` tag; no contract of its own: `WayConversion.GetOneWay` uses it for an absent tag |
| WayConversion.OneWayTagDecides | src/main/org/laas/osm2graph/model/WayToArc.java:119-123 | a present `oneway` tag decides alone, whatever the road type |
| WayConversion.KeptTags | src/main/org/laas/osm2graph/model/WayToArc.java:152-158 | the tag map holds only useful keys, and every useful key of the way |
| WayConversion.LastTagWins | src/main/org/laas/osm2graph/model/WayToArc.java:154-157 | a key put several times keeps the value of its last occurrence |
| WayConversion.AbsentKeyNotKept | src/main/org/laas/osm2graph/model/WayToArc.java:154-157 | a key the way does not carry is not in the map |
| WayConversion.RoadInformationOf | src/main/org/laas/osm2graph/model/WayToArc.java:160-167 | the record fails only where `getMaximumSpeed` throws, and a missing name becomes "" |
| WayConversion.KeepUsefulTags | src/main/org/laas/osm2graph/model/WayToArc.java:152-158 | the loop over the way's tags builds the kept-tag map |
| WayConversion.ComputeRoadInformation | src/main/org/laas/osm2graph/model/WayToArc.java:160-167 | the method computes the road-information value of the kept tags |
| WayConversion.RoadInformationFields | src/main/org/laas/osm2graph/model/WayToArc.java:160-167 | the record holds `getRoadType`, `getAccessType`, `getOneWay` and `getMaximumSpeed` of the kept tags |
| WayConversion.Repeated | src/main/org/laas/osm2graph/model/WayToArc.java:193-200 | the ids met a second time are ids of the scanned nodes |
| WayConversion.RepeatedSnoc | src/main/org/laas/osm2graph/model/WayToArc.java:195-200 | a node id is marked when it was met before, and otherwise only recorded as met |
| WayConversion.RepeatedIff | src/main/org/laas/osm2graph/model/WayToArc.java:189-205 | an id is marked as repeated exactly when it occurs at two positions, in one way or across ways |
| WayConversion.SharedIdIsRepeated | src/main/org/laas/osm2graph/model/WayToArc.java:191-201 | a node id in two different ways is marked |
| WayConversion.RepeatedInOneWay | src/main/org/laas/osm2graph/model/WayToArc.java:193-200 | a node id repeated inside one way is marked |
| WayConversion.WayEndsIff | src/main/org/laas/osm2graph/model/WayToArc.java:202-203 | the way ends marked are exactly the first and last node ids of the ways |
| WayConversion.FirstMissing | src/main/org/laas/osm2graph/model/WayToArc.java:228-232 | the first node whose id has no vertex, where `vertices.get(id).getPoint()` throws |
| WayConversion.MarkedPositions | src/main/org/laas/osm2graph/model/WayToArc.java:230-244 | every cut position is at least 1, below the node count and marked |
| WayConversion.MarkedPositionsCuts | src/main/org/laas/osm2graph/model/WayToArc.java:230-244 | the cut positions are strictly increasing and within the way |
| WayConversion.MarkedPositionsComplete | src/main/org/laas/osm2graph/model/WayToArc.java:236 | every marked position after the first node is a cut |
| WayConversion.Refs | src/main/org/laas/osm2graph/model/WayToArc.java:228-232 | the vertex of each node id of the way |
| WayConversion.PointsOf | src/main/org/laas/osm2graph/model/WayToArc.java:229-234 | the point of each node of the way |
| WayConversion.ArcOf | src/main/org/laas/osm2graph/model/WayToArc.java:236-238 | every arc built has at least two shape points: its start and its cut |
| WayConversion.ArcsOf | src/main/org/laas/osm2graph/model/WayToArc.java:230-244 | one arc per cut, arc k being the k-th |
| WayConversion.WayArcs | src/main/org/laas/osm2graph/model/WayToArc.java:215-248 | the arcs of a way start at vertices of the arena |
| WayConversion.ArcOfShape | src/main/org/laas/osm2graph/model/WayToArc.java:226-244 | arc k is numbered k, runs from the previous cut's vertex (the first node's for k = 0) to its cut's vertex, has the way's points over that inclusive range, and its length is `(int)(1000 × Σ distance)` over that range only |
| WayConversion.ArcsOfShape | src/main/org/laas/osm2graph/model/WayToArc.java:226-244 | consecutive arcs chain, each destination being the next origin; the first starts at the way's first node; every arc has at least two points and shares its end points with its neighbours |
| WayConversion.ArcsOfEndsIn | src/main/org/laas/osm2graph/model/WayToArc.java:226-244 | the arcs of a way run between vertices of the arena |
| WayConversion.ArcsOfSnoc | src/main/org/laas/osm2graph/model/WayToArc.java:236-238 | one more cut appends exactly one arc |
| WayConversion.CutStart | src/main/org/laas/osm2graph/model/WayToArc.java:225-229 | before the loop: no arc, origin the first node, points holding its point, length 0 |
| WayConversion.CutStepPlain | src/main/org/laas/osm2graph/model/WayToArc.java:231-234 | an unmarked node extends the points and the length of the open arc |
| WayConversion.ClosedArc | src/main/org/laas/osm2graph/model/WayToArc.java:236-238 | a marked node closes the open arc with the accumulated length and points |
| WayConversion.CutStepMarked | src/main/org/laas/osm2graph/model/WayToArc.java:236-243 | a marked node closes the open arc, then restarts the points at the node and the length at 0 |
| WayConversion.GlueCuts | src/main/org/laas/osm2graph/model/WayToArc.java:236-243 | arcs that each span one cut range glue back into the points up to the last cut |
| WayConversion.SpansArcsOf | src/main/org/laas/osm2graph/model/WayToArc.java:236-243 | each arc of a way spans its own cut range |
| WayConversion.GlueArcsOf | src/main/org/laas/osm2graph/model/WayToArc.java:226-244 | the arcs glued at their shared junction points give back the way's points up to the last cut |
| WayConversion.WayArcsCoverWay | src/main/org/laas/osm2graph/model/WayToArc.java:226-244 | when every node has a vertex and the last node is marked, the glued arcs are exactly the way's points |
| WayConversion.SingleNodeWay | src/main/org/laas/osm2graph/model/WayToArc.java:230 | a single-node way yields no arc |
| WayConversion.WayArcsCount | src/main/org/laas/osm2graph/model/WayToArc.java:236-238 | there is exactly one arc per marked position after the first node, up to the first node without a vertex |
| WayConversion.ChunkBound | src/main/org/laas/osm2graph/model/WayToArc.java:265-271 | the threads' ranges together reach past the last way |
| WayConversion.Chunk | src/main/org/laas/osm2graph/model/WayToArc.java:265-271 | thread i's range `(i*n, min((i+1)*n, size))` with `n = size/threads + 1`; no contract of its own: `WayConversion.ChunkBound`, `WayConversion.ChunksCover` and `WayConversion.InvertedChunk` state its properties |
| WayConversion.ChunksCover | src/main/org/laas/osm2graph/model/WayToArc.java:265-271 | the ranges start at 0, meet end to start, and the last ends at the number of ways, when no range is inverted |
| WayConversion.InvertedChunk | src/main/org/laas/osm2graph/model/WayToArc.java:53 | with 5 ways and 4 threads the last range is (6, 5), so `new ArrayList<>(last - first)` throws |
| WayConversion.InterningProperties | src/main/org/laas/osm2graph/model/WayToArc.java:168-177 | the record handed out equals the fresh one; a pooled equal record is returned unchanged; otherwise the pool gains exactly the fresh record; no pooled record is replaced |
| WayConversion.InterningIdempotent | src/main/org/laas/osm2graph/model/WayToArc.java:168-177 | interning an equal record a second time returns the first one and leaves the pool as it was |
| WayConversion.WayToArc.constructor | src/main/org/laas/osm2graph/model/WayToArc.java:102-107 | no marks and an empty pool |
| WayConversion.WayToArc.Intern | src/main/org/laas/osm2graph/model/WayToArc.java:167-177 | the pooled record equal to the fresh one is returned, or the fresh one is stored and returned |
| WayConversion.WayToArc.GetOrCreateRoadInformation | src/main/org/laas/osm2graph/model/WayToArc.java:150-179 | the record is that of the kept tags, interned; when `getMaximumSpeed` throws, the error and an unchanged pool |
| WayConversion.WayToArc.Convert | src/main/org/laas/osm2graph/model/WayToArc.java:215-248 | an exception exactly for an empty way or a node without a vertex; otherwise the way's arcs, each appended to its origin's successors, with the interned record |
| WayConversion.WayToArc.AdvanceNode | src/main/org/laas/osm2graph/model/WayToArc.java:230-244 | one iteration of the node loop keeps the cut invariant |
| WayConversion.WayToArc.CloseArc | src/main/org/laas/osm2graph/model/WayToArc.java:236-244 | a marked node builds the arc on the arena and restarts the open arc |
| WayConversion.WayToArc.CutWay | src/main/org/laas/osm2graph/model/WayToArc.java:221-247 | the node loop builds the way's arcs, or throws at the first node without a vertex |
| WayConversion.WayToArc.ConvertAll | src/main/org/laas/osm2graph/model/WayToArc.java:257-312 | `convert(List)`: an empty way fails in `findVertex` with an index error; then a zero thread count divides by zero and a negative one fails the array creation; an inverted thread range fails the processor's list creation. It succeeds exactly when none of these happens, and then the marks are the repeated ids and the way ends, the result is the arcs of the kept ways (each range up to its first failing way) in thread order, with every exception inside a thread swallowed, and the attached arcs are each thread's collected arcs followed by its failing way's partial arcs (`ThreadsAttached`) |
| WayConversion.WayToArc.ThreadsStart | src/main/org/laas/osm2graph/model/WayToArc.java:296 | before any thread: no way kept, no arc collected or attached |
| WayConversion.WayToArc.RunThreads | src/main/org/laas/osm2graph/model/WayToArc.java:265-312 | the thread loop: it fails with IllegalArgument exactly when some thread range is inverted; otherwise the collected arcs are the kept ways' arcs for all the threads, the marks are unchanged, and the arena holds exactly the attached arcs: thread by thread, its collected arcs, then the partial arcs of its first failing way, if any (`ThreadsAttached`) |
| WayConversion.WayToArc.RunThread | src/main/org/laas/osm2graph/model/WayToArc.java:269-274 | thread i's range is computed as `(i*n, min((i+1)*n, size))`; it is inverted exactly when that range is, and then not every range is upright; otherwise the state covers one more thread: its arcs are appended after the earlier threads', and the arena gains those arcs followed by its failing way's partial arcs |
| WayConversion.WayToArc.ConvertNext | src/main/org/laas/osm2graph/model/WayToArc.java:73-74 | `convert(way)` fails exactly when the way is flagged failing; the arena gains exactly `LeftAttached` of the way, whether it fails or not; on success that is the returned arc list, and the way, its record and its arcs are appended; on failure no way is recorded |
| WayConversion.WayToArcProcessor.constructor | src/main/org/laas/osm2graph/model/WayToArc.java:48-54 | the processor starts with no ways processed and no arcs, over the given range |
| WayConversion.WayToArcProcessor.Run | src/main/org/laas/osm2graph/model/WayToArc.java:71-79 | the processor converts its range up to its first failing way: the count is the number of ways before it, those ways are recorded in order, its arcs follow the arcs collected before, and the arena gains its arcs followed by the failing way's partial arcs, or nothing more when the whole range converts |
| WayConversion.WayToArcProcessor.Step | src/main/org/laas/osm2graph/model/WayToArc.java:72-77 | one turn: it stops exactly when the way fails, and then changes neither count nor arcs; otherwise the count rises by one, the way is recorded and its arcs are appended; either way the arena gains exactly what `convert(way)` attached |
| WayConversion.FirstFailure | src/main/org/laas/osm2graph/model/WayToArc.java:71-79 | where a thread stops lies within its range |
| WayConversion.FirstFailureSound | src/main/org/laas/osm2graph/model/WayToArc.java:71-79 | no way before the stop fails, and the way at the stop, if it is in range, does |
| WayConversion.FirstFailureStep | src/main/org/laas/osm2graph/model/WayToArc.java:72-73 | a thread that reached way i without failing stops there exactly when way i fails |
| WayConversion.ReachBeforeChunk | src/main/org/laas/osm2graph/model/WayToArc.java:270-271 | a range starts no earlier than where the ranges before it end |
| WayConversion.RangesMeet | src/main/org/laas/osm2graph/model/WayToArc.java:270-271 | when the ranges are upright, each starts where the one before ends |
| WayConversion.KeptWaysSound | src/main/org/laas/osm2graph/model/WayToArc.java:296-307 | every way whose arcs are collected lies within the threads' reach and does not fail |
| WayConversion.KeptWaysIncreasing | src/main/org/laas/osm2graph/model/WayToArc.java:296-307 | the collected ways come in strictly increasing order, so no way's arcs appear twice |
| WayConversion.KeptWaysStep | src/main/org/laas/osm2graph/model/WayToArc.java:306 | joining one more upright thread appends its ways up to its first failure |
| WayConversion.KeptAllUpTo | src/main/org/laas/osm2graph/model/WayToArc.java:296-307 | when no way fails, the first c threads hand back every way up to their reach, in order |
| WayConversion.KeptEveryWay | src/main/org/laas/osm2graph/model/WayToArc.java:296-307 | when no way fails and no range is inverted, every way's arcs are collected, in way order |
| WayConversion.OneThreadKeepsPrefix | src/main/org/laas/osm2graph/model/WayToArc.java:71-79 | with one thread the collected ways are exactly those before the first failing way; the rest are dropped silently |
| WayConversion.ConvertedGrow | src/main/org/laas/osm2graph/model/WayToArc.java:226-244 | more arcs attached within the arena, and a pool that only grew, keep the recorded conversions valid |
| WayConversion.ConvertedSnoc | src/main/org/laas/osm2graph/model/WayToArc.java:73-74 | a way converted with a grown pool is recorded after the ways converted so far |
| WayConversion.LeftAttached | src/main/org/laas/osm2graph/model/WayToArc.java:215-248 | what `convert(way)` attaches, failing or not, lies within the arena |
| WayConversion.ConvertedStep | src/main/org/laas/osm2graph/model/WayToArc.java:215-248 | `convert(way)` attaches the way's arcs (none when the speed is rejected), and records the way only when it does not fail |
| WayConversion.ThreadsAttachedSnoc | src/main/org/laas/osm2graph/model/WayToArc.java:296-307 | one more thread, with its collected arcs and its failing way's partial arcs, extends the collected arcs by the former and the attached arcs by both, in that order |
| WayConversion.CollectedAttached | src/main/org/laas/osm2graph/model/WayToArc.java:296-307 | every arc the threads collect is among the arcs they attached |
| WayConversion.AttachedIsSuccessor | src/main/org/laas/osm2graph/model/WayToArc.java:215-248 | an arc attached to the arena is among its origin's successors there |
| WayConversion.CollectedInArena | src/main/org/laas/osm2graph/model/WayToArc.java:296-307 | after the threads every collected arc is among its origin's successors in the arena |
| WayConversion.WayToArc.MarkRepeats | src/main/org/laas/osm2graph/model/WayToArc.java:193-201 | the inner loop marks the ids met before, and records every id as met |
| WayConversion.WayToArc.ScanWay | src/main/org/laas/osm2graph/model/WayToArc.java:191-204 | one way scanned: repeats and both ends marked, or an exception for an empty way |
| WayConversion.WayToArc.FindVertex | src/main/org/laas/osm2graph/model/WayToArc.java:189-205 | marks are only added: all ids met twice or more, and every way's first and last id; an empty way throws after the ways before it were scanned |
| Graphs.Distances | src/main/org/laas/osm2graph/graph/Graph.java:37-38 | the distance from the point to each node, in node order |
| Graphs.FirstMinimumUnique | src/main/org/laas/osm2graph/graph/Graph.java:37-43 | the closest node is determined: there is one first position of minimal distance |
| Graphs.FindClosestNode | src/main/org/laas/osm2graph/graph/Graph.java:34-45 | null exactly for an empty node list; otherwise a node of minimal distance with no earlier node as close, since the comparison is strict |
| Graphs.Transpose | src/main/org/laas/osm2graph/graph/Graph.java:55-58 | `transpose` always returns null |
| Paths.ShortestLinkUnique | src/main/org/laas/osm2graph/graph/Path.java:33-41 | the chosen arc is determined: one first arc of minimal length among the matching successors |
| Paths.ShortestLink | src/main/org/laas/osm2graph/graph/Path.java:31-44 | the inner loop finds no arc exactly when no successor leads to the next node by id; otherwise a matching arc of minimal length, ties going to the earliest |
| Paths.NewPath | src/main/org/laas/osm2graph/graph/Path.java:23-48 | an empty node list throws at `nodes.get(0)`; on success there are `nodes.size() - 1` arcs, arc k being the shortest successor of node k leading to node k + 1; otherwise the first pair without a link throws IllegalArgumentException naming both ids |
| Paths.GetOrigin | src/main/org/laas/osm2graph/graph/Path.java:67 | the first arc's origin, and an exception for an empty path |
| Paths.GetDestination | src/main/org/laas/osm2graph/graph/Path.java:72 | the last arc's destination, and an exception for an empty path |
| Paths.EndsOfPath | src/main/org/laas/osm2graph/graph/Path.java:23-72 | a path built from two or more nodes starts at the first node and ends at a vertex with the last node's id |
| Paths.SingleNodePath | src/main/org/laas/osm2graph/graph/Path.java:28-29 | a single node gives no arc, so `getOrigin` and `getDestination` throw |
| Paths.IsValid | src/main/org/laas/osm2graph/graph/Path.java:84-87 | `isValid` always returns false |
| Paths.GetLength | src/main/org/laas/osm2graph/graph/Path.java:92-95 | `getLength` always returns 0 |
| Paths.GetMinimumTravelTime | src/main/org/laas/osm2graph/graph/Path.java:100-103 | `getMinimumTravelTime` always returns 0 |
| Task.ConsistentAdd | src/main/org/laas/osm2graph/osmosis/OSM2GraphTask.java:170-175 | putting a new vertex under its id keeps the id map consistent with the arena |
| Task.OSM2GraphTask.constructor | src/main/org/laas/osm2graph/osmosis/OSM2GraphTask.java:72-76 | `initialize` starts with no vertices, no id entries, no ways and both counters at zero |
| Task.OSM2GraphTask.Process | src/main/org/laas/osm2graph/osmosis/OSM2GraphTask.java:159-193 | a node appends one vertex with the node's id and (longitude, latitude) point and maps its id to it; a way is appended to the list; bounds and relations change nothing; each counter is incremented with 32-bit wrap-around |
| Task.WayArcsEndsMapped | src/main/org/laas/osm2graph/osmosis/OSM2GraphTask.java:93 | the arcs converted from one way have ends that the id map sends to themselves |
| Task.ConvertedEndsMapped | src/main/org/laas/osm2graph/osmosis/OSM2GraphTask.java:93 | the same holds for the arcs of all the ways, in order |
| Task.RenumberedWellFormed | src/main/org/laas/osm2graph/osmosis/OSM2GraphTask.java:97-119 | the renumbered arena is well formed and every listed new vertex is in it |
| Task.ConvertedForRenumbering | src/main/org/laas/osm2graph/osmosis/OSM2GraphTask.java:93 | after conversion the arcs are the kept ways' arcs in way order, each as `WayArcs` over the arena before conversion with the way's interned record; the arena after conversion is that arena with the attached arcs added, and the arcs' ends are mapped in it, as the renumbering needs |
| Task.ConvertWays | src/main/org/laas/osm2graph/osmosis/OSM2GraphTask.java:93 | `new WayToArc(vertices, configuration).convert(ways)`: the same error cases and the same success condition as `convert`; on success the arcs are those of the kept ways, each cut at the junctions of all the ways; the arena gains, thread by thread, the collected arcs and the failing way's partial arcs; every returned arc is among its origin's successors; and their ends are mapped as the renumbering needs |
| Task.EndpointIds | src/main/org/laas/osm2graph/osmosis/OSM2GraphTask.java:99-102 | the ids the renumbering loop meets, in order: the origin then the destination of each arc |
| Task.Visited | src/main/org/laas/osm2graph/osmosis/OSM2GraphTask.java:103-111 | the ids renumbered after s ends have been met, each mapped to an old vertex |
| Task.VisitedPrefix | src/main/org/laas/osm2graph/osmosis/OSM2GraphTask.java:103-111 | the renumbered ids are a prefix of the ids in first-encounter order, and all of them once every end is met |
| Task.VisitedSeen | src/main/org/laas/osm2graph/osmosis/OSM2GraphTask.java:103-111 | an id met again creates no new vertex |
| Task.NewNotVisited | src/main/org/laas/osm2graph/osmosis/OSM2GraphTask.java:103-111 | an id met for the first time is not yet renumbered and becomes the next one |
| Task.SeenRemapped | src/main/org/laas/osm2graph/osmosis/OSM2GraphTask.java:103-111 | an id met again already points to a new vertex, so the identity test fails for it |
| Task.NewVertices | src/main/org/laas/osm2graph/osmosis/OSM2GraphTask.java:104-109 | the k-th new vertex has id k, the point of the old vertex of the k-th distinct id and no successors |
| Task.NewVerticesSnoc | src/main/org/laas/osm2graph/osmosis/OSM2GraphTask.java:104-110 | one more distinct id appends one vertex numbered by the count so far |
| Task.Remap | src/main/org/laas/osm2graph/osmosis/OSM2GraphTask.java:106-111 | re-pointing the renumbered ids keeps the id map's key set |
| Task.RemapSnoc | src/main/org/laas/osm2graph/osmosis/OSM2GraphTask.java:106-111 | renumbering one more id changes only that id's entry, to the next new vertex |
| Task.RemapVisited | src/main/org/laas/osm2graph/osmosis/OSM2GraphTask.java:106-111 | a renumbered id points to the new vertex numbered by its first-encounter position |
| Task.RenumberArcs | src/main/org/laas/osm2graph/osmosis/OSM2GraphTask.java:113-114 | the recreated arcs, one per arc in order, each built on the new vertices of its end ids |
| Task.RenumberArcsSnoc | src/main/org/laas/osm2graph/osmosis/OSM2GraphTask.java:113-114 | recreating one more arc appends exactly that arc's copy |
| Task.RenumberStart | src/main/org/laas/osm2graph/osmosis/OSM2GraphTask.java:97-99 | the renumbering invariant holds before the first arc |
| Task.RenumberingArena | src/main/org/laas/osm2graph/osmosis/OSM2GraphTask.java:98-112 | during the loop the arena grows by exactly one vertex per new id, and the old vertices keep their ids and points |
| Task.VisitSeen | src/main/org/laas/osm2graph/osmosis/OSM2GraphTask.java:103-111 | visiting an end already met keeps the invariant and changes nothing |
| Task.VisitNew | src/main/org/laas/osm2graph/osmosis/OSM2GraphTask.java:103-111 | visiting a new end creates the next numbered vertex with the old point and re-points that id |
| Task.RenumberedSnoc | src/main/org/laas/osm2graph/osmosis/OSM2GraphTask.java:103-111 | the invariant in terms of the renumbered ids extends by one new id |
| Task.ArcStep | src/main/org/laas/osm2graph/osmosis/OSM2GraphTask.java:113-114 | recreating an arc on the re-pointed ends appends it to its new origin and keeps the invariant |
| Task.RenumberedArc | src/main/org/laas/osm2graph/osmosis/OSM2GraphTask.java:113-114 | the same step in terms of the renumbered ids: both ends are already new vertices |
| Task.OSM2GraphTask.VisitEnd | src/main/org/laas/osm2graph/osmosis/OSM2GraphTask.java:103-111 | one identity test and, when it holds, one new vertex appended and one map entry re-pointed |
| Task.OSM2GraphTask.RenumberOne | src/main/org/laas/osm2graph/osmosis/OSM2GraphTask.java:100-114 | one iteration of the loop: both ends visited, then the arc recreated on the new vertices |
| Task.OSM2GraphTask.Renumber | src/main/org/laas/osm2graph/osmosis/OSM2GraphTask.java:97-119 | the whole loop ends in the renumbered state: new vertices in first-encounter order, arcs recreated on them, ids re-pointed |
| Task.RenumberingDone | src/main/org/laas/osm2graph/osmosis/OSM2GraphTask.java:97-119 | the invariant at the end of the loop is the renumbered state |
| Task.FinalNewVertices | src/main/org/laas/osm2graph/osmosis/OSM2GraphTask.java:98-112 | one new vertex per distinct end id, each with no successors of its own before the arcs |
| Task.RenumberedOriginsIn | src/main/org/laas/osm2graph/osmosis/OSM2GraphTask.java:113-114 | every recreated arc starts at a new vertex |
| Task.RenumberedOriginsAbove | src/main/org/laas/osm2graph/osmosis/OSM2GraphTask.java:113-114 | no recreated arc starts at an old vertex |
| Task.RenumberedOldVertices | src/main/org/laas/osm2graph/osmosis/OSM2GraphTask.java:98-114 | the old vertices are left exactly as they were, and the arena grows by the number of distinct end ids |
| Task.RenumberedNewVertex | src/main/org/laas/osm2graph/osmosis/OSM2GraphTask.java:104-109 | the k-th new vertex has id k and the point of the old vertex of the k-th distinct end id |
| Task.RenumberedSuccessors | src/main/org/laas/osm2graph/osmosis/OSM2GraphTask.java:113-114 | a new vertex's successors are exactly the recreated arcs leaving it, in arc order |
| Task.RenumberedEnd | src/main/org/laas/osm2graph/osmosis/OSM2GraphTask.java:103-111 | an end id's new vertex is numbered by its first-encounter position and keeps its point |
| Task.RenumberedEndOf | src/main/org/laas/osm2graph/osmosis/OSM2GraphTask.java:103-111 | the new vertex of an old vertex that is an arc end has that old vertex's point |
| Task.RenumberedArcShape | src/main/org/laas/osm2graph/osmosis/OSM2GraphTask.java:113-114 | each recreated arc differs from the original only in its two ends, which are the new vertices of the end ids |
| Task.RenumberedArcFields | src/main/org/laas/osm2graph/osmosis/OSM2GraphTask.java:113-114 | each recreated arc keeps id, length, road information and shape points, and its ends lie at the original ends' points |
| Task.RenumberedArcListed | src/main/org/laas/osm2graph/osmosis/OSM2GraphTask.java:113-114 | each recreated arc is among its new origin's successors |
| Task.RenumberedSameEnds | src/main/org/laas/osm2graph/osmosis/OSM2GraphTask.java:113-114 | two recreated arcs share an end exactly when the originals shared it |
| Task.SelfLoopOneVertex | src/main/org/laas/osm2graph/osmosis/OSM2GraphTask.java:103-111 | an arc from a vertex to itself creates one new vertex, which both ends of its copy use |
| Task.RemapEntries | src/main/org/laas/osm2graph/osmosis/OSM2GraphTask.java:106-111 | ids not met keep their vertex; each end id points to its new vertex, whose point is the old one's |
| Task.RenumberedNodesSorted | src/main/org/laas/osm2graph/osmosis/OSM2GraphTask.java:120-125 | the new vertices are already in strictly increasing order of `compareTo` |
| Task.SortedRangeUnique | src/main/org/laas/osm2graph/osmosis/OSM2GraphTask.java:120-125 | a permutation of the new vertices sorted by `compareTo` is that same order, so the sort leaves the list as it is |
| Task.OSM2GraphTask.Complete | src/main/org/laas/osm2graph/osmosis/OSM2GraphTask.java:82-134 | the conversion errors of `convert`, and success exactly when `convert` succeeds, whatever fails inside a thread; on success the renumbered vertices of the kept ways' arcs form the node list of a graph carrying the configured map id and name, the arena is well formed and holds every listed node, and the ways and counters are unchanged |
| GraphWriting.Write24Bits | src/main/org/laas/osm2graph/writers/BinaryGraphWriterInsa2018.java:110-113 | three bytes: a short of the value shifted right by 8, then its low byte |
| GraphWriting.Write24BitsValue | src/main/org/laas/osm2graph/writers/BinaryGraphWriterInsa2018.java:110-113 | the three bytes read back big-endian are the value's low 24 bits |
| GraphWriting.Write24BitsExact | src/main/org/laas/osm2graph/writers/BinaryGraphWriterInsa2018.java:110-113 | a value below 2^24 reads back unchanged |
| GraphWriting.WriteName | src/main/org/laas/osm2graph/writers/BinaryGraphWriterInsa2018.java:134 | `writeUTF`: a null string throws; a modified UTF-8 encoding over 65535 bytes throws; otherwise its length as a short, then the encoding |
| GraphWriting.ArcListSnoc | src/main/org/laas/osm2graph/writers/BinaryGraphWriterInsa2018.java:175-176 | the arcs are visited node by node, each node's successors in their list order |
| GraphWriting.ArcListDestinations | src/main/org/laas/osm2graph/writers/BinaryGraphWriterInsa2018.java:175-179 | every visited arc's destination is in the arena |
| GraphWriting.InfoKeys | src/main/org/laas/osm2graph/writers/BinaryGraphWriterInsa2018.java:115-125 | the lookup key of each visited arc's road information, in visiting order |
| GraphWriting.InfoKeysSnoc | src/main/org/laas/osm2graph/writers/BinaryGraphWriterInsa2018.java:118-121 | one more arc adds its own key at the end |
| GraphWriting.SuccessorVisited | src/main/org/laas/osm2graph/writers/BinaryGraphWriterInsa2018.java:175-176 | every successor of a listed node is among the visited arcs |
| GraphWriting.WritableAppend | src/main/org/laas/osm2graph/writers/BinaryGraphWriterInsa2018.java:175-198 | two writable arc lists concatenate to a writable one |
| GraphWriting.ArcsWritable | src/main/org/laas/osm2graph/writers/BinaryGraphWriterInsa2018.java:182 | the road information of every successor of a listed node is in the index, so `infos.get` never returns null |
| GraphWriting.AllArcsWritable | src/main/org/laas/osm2graph/writers/BinaryGraphWriterInsa2018.java:175-198 | the same for every visited arc |
| GraphWriting.IndexInfos | src/main/org/laas/osm2graph/writers/BinaryGraphWriterInsa2018.java:115-125 | `getRoadInformations`: each distinct key numbered by the position of its first occurrence in the visiting order |
| GraphWriting.IndexSuccessors | src/main/org/laas/osm2graph/writers/BinaryGraphWriterInsa2018.java:118-122 | the inner loop over one node's successors extends that numbering |
| GraphWriting.SortInfos | src/main/org/laas/osm2graph/writers/BinaryGraphWriterInsa2018.java:139-142 | `sortedInfos` lists the distinct keys in first-encounter order |
| GraphWriting.VertexRecord | src/main/org/laas/osm2graph/writers/BinaryGraphWriterInsa2018.java:149-153 | nine bytes: fixed-point longitude and latitude as 32-bit ints, then the successor count as a byte |
| GraphWriting.Fixed6 | src/main/org/laas/osm2graph/writers/BinaryGraphWriterInsa2018.java:150-151 | `(int)(coordinate * 1e6)` on the exact real; no contract of its own: its range and rounding are those of `JavaString.IntOfDouble` |
| GraphWriting.VertexSection | src/main/org/laas/osm2graph/writers/BinaryGraphWriterInsa2018.java:149-153 | nine bytes per node |
| GraphWriting.VertexRecordAt | src/main/org/laas/osm2graph/writers/BinaryGraphWriterInsa2018.java:149-153 | bytes 9k to 9k+9 are the k-th node's record |
| GraphWriting.WriteVertices | src/main/org/laas/osm2graph/writers/BinaryGraphWriterInsa2018.java:149-153 | the node loop writes exactly the vertex section |
| GraphWriting.SpeedByteDecodes | src/main/org/laas/osm2graph/writers/BinaryGraphWriterInsa2018.java:162-166 | the speed byte's high bit is the one-way flag and its low seven bits are the maximum speed divided by 5 |
| GraphWriting.SpeedByte | src/main/org/laas/osm2graph/writers/BinaryGraphWriterInsa2018.java:162-166 | the one-way flag or'ed into `maxSpeed / 5` as a byte; no contract of its own: `GraphWriting.SpeedByteDecodes` states how it decodes |
| GraphWriting.Delta | src/main/org/laas/osm2graph/writers/BinaryGraphWriterInsa2018.java:191-196 | four bytes per shape point: the quantised longitude and latitude differences as shorts |
| GraphWriting.Deltas | src/main/org/laas/osm2graph/writers/BinaryGraphWriterInsa2018.java:191-196 | four bytes for each point after the first up to the given count |
| GraphWriting.ShapeLayout | src/main/org/laas/osm2graph/writers/BinaryGraphWriterInsa2018.java:188-196 | the segment count `points.size() - 2` as a short, then the delta of each inner point from its predecessor |
| GraphWriting.Shape | src/main/org/laas/osm2graph/writers/BinaryGraphWriterInsa2018.java:188-196 | the shape bytes; no contract of its own: `GraphWriting.ShapeLayout` and `GraphWriting.DeltaAt` state its layout |
| GraphWriting.DeltaAt | src/main/org/laas/osm2graph/writers/BinaryGraphWriterInsa2018.java:191-196 | the i-th four bytes are the delta of point i from point i - 1 |
| GraphWriting.WriteShape | src/main/org/laas/osm2graph/writers/BinaryGraphWriterInsa2018.java:188-196 | the point loop writes exactly the shape bytes |
| GraphWriting.AssembleLayout | src/main/org/laas/osm2graph/writers/BinaryGraphWriterInsa2018.java:128-201 | after the header: the two counts, the vertex records, sentinel 255, the infos, sentinel 254, the arcs and sentinel 253, at those offsets |
| GraphWriting.AssembleInOrder | src/main/org/laas/osm2graph/writers/BinaryGraphWriterInsa2018.java:128-201 | the file is the concatenation of those fields in writing order |
| GraphWriting.FrontLayout | src/main/org/laas/osm2graph/writers/BinaryGraphWriterInsa2018.java:130-153 | the header, the counts and the vertex records sit at consecutive offsets |
| GraphWriting.BackLayout | src/main/org/laas/osm2graph/writers/BinaryGraphWriterInsa2018.java:156-201 | the three sentinels delimit the info and arc sections |
| Insa2018.TypeOfChar | src/main/org/laas/osm2graph/writers/BinaryGraphWriterInsa2018.java:46-86 | a letter decodes to a road type whose letter it is |
| Insa2018.GetCharFromType | src/main/org/laas/osm2graph/writers/BinaryGraphWriterInsa2018.java:46-86 | the letter of each road type, 'a' onwards in declaration order; no contract of its own: `Insa2018.CharFromTypeDecodes` states that the letters are a code |
| Insa2018.CharFromTypeDecodes | src/main/org/laas/osm2graph/writers/BinaryGraphWriterInsa2018.java:46-86 | every road type has its own letter, so the 2018 letters are a code |
| Insa2018.MapIdField | src/main/org/laas/osm2graph/writers/BinaryGraphWriterInsa2018.java:133 | `Arrays.copyOf` of the UTF-8 id to 32 bytes: the id followed by zero bytes, or its first 32 bytes when it is longer |
| Insa2018.Validate | src/main/org/laas/osm2graph/writers/BinaryGraphWriterInsa2018.java:212-229 | accepts exactly an id of at most 32 UTF-8 bytes together with a map name; a longer id is refused with its length |
| Insa2018.ValidatedIdWrittenWhole | src/main/org/laas/osm2graph/writers/BinaryGraphWriterInsa2018.java:133 | an id that passes validation is written whole, followed by zero padding |
| Insa2018.Header | src/main/org/laas/osm2graph/writers/BinaryGraphWriterInsa2018.java:130-134 | the header fails exactly when `writeUTF` of the map name fails, and a missing name throws |
| Insa2018.HeaderLayout | src/main/org/laas/osm2graph/writers/BinaryGraphWriterInsa2018.java:130-134 | magic number 0x208BC3B3, version 8, the 32-byte id field, then the name's length and encoding |
| Insa2018.GetRoadInformations | src/main/org/laas/osm2graph/writers/BinaryGraphWriterInsa2018.java:115-125 | road information numbered by value (`HashMap` with `equals`) in first-encounter order |
| Insa2018.InfoIndexSound | src/main/org/laas/osm2graph/writers/BinaryGraphWriterInsa2018.java:137-182 | every visited arc's information has an index whose table entry is it, and two arcs share an index exactly when their information objects are `equals` |
| Insa2018.InfoIndexDense | src/main/org/laas/osm2graph/writers/BinaryGraphWriterInsa2018.java:139-142 | every table position is the index of some visited arc's information |
| Insa2018.InfoRecord | src/main/org/laas/osm2graph/writers/BinaryGraphWriterInsa2018.java:159-169 | a record fails exactly when writing the road name fails |
| Insa2018.InfoRecordLayout | src/main/org/laas/osm2graph/writers/BinaryGraphWriterInsa2018.java:161-168 | type letter, speed byte, the 64-bit access mask, then the name |
| Insa2018.InfoSection | src/main/org/laas/osm2graph/writers/BinaryGraphWriterInsa2018.java:159-169 | the section fails exactly when some record fails |
| Insa2018.InfoSectionFirstError | src/main/org/laas/osm2graph/writers/BinaryGraphWriterInsa2018.java:159-169 | the error raised is the first failing record's |
| Insa2018.WriteInfos | src/main/org/laas/osm2graph/writers/BinaryGraphWriterInsa2018.java:159-169 | the descriptor loop writes exactly the info section |
| Insa2018.WriteInfo | src/main/org/laas/osm2graph/writers/BinaryGraphWriterInsa2018.java:161-168 | one iteration writes exactly one record |
| Insa2018.ArcRecordLayout | src/main/org/laas/osm2graph/writers/BinaryGraphWriterInsa2018.java:179-196 | destination id and info index as 24-bit fields, length times 1000 as a 32-bit int, then the shape |
| Insa2018.ArcSectionAppend | src/main/org/laas/osm2graph/writers/BinaryGraphWriterInsa2018.java:175-198 | the arc section of a concatenation is the concatenation of the sections |
| Insa2018.ArcSectionSnoc | src/main/org/laas/osm2graph/writers/BinaryGraphWriterInsa2018.java:176-197 | one more arc appends its record |
| Insa2018.WriteArcs | src/main/org/laas/osm2graph/writers/BinaryGraphWriterInsa2018.java:175-198 | the nested loop writes exactly the arc section of the visited arcs, every one of them writable |
| Insa2018.WriteSuccessors | src/main/org/laas/osm2graph/writers/BinaryGraphWriterInsa2018.java:176-197 | the inner loop writes one node's successors in order |
| Insa2018.GraphBytes | src/main/org/laas/osm2graph/writers/BinaryGraphWriterInsa2018.java:128-201 | the write fails exactly when the header's name or some road name cannot be written |
| Insa2018.WriteGraph | src/main/org/laas/osm2graph/writers/BinaryGraphWriterInsa2018.java:128-205 | `writeGraph` produces exactly the specified bytes or error |
| Insa2016.TypeOfChar | src/main/org/laas/osm2graph/writers/BinaryGraphWriterInsa2016.java:36-72 | a letter decodes to a road type whose letter it is |
| Insa2016.GetCharFromType | src/main/org/laas/osm2graph/writers/BinaryGraphWriterInsa2016.java:36-72 | the 2016 letter of each road type, 'k' for the types the switch does not list; no contract of its own: `Insa2016.CharFromTypeDecodes` and `Insa2016.SharedLetters` state its meaning |
| Insa2016.CharFromTypeDecodes | src/main/org/laas/osm2graph/writers/BinaryGraphWriterInsa2016.java:36-72 | the types in the 2016 table decode back; the others share the fallback letter 'k' with unclassified |
| Insa2016.SharedLetters | src/main/org/laas/osm2graph/writers/BinaryGraphWriterInsa2016.java:36-72 | the two formats give a type the same letter exactly when the 2016 table lists it |
| Insa2016.Header | src/main/org/laas/osm2graph/writers/BinaryGraphWriterInsa2016.java:117-121 | sixteen header bytes |
| Insa2016.HeaderLayout | src/main/org/laas/osm2graph/writers/BinaryGraphWriterInsa2016.java:117-121 | magic number 0xbacaff, version 4, the numeric map id, then zone 0 |
| Insa2016.GetRoadInformations | src/main/org/laas/osm2graph/writers/BinaryGraphWriterInsa2016.java:101-112 | road information numbered by object identity (`IdentityHashMap`) in first-encounter order |
| Insa2016.InfoIndexSound | src/main/org/laas/osm2graph/writers/BinaryGraphWriterInsa2016.java:124-171 | every visited arc's information has an index whose table entry is it, and two arcs share an index exactly when they hold the same object |
| Insa2016.InfoIndexDense | src/main/org/laas/osm2graph/writers/BinaryGraphWriterInsa2016.java:126-129 | every table position is the index of some visited arc's information |
| Insa2016.InfoRecord | src/main/org/laas/osm2graph/writers/BinaryGraphWriterInsa2016.java:146-155 | a record fails exactly when writing the road name fails |
| Insa2016.InfoRecordLayout | src/main/org/laas/osm2graph/writers/BinaryGraphWriterInsa2016.java:148-154 | type letter, speed byte, then the name, with no access mask |
| Insa2016.InfoSection | src/main/org/laas/osm2graph/writers/BinaryGraphWriterInsa2016.java:146-155 | the section fails exactly when some record fails |
| Insa2016.InfoSectionFirstError | src/main/org/laas/osm2graph/writers/BinaryGraphWriterInsa2016.java:146-155 | the error raised is the first failing record's |
| Insa2016.WriteInfos | src/main/org/laas/osm2graph/writers/BinaryGraphWriterInsa2016.java:146-155 | the descriptor loop writes exactly the info section |
| Insa2016.WriteInfo | src/main/org/laas/osm2graph/writers/BinaryGraphWriterInsa2016.java:148-154 | one iteration writes exactly one record |
| Insa2016.ArcRecordLayout | src/main/org/laas/osm2graph/writers/BinaryGraphWriterInsa2016.java:165-185 | zone byte 0, destination id and info index as 24-bit fields, length as a short, then the shape |
| Insa2016.ArcSectionAppend | src/main/org/laas/osm2graph/writers/BinaryGraphWriterInsa2016.java:161-187 | the arc section of a concatenation is the concatenation of the sections |
| Insa2016.ArcSectionSnoc | src/main/org/laas/osm2graph/writers/BinaryGraphWriterInsa2016.java:162-186 | one more arc appends its record |
| Insa2016.WriteArcs | src/main/org/laas/osm2graph/writers/BinaryGraphWriterInsa2016.java:161-187 | the nested loop writes exactly the arc section of the visited arcs, every one of them writable |
| Insa2016.WriteSuccessors | src/main/org/laas/osm2graph/writers/BinaryGraphWriterInsa2016.java:162-186 | the inner loop writes one node's successors in order |
| Insa2016.GraphBytes | src/main/org/laas/osm2graph/writers/BinaryGraphWriterInsa2016.java:115-190 | the write fails exactly when some road name cannot be written |
| Insa2016.WriteGraph | src/main/org/laas/osm2graph/writers/BinaryGraphWriterInsa2016.java:115-194 | `writeGraph` produces exactly the specified bytes or error |
| WriterFactory.GraphWriterFromName | src/main/org/laas/osm2graph/writers/GraphWriterFactory.java:18-28 | a writer exactly when the lower-cased name is a table key; a null or unknown name ends in a null-pointer exception |
| WriterFactory.AllowedWritersNames | src/main/org/laas/osm2graph/writers/GraphWriterFactory.java:30-33 | the table maps "insa2016" and "insa2018" to their own writers and nothing else |
| WriterFactory.ToLowerOfLower | src/main/org/laas/osm2graph/writers/GraphWriterFactory.java:20 | lower-casing a name with no upper-case letter leaves it unchanged |
| WriterFactory.NameIsLowerCase | src/main/org/laas/osm2graph/writers/GraphWriterFactory.java:30-33 | the table keys are lower case |
| WriterFactory.AnyCasingSelects | src/main/org/laas/osm2graph/writers/GraphWriterFactory.java:18-20 | a name equal to a key ignoring case selects that key's writer |
| WriterFactory.UnknownNameFails | src/main/org/laas/osm2graph/writers/GraphWriterFactory.java:18-20 | a name equal to no key in any casing fails |
| WriterFactory.DefaultWriterIs2018 | src/main/org/laas/osm2graph/writers/GraphWriterFactory.java:9 | the default name "insa2018" selects the 2018 writer |
| WriterFactory.DefaultExtension | src/main/org/laas/osm2graph/writers/BinaryGraphWriterInsa2018.java:207-209 | each writer's extension is non-empty and has no '.' |
| WriterFactory.ExtensionsDistinct | src/main/org/laas/osm2graph/writers/BinaryGraphWriterInsa2016.java:23 | "map" and "mapgr" differ |
| Configuration.OutputPath | src/main/org/laas/osm2graph/model/OSM2GraphConfiguration.java:59-62 | the chosen path starts with the given one |
| Configuration.OutputPathProperties | src/main/org/laas/osm2graph/model/OSM2GraphConfiguration.java:60-62 | the chosen path has a '.'; a path with a '.' is kept; choosing twice changes nothing more |
| Configuration.OutputPathExtension | src/main/org/laas/osm2graph/model/OSM2GraphConfiguration.java:60-61 | a path without '.' gets "." and exactly the writer's extension, which then follows its last '.' |
| Configuration.CheckOutput | src/main/org/laas/osm2graph/model/OSM2GraphConfiguration.java:63-70 | the path is accepted exactly when it is not a directory and, if it exists, can be written |
| Configuration.OSM2GraphConfiguration.constructor | src/main/org/laas/osm2graph/model/OSM2GraphConfiguration.java:28-35 | every setting unset, and map id -1 |
| Configuration.OSM2GraphConfiguration.AddBboxConfiguration | src/main/org/laas/osm2graph/model/OSM2GraphConfiguration.java:43-47 | a given bounding box is stored; null changes nothing; no other field changes |
| Configuration.OSM2GraphConfiguration.AddOutputFile | src/main/org/laas/osm2graph/model/OSM2GraphConfiguration.java:55-74 | without a writer an internal error; a null file changes nothing; otherwise the completed path is checked and stored only when it passes; no other field changes |
| Configuration.OSM2GraphConfiguration.AddGraphWriter | src/main/org/laas/osm2graph/model/OSM2GraphConfiguration.java:81-87 | the looked-up writer is stored exactly when the lookup succeeds; no other field changes |
| Configuration.OSM2GraphConfiguration.AddPreferredLanguages | src/main/org/laas/osm2graph/model/OSM2GraphConfiguration.java:94-98 | non-blank text is stored split at ','; null or blank text changes nothing |
| Configuration.OSM2GraphConfiguration.SetMapId | src/main/org/laas/osm2graph/model/OSM2GraphConfiguration.java:35 | sets the map id only |
| Configuration.OSM2GraphConfiguration.SetThreads | src/main/org/laas/osm2graph/model/OSM2GraphConfiguration.java:33 | sets the thread count only |
| Configuration.OSM2GraphConfiguration.Validate | src/main/org/laas/osm2graph/model/OSM2GraphConfiguration.java:203-204 | `validate` accepts every configuration |
| Osm2GraphFactory.ParseMapId | src/main/org/laas/osm2graph/osmosis/OSM2GraphFactory.java:25-40 | a parsed id is a 32-bit int |
| Osm2GraphFactory.HexMapId | src/main/org/laas/osm2graph/osmosis/OSM2GraphFactory.java:27-30 | "0x" then hexadecimal digits parses them in base 16, as an unsigned value wrapped to int |
| Osm2GraphFactory.BinaryMapId | src/main/org/laas/osm2graph/osmosis/OSM2GraphFactory.java:31-34 | "0b" then binary digits parses them in base 2: this test comes before the octal one |
| Osm2GraphFactory.OctalMapId | src/main/org/laas/osm2graph/osmosis/OSM2GraphFactory.java:35-38 | '0' then octal digits parses them in base 8 |
| Osm2GraphFactory.DecimalMapId | src/main/org/laas/osm2graph/osmosis/OSM2GraphFactory.java:25-39 | a numeral not starting with '0' parses in base 10 |
| Osm2GraphFactory.EmptyRestFails | src/main/org/laas/osm2graph/osmosis/OSM2GraphFactory.java:25-39 | "0", "0x" and "0b" leave an empty string and fail; so does a leading '-' |
| Osm2GraphFactory.ArgumentOr | src/main/org/laas/osm2graph/osmosis/OSM2GraphFactory.java:45-53 | an argument's value when present, its default otherwise |
| Osm2GraphFactory.CreateConfiguration | src/main/org/laas/osm2graph/osmosis/OSM2GraphFactory.java:42-55 | the configuration from the arguments and defaults in order: an unknown writer fails first; then an output file the writer check rejects fails with its error; then a missing map id and an unparsable one fail; it succeeds exactly when the writer is known, the output file passes and the map id parses, and then every field is as its step sets it |
| JavaString.ToLowerChars | src/main/org/laas/osm2graph/model/SpeedData.java:43 | same length, each character lower-cased, no upper-case letter left |
| JavaString.ToLowerIdempotent | src/main/org/laas/osm2graph/model/RoadTypeData.java:43 | lower-casing twice is lower-casing once |
| JavaString.LastIndexOf | src/main/org/laas/osm2graph/model/OSM2GraphConfiguration.java:60 | -1 exactly when the character is absent; otherwise a position holding it with none after it |
| JavaString.LastIndexOfAppend | src/main/org/laas/osm2graph/model/OSM2GraphConfiguration.java:60-61 | appending text without the character keeps its last position |
| JavaString.Pieces | src/main/org/laas/osm2graph/model/OSM2GraphConfiguration.java:96 | the pieces between separators: one piece exactly when there is no separator, and no piece holds one |
| JavaString.StripTrailingEmpty | src/main/org/laas/osm2graph/model/OSM2GraphConfiguration.java:96 | `String.split` drops the trailing empty pieces and only those |
| JavaString.Split | src/main/org/laas/osm2graph/model/OSM2GraphConfiguration.java:96 | the text itself without a separator; otherwise the pieces without the trailing empty ones |
| JavaString.SplitOfJoin | src/main/org/laas/osm2graph/model/OSM2GraphConfiguration.java:96 | two separator-free pieces joined by the separator split back into them |
| JavaString.SplitOfSeparatorsOnly | src/main/org/laas/osm2graph/model/OSM2GraphConfiguration.java:96 | text made only of separators splits into nothing |
| JavaString.DigitValue | src/main/org/laas/osm2graph/osmosis/OSM2GraphFactory.java:39 | a digit's value below the radix, or -1 for a non-digit |
| JavaString.ParseInt | src/main/org/laas/osm2graph/model/SpeedData.java:59 | `Integer.valueOf`: an accepted value is a 32-bit int; the empty text fails; an accepted text is an optional sign and decimal digits with the signed value of those digits; conversely every digit text whose value fits, unsigned, with '+' or with '-', is accepted with that value |
| JavaString.JavaDiv | src/main/org/laas/osm2graph/writers/BinaryGraphWriterInsa2018.java:162 | Java's `/`: the remainder has the dividend's sign and is smaller than the divisor |
| JavaString.ToInt32 | src/main/org/laas/osm2graph/osmosis/OSM2GraphTask.java:174 | the 32-bit int equal to its argument modulo 2^32 |
| JavaString.ParseUnsignedInt | src/main/org/laas/osm2graph/osmosis/OSM2GraphFactory.java:39 | the empty text and a leading '-' fail; a result is a 32-bit int |
| JavaString.ParseUnsignedIntValue | src/main/org/laas/osm2graph/osmosis/OSM2GraphFactory.java:39 | digits whose value fits are their value wrapped to a signed int |
| JavaString.IntOfDouble | src/main/org/laas/osm2graph/model/WayToArc.java:237 | Java's `(int)` of a double: truncation toward zero inside the int range, saturation outside it |
| DataOutput.WriteByte | src/main/org/laas/osm2graph/writers/BinaryGraphWriterInsa2018.java:156 | one byte, the value's low 8 bits |
| DataOutput.WriteShortValue | src/main/org/laas/osm2graph/writers/BinaryGraphWriterInsa2018.java:189 | `writeShort` reads back big-endian as the value's low 16 bits |
| DataOutput.WriteIntValue | src/main/org/laas/osm2graph/writers/BinaryGraphWriterInsa2018.java:130 | `writeInt` reads back big-endian as the value's low 32 bits |
| DataOutput.WriteLongValue | src/main/org/laas/osm2graph/writers/BinaryGraphWriterInsa2018.java:167 | `writeLong` reads back big-endian as the full 64-bit value |
| DataOutput.Utf8Char | src/main/org/laas/osm2graph/writers/BinaryGraphWriterInsa2018.java:133 | one to four bytes; one byte exactly for ASCII; continuation bytes in 0x80..0xBF |
| DataOutput.Utf8 | src/main/org/laas/osm2graph/writers/BinaryGraphWriterInsa2018.java:133 | the UTF-8 bytes of a text: at least one byte per character |
| DataOutput.Utf8OfAscii | src/main/org/laas/osm2graph/writers/BinaryGraphWriterInsa2018.java:133 | ASCII text encodes to one byte per character |
| DataOutput.Utf16Units | src/main/org/laas/osm2graph/writers/BinaryGraphWriterInsa2018.java:134 | a character is one or two UTF-16 units |
| DataOutput.ModifiedUnit | src/main/org/laas/osm2graph/writers/BinaryGraphWriterInsa2018.java:134 | modified UTF-8 writes 1..0x7F in one byte and everything else, including 0, in two or three |
| DataOutput.ModifiedUtf8OfAscii | src/main/org/laas/osm2graph/writers/BinaryGraphWriterInsa2018.java:134 | for ASCII text without NUL, modified UTF-8 is plain UTF-8 |
| DataOutput.WriteUtf | src/main/org/laas/osm2graph/writers/BinaryGraphWriterInsa2018.java:134 | `writeUTF` fails exactly when the encoding exceeds 65535 bytes; otherwise the length as a short, then the encoding |

## Left out

- Threads: the processors of `convert(List)` run one after another in thread order. Interleavings, and the order in which racing threads add records to the road-information pool, are not covered.
- WayConversion.WayToArc.ConvertAll: `i * nPerThread` is computed with unbounded integers, so a 32-bit overflow of the range bounds is not modelled; neither are `OutOfMemoryError`, an `InterruptedException` on join, or the progress-logging thread.
- JavaString.DigitValue: only ASCII digits and letters are digits. `Character.digit` also accepts other Unicode decimal digits and the fullwidth Latin letters.
- JavaString.ParseInt: inherits DigitValue's ASCII-only digits, so text with non-ASCII Unicode digits that `Integer.valueOf` accepts fails here.
- JavaString.ParseUnsignedInt: inherits DigitValue's ASCII-only digits, so text with non-ASCII Unicode digits that `Integer.parseUnsignedInt` accepts fails here.
- Floating point: points, lengths and the quantised fields use exact reals. `Point.distanceTo` is a parameter, and the rounding of doubles is not modelled, only the `(int)` cast that follows it.
- `Graph.findClosestNode`'s start at positive infinity and its behaviour on NaN distances are not modelled.
- Path: only the SHORTEST_LENGTH mode of the constructor is modelled. The SHORTEST_TIME cost comes from `Arc.getMinimumTravelTime`, a floating-point division.
- Case mapping: `toLowerCase` and `trim` are modelled for ASCII only. Locale rules and non-ASCII letters are not covered.
- Output: the stream is the sequence of bytes it receives. Partial output left behind by an exception is not modelled, and neither are `flush`, `close` or deleting an existing file.
- The `IOException` handler in `complete` that logs and carries on is not modelled.
- Reflection: the writer table's `newInstance` is replaced by a writer kind, so the exceptions of reflective instantiation are not covered.
- Configuration.OSM2GraphConfiguration.AddGraphWriter: its "unrecognized writer" branch is not modelled, because the factory has already thrown for every unknown name.
- Configuration.OSM2GraphConfiguration.AddBboxConfiguration: `BoundingBox.fromString` is not part of this model, and the bounding box is kept as its text. The model therefore accepts a malformed bbox argument, such as a part that is not a number or fewer than four parts. The source rejects such an argument in `fromString`, with `NumberFormatException` or `ArrayIndexOutOfBoundsException`.
- Logging, the timing and memory reports in `complete`, and the garbage-collection hints (`arcs.set(i, null)`) are not modelled.
- Shape points: shared point lists are copied values, so aliasing between arcs that share an `ArrayList` is not captured.
- RoadInformation.StringHash: the contract states only that the result is a 32-bit value, not the polynomial `String.hashCode` computes.
- RoadInformation.HashCode: the contract states only the range, not the exact hash; `EqualObjectsHashEqually` states its agreement with `equals`. The road type's `Enum.hashCode` is an identity hash, so it is a parameter.
- Revisions: the files come from different revisions of the program. The model keeps one `Graph` record with both the numeric id and the text id and name.
- The 2018 writer's `validate` reads the map id as text, which the configuration class of this revision stores as an int. It is modelled on the text id.
- The 2016 type table has a case for a `ROAD` type. That type does not exist in the `RoadType` enum of this revision, so that case is left out.
- The general description of the legacy format gives it a 64-bit access mask and a 32-bit length per arc. The 2016 writer writes neither: it writes no access mask, a zone byte per arc and a 16-bit length. The model follows the writer.
- `Point.java` and `NodeToVertex` are not modelled separately. A node becomes a vertex with the point (longitude, latitude) directly in `Process`.
- WayConversion.WayToArc.Convert: the exception thrown for a node id with no vertex is modelled as an error result. The arcs already attached at that point stay attached, as in the source.
- Task.OSM2GraphTask.Renumber: it requires every arc end to be mapped to itself. `Complete` establishes this from the conversion.
- Task.SortedRangeUnique: the library sort is not modelled as code. This lemma shows that any sorted permutation of the renumbered vertices is that same list, so the sort changes nothing.
- The processed-entity counters are modelled with 32-bit wrap-around, but only the log lines read them.
- Osmosis argument getters are modelled as optional arguments with their defaults. A missing required map id is a `MissingArgument` error, not the Osmosis exception.
- Modified UTF-8 is modelled concretely from UTF-16 code units. Dafny characters are Unicode scalar values, so strings holding unpaired surrogates are outside the model.
- Configuration.OSM2GraphConfiguration.Validate: `validate` in this revision checks nothing, so the model accepts everything.
- `OSM2GraphFactory.DEFAULT_PARAM_OUTFILE` ("mapsforge.map") is unused: the default actually passed is `Constants.DEFAULT_PARAM_OUTFILE`.
- Getters such as `getNodes`, `getMapId`, `getOrigin` on arcs and the configuration getters are plain field reads.
- The Osmosis plugin loader and the `SinkManager` built by `createTaskManagerImpl` are not modelled. Only the configuration the factory builds is.
