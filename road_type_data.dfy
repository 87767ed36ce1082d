/** The road type of a way, from its `natural`, `junction` and `highway` tags. */
module RoadTypeData {
  import opened Wrappers
  import opened RoadInformation
  import opened JavaString
  import opened Osm

  /**
   * HIGHWAY_TO_ROADTYPE as its static initialiser leaves it: every enum constant under its
   * lower-cased name, in declaration order, then the four extra highway values.
   */
  function HighwayToRoadType(v: string): Option<RoadType> {
    var table := map[
      "motorway" := Motorway, "trunk" := Trunk, "primary" := Primary, "secondary" := Secondary,
      "motorway_link" := MotorwayLink, "trunk_link" := TrunkLink, "primary_link" := PrimaryLink,
      "secondary_link" := SecondaryLink, "tertiary" := Tertiary, "track" := Track,
      "residential" := Residential, "unclassified" := Unclassified, "living_street" := LivingStreet,
      "service" := Service, "roundabout" := Roundabout, "pedestrian" := Pedestrian,
      "bicycle" := Bicycle, "coastline" := Coastline,
      "footway" := Pedestrian, "steps" := Pedestrian, "bridleway" := Pedestrian,
      "cycleway" := Bicycle];
    if v in table then Some(table[v]) else None
  }

  /** The extra highway values and the type they stand for. */
  function Synonym(v: string): Option<RoadType> {
    if v == "footway" || v == "steps" || v == "bridleway" then Some(Pedestrian)
    else if v == "cycleway" then Some(Bicycle)
    else None
  }

  /** Every key of the table is the name of its type or one of its synonyms. */
  lemma TableKeys(v: string)
    requires HighwayToRoadType(v).Some?
    ensures v == LowerName(HighwayToRoadType(v).value) || Synonym(v) == HighwayToRoadType(v)
  {
  }

  /** Every type is in the table under its lower-cased name. */
  lemma TableNames(t: RoadType)
    ensures HighwayToRoadType(LowerName(t)) == Some(t)
  {
    match t
    case Motorway =>
    case Trunk =>
    case Primary =>
    case Secondary =>
    case MotorwayLink =>
    case TrunkLink =>
    case PrimaryLink =>
    case SecondaryLink =>
    case Tertiary =>
    case Track =>
    case Residential =>
    case Unclassified =>
    case LivingStreet =>
    case Service =>
    case Roundabout =>
    case Pedestrian =>
    case Bicycle =>
    case Coastline =>
  }

  /** Every synonym is in the table, with the type it stands for. */
  lemma TableSynonyms(v: string)
    requires Synonym(v).Some?
    ensures HighwayToRoadType(v) == Synonym(v)
  {
  }

  /** The table holds exactly the enum names and the synonyms. */
  lemma TableEntries(v: string, t: RoadType)
    ensures HighwayToRoadType(v) == Some(t) <==> (v == LowerName(t) || Synonym(v) == Some(t))
  {
    if HighwayToRoadType(v).Some? {
      TableKeys(v);
    }
    TableNames(t);
    if Synonym(v).Some? {
      TableSynonyms(v);
    }
  }

  /** `tags.getOrDefault(key, "")`. */
  function TagOrEmpty(tags: Tags, key: string): string {
    if key in tags then tags[key] else ""
  }

  predicate IsCoastline(tags: Tags) { ToLower(TagOrEmpty(tags, "natural")) == "coastline" }
  predicate IsRoundabout(tags: Tags) { ToLower(TagOrEmpty(tags, "junction")) == "roundabout" }

  /** RoadTypeData.getRoadType: never null. */
  function GetRoadType(tags: Tags): (r: RoadType)
    ensures IsCoastline(tags) ==> r == Coastline
    ensures !IsCoastline(tags) && IsRoundabout(tags) ==> r == Roundabout
    ensures !IsCoastline(tags) && !IsRoundabout(tags) && "highway" !in tags ==> r == Unclassified
  {
    if IsCoastline(tags) then Coastline
    else if IsRoundabout(tags) then Roundabout
    else if "highway" !in tags then Unclassified
    else
      var v := ToLower(tags["highway"]);
      var entry := HighwayToRoadType(v);
      if entry.Some? then entry.value else Unclassified
  }

  /**
   * Without a coastline or roundabout tag, a highway value selects type t exactly when it is,
   * up to case, t's own name or a synonym of t; every other value gives Unclassified.
   */
  lemma HighwayValueDecides(tags: Tags, t: RoadType)
    requires !IsCoastline(tags) && !IsRoundabout(tags) && "highway" in tags
    ensures var v := ToLower(tags["highway"]);
      GetRoadType(tags) == t <==>
        || v == LowerName(t)
        || Synonym(v) == Some(t)
        || (t == Unclassified && Synonym(v).None? && forall u: RoadType :: v != LowerName(u))
  {
    var v := ToLower(tags["highway"]);
    TableEntries(v, t);
    if HighwayToRoadType(v).Some? {
      TableEntries(v, HighwayToRoadType(v).value);
    } else {
      forall u: RoadType ensures v != LowerName(u) {
        TableEntries(v, u);
      }
    }
  }

  /** natural=coastline decides the type whatever else is tagged. */
  lemma CoastlineRegardless(tags: Tags, other: Tags)
    requires IsCoastline(tags)
    ensures GetRoadType(tags + other - {"natural"} + map["natural" := tags["natural"]]) == Coastline
  {
  }

  /** The four extra highway values. */
  lemma SynonymTypes(tags: Tags)
    requires !IsCoastline(tags) && !IsRoundabout(tags) && "highway" in tags
    ensures ToLower(tags["highway"]) in {"footway", "steps", "bridleway"} ==> GetRoadType(tags) == Pedestrian
    ensures ToLower(tags["highway"]) == "cycleway" ==> GetRoadType(tags) == Bicycle
  {
    HighwayValueDecides(tags, Pedestrian);
    HighwayValueDecides(tags, Bicycle);
  }
}
