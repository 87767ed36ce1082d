/** The road description shared by the arcs of a way: its type, access mask, direction, speed and name. */
module RoadInformation {
  import opened Wrappers
  import JavaString
  import DataOutput

  /** The RoadType enum, in declaration order. */
  datatype RoadType =
    | Motorway | Trunk | Primary | Secondary
    | MotorwayLink | TrunkLink | PrimaryLink | SecondaryLink
    | Tertiary | Track | Residential | Unclassified | LivingStreet
    | Service | Roundabout | Pedestrian | Bicycle | Coastline

  /** RoadType.values(). */
  function AllRoadTypes(): seq<RoadType> {
    [
      Motorway, Trunk, Primary, Secondary, MotorwayLink, TrunkLink, PrimaryLink, SecondaryLink,
      Tertiary, Track, Residential, Unclassified, LivingStreet, Service, Roundabout, Pedestrian,
      Bicycle, Coastline]
  }

  lemma AllRoadTypesComplete(t: RoadType)
    ensures t in AllRoadTypes()
  {
  }

  /** The enum constant's name, lower-cased (`toString().toLowerCase()`). */
  function LowerName(t: RoadType): string {
    match t
    case Motorway => "motorway"
    case Trunk => "trunk"
    case Primary => "primary"
    case Secondary => "secondary"
    case MotorwayLink => "motorway_link"
    case TrunkLink => "trunk_link"
    case PrimaryLink => "primary_link"
    case SecondaryLink => "secondary_link"
    case Tertiary => "tertiary"
    case Track => "track"
    case Residential => "residential"
    case Unclassified => "unclassified"
    case LivingStreet => "living_street"
    case Service => "service"
    case Roundabout => "roundabout"
    case Pedestrian => "pedestrian"
    case Bicycle => "bicycle"
    case Coastline => "coastline"
  }

  /** The immutable record: all five fields are final and set by the constructor only. */
  datatype RoadInformation = RoadInformation(
    roadType: RoadType, access: bv64, oneWay: bool, maxSpeed: int, name: Option<string>)

  /** A RoadInformation object: `instance` is its identity (one allocation), `value` its fields. */
  datatype InfoRef = InfoRef(instance: nat, value: RoadInformation)

  /** What `equals(Object)` may be handed. */
  datatype JavaObject = NullObject | InfoObject(ref: InfoRef) | OtherObject

  /** The field comparisons of `equals`, the name compared null-safely. */
  predicate FieldsEqual(a: RoadInformation, b: RoadInformation) {
    && a.access == b.access
    && a.maxSpeed == b.maxSpeed
    && (if a.name.None? then b.name.None? else b.name.Some? && a.name.value == b.name.value)
    && a.oneWay == b.oneWay
    && a.roadType == b.roadType
  }

  /** RoadInformation.equals(Object): identity, then null, then class, then the fields. */
  predicate Equals(self: InfoRef, obj: JavaObject) {
    if obj.InfoObject? && obj.ref.instance == self.instance then true
    else if obj.NullObject? then false
    else if obj.OtherObject? then false
    else FieldsEqual(self.value, obj.ref.value)
  }

  /** Objects are well formed when one identity always carries the same fields. */
  predicate Coherent(a: InfoRef, b: InfoRef) {
    a.instance == b.instance ==> a.value == b.value
  }

  /** `equals` holds exactly for another RoadInformation with equal fields: it is value equality. */
  lemma EqualsIsValueEquality(self: InfoRef, obj: JavaObject)
    requires obj.InfoObject? ==> Coherent(self, obj.ref)
    ensures Equals(self, obj) <==> obj.InfoObject? && obj.ref.value == self.value
  {
  }

  /** `equals` is reflexive, symmetric and false for null and for other classes. */
  lemma EqualsProperties(a: InfoRef, b: InfoRef)
    requires Coherent(a, b)
    ensures Equals(a, InfoObject(a))
    ensures !Equals(a, NullObject) && !Equals(a, OtherObject)
    ensures Equals(a, InfoObject(b)) <==> Equals(b, InfoObject(a))
  {
  }

  /** String.hashCode over the UTF-16 code units, in 32-bit arithmetic. */
  function StringHash(s: string): (h: int)
    ensures JavaString.INT_MIN <= h <= JavaString.INT_MAX
  {
    if s == [] then 0
    else UnitsHash(StringHash(s[..|s| - 1]), DataOutput.Utf16Units(s[|s| - 1]))
  }

  function UnitsHash(h: int, us: seq<int>): (r: int)
    ensures JavaString.INT_MIN <= r <= JavaString.INT_MAX
    decreases us
  {
    if us == [] then JavaString.ToInt32(h)
    else UnitsHash(JavaString.ToInt32(31 * h + us[0]), us[1..])
  }

  /**
   * RoadInformation.hashCode(). The enum's own hashCode is Object identity, different in
   * every run, so it is a parameter here.
   */
  function HashCode(r: RoadInformation, enumHash: RoadType -> int): (h: int)
    ensures JavaString.INT_MIN <= h <= JavaString.INT_MAX
  {
    var folded := ((r.access ^ (r.access >> 32)) & 0xFFFF_FFFF) as int;
    var h1 := JavaString.ToInt32(31 * 1 + JavaString.ToInt32(folded));
    var h2 := JavaString.ToInt32(31 * h1 + r.maxSpeed);
    var h3 := JavaString.ToInt32(31 * h2 + (if r.name.None? then 0 else StringHash(r.name.value)));
    var h4 := JavaString.ToInt32(31 * h3 + (if r.oneWay then 1231 else 1237));
    JavaString.ToInt32(31 * h4 + enumHash(r.roadType))
  }

  /** Objects that are `equals` have the same hash code. */
  lemma EqualObjectsHashEqually(a: InfoRef, b: InfoRef, enumHash: RoadType -> int)
    requires Coherent(a, b) && Equals(a, InfoObject(b))
    ensures HashCode(a.value, enumHash) == HashCode(b.value, enumHash)
  {
    EqualsIsValueEquality(a, InfoObject(b));
  }
}
