/** The maximum speed of a way, in km/h, from its `maxspeed` tag and its road type. */
module SpeedData {
  import opened Wrappers
  import opened JavaString
  import opened Osm
  import opened RoadInformation

  const DEFAULT_MAXIMUM_SPEED: int := 50
  const DEFAULT_WALK_SPEED: int := 5
  const DEFAULT_BICYCLE_SPEED: int := 14

  /** Puts 1 to 30 of the static initialiser (AT to FR), looked up at `code`. */
  function CountriesFirst(code: string): Option<int> {
    var table := map[
      "AT:urban" := 50, "AT:rural" := 100, "AT:trunk" := 100, "AT:motorway" := 130,
      "BE:urban" := 50, "BE:rural" := 90, "BE:trunk" := 120, "BE:motorway" := 120,
      "CH:urban" := 50, "CH:rural" := 80, "CH:trunk" := 100, "CH:motorway" := 120,
      "CZ:urban" := 50, "CZ:rural" := 90, "CZ:trunk" := 110, "CZ:motorway" := 130,
      "DK:urban" := 50, "DK:rural" := 80, "DK:motorway" := 130, "DE:living_street" := 7,
      "DE:urban" := 50, "DE:rural" := 100, "DE:motorway" := 130, "FI:urban" := 50,
      "FI:rural" := 80, "FI:trunk" := 100, "FI:motorway" := 120, "FR:urban" := 50,
      "FR:rural" := 90, "FR:trunk" := 110  ];
    if code in table then Some(table[code]) else None
  }

  /** Puts 31 to 60 of the static initialiser (FR to RU), looked up at `code`. */
  function CountriesSecond(code: string): Option<int> {
    var table := map[
      "FR:motorway" := 130, "GR:urban" := 50, "GR:rural" := 90, "GR:trunk" := 110,
      "GR:motorway" := 130, "HU:urban" := 50, "HU:rural" := 90, "HU:trunk" := 110,
      "HU:motorway" := 130, "IT:urban" := 50, "IT:rural" := 90, "IT:trunk" := 110,
      "IT:motorway" := 130, "JP:national" := 60, "JP:motorway" := 100, "LT:living_street" := 20,
      "LT:urban" := 50, "LT:rural" := 90, "LT:trunk" := 120, "LT:motorway" := 130,
      "PL:living_street" := 20, "PL:urban" := 50, "PL:rural" := 90, "PL:trunk" := 100,
      "PL:motorway" := 140, "RO:urban" := 50, "RO:rural" := 90, "RO:trunk" := 100,
      "RO:motorway" := 130, "RU:living_street" := 20  ];
    if code in table then Some(table[code]) else None
  }

  /** Puts 61 to 90 of the static initialiser (RU to UZ), looked up at `code`. */
  function CountriesThird(code: string): Option<int> {
    var table := map[
      "RU:rural" := 90, "RU:urban" := 60, "RU:motorway" := 110, "SK:urban" := 50,
      "SK:rural" := 90, "SK:trunk" := 130, "SK:motorway" := 130, "SI:urban" := 50,
      "SI:rural" := 90, "SI:trunk" := 110, "SI:motorway" := 130, "ES:urban" := 50,
      "ES:rural" := 90, "ES:trunk" := 100, "ES:motorway" := 120, "SE:urban" := 50,
      "SE:rural" := 70, "SE:trunk" := 90, "SE:motorway" := 110, "GB:nsl_single" := 48,
      "GB:nsl_dual" := 113, "GB:motorway" := 113, "UA:urban" := 50, "UA:rural" := 90,
      "UA:trunk" := 110, "UA:motorway" := 130, "UZ:living_street" := 30, "UZ:urban" := 70,
      "UZ:rural" := 100, "UZ:motorway" := 110  ];
    if code in table then Some(table[code]) else None
  }

  /**
   * SPEED_FOR_COUNTRIES as its static initialiser fills it, looked up at `code`: a later put
   * replaces an earlier one, though no key is put twice.
   */
  function SpeedForCountries(code: string): Option<int> {
    if CountriesThird(code).Some? then CountriesThird(code)
    else if CountriesSecond(code).Some? then CountriesSecond(code)
    else CountriesFirst(code)
  }

  /** SpeedData.speedForCode: the table's speed for the code, or the supplied default. */
  function SpeedForCode(code: string, defaultSpeed: int): (r: int)
    ensures SpeedForCountries(code).Some? ==> r == SpeedForCountries(code).value
    ensures SpeedForCountries(code).None? ==> r == defaultSpeed
  {
    match SpeedForCountries(code)
    case Some(speed) => speed
    case None => defaultSpeed
  }

  lemma FirstKeyUpperCase(k: string)
    requires CountriesFirst(k).Some?
    ensures |k| > 0 && IsUpper(k[0])
  {
  }

  lemma SecondKeyUpperCase(k: string)
    requires CountriesSecond(k).Some?
    ensures |k| > 0 && IsUpper(k[0])
  {
  }

  lemma ThirdKeyUpperCase(k: string)
    requires CountriesThird(k).Some?
    ensures |k| > 0 && IsUpper(k[0])
  {
  }

  /** Every key of the country table starts with an upper-case letter. */
  lemma CountryKeysUpperCase(k: string)
    requires SpeedForCountries(k).Some?
    ensures |k| > 0 && IsUpper(k[0])
  {
    if CountriesThird(k).Some? {
      ThirdKeyUpperCase(k);
    } else if CountriesSecond(k).Some? {
      SecondKeyUpperCase(k);
    } else {
      FirstKeyUpperCase(k);
    }
  }

  /** A lower-cased code is never in the table, so it always falls back to the default. */
  lemma LowerCaseCodeNeverMatches(code: string, defaultSpeed: int)
    ensures SpeedForCode(ToLower(code), defaultSpeed) == defaultSpeed
  {
    if SpeedForCountries(ToLower(code)).Some? {
      ToLowerChars(code);
      CountryKeysUpperCase(ToLower(code));
    }
  }

  /** SpeedData.maxSpeedForRoadType; a null road type (None) gives the supplied default. */
  function MaxSpeedForRoadType(roadType: Option<RoadType>, defaultSpeed: int): (r: int)
  {
    match roadType
    case None => defaultSpeed
    case Some(t) =>
      match t
      case Motorway => 130
      case Trunk => 110
      case Primary => 90
      case Secondary => 70
      case PrimaryLink | SecondaryLink | MotorwayLink | TrunkLink | Tertiary => 50
      case Residential | Service | Roundabout | LivingStreet | Unclassified | Track => 30
      case Bicycle => DEFAULT_BICYCLE_SPEED
      case Pedestrian => DEFAULT_WALK_SPEED
      case Coastline => 0
  }

  /** The defaults table, group by group. */
  lemma DefaultSpeeds(t: RoadType, d: int)
    ensures MaxSpeedForRoadType(None, d) == d
    ensures t in {Motorway, Trunk, Primary, Secondary} ==>
      MaxSpeedForRoadType(Some(t), d) == (if t == Motorway then 130 else if t == Trunk then 110 else if t == Primary then 90 else 70)
    ensures t in {PrimaryLink, SecondaryLink, MotorwayLink, TrunkLink, Tertiary} ==> MaxSpeedForRoadType(Some(t), d) == 50
    ensures t in {Residential, Service, Roundabout, LivingStreet, Unclassified, Track} ==> MaxSpeedForRoadType(Some(t), d) == 30
    ensures MaxSpeedForRoadType(Some(Bicycle), d) == 14 && MaxSpeedForRoadType(Some(Pedestrian), d) == 5
    ensures MaxSpeedForRoadType(Some(Coastline), d) == 0
    ensures MaxSpeedForRoadType(Some(t), d) >= 0
  {
  }

  /** The double products `(int) (speed * 1.852)` and `(int) (speed * 1.609)`. */
  datatype UnitScaling = UnitScaling(knots: int -> int, mph: int -> int)

  /** A thrown exception: indexing the empty result of splitting a value made only of spaces. */
  datatype SpeedError = ArrayIndexOutOfBounds

  /** The default of the way's road type, used for every fallback. */
  function RoadDefault(roadType: Option<RoadType>): int {
    MaxSpeedForRoadType(roadType, DEFAULT_MAXIMUM_SPEED)
  }

  /** `Integer.valueOf(token)`, or the road type's default when it throws NumberFormatException. */
  function TokenSpeed(token: string, roadType: Option<RoadType>): (r: int)
    ensures ParseInt(token).Some? ==> r == ParseInt(token).value
    ensures ParseInt(token).None? ==> r == RoadDefault(roadType)
  {
    var parsed := ParseInt(token);
    if parsed.Some? then parsed.value else RoadDefault(roadType)
  }

  /** A numeric value: the first token parsed as an int (the default if that fails), then its unit. */
  function NumericSpeed(maxspeed: string, roadType: Option<RoadType>, scaling: UnitScaling): (r: Result<int, SpeedError>)
    ensures r.Err? <==> Split(maxspeed, ' ') == []
  {
    var parts := Split(maxspeed, ' ');
    if parts == [] then Err(ArrayIndexOutOfBounds)
    else
      var speed := TokenSpeed(parts[0], roadType);
      if |parts| == 1 then Ok(speed)
      else if parts[1] == "knots" then Ok(scaling.knots(speed))
      else if parts[1] == "mph" then Ok(scaling.mph(speed))
      else Ok(speed)
  }

  /** The lower-cased `maxspeed` value, the string every branch of getMaximumSpeed inspects. */
  function Maxspeed(tags: Tags): string
    requires "maxspeed" in tags
  {
    ToLower(tags["maxspeed"])
  }

  /** SpeedData.getMaximumSpeed. */
  function GetMaximumSpeed(tags: Tags, roadType: Option<RoadType>, scaling: UnitScaling): (r: Result<int, SpeedError>)
    ensures "maxspeed" !in tags ==> r == Ok(RoadDefault(roadType))
    ensures "maxspeed" in tags && Maxspeed(tags) in {"none", "signal"} ==> r == Ok(RoadDefault(roadType))
    ensures "maxspeed" in tags && Maxspeed(tags) == "walk" ==> r == Ok(DEFAULT_WALK_SPEED)
    ensures "maxspeed" in tags && ':' in Maxspeed(tags) && Maxspeed(tags) !in {"none", "signal", "walk"}
      ==> r == Ok(RoadDefault(roadType))
    ensures r.Err? ==> "maxspeed" in tags && Split(Maxspeed(tags), ' ') == []
  {
    if "maxspeed" !in tags then Ok(RoadDefault(roadType))
    else
      var maxspeed := Maxspeed(tags);
      if maxspeed == "none" || maxspeed == "signal" then Ok(RoadDefault(roadType))
      else if maxspeed == "walk" then Ok(DEFAULT_WALK_SPEED)
      else if ':' in maxspeed then
        LowerCaseCodeNeverMatches(tags["maxspeed"], RoadDefault(roadType));
        Ok(SpeedForCode(maxspeed, RoadDefault(roadType)))
      else NumericSpeed(maxspeed, roadType, scaling)
  }

  /** A value without spaces or colons (other than the keywords) is one token: `Integer.valueOf` of it. */
  lemma SingleTokenSpeed(tags: Tags, roadType: Option<RoadType>, scaling: UnitScaling)
    requires "maxspeed" in tags && Maxspeed(tags) !in {"none", "signal", "walk"}
    requires ' ' !in Maxspeed(tags) && ':' !in Maxspeed(tags)
    ensures GetMaximumSpeed(tags, roadType, scaling) == Ok(TokenSpeed(Maxspeed(tags), roadType))
  {
  }

  /** "<number> <unit>": knots and mph are converted, any other unit leaves the number as it is. */
  lemma UnitSpeed(tags: Tags, roadType: Option<RoadType>, scaling: UnitScaling, number: string, unit: string)
    requires "maxspeed" in tags && Maxspeed(tags) == number + " " + unit
    requires ' ' !in number && ' ' !in unit && unit != ""
    requires ':' !in number && ':' !in unit
    ensures var speed := TokenSpeed(number, roadType);
      GetMaximumSpeed(tags, roadType, scaling) ==
        Ok(if unit == "knots" then scaling.knots(speed) else if unit == "mph" then scaling.mph(speed) else speed)
  {
    var m := Maxspeed(tags);
    assert m == number + [' '] + unit;
    assert m !in {"none", "signal", "walk"} by {
      assert m[|number|] == ' ';
      assert ' ' !in "none" && ' ' !in "signal" && ' ' !in "walk";
    }
    assert ':' !in m by {
      forall i | 0 <= i < |m|
        ensures m[i] != ':'
      {
        if i < |number| {
          assert m[i] == number[i];
        } else if i > |number| {
          assert m[i] == unit[i - |number| - 1];
        }
      }
    }
    SplitOfJoin(number, unit, ' ');
  }

  /** A value made only of spaces splits to no token at all, and `parts[0]` throws. */
  lemma AllSpacesThrow(tags: Tags, roadType: Option<RoadType>, scaling: UnitScaling)
    requires "maxspeed" in tags && tags["maxspeed"] != ""
    requires forall i :: 0 <= i < |tags["maxspeed"]| ==> tags["maxspeed"][i] == ' '
    ensures GetMaximumSpeed(tags, roadType, scaling) == Err(ArrayIndexOutOfBounds)
  {
    var m := Maxspeed(tags);
    ToLowerChars(tags["maxspeed"]);
    assert m[0] == ' ';
    assert ' ' !in "none" && ' ' !in "signal" && ' ' !in "walk";
    assert ':' !in m;
    SplitOfSeparatorsOnly(m, ' ');
  }
}
