/**
 * The access mask of a way: four bits per kind of traffic, starting from a default that depends on
 * the road type and then overwritten, group by group, by the access tags present on the way.
 */
module AccessData {
  import opened Wrappers
  import opened JavaString
  import opened Osm
  import opened RoadInformation

  /** The access tags, in the order getAccessType applies them. */
  function UsefulTags(): seq<string> {
    [
      "access", "foot", "vehicle", "bicycle", "motor_vehicle", "motorcycle", "moped",
      "mofa", "motorcar", "agricultural", "hgv", "psv", "bus", "minibus", "share_taxi"]
  }

  // Access kinds: which of the four bits of a group are set.
  const MASK_YES: bv64 := 0x111111111111111
  const MASK_NO: bv64 := 0x0
  const MASK_PRIVATE: bv64 := 0x222222222222222
  const MASK_DESTINATION: bv64 := 0x333333333333333
  const MASK_DELIVERY: bv64 := 0x444444444444444
  const MASK_CUSTOMERS: bv64 := 0x555555555555555
  const MASK_FORESTRY: bv64 := 0x666666666666666
  const MASK_UNKNOWN: bv64 := 0xfffffffffffffff

  // Groups: which nibbles belong to each kind of traffic.
  const MASK_ALL: bv64 := 0xfffffffffffffff
  const MASK_FOOT: bv64 := 0x00000000000000f
  const MASK_VEHICLE: bv64 := 0xfffffffffffff00
  const MASK_BICYCLE: bv64 := 0x000000000000f00
  const MASK_MOTOR_VEHICLE: bv64 := 0xffffffffffff000
  const MASK_SMALL_MOTORCYCLE: bv64 := 0x00000000000f000
  const MASK_AGRICULTURAL: bv64 := 0x0000000000f0000
  const MASK_MOTORCYCLE: bv64 := 0x000000000f00000
  const MASK_MOTORCAR: bv64 := 0x00000000f000000
  const MASK_HEAVY_GOODS: bv64 := 0x0000000f0000000
  const MASK_PUBLIC_TRANSPORT: bv64 := 0x0000f0000000000

  /** The highest nibble of a long, which no mask uses. */
  const TOP_NIBBLE: bv64 := 0xf000000000000000

  /**
   * KEY_TO_MASK as the static block fills it. The value entries are put into this map as well, in
   * the same order; the later "agricultural" entry replaces the earlier one.
   */
  function KeyToMask(): map<string, bv64> {
    map[
      "access" := MASK_ALL, "foot" := MASK_FOOT, "vehicle" := MASK_VEHICLE,
      "bicycle" := MASK_BICYCLE, "motor_vehicle" := MASK_MOTOR_VEHICLE,
      "motorcycle" := MASK_MOTORCYCLE, "moped" := MASK_SMALL_MOTORCYCLE,
      "mofa" := MASK_SMALL_MOTORCYCLE, "motorcar" := MASK_MOTORCAR,
      "agricultural" := MASK_AGRICULTURAL, "hgv" := MASK_HEAVY_GOODS,
      "psv" := MASK_PUBLIC_TRANSPORT, "bus" := MASK_PUBLIC_TRANSPORT,
      "minibus" := MASK_PUBLIC_TRANSPORT, "share_taxi" := MASK_PUBLIC_TRANSPORT,
      "yes" := MASK_YES, "true" := MASK_YES, "1" := MASK_YES, "no" := MASK_NO,
      "false" := MASK_NO, "0" := MASK_NO, "private" := MASK_PRIVATE,
      "permissive" := MASK_YES, "destination" := MASK_DESTINATION,
      "delivery" := MASK_DELIVERY, "customers" := MASK_CUSTOMERS,
      "designated" := MASK_YES, "use_sidepath" := MASK_YES, "dismount" := MASK_YES,
      "agricultural" := MASK_FORESTRY, "forestry" := MASK_FORESTRY,
      "discouraged" := MASK_NO, "unknown" := MASK_UNKNOWN]
  }

  /** VALUE_TO_MASK: declared, and never filled. */
  const ValueToMask: map<string, bv64> := map[]

  /** Every access tag has a key mask, so `KEY_TO_MASK.get(key)` never unboxes null. */
  lemma UsefulTagsHaveMasks()
    ensures AllHaveMasks(KeyToMask(), UsefulTags())
  {
  }

  /** AccessData.getDefaultAccessForRoadType; a null road type (None) is all-unknown. */
  function DefaultAccess(roadType: Option<RoadType>): bv64 {
    match roadType
    case None => MASK_ALL & MASK_UNKNOWN
    case Some(t) =>
      match t
      case Motorway | MotorwayLink | Trunk | TrunkLink =>
        (MASK_MOTOR_VEHICLE & !MASK_SMALL_MOTORCYCLE & !MASK_AGRICULTURAL) & MASK_YES
      case Primary | PrimaryLink | Secondary | SecondaryLink | Tertiary | Residential | LivingStreet | Roundabout =>
        MASK_ALL & MASK_YES
      case Service => MASK_ALL & MASK_YES
      case Track => (MASK_ALL & !MASK_PUBLIC_TRANSPORT & !MASK_HEAVY_GOODS) & MASK_YES
      case Bicycle => MASK_BICYCLE & MASK_YES
      case Pedestrian => (MASK_FOOT | MASK_BICYCLE) & MASK_YES
      case Coastline | Unclassified => MASK_ALL & MASK_UNKNOWN
  }

  /** The defaults, evaluated: "yes" in the allowed groups, or all-unknown. */
  lemma DefaultAccessValues(t: RoadType)
    ensures t in {Motorway, MotorwayLink, Trunk, TrunkLink} ==> DefaultAccess(Some(t)) == 0x111111111100000
    ensures t in {Primary, PrimaryLink, Secondary, SecondaryLink, Tertiary, Residential, LivingStreet, Roundabout, Service}
      ==> DefaultAccess(Some(t)) == MASK_YES
    ensures t == Track ==> DefaultAccess(Some(t)) == 0x111101101111111
    ensures DefaultAccess(Some(Bicycle)) == 0x100
    ensures DefaultAccess(Some(Pedestrian)) == 0x101
    ensures DefaultAccess(Some(Coastline)) == MASK_UNKNOWN && DefaultAccess(Some(Unclassified)) == MASK_UNKNOWN
    ensures DefaultAccess(None) == MASK_UNKNOWN
    ensures DefaultAccess(Some(t)) & TOP_NIBBLE == 0
  {
  }

  /** `maskValue`: the value's mask, or MASK_UNKNOWN when VALUE_TO_MASK has none. */
  function ValueMask(value: string): bv64 {
    GetOrDefault(ValueToMask, ToLower(value), MASK_UNKNOWN)
  }

  /** `Map.getOrDefault`. */
  function GetOrDefault(m: map<string, bv64>, k: string, d: bv64): bv64 {
    if k in m then m[k] else d
  }

  /** The assignment in the loop body: the bits under `maskKey` come from `maskValue`, the rest from `access`. */
  function Update(access: bv64, maskKey: bv64, maskValue: bv64): bv64 {
    (maskKey & maskValue) | (access & !maskKey)
  }

  /** One iteration of the loop: a present tag updates the bits under its key's mask. */
  function Step(access: bv64, tags: Tags, keyMasks: map<string, bv64>, key: string): bv64
    requires key in keyMasks
  {
    if key !in tags then access
    else Update(access, keyMasks[key], ValueMask(tags[key]))
  }

  predicate AllHaveMasks(keyMasks: map<string, bv64>, keys: seq<string>) {
    forall i :: 0 <= i < |keys| ==> keys[i] in keyMasks
  }

  /** The loop over `keys` from `access`, one Step per key, in order, with the key masks of `keyMasks`. */
  function Fold(access: bv64, tags: Tags, keyMasks: map<string, bv64>, keys: seq<string>): bv64
    requires AllHaveMasks(keyMasks, keys)
    decreases |keys|
  {
    if keys == [] then access
    else Step(Fold(access, tags, keyMasks, keys[..|keys| - 1]), tags, keyMasks, keys[|keys| - 1])
  }

  /** What getAccessType computes: the default of the road type, folded over the access tags. */
  function AccessType(tags: Tags, roadType: Option<RoadType>): bv64 {
    UsefulTagsHaveMasks();
    Fold(DefaultAccess(roadType), tags, KeyToMask(), UsefulTags())
  }

  /** AccessData.getAccessType: the default of the road type, then the loop over the access tags. */
  method GetAccessType(tags: Tags, roadType: Option<RoadType>) returns (access: bv64)
    ensures access == AccessType(tags, roadType)
  {
    UsefulTagsHaveMasks();
    access := FoldTags(DefaultAccess(roadType), tags, KeyToMask(), UsefulTags());
  }

  /** The loop of getAccessType over `keys`: each key present in the tags updates the bits under its mask. */
  method FoldTags(access0: bv64, tags: Tags, keyMasks: map<string, bv64>, keys: seq<string>) returns (access: bv64)
    requires AllHaveMasks(keyMasks, keys)
    ensures access == Fold(access0, tags, keyMasks, keys)
  {
    access := access0;
    var i := 0;
    while i < |keys|
      invariant 0 <= i <= |keys|
      invariant access == Fold(access0, tags, keyMasks, keys[..i])
    {
      var key := keys[i];
      assert keys[..i + 1][..i] == keys[..i];
      if key in tags {
        var value := tags[key];
        var maskKey := keyMasks[key];
        var maskValue := ValueMask(value);
        access := Update(access, maskKey, maskValue);
      }
      i := i + 1;
    }
    assert keys[..i] == keys;
  }

  /** Update keeps every bit outside the key mask and takes the value's bits inside it. */
  lemma UpdateBits(access: bv64, maskKey: bv64, maskValue: bv64)
    ensures Update(access, maskKey, maskValue) & !maskKey == access & !maskKey
    ensures Update(access, maskKey, maskValue) & maskKey == maskKey & maskValue
  {
  }

  /** A present or absent tag keeps every bit outside its key mask. */
  lemma StepKeepsOtherBits(access: bv64, tags: Tags, keyMasks: map<string, bv64>, key: string)
    requires key in keyMasks
    ensures Step(access, tags, keyMasks, key) & !keyMasks[key] == access & !keyMasks[key]
  {
    if key in tags {
      UpdateBits(access, keyMasks[key], ValueMask(tags[key]));
    }
  }

  /** A present tag puts its value's bits under its key mask; an absent one changes nothing. */
  lemma StepSetsKeyBits(access: bv64, tags: Tags, keyMasks: map<string, bv64>, key: string)
    requires key in keyMasks
    ensures key in tags ==> Step(access, tags, keyMasks, key) & keyMasks[key] == keyMasks[key] & ValueMask(tags[key])
    ensures key !in tags ==> Step(access, tags, keyMasks, key) == access
  {
    if key in tags {
      UpdateBits(access, keyMasks[key], ValueMask(tags[key]));
    }
  }

  /** No mask of the table reaches the top nibble. */
  predicate FitSixtyBits(keyMasks: map<string, bv64>) {
    forall k :: k in keyMasks ==> keyMasks[k] & TOP_NIBBLE == 0
  }

  /** Every key mask of KEY_TO_MASK leaves the top nibble clear. */
  lemma KeyMasksFitSixtyBits()
    ensures FitSixtyBits(KeyToMask())
  {
  }

  /** With the unknown mask as value, Update sets every bit of a key mask that fits in 60 bits. */
  lemma UpdateWithUnknown(access: bv64, maskKey: bv64)
    requires maskKey & TOP_NIBBLE == 0
    ensures Update(access, maskKey, MASK_UNKNOWN) == access | maskKey
  {
  }

  /** Since VALUE_TO_MASK is empty, a present tag sets every bit of its key mask, whatever its value. */
  lemma ValueIsIgnored(access: bv64, tags: Tags, keyMasks: map<string, bv64>, key: string)
    requires key in keyMasks && FitSixtyBits(keyMasks)
    ensures key in tags ==> Step(access, tags, keyMasks, key) == access | keyMasks[key]
  {
    if key in tags {
      assert ValueMask(tags[key]) == MASK_UNKNOWN;
      UpdateWithUnknown(access, keyMasks[key]);
    }
  }

  /** The access tags among `keys` that the way carries, in order. */
  function PresentKeys(tags: Tags, keys: seq<string>): (r: seq<string>)
    ensures forall i :: 0 <= i < |r| ==> r[i] in keys && r[i] in tags
    decreases |keys|
  {
    if keys == [] then []
    else
      var last := keys[|keys| - 1];
      PresentKeys(tags, keys[..|keys| - 1]) + (if last in tags then [last] else [])
  }

  /** The union of the key masks of `keys`. */
  function UnionOfMasks(keyMasks: map<string, bv64>, keys: seq<string>): bv64
    requires AllHaveMasks(keyMasks, keys)
    decreases |keys|
  {
    if keys == [] then 0
    else UnionOfMasks(keyMasks, keys[..|keys| - 1]) | keyMasks[keys[|keys| - 1]]
  }

  /** The union of the key masks of the tags present among `keys`. */
  function PresentMasks(tags: Tags, keyMasks: map<string, bv64>, keys: seq<string>): bv64
    requires AllHaveMasks(keyMasks, keys)
  {
    UnionOfMasks(keyMasks, PresentKeys(tags, keys))
  }

  /** PresentMasks grows by the last key's mask exactly when that tag is present. */
  lemma PresentMasksLast(tags: Tags, keyMasks: map<string, bv64>, keys: seq<string>)
    requires AllHaveMasks(keyMasks, keys) && keys != []
    ensures AllHaveMasks(keyMasks, keys[..|keys| - 1])
    ensures var last := keys[|keys| - 1];
      PresentMasks(tags, keyMasks, keys) ==
        if last in tags then PresentMasks(tags, keyMasks, keys[..|keys| - 1]) | keyMasks[last]
        else PresentMasks(tags, keyMasks, keys[..|keys| - 1])
  {
    var init := keys[..|keys| - 1];
    var last := keys[|keys| - 1];
    var p := PresentKeys(tags, init);
    if last in tags {
      assert PresentKeys(tags, keys) == p + [last];
      assert (p + [last])[..|p|] == p;
    } else {
      assert PresentKeys(tags, keys) == p;
    }
  }

  /** The loop only ever adds bits: the result is the start value or'ed with the present key masks. */
  lemma {:induction false} FoldIsUnion(access: bv64, tags: Tags, keyMasks: map<string, bv64>, keys: seq<string>)
    requires AllHaveMasks(keyMasks, keys) && FitSixtyBits(keyMasks)
    ensures Fold(access, tags, keyMasks, keys) == access | PresentMasks(tags, keyMasks, keys)
    decreases |keys|
  {
    if keys != [] {
      var init := keys[..|keys| - 1];
      var last := keys[|keys| - 1];
      PresentMasksLast(tags, keyMasks, keys);
      FoldIsUnion(access, tags, keyMasks, init);
      ValueIsIgnored(Fold(access, tags, keyMasks, init), tags, keyMasks, last);
    }
  }

  /** getAccessType is the road-type default or'ed with the masks of the present access tags. */
  lemma AccessTypeIsUnion(tags: Tags, roadType: Option<RoadType>)
    ensures AllHaveMasks(KeyToMask(), UsefulTags())
    ensures AccessType(tags, roadType) == DefaultAccess(roadType) | PresentMasks(tags, KeyToMask(), UsefulTags())
  {
    UsefulTagsHaveMasks();
    KeyMasksFitSixtyBits();
    FoldIsUnion(DefaultAccess(roadType), tags, KeyToMask(), UsefulTags());
  }

  lemma {:induction false} NoPresentKeys(tags: Tags, keys: seq<string>)
    requires forall i :: 0 <= i < |keys| ==> keys[i] !in tags
    ensures PresentKeys(tags, keys) == []
    decreases |keys|
  {
    if keys != [] {
      NoPresentKeys(tags, keys[..|keys| - 1]);
    }
  }

  /** With none of the access tags present, the result is the road-type default. */
  lemma NoAccessTagsGiveDefault(tags: Tags, roadType: Option<RoadType>)
    requires forall i :: 0 <= i < |UsefulTags()| ==> UsefulTags()[i] !in tags
    ensures AccessType(tags, roadType) == DefaultAccess(roadType)
  {
    AccessTypeIsUnion(tags, roadType);
    NoPresentKeys(tags, UsefulTags());
  }

  lemma {:induction false} PresentKeysByKeys(t1: Tags, t2: Tags, keys: seq<string>)
    requires forall i :: 0 <= i < |keys| ==> (keys[i] in t1 <==> keys[i] in t2)
    ensures PresentKeys(t1, keys) == PresentKeys(t2, keys)
    decreases |keys|
  {
    if keys != [] {
      PresentKeysByKeys(t1, t2, keys[..|keys| - 1]);
    }
  }

  /** Only which access tags are present matters, never their values. */
  lemma AccessDependsOnlyOnPresence(t1: Tags, t2: Tags, roadType: Option<RoadType>)
    requires forall i :: 0 <= i < |UsefulTags()| ==> (UsefulTags()[i] in t1 <==> UsefulTags()[i] in t2)
    ensures AccessType(t1, roadType) == AccessType(t2, roadType)
  {
    AccessTypeIsUnion(t1, roadType);
    AccessTypeIsUnion(t2, roadType);
    PresentKeysByKeys(t1, t2, UsefulTags());
  }

  /** The tag applied last decides its own group: all of its key bits end up set. */
  lemma LaterTagDecidesItsBits(access: bv64, tags: Tags, keyMasks: map<string, bv64>, keys: seq<string>, key: string)
    requires AllHaveMasks(keyMasks, keys) && key in keyMasks && key in tags && FitSixtyBits(keyMasks)
    ensures AllHaveMasks(keyMasks, keys + [key])
    ensures Fold(access, tags, keyMasks, keys + [key]) & keyMasks[key] == keyMasks[key]
  {
    assert AllHaveMasks(keyMasks, keys + [key]);
    assert (keys + [key])[..|keys|] == keys;
    ValueIsIgnored(Fold(access, tags, keyMasks, keys), tags, keyMasks, key);
  }

  lemma {:induction false} UnionOfMasksFits(keyMasks: map<string, bv64>, keys: seq<string>)
    requires AllHaveMasks(keyMasks, keys) && FitSixtyBits(keyMasks)
    ensures UnionOfMasks(keyMasks, keys) & TOP_NIBBLE == 0
    decreases |keys|
  {
    if keys != [] {
      UnionOfMasksFits(keyMasks, keys[..|keys| - 1]);
    }
  }

  /** Every access value fits in 60 bits: the highest nibble of the long stays clear. */
  lemma AccessFitsSixtyBits(tags: Tags, roadType: Option<RoadType>)
    ensures AccessType(tags, roadType) & TOP_NIBBLE == 0
  {
    AccessTypeIsUnion(tags, roadType);
    KeyMasksFitSixtyBits();
    UnionOfMasksFits(KeyToMask(), PresentKeys(tags, UsefulTags()));
    match roadType {
      case None =>
      case Some(t) => DefaultAccessValues(t);
    }
  }

  /** The "agricultural" key carries MASK_FORESTRY, the value entry put last under that key. */
  lemma AgriculturalIsForestry()
    ensures KeyToMask()["agricultural"] == MASK_FORESTRY
  {
  }
}
