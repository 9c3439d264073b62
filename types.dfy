/**
 * The resource type registry (s4lt/core/types.py): a table of known type ids
 * and their names, and the lookup that falls back to "Unknown_" followed by
 * the id in eight zero-padded upper-case hexadecimal digits.
 */
module Types {
  import opened Bytes
  import opened Wrappers
  import opened Text

  const RESOURCE_TYPES: map<nat, string> := map[
    0x034AEECB := "CASPart",
    0x0355E0A6 := "BodyBlendData",
    0x0333406C := "Tuning",
    0x025ED6F4 := "SimData",
    0x545AC67A := "CombinedTuning",
    0x220557DA := "StringTable",
    0x00B2D882 := "DDS",
    0x3C1AF1F2 := "PNG",
    0x2F7D0004 := "DST",
    0x015A1849 := "Geometry",
    0x00AE6C67 := "Bone",
    0x8EAF13DE := "RIG",
    0xC0DB5AE7 := "CatalogObject",
    0x319E4F1D := "ObjectDefinition",
    0x02D5DF13 := "CLIP",
    0x01EEF63A := "AuditoryData",
    0x3C2A8647 := "Thumbnail",
    0x5B282D45 := "ThumbnailAlt"
  ]

  const UNKNOWN_PREFIX: string := "Unknown_"

  /** get_type_name: the table entry, or the formatted fallback; it never fails. */
  function GetTypeName(typeId: nat): (r: string)
    ensures |r| >= 1
  {
    if typeId in RESOURCE_TYPES then RESOURCE_TYPES[typeId] else UNKNOWN_PREFIX + Hex(typeId, 8)
  }

  predicate HasUnknownPrefix(s: string)
  {
    |s| >= |UNKNOWN_PREFIX| && s[..|UNKNOWN_PREFIX|] == UNKNOWN_PREFIX
  }

  /** No name in the table looks like a fallback name. */
  lemma KnownNamesHaveNoUnknownPrefix(t: nat)
    requires t in RESOURCE_TYPES
    ensures !HasUnknownPrefix(RESOURCE_TYPES[t])
  {
    assert RESOURCE_TYPES[t][0] != 'U';
  }

  /** The table gives different names to different ids. */
  lemma KnownNamesDistinct(a: nat, b: nat)
    requires a in RESOURCE_TYPES && b in RESOURCE_TYPES
    requires RESOURCE_TYPES[a] == RESOURCE_TYPES[b]
    ensures a == b
  {
  }

  /** A known id is named by its table entry and never by a fallback name. */
  lemma KnownTypeName(t: nat)
    requires t in RESOURCE_TYPES
    ensures GetTypeName(t) == RESOURCE_TYPES[t] && !HasUnknownPrefix(GetTypeName(t))
  {
    KnownNamesHaveNoUnknownPrefix(t);
  }

  /**
   * An unknown 32-bit id is named "Unknown_" and eight upper-case hexadecimal
   * digits, 16 characters in all, and those digits read back as the id.
   */
  lemma UnknownTypeName(t: nat)
    requires t !in RESOURCE_TYPES && t < U32_LIMIT
    ensures HasUnknownPrefix(GetTypeName(t))
    ensures |GetTypeName(t)| == 16
    ensures forall i :: 8 <= i < 16 ==> IsUpperHexDigit(GetTypeName(t)[i])
    ensures ParseHex("0x" + GetTypeName(t)[8..]) == Some(t)
  {
    assert Pow16(8) == U32_LIMIT;
    HexWidth(t, 8);
    var r := GetTypeName(t);
    assert r[8..] == Hex(t, 8);
    ParseHexOfHex(t, 8);
  }

  /** Different ids always get different names. */
  lemma TypeNameInjective(a: nat, b: nat)
    requires GetTypeName(a) == GetTypeName(b)
    ensures a == b
  {
    var n := |UNKNOWN_PREFIX|;
    if a in RESOURCE_TYPES && b in RESOURCE_TYPES {
      KnownNamesDistinct(a, b);
    } else if a in RESOURCE_TYPES {
      KnownNamesHaveNoUnknownPrefix(a);
    } else if b in RESOURCE_TYPES {
      KnownNamesHaveNoUnknownPrefix(b);
    } else {
      assert Hex(a, 8) == GetTypeName(a)[n..];
      assert Hex(b, 8) == GetTypeName(b)[n..];
      HexValue(a, 8);
      HexValue(b, 8);
    }
  }
}
