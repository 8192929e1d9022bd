/**
  The class-file major versions the decoder recognises by name: Java 1.1
  (major version 45) through Java 21 (major version 65), one per release.
*/
module JavaVersions {
  import opened ByteReader

  datatype Option<+T> = None | Some(value: T)

  datatype KnownJavaVersion =
    | V1_1 | V1_2 | V1_3 | V1_4 | V1_5 | V1_6 | V1_7
    | V1_8 | V1_9 | V1_10 | V1_11 | V1_12 | V1_13 | V1_14
    | V1_15 | V1_16 | V1_17 | V1_18 | V1_19 | V1_20 | V1_21
  {
    /** The class-file major version this release writes. */
    function Major(): u16
    {
      match this
      case V1_1 => 45
      case V1_2 => 46
      case V1_3 => 47
      case V1_4 => 48
      case V1_5 => 49
      case V1_6 => 50
      case V1_7 => 51
      case V1_8 => 52
      case V1_9 => 53
      case V1_10 => 54
      case V1_11 => 55
      case V1_12 => 56
      case V1_13 => 57
      case V1_14 => 58
      case V1_15 => 59
      case V1_16 => 60
      case V1_17 => 61
      case V1_18 => 62
      case V1_19 => 63
      case V1_20 => 64
      case V1_21 => 65
    }
  }

  /** The `entries` of the enumeration, in declaration order. */
  const ENTRIES: seq<KnownJavaVersion> := [
    V1_1, V1_2, V1_3, V1_4, V1_5, V1_6, V1_7,
    V1_8, V1_9, V1_10, V1_11, V1_12, V1_13, V1_14,
    V1_15, V1_16, V1_17, V1_18, V1_19, V1_20, V1_21]

  /** The entries are listed in order of their major versions, from 45 up. */
  lemma EntriesMajors()
    ensures |ENTRIES| == 21
    ensures forall k :: 0 <= k < |ENTRIES| ==> ENTRIES[k].Major() == 45 + k
  {
  }

  /** Every release is listed, at the position its major version gives. */
  lemma EntryOf(v: KnownJavaVersion)
    ensures 45 <= v.Major() <= 65
    ensures ENTRIES[v.Major() - 45] == v
  {
  }

  /** No two releases share a major version. */
  lemma MajorInjective(v: KnownJavaVersion, w: KnownJavaVersion)
    ensures v.Major() == w.Major() <==> v == w
  {
    EntryOf(v);
    EntryOf(w);
  }

  /** The release whose major version is `major`, for any 45 <= major <= 65. */
  lemma VersionExists(major: u16)
    requires 45 <= major <= 65
    ensures exists v: KnownJavaVersion :: v.Major() == major
  {
    EntriesMajors();
    assert ENTRIES[major - 45].Major() == major;
  }

  /**
    `KnownJavaVersion.toVersion`: walk the entries in order and return the
    first whose major version matches, or nothing once they run out.
  */
  method ToVersion(major: u16) returns (v: Option<KnownJavaVersion>)
    ensures v.Some? <==> 45 <= major <= 65
    ensures v.Some? ==> v.value.Major() == major
    ensures v.None? ==> forall w: KnownJavaVersion :: w.Major() != major
  {
    EntriesMajors();
    for k := 0 to |ENTRIES|
      invariant !(45 <= major < 45 + k)
    {
      if ENTRIES[k].Major() == major {
        return Some(ENTRIES[k]);
      }
    }
    forall w: KnownJavaVersion ensures w.Major() != major {
      EntryOf(w);
    }
    return None;
  }
}
