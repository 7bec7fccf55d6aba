/** Version queries, and the map from Darwin versions to macOS versions. */
module DarwinVersions {
  import opened Wrappers
  import opened TripleParsing

  const UNSIGNED: nat := 0x1_0000_0000

  /** A version; missing components are zero. */
  datatype Version = Version(major: nat, minor: nat, micro: nat)

  /** Versions are ordered lexicographically. */
  predicate Before(a: Version, b: Version) {
    a.major < b.major ||
    (a.major == b.major && (a.minor < b.minor || (a.minor == b.minor && a.micro < b.micro)))
  }

  // ----- isOSVersionLT -----

  /** `v` is the version parsed from the name of the system. */
  predicate IsOSVersionLT(v: Version, major: nat, minor: nat, micro: nat) {
    if minor == 0 then Before(v, Version(major, 0, 0))
    else if micro == 0 then Before(v, Version(major, minor, 0))
    else Before(v, Version(major, minor, micro))
  }

  /** The query ignores `micro` where `minor` is zero: it is lexicographic
      comparison for all versions but those between. */
  lemma OSVersionLTIsLexicographic(v: Version, major: nat, minor: nat, micro: nat)
    ensures (IsOSVersionLT(v, major, minor, micro) <==> Before(v, Version(major, minor, micro))) <==>
            !(minor == 0 && micro != 0 && v.major == major && v.minor == 0 && v.micro < micro)
  {
  }

  // ----- getMacOSXVersion -----

  predicate IsMacOSX(os: OS) {
    os.Darwin? || os.MacOSX?
  }

  predicate IsApple(os: OS) {
    IsMacOSX(os) || os.IOS? || os.TvOS? || os.WatchOS?
  }

  function MacOSXVersion(os: OS, v: Version): Option<Version>
    requires IsApple(os)
  {
    match os
    case Darwin =>
      var major := if v.major == 0 then 8 else v.major;
      if major < 4 then None
      else if major <= 19 then Some(Version(10, major - 4, 0))
      else Some(Version(11 + major - 20, 0, 0))
    case MacOSX =>
      if v.major == 0 then Some(Version(10, 4, 0)) else if v.major < 10 then None else Some(v)
    case IOS | TvOS | WatchOS => Some(Version(10, 4, 0))
  }

  /** The versions that do not map, and what those without a macOS version of their own map to. */
  lemma MapDefaults(os: OS, v: Version)
    requires IsApple(os)
    ensures MacOSXVersion(os, v).None? <==> (os == Darwin && 1 <= v.major <= 3) || (os == MacOSX && 1 <= v.major <= 9)
    ensures v.major == 0 && IsMacOSX(os) ==> MacOSXVersion(os, v) == Some(Version(10, 4, 0))
    ensures !IsMacOSX(os) ==> MacOSXVersion(os, v) == Some(Version(10, 4, 0))
    ensures os == MacOSX && v.major >= 10 ==> MacOSXVersion(os, v) == Some(v)
    ensures os == Darwin && 4 <= v.major <= 19 ==> MacOSXVersion(os, v) == Some(Version(10, v.major - 4, 0))
    ensures os == Darwin && v.major >= 20 ==> MacOSXVersion(os, v) == Some(Version(v.major - 9, 0, 0))
  {
  }

  method GetMacOSXVersion(os: OS, osVersion: Version) returns (ok: bool, version: Version)
    requires IsApple(os)
    ensures ok == MacOSXVersion(os, osVersion).Some?
    ensures ok ==> version == MacOSXVersion(os, osVersion).value
  {
    version := osVersion;
    match os
    case Darwin =>
      if version.major == 0 {
        version := Version(8, 0, 0);
      }
      if version.major < 4 {
        return false, version;
      }
      if version.major <= 19 {
        version := Version(10, version.major - 4, 0);
      } else {
        version := Version(11 + version.major - 20, 0, 0);
      }
      ok := true;
    case MacOSX =>
      if version.major == 0 {
        version := Version(10, 4, 0);
      } else if version.major < 10 {
        return false, version;
      }
      ok := true;
    case IOS | TvOS | WatchOS =>
      version := Version(10, 4, 0);
      ok := true;
  }

  // ----- isMacOSXVersionLT -----

  /** Queries are of 10, or of 11 and later. The sums are of unsigned numbers. */
  predicate IsMacOSXVersionLT(os: OS, v: Version, major: nat, minor: nat, micro: nat)
    requires IsMacOSX(os) && (os.Darwin? ==> major >= 10)
  {
    if os.MacOSX? then IsOSVersionLT(v, major, minor, micro)
    else if major == 10 then IsOSVersionLT(v, (minor + 4) % UNSIGNED, micro, 0)
    else IsOSVersionLT(v, (major - 11 + 20) % UNSIGNED, minor, micro)
  }

  /** The map keeps the order of Darwin's major versions, and forgets the rest. */
  lemma MapKeepsOrder(v: Version, w: Version)
    requires v.major >= 4 && w.major >= 4
    ensures Before(MacOSXVersion(Darwin, v).value, MacOSXVersion(Darwin, w).value) <==> v.major < w.major
  {
  }

  /** The sum in the query exceeds the unsigned numbers. */
  predicate Wraps(major: nat, minor: nat) {
    if major == 10 then minor + 4 >= UNSIGNED else major + 9 >= UNSIGNED
  }

  /** Where the query on a Darwin version differs from comparing the macOS
      version, though its sum does not wrap: without a version, for queries up to
      10.4, which is the default; from Darwin 20 on, for queries of 10 whose sum
      is past the version; and where the sum meets the version, for minor or
      micro numbers that the map forgets. */
  predicate Skewed(v: Version, major: nat, minor: nat, micro: nat) {
    if major == 10 then
      if v.major == 0 then minor < 4 || (minor == 4 && micro == 0)
      else if v.major <= 19 then v.major == minor + 4 && 0 < micro <= v.minor
      else v.major < minor + 4 || (v.major == minor + 4 && v.minor < micro)
    else
      && v.major == major + 9 && (minor != 0 || micro != 0)
      && (minor == 0 || v.minor > minor || (v.minor == minor && v.micro >= micro))
  }

  /** For every Darwin version that the map takes, and a query whose sum does not
      wrap, the query agrees with comparing the macOS version exactly when it is
      not skewed. */
  lemma QueryAgrees(v: Version, major: nat, minor: nat, micro: nat)
    requires MacOSXVersion(Darwin, v).Some? && major >= 10 && !Wraps(major, minor)
    ensures (IsMacOSXVersionLT(Darwin, v, major, minor, micro) <==>
             Before(MacOSXVersion(Darwin, v).value, Version(major, minor, micro))) <==>
            !Skewed(v, major, minor, micro)
  {
    if major == 10 {
      assert (minor + 4) % UNSIGNED == minor + 4;
    } else {
      assert (major - 11 + 20) % UNSIGNED == major + 9;
    }
  }

  /** For an unversioned Darwin the query agrees exactly when it asks past the default. */
  lemma UnversionedQueryAgrees(v: Version, major: nat, minor: nat, micro: nat)
    requires v.major == 0 && major >= 10 && !Wraps(major, minor)
    ensures (IsMacOSXVersionLT(Darwin, v, major, minor, micro) <==>
             Before(MacOSXVersion(Darwin, v).value, Version(major, minor, micro))) <==>
            Before(Version(10, 4, 0), Version(major, minor, micro))
  {
    QueryAgrees(v, major, minor, micro);
  }

  /** Where the sum wraps, a query of 10 agrees from Darwin 20 on, where the
      answer is no, and without a version, but for one sum; a later query agrees
      exactly where the version is before the wrapped sum, since every macOS
      version is before it. */
  lemma WrappedQueryAgrees(v: Version, major: nat, minor: nat, micro: nat)
    requires MacOSXVersion(Darwin, v).Some? && v.major < UNSIGNED
    requires 10 <= major < UNSIGNED && minor < UNSIGNED && Wraps(major, minor)
    ensures major == 10 ==>
              ((IsMacOSXVersionLT(Darwin, v, major, minor, micro) <==>
                Before(MacOSXVersion(Darwin, v).value, Version(major, minor, micro))) <==>
               (v.major >= 20 || (v.major == 0 && (minor > UNSIGNED - 4 || v.minor < micro))))
    ensures major > 10 ==>
              ((IsMacOSXVersionLT(Darwin, v, major, minor, micro) <==>
                Before(MacOSXVersion(Darwin, v).value, Version(major, minor, micro))) <==>
               Before(v, Version(major + 9 - UNSIGNED, minor, if minor == 0 then 0 else micro)))
  {
    if major == 10 {
      assert (minor + 4) % UNSIGNED == minor + 4 - UNSIGNED;
    } else {
      assert (major - 11 + 20) % UNSIGNED == major + 9 - UNSIGNED;
    }
  }

  /** The queries that occur, 10.m up to 10.16 and the releases from 11 on, always agree. */
  lemma ReleaseQueriesAgree(v: Version, major: nat, minor: nat)
    requires v.major >= 4 && major + 9 < UNSIGNED
    requires (major == 10 && minor <= 16) || (major >= 11 && minor == 0)
    ensures IsMacOSXVersionLT(Darwin, v, major, minor, 0) <==>
            Before(MacOSXVersion(Darwin, v).value, Version(major, minor, 0))
  {
    QueryAgrees(v, major, minor, 0);
  }

  /** A sum that wraps answers no for every Darwin version from 4 on, though
      each up to 19 stands for an earlier macOS. */
  lemma WrappedQuery(v: Version, minor: nat)
    requires 4 <= v.major <= 19 && UNSIGNED - 4 <= minor < UNSIGNED
    ensures !IsMacOSXVersionLT(Darwin, v, 10, minor, 0)
    ensures Before(MacOSXVersion(Darwin, v).value, Version(10, minor, 0))
  {
    assert (minor + 4) % UNSIGNED == minor + 4 - UNSIGNED;
  }

  /** On macOS itself the query is on the version as it stands. Where there is
      one, it agrees but for the ignored micro number; where there is none, it
      agrees exactly for queries past the default, or of a major number 0 that
      do not ask past the version itself. */
  lemma MacQueryAgrees(v: Version, major: nat, minor: nat, micro: nat)
    requires MacOSXVersion(MacOSX, v).Some?
    ensures v.major != 0 ==>
              ((IsMacOSXVersionLT(MacOSX, v, major, minor, micro) <==>
                Before(MacOSXVersion(MacOSX, v).value, Version(major, minor, micro))) <==>
               !(minor == 0 && micro != 0 && v.major == major && v.minor == 0 && v.micro < micro))
    ensures v.major == 0 && major != 0 ==>
              ((IsMacOSXVersionLT(MacOSX, v, major, minor, micro) <==>
                Before(MacOSXVersion(MacOSX, v).value, Version(major, minor, micro))) <==>
               Before(Version(10, 4, 0), Version(major, minor, micro)))
    ensures v.major == 0 && major == 0 ==>
              ((IsMacOSXVersionLT(MacOSX, v, major, minor, micro) <==>
                Before(MacOSXVersion(MacOSX, v).value, Version(major, minor, micro))) <==>
               minor == 0 || v.minor > minor || (v.minor == minor && v.micro >= micro))
  {
    OSVersionLTIsLexicographic(v, major, minor, micro);
  }
}
