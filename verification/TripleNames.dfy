/** The names the enumerations are spelled with, and that they parse back. */
module TripleNames {
  import opened TripleStrings
  import opened TripleParsing

  function EnvironmentName(k: Environment): string {
    match k
    case UnknownEnvironment => "unknown"
    case Android => "android"
    case CODE16 => "code16"
    case CoreCLR => "coreclr"
    case Cygnus => "cygnus"
    case EABI => "eabi"
    case EABIHF => "eabihf"
    case GNU => "gnu"
    case GNUABI64 => "gnuabi64"
    case GNUABIN32 => "gnuabin32"
    case GNUEABI => "gnueabi"
    case GNUEABIHF => "gnueabihf"
    case GNUX32 => "gnux32"
    case GNUILP32 => "gnu_ilp32"
    case Itanium => "itanium"
    case MSVC => "msvc"
    case MacABI => "macabi"
    case Musl => "musl"
    case MuslEABI => "musleabi"
    case MuslEABIHF => "musleabihf"
    case MuslX32 => "muslx32"
    case Simulator => "simulator"
  }

  /** Where an environment is in its table. */
  function EnvironmentIndex(k: Environment): (i: nat)
    requires k != UnknownEnvironment
    ensures i < 21
  {
    match k
    case EABIHF => 0
    case EABI => 1
    case GNUABIN32 => 2
    case GNUABI64 => 3
    case GNUEABIHF => 4
    case GNUEABI => 5
    case GNUX32 => 6
    case GNUILP32 => 7
    case CODE16 => 8
    case GNU => 9
    case Android => 10
    case MuslEABIHF => 11
    case MuslEABI => 12
    case MuslX32 => 13
    case Musl => 14
    case MSVC => 15
    case Itanium => 16
    case Cygnus => 17
    case CoreCLR => 18
    case Simulator => 19
    case MacABI => 20
  }

  lemma EnvironmentEntry(k: Environment)
    requires k != UnknownEnvironment
    ensures |ENVIRONMENTS| == 21 && ENVIRONMENTS[EnvironmentIndex(k)] == (EnvironmentName(k), k)
  {
  }

  // ----- Prefixes -----

  lemma {:induction false} SwitchFinds<T>(how: How, table: seq<(string, T)>, s: string, i: nat, k: nat, default: T)
    requires i <= k < |table| && Hits(how, table[k].0, s)
    requires forall j :: i <= j < k ==> !Hits(how, table[j].0, s)
    ensures Switch(how, table, s, i, default) == table[k].1
    decreases k - i
  {
    if i < k {
      SwitchFinds(how, table, s, i + 1, k, default);
    }
  }

  /** `p` is longer than `s`, or differs from it early on. */
  predicate Clash(p: string, s: string) {
    || |p| > |s|
    || (|p| > 0 && p[0] != s[0])
    || (|p| > 1 && p[1] != s[1])
    || (|p| > 3 && p[3] != s[3])
    || (|p| > 4 && p[4] != s[4])
    || (|p| > 5 && p[5] != s[5])
  }

  lemma ClashIsNoPrefix(p: string, s: string)
    requires Clash(p, s)
    ensures !Starts(s, p)
  {
  }

  /** No environment in the table is hidden by an earlier one. */
  lemma EarlyEnvironments()
    ensures forall i, k {:trigger ENVIRONMENTS[i], ENVIRONMENTS[k]} :: 0 <= i < k < 10 ==> Clash(ENVIRONMENTS[i].0, ENVIRONMENTS[k].0)
  {
  }

  lemma MiddleEnvironments()
    ensures forall i, k {:trigger ENVIRONMENTS[i], ENVIRONMENTS[k]} :: 0 <= i < k && 10 <= k < 16 ==> Clash(ENVIRONMENTS[i].0, ENVIRONMENTS[k].0)
  {
  }

  lemma LateEnvironments()
    ensures forall i, k {:trigger ENVIRONMENTS[i], ENVIRONMENTS[k]} :: 0 <= i < k && 16 <= k < 21 ==> Clash(ENVIRONMENTS[i].0, ENVIRONMENTS[k].0)
  {
  }

  lemma EnvironmentsApart(i: nat, k: nat)
    requires i < k < 21
    ensures |ENVIRONMENTS| == 21 && !Starts(ENVIRONMENTS[k].0, ENVIRONMENTS[i].0)
  {
    EarlyEnvironments();
    MiddleEnvironments();
    LateEnvironments();
    ClashIsNoPrefix(ENVIRONMENTS[i].0, ENVIRONMENTS[k].0);
  }

  lemma EnvironmentsDashFree()
    ensures forall i, j {:trigger ENVIRONMENTS[i].0[j]} :: 0 <= i < |ENVIRONMENTS| && 0 <= j < |ENVIRONMENTS[i].0| ==>
              ENVIRONMENTS[i].0[j] != '-'
  {
  }

  /** A dash keeps what follows from making up a longer prefix. */
  lemma DashStops(p: string, n: string, t: string)
    requires DashFree(p)
    ensures Starts(n + "-" + t, p) ==> Starts(n, p)
  {
    var s := n + "-" + t;
    assert s[|n|] == '-' && s[..|n|] == n;
    if Starts(s, p) {
      assert forall j :: 0 <= j < |p| ==> p[j] == s[j];
      assert |p| <= |n|;
    }
  }

  /** An environment is parsed back from its name, with or without something after a dash. */
  lemma EnvironmentParses(k: Environment, t: string)
    requires k != UnknownEnvironment
    ensures ParseEnvironment(EnvironmentName(k)) == k
    ensures ParseEnvironment(EnvironmentName(k) + "-" + t) == k
  {
    var n, i := EnvironmentName(k), EnvironmentIndex(k);
    EnvironmentEntry(k);
    EnvironmentsDashFree();
    forall j | 0 <= j < i
      ensures !Hits(StartsWith, ENVIRONMENTS[j].0, n) && !Hits(StartsWith, ENVIRONMENTS[j].0, n + "-" + t)
    {
      EnvironmentsApart(j, i);
      DashStops(ENVIRONMENTS[j].0, n, t);
    }
    SwitchFinds(StartsWith, ENVIRONMENTS, n, 0, i, UnknownEnvironment);
    assert (n + "-" + t)[..|n|] == n;
    SwitchFinds(StartsWith, ENVIRONMENTS, n + "-" + t, 0, i, UnknownEnvironment);
  }

  // ----- Suffixes -----

  /** The character `j` places from the end. */
  function FromEnd(s: string, j: nat): char
    requires j < |s|
  {
    s[|s| - 1 - j]
  }

  /** `e` is longer than `s`, or differs from it near the end. */
  predicate EndClash(e: string, s: string) {
    || |e| > |s|
    || (|e| > 0 && FromEnd(e, 0) != FromEnd(s, 0))
    || (|e| > 1 && FromEnd(e, 1) != FromEnd(s, 1))
    || (|e| > 2 && FromEnd(e, 2) != FromEnd(s, 2))
    || (|e| > 3 && FromEnd(e, 3) != FromEnd(s, 3))
    || (|e| > 4 && FromEnd(e, 4) != FromEnd(s, 4))
  }

  lemma SuffixChar(e: string, s: string, j: nat)
    requires Hits(EndsWith, e, s) && j < |e|
    ensures FromEnd(e, j) == FromEnd(s, j)
  {
    assert s[|s| - |e|..][|e| - 1 - j] == s[|s| - 1 - j];
  }

  lemma EndClashIsNoSuffix(e: string, s: string)
    ensures Hits(EndsWith, e, s) ==> !EndClash(e, s)
  {
    if Hits(EndsWith, e, s) {
      forall j: nat | j < |e| ensures FromEnd(e, j) == FromEnd(s, j) {
        SuffixChar(e, s, j);
      }
    }
  }

  /** No environment name ends in an object format. */
  lemma EnvironmentEndings(k: Environment, f: ObjectFormat)
    requires f != UnknownObjectFormat
    ensures EndClash(FormatName(f), EnvironmentName(k))
  {
    if f.ELF? {
      ELFEndings(k);
    } else if f.MachO? || f.Wasm? {
      OtherEndings(k, f);
    } else {
      CoffEndings(k, f);
    }
  }

  lemma CoffEndings(k: Environment, f: ObjectFormat)
    requires f.XCOFF? || f.COFF? || f.GOFF?
    ensures EndClash(FormatName(f), EnvironmentName(k))
  {
  }

  lemma ELFEndings(k: Environment)
    ensures EndClash(FormatName(ELF), EnvironmentName(k))
  {
  }

  lemma OtherEndings(k: Environment, f: ObjectFormat)
    requires f.MachO? || f.Wasm?
    ensures EndClash(FormatName(f), EnvironmentName(k))
  {
  }

  lemma FormatNamed(i: nat)
    requires i < |FORMATS|
    ensures FORMATS[i].1 != UnknownObjectFormat && FORMATS[i].0 == FormatName(FORMATS[i].1)
  {
  }

  lemma EnvironmentIsNoFormat(k: Environment)
    ensures ParseFormat(EnvironmentName(k)) == UnknownObjectFormat
  {
    forall i | 0 <= i < |FORMATS| ensures !Hits(EndsWith, FORMATS[i].0, EnvironmentName(k)) {
      FormatNamed(i);
      EnvironmentEndings(k, FORMATS[i].1);
      EndClashIsNoSuffix(FORMATS[i].0, EnvironmentName(k));
    }
    SwitchMisses(EndsWith, FORMATS, EnvironmentName(k), 0, UnknownObjectFormat);
  }

  function FormatIndex(f: ObjectFormat): (i: nat)
    requires f != UnknownObjectFormat
    ensures i < 6
  {
    match f
    case XCOFF => 0
    case COFF => 1
    case ELF => 2
    case GOFF => 3
    case MachO => 4
    case Wasm => 5
  }

  lemma FormatEntry(f: ObjectFormat)
    requires f != UnknownObjectFormat
    ensures |FORMATS| == 6 && FORMATS[FormatIndex(f)] == (FormatName(f), f)
  {
  }

  /** Nothing that ends in a format's name after a dash ends in an earlier
      format's; the dash stops a preceding "x" from joining "coff". */
  lemma FormatsApart(i: nat, k: nat, x: string)
    requires i < k < 6
    ensures |FORMATS| == 6 && EndClash(FORMATS[i].0, FORMATS[k].0) && EndClash(FORMATS[i].0, x + "-" + FORMATS[k].0)
  {
    var e, n := FORMATS[i].0, FORMATS[k].0;
    var s := x + "-" + n;
    assert forall j: nat :: j < |n| ==> FromEnd(s, j) == FromEnd(n, j);
    assert FromEnd(s, |n|) == '-';
  }

  /** A format is parsed back from its name, alone or after a dash. */
  lemma FormatParses(f: ObjectFormat, x: string)
    requires f != UnknownObjectFormat
    ensures ParseFormat(FormatName(f)) == f && ParseFormat(x + "-" + FormatName(f)) == f
  {
    var n, k := FormatName(f), FormatIndex(f);
    var s := x + "-" + n;
    FormatEntry(f);
    forall i | 0 <= i < k ensures !Hits(EndsWith, FORMATS[i].0, n) && !Hits(EndsWith, FORMATS[i].0, s) {
      FormatsApart(i, k, x);
      EndClashIsNoSuffix(FORMATS[i].0, n);
      EndClashIsNoSuffix(FORMATS[i].0, s);
    }
    SwitchFinds(EndsWith, FORMATS, n, 0, k, UnknownObjectFormat);
    assert s[|s| - |n|..] == n;
    SwitchFinds(EndsWith, FORMATS, s, 0, k, UnknownObjectFormat);
  }

  // ----- Names that the special cases of normalization write -----

  lemma WindowsEntry()
    ensures |OSES| > 15 && OSES[15] == ("windows", Win32)
    ensures forall i {:trigger OSES[i]} :: 0 <= i < 15 ==> Clash(OSES[i].0, "windows")
  {
  }

  lemma WindowsParses()
    ensures ParseOS("windows") == Win32
  {
    WindowsEntry();
    forall i | 0 <= i < 15 ensures !Hits(StartsWith, OSES[i].0, "windows") {
      ClashIsNoPrefix(OSES[i].0, "windows");
    }
    SwitchFinds(StartsWith, OSES, "windows", 0, 15, UnknownOS);
  }

  lemma AndroidEntry()
    ensures |ENVIRONMENTS| > 10 && ENVIRONMENTS[10] == ("android", Android)
    ensures forall i {:trigger ENVIRONMENTS[i]} :: 0 <= i < 10 ==> ENVIRONMENTS[i].0 != "" && ENVIRONMENTS[i].0[0] != 'a'
  {
  }

  /** Whatever its version, Android is Android. */
  lemma AndroidParses(version: string)
    ensures ParseEnvironment("android" + version) == Android
  {
    var s := "android" + version;
    AndroidEntry();
    assert s[0] == 'a' && s[..|"android"|] == "android";
    forall i | 0 <= i < 10 ensures !Hits(StartsWith, ENVIRONMENTS[i].0, s) {
      assert ENVIRONMENTS[i].0 != "" && ENVIRONMENTS[i].0[0] != 'a';
      NoPrefix(ENVIRONMENTS[i].0, s);
    }
    SwitchFinds(StartsWith, ENVIRONMENTS, s, 0, 10, UnknownEnvironment);
  }

  predicate NotIn<T(!new)>(table: seq<(string, T)>, s: string) {
    forall i {:trigger table[i]} :: 0 <= i < |table| ==> table[i].0 != s
  }

  lemma NotInMisses<T(!new)>(table: seq<(string, T)>, s: string, default: T)
    requires NotIn(table, s)
    ensures Switch(Case, table, s, 0, default) == default
  {
    forall j | 0 <= j < |table| ensures !Hits(Case, table[j].0, s) {
      assert table[j].0 != s;
    }
    SwitchMisses(Case, table, s, 0, default);
  }

  /** What is in none of the architecture tables is no architecture. */
  lemma InNoTable(host: Host, s: string)
    requires NotIn(COMMON_ARCHES, s) && NotIn(MIPS_ARCHES, s) && NotIn(OTHER_ARCHES, s)
    requires !Starts(s, "kalimba") && !Starts(s, "arm") && !Starts(s, "thumb") && !Starts(s, "aarch64") && !Starts(s, "bpf")
    ensures ParseArch(host, s) == UnknownArch
  {
    NotInMisses(OTHER_ARCHES, s, UnknownArch);
    NotInMisses(MIPS_ARCHES, s, Switch(Case, OTHER_ARCHES, s, 0, UnknownArch));
    NotInMisses(COMMON_ARCHES, s, Switch(Case, MIPS_ARCHES, s, 0, Switch(Case, OTHER_ARCHES, s, 0, UnknownArch)));
  }

  /** An object format is neither an architecture nor a vendor. */
  lemma FormatIsNoArch(host: Host, f: ObjectFormat)
    ensures ParseArch(host, FormatName(f)) == UnknownArch
  {
    if f != UnknownObjectFormat {
      FormatNoCommonArch(f);
      FormatNoMipsArch(f);
      FormatNoOtherArch(f);
      FormatNoArchPrefix(f);
      InNoTable(host, FormatName(f));
    } else {
      NothingMeansUnknown(host, FormatName(f));
    }
  }

  lemma FormatNoArchPrefix(f: ObjectFormat)
    requires f != UnknownObjectFormat
    ensures !Starts(FormatName(f), "kalimba") && !Starts(FormatName(f), "arm") && !Starts(FormatName(f), "thumb")
    ensures !Starts(FormatName(f), "aarch64") && !Starts(FormatName(f), "bpf")
  {
    NoPrefix("kalimba", FormatName(f));
    NoPrefix("arm", FormatName(f));
    NoPrefix("thumb", FormatName(f));
    NoPrefix("aarch64", FormatName(f));
    NoPrefix("bpf", FormatName(f));
  }

  lemma FormatNoCommonArch(f: ObjectFormat)
    requires f != UnknownObjectFormat
    ensures NotIn(COMMON_ARCHES, FormatName(f))
  {
  }

  lemma FormatNoMipsArch(f: ObjectFormat)
    requires f != UnknownObjectFormat
    ensures NotIn(MIPS_ARCHES, FormatName(f))
  {
  }

  lemma FormatNoOtherArch(f: ObjectFormat)
    requires f != UnknownObjectFormat
    ensures NotIn(OTHER_ARCHES, FormatName(f))
  {
  }

  lemma FormatIsNoVendor(f: ObjectFormat)
    ensures ParseVendor(FormatName(f)) == UnknownVendor
  {
    FormatNoVendor(f);
    NotInMisses(VENDORS, FormatName(f), UnknownVendor);
  }

  lemma FormatNoVendor(f: ObjectFormat)
    ensures NotIn(VENDORS, FormatName(f))
  {
  }

  lemma FormatNoEnvironment(f: ObjectFormat)
    requires f != UnknownObjectFormat
    ensures forall i {:trigger ENVIRONMENTS[i]} :: 0 <= i < |ENVIRONMENTS| ==> Clash(ENVIRONMENTS[i].0, FormatName(f))
  {
  }

  /** Nor an environment. */
  lemma FormatIsNoEnvironment(f: ObjectFormat)
    requires f != UnknownObjectFormat
    ensures ParseEnvironment(FormatName(f)) == UnknownEnvironment
  {
    FormatNoEnvironment(f);
    forall i | 0 <= i < |ENVIRONMENTS| ensures !Hits(StartsWith, ENVIRONMENTS[i].0, FormatName(f)) {
      ClashIsNoPrefix(ENVIRONMENTS[i].0, FormatName(f));
    }
    SwitchMisses(StartsWith, ENVIRONMENTS, FormatName(f), 0, UnknownEnvironment);
  }

  // ----- Systems -----

  lemma NotMinGW()
    ensures forall i {:trigger OSES[i]} :: 0 <= i < |OSES| ==> Differs(OSES[i].0, "mingw") && Differs(OSES[i].0, "cygwin")
  {
  }

  /** Two strings that differ where both have characters. */
  predicate Differs(p: string, q: string) {
    || (|p| > 0 && |q| > 0 && p[0] != q[0])
    || (|p| > 1 && |q| > 1 && p[1] != q[1])
    || (|p| > 3 && |q| > 3 && p[3] != q[3])
  }

  lemma DifferentPrefixes(c: string, p: string, q: string)
    requires Differs(p, q)
    ensures !(Starts(c, p) && Starts(c, q))
  {
  }

  /** A component with one of the two flags is no other system. */
  lemma FlagsAreNoOS(c: string)
    ensures Starts(c, "mingw") || Starts(c, "cygwin") ==> ParseOS(c) == UnknownOS
  {
    if Starts(c, "mingw") || Starts(c, "cygwin") {
      NotMinGW();
      forall i | 0 <= i < |OSES| ensures !Hits(StartsWith, OSES[i].0, c) {
        DifferentPrefixes(c, OSES[i].0, "mingw");
        DifferentPrefixes(c, OSES[i].0, "cygwin");
      }
      SwitchMisses(StartsWith, OSES, c, 0, UnknownOS);
    }
  }

  // ----- What the tables make of names -----

  lemma NamesDashFree(k: Environment, f: ObjectFormat)
    ensures DashFree(EnvironmentName(k)) && DashFree(FormatName(f))
  {
  }

  /** An environment is read back from its name, alone or before a dash, and no format is read from the name. */
  ghost predicate ReadsBack(parse: Parsers, k: Environment) {
    && parse.environment(EnvironmentName(k)) == k && parse.format(EnvironmentName(k)) == UnknownObjectFormat
    && parse.format(EnvironmentName(k) + "-") == UnknownObjectFormat
    && forall t {:trigger EnvironmentName(k) + "-" + t} :: parse.environment(EnvironmentName(k) + "-" + t) == k
  }

  /** An object format is read back from its name, alone or after a dash, and the name means nothing else. */
  ghost predicate ReadsFormat(parse: Parsers, f: ObjectFormat) {
    && parse.format(FormatName(f)) == f && parse.environment(FormatName(f)) == UnknownEnvironment
    && parse.arch(FormatName(f)) == UnknownArch && parse.vendor(FormatName(f)) == UnknownVendor
    && forall x {:trigger x + "-" + FormatName(f)} :: parse.format(x + "-" + FormatName(f)) == f
  }

  /** Nothing is unknown, and names of environments and formats are read back. */
  ghost predicate Faithful(parse: Parsers) {
    && Silent(parse)
    && (forall k {:trigger EnvironmentName(k)} :: ReadsBack(parse, k))
    && (forall f {:trigger FormatName(f)} :: f != UnknownObjectFormat ==> ReadsFormat(parse, f))
  }

  /** Android is Android whatever its version. */
  ghost predicate ReadsAndroid(parse: Parsers) {
    forall v {:trigger "android" + v} :: parse.environment("android" + v) == Android
  }

  /** "windows" is Windows, and what the flags stand for is no system. */
  ghost predicate ReadsWindows(parse: Parsers) {
    && parse.os("windows") == Win32
    && forall c {:trigger parse.os(c)} :: Starts(c, "mingw") || Starts(c, "cygwin") ==> parse.os(c) == UnknownOS
  }

  /** What the special cases of normalization need besides. */
  ghost predicate Known(parse: Parsers) {
    Faithful(parse) && ReadsAndroid(parse) && ReadsWindows(parse)
  }

  /** What follows a dash does not change an environment. */
  ghost predicate ReadsToDash(parse: Parsers) {
    forall c, t {:trigger parse.environment(c + "-" + t)} :: parse.environment(c + "-" + t) == parse.environment(c)
  }

  lemma {:induction false} SwitchAlike<T>(how: How, table: seq<(string, T)>, a: string, b: string, i: nat, default: T)
    requires i <= |table| && forall j {:trigger table[j]} :: i <= j < |table| ==> (Hits(how, table[j].0, a) <==> Hits(how, table[j].0, b))
    ensures Switch(how, table, a, i, default) == Switch(how, table, b, i, default)
    decreases |table| - i
  {
    if i < |table| {
      assert Hits(how, table[i].0, a) <==> Hits(how, table[i].0, b);
      SwitchAlike(how, table, a, b, i + 1, default);
    }
  }

  lemma EnvironmentToDash(c: string, t: string)
    ensures ParseEnvironment(c + "-" + t) == ParseEnvironment(c)
  {
    var s := c + "-" + t;
    EnvironmentsDashFree();
    assert s[..|c|] == c;
    forall j | 0 <= j < |ENVIRONMENTS|
      ensures Hits(StartsWith, ENVIRONMENTS[j].0, s) <==> Hits(StartsWith, ENVIRONMENTS[j].0, c)
    {
      DashStops(ENVIRONMENTS[j].0, c, t);
    }
    SwitchAlike(StartsWith, ENVIRONMENTS, s, c, 0, UnknownEnvironment);
  }

  lemma TablesReadToDash(host: Host)
    ensures ReadsToDash(ParsersOf(host))
  {
    forall c, t ensures ParseEnvironment(c + "-" + t) == ParseEnvironment(c) {
      EnvironmentToDash(c, t);
    }
  }

  lemma EnvironmentDash(k: Environment)
    ensures ParseFormat(EnvironmentName(k) + "-") == UnknownObjectFormat
  {
    FormatMisses(EnvironmentName(k) + "-");
  }

  lemma UnknownParses(t: string)
    ensures ParseEnvironment("unknown" + t) == UnknownEnvironment
  {
    EnvironmentsPlain();
    PlainMisses(StartsWith, ENVIRONMENTS, "unknown" + t, UnknownEnvironment);
  }

  lemma EnvironmentReads(k: Environment, t: string)
    ensures ParseEnvironment(EnvironmentName(k)) == k && ParseEnvironment(EnvironmentName(k) + "-" + t) == k
  {
    if k != UnknownEnvironment {
      EnvironmentParses(k, t);
    } else {
      UnknownParses("");
      UnknownParses("-" + t);
      assert "unknown" + "" == "unknown" && "unknown" + "-" + t == "unknown" + ("-" + t);
    }
  }

  lemma TablesReadBack(host: Host, k: Environment)
    ensures ReadsBack(ParsersOf(host), k)
  {
    EnvironmentIsNoFormat(k);
    EnvironmentDash(k);
    EnvironmentReads(k, "");
    forall t ensures ParseEnvironment(EnvironmentName(k) + "-" + t) == k {
      EnvironmentReads(k, t);
    }
  }

  lemma TablesReadFormat(host: Host, f: ObjectFormat)
    requires f != UnknownObjectFormat
    ensures ReadsFormat(ParsersOf(host), f)
  {
    FormatIsNoEnvironment(f);
    FormatIsNoArch(host, f);
    FormatIsNoVendor(f);
    FormatParses(f, "");
    forall x ensures ParseFormat(x + "-" + FormatName(f)) == f {
      FormatParses(f, x);
    }
  }

  /** It holds of the tables. */
  lemma TablesAreFaithful(host: Host)
    ensures Faithful(ParsersOf(host))
  {
    var parse := ParsersOf(host);
    TablesAreSilent(host);
    forall k ensures ReadsBack(parse, k) {
      TablesReadBack(host, k);
    }
    forall f | f != UnknownObjectFormat ensures ReadsFormat(parse, f) {
      TablesReadFormat(host, f);
    }
  }

  lemma TablesReadAndroid(host: Host)
    ensures ReadsAndroid(ParsersOf(host))
  {
    forall v ensures ParseEnvironment("android" + v) == Android {
      AndroidParses(v);
    }
  }

  lemma TablesReadWindows(host: Host)
    ensures ReadsWindows(ParsersOf(host))
  {
    WindowsParses();
    forall c | Starts(c, "mingw") || Starts(c, "cygwin") ensures ParseOS(c) == UnknownOS {
      FlagsAreNoOS(c);
    }
  }

  lemma TablesAreKnown(host: Host)
    ensures Known(ParsersOf(host))
  {
    TablesAreFaithful(host);
    TablesReadAndroid(host);
    TablesReadWindows(host);
  }
}
