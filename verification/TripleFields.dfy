/** What a target string means: its components, the enumerations parsed from
    them, and how the strings built by the mutators relate to the old ones. */
module TripleFields {
  import opened TripleStrings
  import opened TripleParsing
  import opened TripleNames

  // ----- Components, by nested splits -----

  function ArchPart(s: string): string {
    First(s)
  }

  function VendorPart(s: string): string {
    First(Second(s))
  }

  function OSPart(s: string): string {
    First(Second(Second(s)))
  }

  function EnvironmentPart(s: string): string {
    Second(Second(Second(s)))
  }

  function OSAndEnvironmentPart(s: string): string {
    Second(Second(s))
  }

  predicate HasEnvironment(s: string) {
    EnvironmentPart(s) != ""
  }

  // ----- The enumerations -----

  datatype Fields = Fields(arch: Arch, subArch: SubArch, vendor: Vendor, os: OS, environment: Environment,
                           format: ObjectFormat)

  predicate IsDarwin(os: OS) {
    os.Darwin? || os.MacOSX? || os.IOS? || os.TvOS? || os.WatchOS?
  }

  function DefaultFormat(arch: Arch, os: OS): ObjectFormat {
    match arch
    case UnknownArch | AARCH64 | AARCH64_32 | ARM | THUMB | X86 | X86_64 =>
      if IsDarwin(os) then MachO else if os.Win32? then COFF else ELF
    case PPC | PPC64 => if os.AIX? then XCOFF else ELF
    case SYSTEMZ => if os.ZOS? then GOFF else ELF
    case WASM32 | WASM64 => Wasm
    case SPIRV32 | SPIRV64 => UnknownObjectFormat
    case _ => ELF
  }

  /** The rule for a triple that is just an architecture. */
  function MipsEnvironment(arch: string): Environment {
    if Starts(arch, "mipsn32") then GNUABIN32
    else if Starts(arch, "mips64") then GNUABI64
    else if Starts(arch, "mipsisa64") then GNUABI64
    else if Starts(arch, "mipsisa32") then GNU
    else if arch == "mips" || arch == "mipsel" || arch == "mipsr6" || arch == "mipsr6el" then GNU
    else UnknownEnvironment
  }

  /** At most `n` splits, the rest unsplit. */
  function SplitMax(s: string, n: nat): (cs: seq<string>)
    ensures 1 <= |cs| <= n + 1
    decreases n
  {
    if n == 0 || Dash(s) == |s| then [s] else [First(s)] + SplitMax(Second(s), n - 1)
  }

  function WithDefault(format: ObjectFormat, arch: Arch, os: OS): ObjectFormat {
    if format == UnknownObjectFormat then DefaultFormat(arch, os) else format
  }

  /** The constructor's parse of its components. */
  function ParseList(p: Parsers, cs: seq<string>): Fields
    requires 1 <= |cs|
  {
    var arch := p.arch(cs[0]);
    var vendor := if |cs| > 1 then p.vendor(cs[1]) else UnknownVendor;
    var os := if |cs| > 2 then p.os(cs[2]) else UnknownOS;
    var environment :=
      if |cs| > 3 then p.environment(cs[3]) else if |cs| == 1 then MipsEnvironment(cs[0]) else UnknownEnvironment;
    var format := if |cs| > 3 then p.format(cs[3]) else UnknownObjectFormat;
    Fields(arch, p.subArch(cs[0]), vendor, os, environment, WithDefault(format, arch, os))
  }

  function Parse(p: Parsers, s: string): Fields {
    ParseList(p, SplitMax(s, 3))
  }

  function FieldsFrom(p: Parsers, arch: string, vendor: string, os: string, environment: string): Fields {
    Fields(p.arch(arch), p.subArch(arch), p.vendor(vendor), p.os(os), p.environment(environment),
           WithDefault(p.format(environment), p.arch(arch), p.os(os)))
  }

  /** The same, told by the component accessors. */
  function ParseParts(p: Parsers, s: string): Fields {
    FieldsFrom(p, ArchPart(s), VendorPart(s), OSPart(s), EnvironmentPart(s))
  }

  lemma EmptySplits()
    ensures First("") == "" && Second("") == "" && Dash("") == 0
  {
  }

  predicate ComponentsAre(cs: seq<string>, arch: string, vendor: string, os: string, environment: string) {
    && 1 <= |cs| && cs[0] == arch
    && vendor == (if |cs| > 1 then cs[1] else "")
    && os == (if |cs| > 2 then cs[2] else "")
    && environment == (if |cs| > 3 then cs[3] else "")
  }

  /** The accessors, which split one dash at a time, give the components of the
      constructor's split, and nothing where there is none. */
  lemma PartsAreComponents(s: string)
    ensures ComponentsAre(SplitMax(s, 3), ArchPart(s), VendorPart(s), OSPart(s), EnvironmentPart(s))
  {
    EmptySplits();
    var s1, s2 := Second(s), Second(Second(s));
    FirstDashFree(s);
    FirstDashFree(s1);
    FirstDashFree(s2);
    assert SplitMax(Second(s2), 0) == [Second(s2)];
  }

  /** The enumerations are those of the accessors' components, but for the
      environment of a triple of one component. */
  lemma ParseIsParseParts(p: Parsers, s: string)
    requires Faithful(p)
    ensures Parse(p, s) ==
            if Dash(s) == |s| then ParseParts(p, s).(environment := MipsEnvironment(ArchPart(s))) else ParseParts(p, s)
  {
    PartsAreComponents(s);
    OneComponentSplit(s);
  }

  lemma OneComponentSplit(s: string)
    ensures Dash(s) == |s| <==> |SplitMax(s, 3)| == 1
  {
  }

  // ----- The accessors, by the list of all components -----

  /** At least `n` components, the missing ones empty. */
  function Padded(cs: seq<string>, n: nat): (r: seq<string>)
    ensures |r| >= n && |r| >= |cs|
    ensures forall k :: 0 <= k < |r| ==> r[k] == if k < |cs| then cs[k] else ""
    ensures |cs| >= n ==> r == cs
  {
    if |cs| >= n then cs else cs + seq(n - |cs|, _ => "")
  }

  /** The accessors pick components, or give the empty string where there is none. */
  lemma PartsOfSplit(s: string)
    ensures var cs := Padded(Split(s), 3); ArchPart(s) == cs[0] && VendorPart(s) == cs[1] && OSPart(s) == cs[2]
    ensures Split(OSAndEnvironmentPart(s)) == Padded(Split(s), 3)[2..]
    ensures if |Split(s)| > 3 then Split(EnvironmentPart(s)) == Split(s)[3..] else EnvironmentPart(s) == ""
  {
    var s1, s2 := Second(s), Second(Second(s));
    EmptySplits();
    FirstDashFree(s);
    FirstDashFree(s1);
    FirstDashFree(s2);
    if Dash(s) < |s| && Dash(s1) < |s1| {
      assert Split(s)[1..] == Split(s1) && Split(s1)[1..] == Split(s2);
      assert Split(s)[2..] == Split(s2);
      if Dash(s2) < |s2| {
        assert Split(s2)[1..] == Split(Second(s2));
      }
    }
  }
}
