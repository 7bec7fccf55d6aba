/** The enumerations of a target triple and the functions that parse its components. */
module TripleParsing {
  datatype Arch =
    | UnknownArch
    | ARM | ARMEB | AARCH64 | AARCH64_BE | AARCH64_32 | ARC | AVR | BPFEL | BPFEB | CSKY | HEXAGON | M68K
    | MIPS | MIPSEL | MIPS64 | MIPS64EL | MSP430 | PPC | PPCLE | PPC64 | PPC64LE | R600 | AMDGCN | RISCV32
    | RISCV64 | TOYRISCV32 | TOYRISCV64 | SPARC | SPARCV9 | SPARCEL | SYSTEMZ | TCE | TCELE | THUMB | THUMBEB
    | X86 | X86_64 | XCORE | NVPTX | NVPTX64 | LE32 | LE64 | AMDIL | AMDIL64 | HSAIL | HSAIL64 | SPIR | SPIR64
    | SPIRV32 | SPIRV64 | KALIMBA | SHAVE | LANAI | WASM32 | WASM64 | RENDERSCRIPT32 | RENDERSCRIPT64 | VE

  datatype Vendor =
    | UnknownVendor
    | Apple | PC | SCEI | Freescale | IBM | ImaginationTechnologies | MipsTechnologies | NVIDIA | CSR | Myriad
    | AMD | Mesa | SUSE | OpenEmbedded

  datatype OS =
    | UnknownOS
    | Ananas | CloudABI | Darwin | DragonFly | FreeBSD | Fuchsia | IOS | KFreeBSD | Linux | Lv2 | MacOSX
    | NetBSD | OpenBSD | Solaris | Win32 | ZOS | Haiku | Minix | RTEMS | NaCl | AIX | CUDA | NVCL | AMDHSA
    | PS4 | ELFIAMCU | TvOS | WatchOS | Mesa3D | Contiki | AMDPAL | HermitCore | Hurd | WASI | Emscripten

  datatype Environment =
    | UnknownEnvironment
    | EABIHF | EABI | GNUABIN32 | GNUABI64 | GNUEABIHF | GNUEABI | GNUX32 | GNUILP32 | CODE16 | GNU | Android
    | MuslEABIHF | MuslEABI | MuslX32 | Musl | MSVC | Itanium | Cygnus | CoreCLR | Simulator | MacABI

  datatype ObjectFormat =
    | UnknownObjectFormat
    | XCOFF | COFF | ELF | GOFF | MachO | Wasm

  // ----- String switches -----

  /** How an entry of a string switch is compared with the string. */
  datatype How = Case | StartsWith | EndsWith

  predicate Hits(how: How, entry: string, s: string) {
    match how
    case Case => s == entry
    case StartsWith => entry <= s
    case EndsWith => |entry| <= |s| && s[|s| - |entry|..] == entry
  }

  /** The value of the first entry from `i` on that hits, or the default. */
  function Switch<T>(how: How, table: seq<(string, T)>, s: string, i: nat, default: T): T
    requires i <= |table|
    decreases |table| - i
  {
    if i == |table| then default
    else if Hits(how, table[i].0, s) then table[i].1
    else Switch(how, table, s, i + 1, default)
  }

  /** The architecture names, all compared exactly, in three tables. */
  const COMMON_ARCHES: seq<(string, Arch)> := [
    ("i386", X86), ("i486", X86), ("i586", X86), ("i686", X86), ("i786", X86), ("i886", X86), ("i986", X86),
    ("amd64", X86_64), ("x86_64", X86_64), ("x86_64h", X86_64), ("powerpc", PPC), ("powerpcspe", PPC),
    ("ppc", PPC), ("ppc32", PPC), ("powerpcle", PPCLE), ("ppcle", PPCLE), ("ppc32le", PPCLE),
    ("powerpc64", PPC64), ("ppu", PPC64), ("ppc64", PPC64), ("powerpc64le", PPC64LE), ("ppc64le", PPC64LE),
    ("xscale", ARM), ("xscaleeb", ARMEB), ("aarch64", AARCH64), ("aarch64_be", AARCH64_BE),
    ("aarch64_32", AARCH64_32), ("arc", ARC), ("arm64", AARCH64), ("arm64_32", AARCH64_32),
    ("arm64e", AARCH64), ("arm", ARM), ("armeb", ARMEB), ("thumb", THUMB), ("thumbeb", THUMBEB)]

  const MIPS_ARCHES: seq<(string, Arch)> := [
    ("mips", MIPS), ("mipseb", MIPS), ("mipsallegrex", MIPS), ("mipsisa32r6", MIPS), ("mipsr6", MIPS),
    ("mipsel", MIPSEL), ("mipsallegrexel", MIPSEL), ("mipsisa32r6el", MIPSEL), ("mipsr6el", MIPSEL),
    ("mips64", MIPS64), ("mips64eb", MIPS64), ("mipsn32", MIPS64), ("mipsisa64r6", MIPS64),
    ("mips64r6", MIPS64), ("mipsn32r6", MIPS64), ("mips64el", MIPS64EL), ("mipsn32el", MIPS64EL),
    ("mipsisa64r6el", MIPS64EL), ("mips64r6el", MIPS64EL), ("mipsn32r6el", MIPS64EL)]

  const OTHER_ARCHES: seq<(string, Arch)> := [
    ("avr", AVR), ("m68k", M68K), ("msp430", MSP430), ("r600", R600), ("amdgcn", AMDGCN), ("riscv32", RISCV32),
    ("riscv64", RISCV64), ("toyriscv32", TOYRISCV32), ("toyriscv64", TOYRISCV64), ("hexagon", HEXAGON),
    ("s390x", SYSTEMZ), ("systemz", SYSTEMZ), ("sparc", SPARC), ("sparcel", SPARCEL), ("sparcv9", SPARCV9),
    ("sparc64", SPARCV9), ("tce", TCE), ("tcele", TCELE), ("xcore", XCORE), ("nvptx", NVPTX),
    ("nvptx64", NVPTX64), ("le32", LE32), ("le64", LE64), ("amdil", AMDIL), ("amdil64", AMDIL64),
    ("hsail", HSAIL), ("hsail64", HSAIL64), ("spir", SPIR), ("spir64", SPIR64), ("spirv32", SPIRV32),
    ("spirv64", SPIRV64), ("lanai", LANAI), ("renderscript32", RENDERSCRIPT32),
    ("renderscript64", RENDERSCRIPT64), ("shave", SHAVE), ("ve", VE), ("wasm32", WASM32), ("wasm64", WASM64),
    ("csky", CSKY)]

  const VENDORS: seq<(string, Vendor)> := [
    ("apple", Apple), ("pc", PC), ("scei", SCEI), ("sie", SCEI), ("fsl", Freescale), ("ibm", IBM),
    ("img", ImaginationTechnologies), ("mti", MipsTechnologies), ("nvidia", NVIDIA), ("csr", CSR),
    ("myriad", Myriad), ("amd", AMD), ("mesa", Mesa), ("suse", SUSE), ("oe", OpenEmbedded)]

  const OSES: seq<(string, OS)> := [
    ("ananas", Ananas), ("cloudabi", CloudABI), ("darwin", Darwin), ("dragonfly", DragonFly),
    ("freebsd", FreeBSD), ("fuchsia", Fuchsia), ("ios", IOS), ("kfreebsd", KFreeBSD), ("linux", Linux),
    ("lv2", Lv2), ("macos", MacOSX), ("netbsd", NetBSD), ("openbsd", OpenBSD), ("solaris", Solaris),
    ("win32", Win32), ("windows", Win32), ("zos", ZOS), ("haiku", Haiku), ("minix", Minix), ("rtems", RTEMS),
    ("nacl", NaCl), ("aix", AIX), ("cuda", CUDA), ("nvcl", NVCL), ("amdhsa", AMDHSA), ("ps4", PS4),
    ("elfiamcu", ELFIAMCU), ("tvos", TvOS), ("watchos", WatchOS), ("mesa3d", Mesa3D), ("contiki", Contiki),
    ("amdpal", AMDPAL), ("hermit", HermitCore), ("hurd", Hurd), ("wasi", WASI), ("emscripten", Emscripten)]

  const ENVIRONMENTS: seq<(string, Environment)> := [
    ("eabihf", EABIHF), ("eabi", EABI), ("gnuabin32", GNUABIN32), ("gnuabi64", GNUABI64),
    ("gnueabihf", GNUEABIHF), ("gnueabi", GNUEABI), ("gnux32", GNUX32), ("gnu_ilp32", GNUILP32),
    ("code16", CODE16), ("gnu", GNU), ("android", Android), ("musleabihf", MuslEABIHF), ("musleabi", MuslEABI),
    ("muslx32", MuslX32), ("musl", Musl), ("msvc", MSVC), ("itanium", Itanium), ("cygnus", Cygnus),
    ("coreclr", CoreCLR), ("simulator", Simulator), ("macabi", MacABI)]

  /** "xcoff" comes before "coff", which it ends in. */
  const FORMATS: seq<(string, ObjectFormat)> := [
    ("xcoff", XCOFF), ("coff", COFF), ("elf", ELF), ("goff", GOFF), ("macho", MachO), ("wasm", Wasm)]

  // ----- The parsers -----

  type SubArch = nat

  /** What is not shown of the parsers: the ARM architecture parser, the
      sub-architecture as a function of the architecture name, and the byte
      order of the host. */
  datatype Host = Host(armArch: string -> Arch, subArch: string -> SubArch, littleEndian: bool)

  predicate Starts(s: string, prefix: string) {
    prefix <= s
  }

  function ParseBPFArch(host: Host, s: string): Arch {
    if s == "bpf" then (if host.littleEndian then BPFEL else BPFEB)
    else if s == "bpf_be" || s == "bpfeb" then BPFEB
    else if s == "bpf_le" || s == "bpfel" then BPFEL
    else UnknownArch
  }

  function NamedArch(s: string): Arch {
    Switch(Case, COMMON_ARCHES, s, 0, Switch(Case, MIPS_ARCHES, s, 0, Switch(Case, OTHER_ARCHES, s, 0, UnknownArch)))
  }

  function ParseArch(host: Host, s: string): Arch {
    var arch := if Starts(s, "kalimba") then KALIMBA else NamedArch(s);
    if arch != UnknownArch then arch
    else if Starts(s, "arm") || Starts(s, "thumb") || Starts(s, "aarch64") then host.armArch(s)
    else if Starts(s, "bpf") then ParseBPFArch(host, s)
    else UnknownArch
  }

  function ParseVendor(s: string): Vendor {
    Switch(Case, VENDORS, s, 0, UnknownVendor)
  }

  function ParseOS(s: string): OS {
    Switch(StartsWith, OSES, s, 0, UnknownOS)
  }

  function ParseEnvironment(s: string): Environment {
    Switch(StartsWith, ENVIRONMENTS, s, 0, UnknownEnvironment)
  }

  function ParseFormat(s: string): ObjectFormat {
    Switch(EndsWith, FORMATS, s, 0, UnknownObjectFormat)
  }

  function FormatName(f: ObjectFormat): string {
    match f
    case UnknownObjectFormat => ""
    case COFF => "coff"
    case ELF => "elf"
    case GOFF => "goff"
    case MachO => "macho"
    case Wasm => "wasm"
    case XCOFF => "xcoff"
  }

  // ----- What no parser accepts -----

  lemma {:induction false} SwitchMisses<T>(how: How, table: seq<(string, T)>, s: string, i: nat, default: T)
    requires i <= |table| && forall j :: i <= j < |table| ==> !Hits(how, table[j].0, s)
    ensures Switch(how, table, s, i, default) == default
    decreases |table| - i
  {
    if i < |table| {
      SwitchMisses(how, table, s, i + 1, default);
    }
  }

  /** Entries neither empty nor beginning as "unknown" does. */
  ghost predicate Plain<T(!new)>(table: seq<(string, T)>) {
    forall i {:trigger table[i]} :: 0 <= i < |table| ==> table[i].0 != "" && table[i].0[0] != 'u'
  }

  lemma PlainMisses<T(!new)>(how: How, table: seq<(string, T)>, s: string, default: T)
    requires Plain(table) && how != EndsWith && (s == "" || s[0] == 'u')
    ensures Switch(how, table, s, 0, default) == default
  {
    forall j | 0 <= j < |table| ensures !Hits(how, table[j].0, s) {
      assert table[j].0 != "" && table[j].0[0] != 'u';
    }
    SwitchMisses(how, table, s, 0, default);
  }

  lemma VendorsPlain()
    ensures Plain(VENDORS)
  {
  }

  lemma OSesPlain()
    ensures Plain(OSES)
  {
  }

  lemma EnvironmentsPlain()
    ensures Plain(ENVIRONMENTS)
  {
  }

  lemma ArchesPlain()
    ensures Plain(COMMON_ARCHES) && Plain(MIPS_ARCHES)
  {
  }

  lemma OtherArchesPlain()
    ensures Plain(OTHER_ARCHES)
  {
  }

  /** No format is a suffix of a string that ends in 'n' or in a dash. */
  lemma FormatsEnd()
    ensures forall i {:trigger FORMATS[i]} :: 0 <= i < |FORMATS| ==>
              FORMATS[i].0 != "" && FORMATS[i].0[|FORMATS[i].0| - 1] != 'n' && FORMATS[i].0[|FORMATS[i].0| - 1] != '-'
  {
  }

  lemma SuffixLast(e: string, s: string)
    ensures e != "" && Hits(EndsWith, e, s) ==> s != "" && s[|s| - 1] == e[|e| - 1]
  {
    if e != "" && Hits(EndsWith, e, s) {
      assert s[|s| - |e|..][|e| - 1] == s[|s| - 1];
    }
  }

  lemma FormatMisses(s: string)
    requires s == "" || s[|s| - 1] == 'n' || s[|s| - 1] == '-'
    ensures ParseFormat(s) == UnknownObjectFormat
  {
    FormatsEnd();
    forall j | 0 <= j < |FORMATS| ensures !Hits(EndsWith, FORMATS[j].0, s) {
      var e := FORMATS[j].0;
      assert e != "" && e[|e| - 1] != 'n' && e[|e| - 1] != '-';
      SuffixLast(e, s);
    }
    SwitchMisses(EndsWith, FORMATS, s, 0, UnknownObjectFormat);
  }

  lemma ArchMisses(host: Host, s: string)
    requires s == "" || s[0] == 'u'
    ensures ParseArch(host, s) == UnknownArch
  {
    ArchesPlain();
    OtherArchesPlain();
    PlainMisses(Case, COMMON_ARCHES, s, Switch(Case, MIPS_ARCHES, s, 0, Switch(Case, OTHER_ARCHES, s, 0, UnknownArch)));
    PlainMisses(Case, MIPS_ARCHES, s, Switch(Case, OTHER_ARCHES, s, 0, UnknownArch));
    PlainMisses(Case, OTHER_ARCHES, s, UnknownArch);
    NoPrefix("kalimba", s);
    NoPrefix("arm", s);
    NoPrefix("thumb", s);
    NoPrefix("aarch64", s);
    NoPrefix("bpf", s);
  }

  lemma NoPrefix(prefix: string, s: string)
    requires prefix != "" && (s == "" || s[0] != prefix[0])
    ensures !Starts(s, prefix)
  {
  }

  /** Neither an empty component nor "unknown" is taken for anything. */
  lemma NothingMeansUnknown(host: Host, s: string)
    requires s == "" || s == "unknown"
    ensures ParseArch(host, s) == UnknownArch && ParseVendor(s) == UnknownVendor && ParseOS(s) == UnknownOS
    ensures ParseEnvironment(s) == UnknownEnvironment && ParseFormat(s) == UnknownObjectFormat
    ensures !Starts(s, "cygwin") && !Starts(s, "mingw")
  {
    ArchMisses(host, s);
    VendorsPlain();
    PlainMisses(Case, VENDORS, s, UnknownVendor);
    OSesPlain();
    PlainMisses(StartsWith, OSES, s, UnknownOS);
    EnvironmentsPlain();
    PlainMisses(StartsWith, ENVIRONMENTS, s, UnknownEnvironment);
    FormatMisses(s);
    NoPrefix("cygwin", s);
    NoPrefix("mingw", s);
  }

  // ----- The parsers together -----

  /** The parse functions, one for each component. */
  datatype Parsers = Parsers(arch: string -> Arch, subArch: string -> SubArch, vendor: string -> Vendor,
                             os: string -> OS, environment: string -> Environment, format: string -> ObjectFormat)

  function ParsersOf(host: Host): Parsers {
    Parsers((s: string) => ParseArch(host, s), host.subArch, (s: string) => ParseVendor(s), (s: string) => ParseOS(s),
            (s: string) => ParseEnvironment(s), (s: string) => ParseFormat(s))
  }

  predicate SilentOn(parse: Parsers, s: string) {
    && parse.arch(s) == UnknownArch && parse.vendor(s) == UnknownVendor && parse.os(s) == UnknownOS
    && parse.environment(s) == UnknownEnvironment && parse.format(s) == UnknownObjectFormat
  }

  /** Neither an empty component nor "unknown" is taken for anything. */
  predicate Silent(parse: Parsers) {
    SilentOn(parse, "") && SilentOn(parse, "unknown")
  }

  lemma TableIsSilentOn(host: Host, s: string)
    requires s == "" || s == "unknown"
    ensures SilentOn(ParsersOf(host), s)
  {
    NothingMeansUnknown(host, s);
  }

  lemma TablesAreSilent(host: Host)
    ensures Silent(ParsersOf(host))
  {
    TableIsSilentOn(host, "");
    TableIsSilentOn(host, "unknown");
  }
}
