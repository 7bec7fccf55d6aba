/** The names of vendors and systems, and what the tables and the defaults say of them. */
module TripleTables {
  import opened TripleStrings
  import opened TripleParsing
  import opened TripleNames
  import opened TripleFields

  // ----- Names -----

  function VendorName(k: Vendor): string {
    match k
    case UnknownVendor => "unknown"
    case AMD => "amd"
    case Apple => "apple"
    case CSR => "csr"
    case Freescale => "fsl"
    case IBM => "ibm"
    case ImaginationTechnologies => "img"
    case Mesa => "mesa"
    case MipsTechnologies => "mti"
    case Myriad => "myriad"
    case NVIDIA => "nvidia"
    case OpenEmbedded => "oe"
    case PC => "pc"
    case SCEI => "scei"
    case SUSE => "suse"
  }

  /** Where it is in its table. */
  function VendorIndex(k: Vendor): (i: nat)
    requires k != UnknownVendor
    ensures i < 15
  {
    match k
    case AMD => 11
    case Apple => 0
    case CSR => 9
    case Freescale => 4
    case IBM => 5
    case ImaginationTechnologies => 6
    case Mesa => 12
    case MipsTechnologies => 7
    case Myriad => 10
    case NVIDIA => 8
    case OpenEmbedded => 14
    case PC => 1
    case SCEI => 2
    case SUSE => 13
  }

  function OSName(k: OS): string {
    match k
    case UnknownOS => "unknown"
    case AIX => "aix"
    case AMDHSA => "amdhsa"
    case AMDPAL => "amdpal"
    case Ananas => "ananas"
    case CUDA => "cuda"
    case CloudABI => "cloudabi"
    case Contiki => "contiki"
    case Darwin => "darwin"
    case DragonFly => "dragonfly"
    case ELFIAMCU => "elfiamcu"
    case Emscripten => "emscripten"
    case FreeBSD => "freebsd"
    case Fuchsia => "fuchsia"
    case Haiku => "haiku"
    case HermitCore => "hermit"
    case Hurd => "hurd"
    case IOS => "ios"
    case KFreeBSD => "kfreebsd"
    case Linux => "linux"
    case Lv2 => "lv2"
    case MacOSX => "macosx"
    case Mesa3D => "mesa3d"
    case Minix => "minix"
    case NVCL => "nvcl"
    case NaCl => "nacl"
    case NetBSD => "netbsd"
    case OpenBSD => "openbsd"
    case PS4 => "ps4"
    case RTEMS => "rtems"
    case Solaris => "solaris"
    case TvOS => "tvos"
    case WASI => "wasi"
    case WatchOS => "watchos"
    case Win32 => "windows"
    case ZOS => "zos"
  }

  /** Where it is in its table. */
  function OSIndex(k: OS): (i: nat)
    requires k != UnknownOS
    ensures i < 36
  {
    match k
    case AIX => 21
    case AMDHSA => 24
    case AMDPAL => 31
    case Ananas => 0
    case CUDA => 22
    case CloudABI => 1
    case Contiki => 30
    case Darwin => 2
    case DragonFly => 3
    case ELFIAMCU => 26
    case Emscripten => 35
    case FreeBSD => 4
    case Fuchsia => 5
    case Haiku => 17
    case HermitCore => 32
    case Hurd => 33
    case IOS => 6
    case KFreeBSD => 7
    case Linux => 8
    case Lv2 => 9
    case MacOSX => 10
    case Mesa3D => 29
    case Minix => 18
    case NVCL => 23
    case NaCl => 20
    case NetBSD => 11
    case OpenBSD => 12
    case PS4 => 25
    case RTEMS => 19
    case Solaris => 13
    case TvOS => 27
    case WASI => 34
    case WatchOS => 28
    case Win32 => 15
    case ZOS => 16
  }

  // ----- They parse back -----

  lemma VendorEntry(k: Vendor)
    requires k != UnknownVendor
    ensures |VENDORS| == 15 && VENDORS[VendorIndex(k)] == (VendorName(k), k)
  {
  }

  lemma VendorsDiffer()
    ensures forall i, k {:trigger VENDORS[i], VENDORS[k]} :: 0 <= i < k < 15 ==> Differs(VENDORS[i].0, VENDORS[k].0)
  {
  }

  /** Every vendor is parsed back from its name. */
  lemma VendorParses(k: Vendor)
    ensures ParseVendor(VendorName(k)) == k
  {
    if k == UnknownVendor {
      VendorsPlain();
      PlainMisses(Case, VENDORS, "unknown", UnknownVendor);
    } else {
      VendorEntry(k);
      VendorsDiffer();
      forall j | 0 <= j < VendorIndex(k) ensures !Hits(Case, VENDORS[j].0, VendorName(k)) {
        assert Differs(VENDORS[j].0, VENDORS[VendorIndex(k)].0);
      }
      SwitchFinds(Case, VENDORS, VendorName(k), 0, VendorIndex(k), UnknownVendor);
    }
  }

  lemma OSEntryTo9(k: OS)
    requires k != UnknownOS && 0 <= OSIndex(k) < 9
    ensures |OSES| == 36 && OSES[OSIndex(k)].1 == k && Starts(OSName(k), OSES[OSIndex(k)].0)
  {
  }

  lemma OSEntryTo18(k: OS)
    requires k != UnknownOS && 9 <= OSIndex(k) < 18
    ensures |OSES| == 36 && OSES[OSIndex(k)].1 == k && Starts(OSName(k), OSES[OSIndex(k)].0)
  {
  }

  lemma OSEntryTo27(k: OS)
    requires k != UnknownOS && 18 <= OSIndex(k) < 27
    ensures |OSES| == 36 && OSES[OSIndex(k)].1 == k && Starts(OSName(k), OSES[OSIndex(k)].0)
  {
  }

  lemma OSEntryTo36(k: OS)
    requires k != UnknownOS && 27 <= OSIndex(k) < 36
    ensures |OSES| == 36 && OSES[OSIndex(k)].1 == k && Starts(OSName(k), OSES[OSIndex(k)].0)
  {
  }

  lemma OSEntry(k: OS)
    requires k != UnknownOS
    ensures |OSES| == 36 && OSES[OSIndex(k)].1 == k && Starts(OSName(k), OSES[OSIndex(k)].0)
  {
    if OSIndex(k) < 9 {
      OSEntryTo9(k);
    } else if OSIndex(k) < 18 {
      OSEntryTo18(k);
    } else if OSIndex(k) < 27 {
      OSEntryTo27(k);
    } else {
      OSEntryTo36(k);
    }
  }

  lemma EarlySystems()
    ensures forall i, k {:trigger OSES[i], OSES[k]} :: 0 <= i < k < 12 ==> Differs(OSES[i].0, OSES[k].0)
  {
  }

  lemma SystemsTo15()
    ensures forall i, k {:trigger OSES[i], OSES[k]} :: 0 <= i < k && 12 <= k < 15 ==> Differs(OSES[i].0, OSES[k].0)
  {
  }

  lemma SystemsTo18()
    ensures forall i, k {:trigger OSES[i], OSES[k]} :: 0 <= i < k && 15 <= k < 18 ==> Differs(OSES[i].0, OSES[k].0)
  {
  }

  lemma SystemsTo21()
    ensures forall i, k {:trigger OSES[i], OSES[k]} :: 0 <= i < k && 18 <= k < 21 ==> Differs(OSES[i].0, OSES[k].0)
  {
  }

  lemma SystemsTo24()
    ensures forall i, k {:trigger OSES[i], OSES[k]} :: 0 <= i < k && 21 <= k < 24 ==> Differs(OSES[i].0, OSES[k].0)
  {
  }

  lemma SystemsTo26()
    ensures forall i, k {:trigger OSES[i], OSES[k]} :: 0 <= i < k && 24 <= k < 26 ==> Differs(OSES[i].0, OSES[k].0)
  {
  }

  lemma SystemsTo28()
    ensures forall i, k {:trigger OSES[i], OSES[k]} :: 0 <= i < k && 26 <= k < 28 ==> Differs(OSES[i].0, OSES[k].0)
  {
  }

  lemma SystemsTo30()
    ensures forall i, k {:trigger OSES[i], OSES[k]} :: 0 <= i < k && 28 <= k < 30 ==> Differs(OSES[i].0, OSES[k].0)
  {
  }

  lemma SystemsTo32()
    ensures forall i, k {:trigger OSES[i], OSES[k]} :: 0 <= i < k && 30 <= k < 32 ==> Differs(OSES[i].0, OSES[k].0)
  {
  }

  lemma SystemsTo34()
    ensures forall i, k {:trigger OSES[i], OSES[k]} :: 0 <= i < k && 32 <= k < 34 ==> Differs(OSES[i].0, OSES[k].0)
  {
  }

  lemma SystemsTo36()
    ensures forall i, k {:trigger OSES[i], OSES[k]} :: 0 <= i < k && 34 <= k < 36 ==> Differs(OSES[i].0, OSES[k].0)
  {
  }

  lemma SystemsDiffer(i: nat, k: nat)
    requires i < k < 36
    ensures |OSES| == 36 && Differs(OSES[i].0, OSES[k].0)
  {
    EarlySystems();
    SystemsTo15();
    SystemsTo18();
    SystemsTo21();
    SystemsTo24();
    SystemsTo26();
    SystemsTo28();
    SystemsTo30();
    SystemsTo32();
    SystemsTo34();
    SystemsTo36();
  }

  /** A system is known by its entry, whatever follows: no earlier entry begins alike. */
  lemma OSParses(k: OS, version: string)
    requires k != UnknownOS
    ensures ParseOS(OSName(k) + version) == k
  {
    var n, i := OSName(k) + version, OSIndex(k);
    OSEntry(k);
    assert n[..|OSName(k)|] == OSName(k);
    forall j | 0 <= j < i ensures !Hits(StartsWith, OSES[j].0, n) {
      SystemsDiffer(j, i);
      DifferentPrefixes(n, OSES[j].0, OSES[i].0);
    }
    SwitchFinds(StartsWith, OSES, n, 0, i, UnknownOS);
  }

  /** Names of vendors and systems are read back. */
  ghost predicate ReadsNames(parse: Parsers) {
    && (forall k {:trigger VendorName(k)} :: parse.vendor(VendorName(k)) == k)
    && (forall k {:trigger OSName(k)} :: parse.os(OSName(k)) == k)
  }

  lemma TablesReadNames(host: Host)
    ensures ReadsNames(ParsersOf(host))
  {
    forall k ensures ParseVendor(VendorName(k)) == k {
      VendorParses(k);
    }
    forall k ensures ParseOS(OSName(k)) == k {
      if k == UnknownOS {
        OSesPlain();
        PlainMisses(StartsWith, OSES, "unknown", UnknownOS);
      } else {
        OSParses(k, "");
        assert OSName(k) + "" == OSName(k);
      }
    }
  }

  lemma VendorNameDashFree(k: Vendor)
    ensures DashFree(VendorName(k))
  {
  }

  lemma OSNameDashFreeTo9(k: OS)
    requires k != UnknownOS && 0 <= OSIndex(k) < 9
    ensures DashFree(OSName(k))
  {
  }

  lemma OSNameDashFreeTo18(k: OS)
    requires k != UnknownOS && 9 <= OSIndex(k) < 18
    ensures DashFree(OSName(k))
  {
  }

  lemma OSNameDashFreeTo27(k: OS)
    requires k != UnknownOS && 18 <= OSIndex(k) < 27
    ensures DashFree(OSName(k))
  {
  }

  lemma OSNameDashFreeTo36(k: OS)
    requires k != UnknownOS && 27 <= OSIndex(k) < 36
    ensures DashFree(OSName(k))
  {
  }

  lemma OSNameDashFree(k: OS)
    ensures DashFree(OSName(k))
  {
    if k != UnknownOS {
      if OSIndex(k) < 9 {
        OSNameDashFreeTo9(k);
      } else if OSIndex(k) < 18 {
        OSNameDashFreeTo18(k);
      } else if OSIndex(k) < 27 {
        OSNameDashFreeTo27(k);
      } else {
        OSNameDashFreeTo36(k);
      }
    }
  }

  // ----- Defaults -----

  /** The architectures whose object format depends on whether the system is Darwin's or Windows. */
  predicate FollowsSystem(arch: Arch) {
    match arch
    case UnknownArch | AARCH64 | AARCH64_32 | ARM | THUMB | X86 | X86_64 => true
    case _ => false
  }

  predicate IsDarwinSystem(os: OS) {
    match os
    case Darwin | MacOSX | IOS | TvOS | WatchOS => true
    case _ => false
  }

  /** Which architectures and systems have each of the formats by default; all others have ELF. */
  lemma DefaultFormatIs(arch: Arch, os: OS)
    ensures DefaultFormat(arch, os) == MachO <==> FollowsSystem(arch) && IsDarwinSystem(os)
    ensures DefaultFormat(arch, os) == COFF <==> FollowsSystem(arch) && os == Win32
    ensures DefaultFormat(arch, os) == XCOFF <==> (arch == PPC || arch == PPC64) && os == AIX
    ensures DefaultFormat(arch, os) == GOFF <==> arch == SYSTEMZ && os == ZOS
    ensures DefaultFormat(arch, os) == Wasm <==> arch == WASM32 || arch == WASM64
    ensures DefaultFormat(arch, os) == UnknownObjectFormat <==> arch == SPIRV32 || arch == SPIRV64
  {
    DefaultMachO(arch, os);
    DefaultCOFF(arch, os);
    DefaultXCOFF(arch, os);
    DefaultGOFF(arch, os);
    DefaultWasm(arch, os);
    DefaultUnknown(arch, os);
  }

  lemma DefaultMachO(arch: Arch, os: OS)
    ensures DefaultFormat(arch, os) == MachO <==> FollowsSystem(arch) && IsDarwinSystem(os)
  {
    if FollowsSystem(arch) {
      SystemMachO(arch, os);
    } else {
      OtherNoMachO(arch, os);
    }
  }

  lemma SystemMachO(arch: Arch, os: OS)
    requires FollowsSystem(arch)
    ensures DefaultFormat(arch, os) == MachO <==> IsDarwinSystem(os)
  {
  }

  lemma OtherNoMachO(arch: Arch, os: OS)
    requires !FollowsSystem(arch)
    ensures DefaultFormat(arch, os) != MachO
  {
  }

  lemma DefaultCOFF(arch: Arch, os: OS)
    ensures DefaultFormat(arch, os) == COFF <==> FollowsSystem(arch) && os == Win32
  {
  }

  lemma DefaultXCOFF(arch: Arch, os: OS)
    ensures DefaultFormat(arch, os) == XCOFF <==> (arch == PPC || arch == PPC64) && os == AIX
  {
  }

  lemma DefaultGOFF(arch: Arch, os: OS)
    ensures DefaultFormat(arch, os) == GOFF <==> arch == SYSTEMZ && os == ZOS
  {
  }

  lemma DefaultWasm(arch: Arch, os: OS)
    ensures DefaultFormat(arch, os) == Wasm <==> arch == WASM32 || arch == WASM64
  {
  }

  lemma DefaultUnknown(arch: Arch, os: OS)
    ensures DefaultFormat(arch, os) == UnknownObjectFormat <==> arch == SPIRV32 || arch == SPIRV64
  {
  }

  lemma OnePrefix(s: string, p: string, q: string, k: nat)
    requires k < |p| && k < |q| && p[k] != q[k]
    ensures !(Starts(s, p) && Starts(s, q))
  {
  }

  /** The environment of a triple that is only an architecture, by how that begins. */
  lemma MipsEnvironmentIs(arch: string)
    ensures MipsEnvironment(arch) == GNUABIN32 <==> Starts(arch, "mipsn32")
    ensures MipsEnvironment(arch) == GNUABI64 <==> Starts(arch, "mips64") || Starts(arch, "mipsisa64")
    ensures MipsEnvironment(arch) == GNU <==>
            Starts(arch, "mipsisa32") || arch in {"mips", "mipsel", "mipsr6", "mipsr6el"}
    ensures MipsEnvironment(arch) in {GNUABIN32, GNUABI64, GNU, UnknownEnvironment}
  {
    OnePrefix(arch, "mipsn32", "mips64", 4);
    OnePrefix(arch, "mipsn32", "mipsisa64", 4);
    OnePrefix(arch, "mipsn32", "mipsisa32", 4);
    OnePrefix(arch, "mips64", "mipsisa32", 4);
    OnePrefix(arch, "mipsisa64", "mipsisa32", 7);
  }
}
