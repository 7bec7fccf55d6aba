/** The special cases at the end of `Triple::normalize`, and the whole of it. */
module TripleSpecialCases {
  import opened TripleParsing
  import opened TripleStrings
  import opened TripleComponents
  import opened TripleSearch
  import opened TripleNormalize
  import opened TripleAgreement

  /** Shortens the list, or lengthens it with empty components. */
  function Resize(cs: Components, n: nat): (r: Components)
    ensures |r| == n
    ensures forall k :: 0 <= k < n ==> r[k] == if k < |cs| then cs[k] else ""
  {
    if |cs| >= n then cs[..n] else cs + seq(n - |cs|, _ => "")
  }

  /** "androideabi" with a version is "android" with that version. */
  function AndroidCase(cs: Components, st: Parsed): Components
    requires st.environment.Android? ==> |cs| > 3
  {
    if st.environment.Android? && Starts(cs[3], "androideabi") then
      cs[3 := "android" + cs[3][|"androideabi"|..]]
    else cs
  }

  /** SUSE says "gnueabi" for "gnueabihf". */
  function SuseCase(cs: Components, st: Parsed): Components
    requires st.environment.GNUEABI? ==> |cs| > 3
  {
    if st.vendor.SUSE? && st.environment.GNUEABI? then cs[3 := "gnueabihf"] else cs
  }

  predicate PlainFormat(f: ObjectFormat) {
    f.UnknownObjectFormat? || f.COFF?
  }

  /** Windows, however it is spelled, with its environment. */
  function WindowsCase(cs: Components, st: Parsed): Components {
    if st.os.Win32? then
      var r := Resize(cs, 4)[2 := "windows"];
      if st.environment.UnknownEnvironment? then
        r[3 := if PlainFormat(st.format) then "msvc" else FormatName(st.format)]
      else r
    else if st.isMinGW32 then Resize(cs, 4)[2 := "windows"][3 := "gnu"]
    else if st.isCygwin then Resize(cs, 4)[2 := "windows"][3 := "cygnus"]
    else cs
  }

  predicate KeepsFormat(st: Parsed) {
    st.isMinGW32 || st.isCygwin || (st.os.Win32? && !st.environment.UnknownEnvironment?)
  }

  function FormatCase(cs: Components, st: Parsed): Components {
    if KeepsFormat(st) && !PlainFormat(st.format) then Resize(cs, 5)[4 := FormatName(st.format)] else cs
  }

  function Special(cs: Components, st: Parsed): Components
    requires st.environment != UnknownEnvironment ==> |cs| > 3
  {
    FormatCase(WindowsCase(SuseCase(AndroidCase(cs, st), st), st), st)
  }

  method ApplySpecialCases(cs0: Components, st: Parsed) returns (cs: Components)
    requires st.environment != UnknownEnvironment ==> |cs0| > 3
    ensures cs == Special(cs0, st)
  {
    cs := cs0;
    if st.environment == Android && Starts(cs[3], "androideabi") {
      var version := cs[3][|"androideabi"|..];
      if version == "" {
        assert "android" + version == "android";
        cs := cs[3 := "android"];
      } else {
        cs := cs[3 := "android" + version];
      }
    }
    if st.vendor == SUSE && st.environment == GNUEABI {
      cs := cs[3 := "gnueabihf"];
    }
    if st.os == Win32 {
      cs := Resize(cs, 4);
      cs := cs[2 := "windows"];
      if st.environment == UnknownEnvironment {
        if st.format == UnknownObjectFormat || st.format == COFF {
          cs := cs[3 := "msvc"];
        } else {
          cs := cs[3 := FormatName(st.format)];
        }
      }
    } else if st.isMinGW32 {
      cs := Resize(cs, 4);
      cs := cs[2 := "windows"];
      cs := cs[3 := "gnu"];
    } else if st.isCygwin {
      cs := Resize(cs, 4);
      cs := cs[2 := "windows"];
      cs := cs[3 := "cygnus"];
    }
    if st.isMinGW32 || st.isCygwin || (st.os == Win32 && st.environment != UnknownEnvironment) {
      if st.format != UnknownObjectFormat && st.format != COFF {
        cs := Resize(cs, 5);
        cs := cs[4 := FormatName(st.format)];
      }
    }
  }

  // ----- The whole function -----

  lemma SpecialIsSafe(parse: Parsers, cs: Components)
    requires Silent(parse)
    ensures ParsedRounds(parse, cs, 4).environment != UnknownEnvironment ==> |Searching(parse, cs, 4).0| > 3
  {
    SearchAgrees(parse, cs, 4);
  }

  /** The components of the normal form. */
  function NormalComponents(parse: Parsers, cs: Components): Components
    requires Silent(parse)
  {
    SpecialIsSafe(parse, cs);
    Special(Fill(Searching(parse, cs, 4).0), ParsedRounds(parse, cs, 4))
  }

  lemma SearchGrows(parse: Parsers, cs: Components, n: nat)
    requires Silent(parse) && n <= 4
    ensures |Searching(parse, cs, n).0| >= |cs|
  {
    RulesAreSound(parse);
    RoundsPlaced(RulesOf(parse), cs, n);
  }

  lemma SpecialNotEmpty(cs: Components, st: Parsed)
    requires cs != [] && (st.environment != UnknownEnvironment ==> |cs| > 3)
    ensures Special(cs, st) != []
  {
  }

  lemma NormalNotEmpty(parse: Parsers, cs: Components)
    requires Silent(parse) && cs != []
    ensures NormalComponents(parse, cs) != []
  {
    SpecialIsSafe(parse, cs);
    SearchGrows(parse, cs, 4);
    SpecialNotEmpty(Fill(Searching(parse, cs, 4).0), ParsedRounds(parse, cs, 4));
  }

  /** The normal form of a string. */
  function NormalString(parse: Parsers, str: string): string
    requires Silent(parse)
  {
    NormalNotEmpty(parse, Split(str));
    Join(NormalComponents(parse, Split(str)))
  }

  method FillUnknown(cs0: Components) returns (cs: Components)
    ensures cs == Fill(cs0)
  {
    cs := cs0;
    for k := 0 to |cs|
      invariant |cs| == |cs0|
      invariant forall j :: 0 <= j < |cs| ==> cs[j] == if j < k && cs0[j] == "" then "unknown" else cs0[j]
    {
      if cs[k] == "" {
        cs := cs[k := "unknown"];
      }
    }
  }

  /** What `Normalize` returns, with the parsers of the tables. */
  function Normalized(host: Host, str: string): string {
    TablesAreSilent(host);
    NormalString(ParsersOf(host), str)
  }

  /** Triple::normalize: for every string, all loops end, every index is in
      bounds and the assertion holds; the result is the joined normal form. */
  method Normalize(host: Host, str: string) returns (result: string)
    ensures result == Normalized(host, str)
  {
    TablesAreSilent(host);
    result := NormalizeWith(ParsersOf(host), str);
  }

  method NormalizeWith(parse: Parsers, str: string) returns (result: string)
    requires Silent(parse)
    ensures result == NormalString(parse, str)
  {
    var cs0 := Split(str);
    var components, found, st := Permute(parse, cs0);
    SpecialIsSafe(parse, cs0);
    NormalNotEmpty(parse, cs0);
    components := FillUnknown(components);
    components := ApplySpecialCases(components, st);
    result := Join(components);
  }

  /** No component of the normal form is empty. */
  lemma NoEmptyComponent(parse: Parsers, cs: Components)
    requires Silent(parse)
    ensures forall k :: 0 <= k < |NormalComponents(parse, cs)| ==> NormalComponents(parse, cs)[k] != ""
  {
    SpecialIsSafe(parse, cs);
    SearchAgrees(parse, cs, 4);
    var r := Searching(parse, cs, 4).0;
    SpecialFills(Fill(r), ParsedRounds(parse, cs, 4));
  }

  lemma SpecialFills(cs: Components, st: Parsed)
    requires st.environment != UnknownEnvironment ==> |cs| > 3
    requires st.os == Win32 || st.isMinGW32 || st.isCygwin ==> |cs| > 2
    requires forall k :: 0 <= k < |cs| ==> cs[k] != ""
    ensures forall k :: 0 <= k < |Special(cs, st)| ==> Special(cs, st)[k] != ""
  {
    var b := SuseCase(AndroidCase(cs, st), st);
    var c := WindowsCase(b, st);
    assert |b| == |cs| && forall k :: 0 <= k < |b| ==> b[k] != "";
    assert forall k :: 0 <= k < |c| ==> c[k] != "";
    assert KeepsFormat(st) ==> |c| == 4;
  }
}
