/** What the normal form of a target string means: parsed as a triple, it has
    the enumerations that normalization has found. */
module TripleMeaning {
  import opened TripleParsing
  import opened TripleStrings
  import opened TripleNames
  import opened TripleComponents
  import opened TripleSearch
  import opened TripleGaps
  import opened TripleNormalize
  import opened TripleAgreement
  import opened TripleSpecialCases
  import opened TripleIdempotence
  import opened TripleFields
  import opened TripleTables

  // ----- Components of the searched list -----

  /** Filled in, each of the first four components still parses as what was found. */
  ghost predicate FillMeans(parse: Parsers, r: Components, st: Parsed) {
    && (if |r| > 0 then parse.arch(Fill(r)[0]) == st.arch else st.arch == UnknownArch)
    && (if |r| > 1 then parse.vendor(Fill(r)[1]) == st.vendor else st.vendor == UnknownVendor)
    && (if |r| > 2 then parse.os(Fill(r)[2]) == st.os else st.os == UnknownOS)
    && (if |r| > 3 then parse.environment(Fill(r)[3]) == st.environment else st.environment == UnknownEnvironment)
  }

  lemma SearchMeans(parse: Parsers, cs: Components)
    requires Known(parse)
    ensures FillMeans(parse, Searching(parse, cs, 4).0, ParsedRounds(parse, cs, 4))
  {
    var (r, found) := Searching(parse, cs, 4);
    SearchResult(parse, cs);
    forall p: nat | p < 4 && p < |r| && !found[p] ensures !Accepts(parse, p, Fill(r)[p]) {
      NotFound(parse, cs, p);
    }
    FillMeansFrom(parse, r, found, ParsedRounds(parse, cs, 4));
  }

  lemma NotFound(parse: Parsers, cs: Components, p: nat)
    requires Known(parse) && p < 4
    ensures var (r, found) := Searching(parse, cs, 4); p < |r| && !found[p] ==> !Accepts(parse, p, Fill(r)[p])
  {
    SearchFinds(parse, cs, p);
    NothingAccepted(parse, p, "unknown");
  }

  lemma FillMeansFrom(parse: Parsers, r: Components, found: Found, st: Parsed)
    requires Placed(r, found) && Agrees(parse, r, found, st, 4) && forall p :: 0 <= p < 4 && found[p] ==> r[p] != ""
    requires forall p: nat {:trigger Accepts(parse, p, Fill(r)[p])} :: p < 4 && p < |r| && !found[p] ==> !Accepts(parse, p, Fill(r)[p])
    ensures FillMeans(parse, r, st)
  {
    FrontFillMeans(parse, r, found, st);
    BackFillMeans(parse, r, found, st);
  }

  lemma FrontFillMeans(parse: Parsers, r: Components, found: Found, st: Parsed)
    requires Placed(r, found) && FrontAgrees(parse, r, found, st) && forall p :: 0 <= p < 4 && found[p] ==> r[p] != ""
    requires forall p: nat {:trigger Accepts(parse, p, Fill(r)[p])} :: p < 4 && p < |r| && !found[p] ==> !Accepts(parse, p, Fill(r)[p])
    ensures if |r| > 0 then parse.arch(Fill(r)[0]) == st.arch else st.arch == UnknownArch
    ensures if |r| > 1 then parse.vendor(Fill(r)[1]) == st.vendor else st.vendor == UnknownVendor
  {
    assert |r| > 0 && !found[0] ==> !Accepts(parse, 0, Fill(r)[0]);
    assert |r| > 1 && !found[1] ==> !Accepts(parse, 1, Fill(r)[1]);
  }

  lemma BackFillMeans(parse: Parsers, r: Components, found: Found, st: Parsed)
    requires Placed(r, found) && Agrees(parse, r, found, st, 4) && forall p :: 0 <= p < 4 && found[p] ==> r[p] != ""
    requires forall p: nat {:trigger Accepts(parse, p, Fill(r)[p])} :: p < 4 && p < |r| && !found[p] ==> !Accepts(parse, p, Fill(r)[p])
    ensures if |r| > 2 then parse.os(Fill(r)[2]) == st.os else st.os == UnknownOS
    ensures if |r| > 3 then parse.environment(Fill(r)[3]) == st.environment else st.environment == UnknownEnvironment
  {
    assert |r| > 2 && !found[2] ==> !Accepts(parse, 2, Fill(r)[2]);
    assert |r| > 3 && !found[3] ==> !Accepts(parse, 3, Fill(r)[3]);
  }

  // ----- Components of the normal form -----

  /** The environment of the normal form: that found, but for SUSE's and where Windows asks for one. */
  function MeantEnvironment(st: Parsed): Environment {
    if st.os == Win32 && st.environment == UnknownEnvironment && (st.format == UnknownObjectFormat || st.format == COFF) then MSVC
    else if st.os != Win32 && st.isMinGW32 then GNU
    else if st.os != Win32 && st.isCygwin then Cygnus
    else if st.vendor == SUSE && st.environment == GNUEABI then GNUEABIHF
    else st.environment
  }

  function MeantSystem(st: Parsed): OS {
    if st.isMinGW32 || st.isCygwin then Win32 else st.os
  }

  /** The components parse as meant. */
  ghost predicate Means(parse: Parsers, n: Components, st: Parsed) {
    && n != [] && parse.arch(n[0]) == st.arch
    && (if |n| > 1 then parse.vendor(n[1]) == st.vendor else st.vendor == UnknownVendor)
    && (if |n| > 2 then parse.os(n[2]) == MeantSystem(st) else MeantSystem(st) == UnknownOS)
    && (if |n| > 3 then parse.environment(n[3]) == MeantEnvironment(st) else MeantEnvironment(st) == UnknownEnvironment)
  }

  lemma RenameMeans(parse: Parsers, c: string, vendor: Vendor)
    requires Known(parse)
    ensures parse.environment(Rename(parse, c, vendor)) ==
            if vendor == SUSE && parse.environment(c) == GNUEABI then GNUEABIHF else parse.environment(c)
  {
    if parse.environment(c).Android? && Starts(c, "androideabi") {
      assert "android" + c[|"androideabi"|..] == "android" + c[|"androideabi"|..];
    } else {
      assert ReadsBack(parse, GNUEABIHF);
    }
  }

  /** The fourth component after the first two special cases. */
  lemma RenamedMeans(parse: Parsers, r: Components, found: Found, st: Parsed)
    requires Known(parse) && Summary(parse, r, found, st) && FillMeans(parse, r, st) && |r| > 3
    ensures parse.environment(Renamed(r, st)[3]) ==
            if st.vendor == SUSE && st.environment == GNUEABI then GNUEABIHF else st.environment
  {
    if st.environment == UnknownEnvironment {
      RenamedNot(parse, r, st);
    } else {
      RenamedIs(parse, r, st);
      RenameMeans(parse, r[3], st.vendor);
    }
  }

  lemma PlainMeans(parse: Parsers, r: Components, found: Found, st: Parsed)
    requires Known(parse) && Summary(parse, r, found, st) && FillMeans(parse, r, st) && r != [] && !IsWindows(st)
    ensures Means(parse, Renamed(r, st), st)
  {
    if |r| > 3 {
      RenamedMeans(parse, r, found, st);
    }
    PlainMeansFrom(parse, r, st, Renamed(r, st));
  }

  lemma PlainMeansFrom(parse: Parsers, r: Components, st: Parsed, n: Components)
    requires FillMeans(parse, r, st) && r != [] && !IsWindows(st)
    requires |n| == |r| && forall k :: 0 <= k < |n| && k != 3 ==> n[k] == Fill(r)[k]
    requires |r| > 3 ==> parse.environment(n[3]) == if st.vendor == SUSE && st.environment == GNUEABI then GNUEABIHF else st.environment
    requires st.environment == UnknownEnvironment || |r| > 3
    ensures Means(parse, n, st)
  {
  }

  lemma WindowsMeans(parse: Parsers, r: Components, found: Found, st: Parsed)
    requires Known(parse) && Summary(parse, r, found, st) && FillMeans(parse, r, st) && IsWindows(st)
    ensures Means(parse, WindowsForm(r, st), st)
  {
    WindowsFormIs(r, st);
    WindowsFourthMeans(parse, r, found, st);
    assert parse.os("windows") == Win32;
  }

  lemma WindowsFourthMeans(parse: Parsers, r: Components, found: Found, st: Parsed)
    requires Known(parse) && Summary(parse, r, found, st) && FillMeans(parse, r, st) && IsWindows(st)
    ensures parse.environment(WindowsEnvironment(r, st)) == MeantEnvironment(st)
  {
    WindowsFourthIs(r, st);
    if WritesFormat(st) {
      FormatRead(parse, st.format);
      FormatMeant(st);
    } else if st.os.Win32? && st.environment != UnknownEnvironment {
      RenamedMeans(parse, r, found, st);
    } else {
      NameSettles(parse, Given(st));
      GivenMeant(st);
    }
  }

  lemma FormatMeant(st: Parsed)
    requires WritesFormat(st)
    ensures MeantEnvironment(st) == UnknownEnvironment
  {
  }

  lemma GivenMeant(st: Parsed)
    requires IsWindows(st) && !WritesFormat(st) && !(st.os.Win32? && st.environment != UnknownEnvironment)
    ensures MeantEnvironment(st) == Given(st)
  {
  }

  lemma NormalMeans(parse: Parsers, cs: Components)
    requires Known(parse) && cs != []
    ensures Means(parse, NormalComponents(parse, cs), ParsedRounds(parse, cs, 4))
  {
    var (r, found) := Searching(parse, cs, 4);
    var st := ParsedRounds(parse, cs, 4);
    SearchResult(parse, cs);
    SearchMeans(parse, cs);
    SearchGrows(parse, cs, 4);
    NormalFormOf(parse, cs);
    if IsWindows(st) {
      WindowsMeans(parse, r, found, st);
    } else {
      PlainMeans(parse, r, found, st);
    }
  }

  // ----- The normal form as a string -----

  lemma JoinEnvironment(parse: Parsers, cs: Components)
    requires ReadsToDash(parse) && cs != []
    ensures parse.environment(Join(cs)) == parse.environment(cs[0])
  {
    if |cs| > 1 {
      assert Join(cs) == cs[0] + "-" + Join(cs[1..]);
    }
  }

  /** What the accessors find in a joined list. */
  lemma JoinedParts(n: Components)
    requires n != [] && AllDashFree(n)
    ensures var s := Join(n);
            && ArchPart(s) == n[0] && VendorPart(s) == (if |n| > 1 then n[1] else "") && OSPart(s) == (if |n| > 2 then n[2] else "")
            && EnvironmentPart(s) == (if |n| > 3 then Join(n[3..]) else "") && (Dash(s) == |s| <==> |n| == 1)
  {
    var s := Join(n);
    SplitJoin(n);
    PartsOfSplit(s);
    if |n| > 3 {
      JoinSplit(EnvironmentPart(s));
    }
    assert Dash(s) == |s| ==> Split(s) == [s];
    assert Dash(s) < |s| ==> |Split(s)| >= 2;
  }

  lemma JoinedFields(parse: Parsers, n: Components)
    requires Faithful(parse) && ReadsToDash(parse) && n != [] && AllDashFree(n)
    ensures var f := Parse(parse, Join(n));
            && f.arch == parse.arch(n[0])
            && f.vendor == (if |n| > 1 then parse.vendor(n[1]) else UnknownVendor)
            && f.os == (if |n| > 2 then parse.os(n[2]) else UnknownOS)
            && f.environment == (if |n| > 3 then parse.environment(n[3]) else if |n| == 1 then MipsEnvironment(n[0]) else UnknownEnvironment)
  {
    JoinedParts(n);
    ParseIsParseParts(parse, Join(n));
    assert SilentOn(parse, "");
    if |n| > 3 {
      JoinEnvironment(parse, n[3..]);
    }
  }

  /** Parsing the normal form gives the architecture and the vendor that
      normalization found, the system, which is Windows for MinGW and Cygwin, and
      the environment: the one found, or the one that SUSE or Windows calls for, or
      the mips rule's where the form is only an architecture. */
  lemma NormalMeaning(host: Host, str: string)
    ensures var st, f := ParsedRounds(ParsersOf(host), Split(str), 4), Parse(ParsersOf(host), Normalized(host, str));
            && f.arch == st.arch && f.vendor == st.vendor && f.os == MeantSystem(st)
            && f.environment == if Dash(Normalized(host, str)) < |Normalized(host, str)| then MeantEnvironment(st)
                                else MipsEnvironment(Normalized(host, str))
  {
    var parse := ParsersOf(host);
    TablesAreKnown(host);
    TablesReadToDash(host);
    NormalMeaningOf(parse, str);
  }

  lemma NormalMeaningOf(parse: Parsers, str: string)
    requires Known(parse) && ReadsToDash(parse)
    ensures var st, s := ParsedRounds(parse, Split(str), 4), NormalString(parse, str);
            var f := Parse(parse, s);
            && f.arch == st.arch && f.vendor == st.vendor && f.os == MeantSystem(st)
            && f.environment == if Dash(s) < |s| then MeantEnvironment(st) else MipsEnvironment(s)
  {
    var n := NormalComponents(parse, Split(str));
    SplitDashFree(str);
    NormalDashFree(parse, Split(str));
    NormalNotEmpty(parse, Split(str));
    NormalMeans(parse, Split(str));
    JoinedFields(parse, n);
    JoinedParts(n);
  }

  // ----- How many components there are -----

  /** The normal form has the components of the searched list, whose rounds are
      described exactly, an "unknown" for each that is empty; but for the fourth,
      and for the third and those after it on Windows. */
  lemma NormalFromSearch(parse: Parsers, cs: Components, lists: seq<Components>, founds: seq<Found>)
    requires Known(parse) && IsSearch(RulesOf(parse), cs, lists, founds)
    ensures var st := ParsedRounds(parse, cs, 4);
            if IsWindows(st) then WindowsList(lists[4], st, NormalComponents(parse, cs))
            else FilledList(lists[4], NormalComponents(parse, cs))
  {
    RulesAreSound(parse);
    SearchIsUnique(RulesOf(parse), cs, lists, founds, 4);
    NormalOfSearch(parse, cs);
  }

  lemma NormalOfSearch(parse: Parsers, cs: Components)
    requires Known(parse)
    ensures var r, st := Searching(parse, cs, 4).0, ParsedRounds(parse, cs, 4);
            if IsWindows(st) then WindowsList(r, st, NormalComponents(parse, cs)) else FilledList(r, NormalComponents(parse, cs))
  {
    SearchResult(parse, cs);
    NormalFormOf(parse, cs);
    NormalLists(Searching(parse, cs, 4).0, ParsedRounds(parse, cs, 4));
  }

  predicate FilledAt(r: Components, n: Components, k: nat) {
    k < |n| && k < |r| && n[k] == if r[k] == "" then "unknown" else r[k]
  }

  predicate FilledList(r: Components, n: Components) {
    |n| == |r| && forall k :: 0 <= k < |n| && k != 3 ==> FilledAt(r, n, k)
  }

  /** Four components, or five if an object format goes with an environment. */
  predicate WindowsList(r: Components, st: Parsed, n: Components) {
    var spelled := st.format != UnknownObjectFormat && st.format != COFF;
    && FilledAt(r, n, 0) && FilledAt(r, n, 1) && |n| > 3 && n[2] == "windows"
    && (st.os == Win32 && st.environment == UnknownEnvironment && !spelled ==> n[3..] == ["msvc"])
    && (st.os == Win32 && st.environment == UnknownEnvironment && spelled ==> n[3..] == [FormatName(st.format)])
    && (st.os != Win32 && st.isMinGW32 ==> n[3] == "gnu")
    && (st.os != Win32 && !st.isMinGW32 ==> n[3] == "cygnus")
    && (st.os != Win32 || st.environment != UnknownEnvironment ==> n[4..] == if spelled then [FormatName(st.format)] else [])
  }

  lemma NormalLists(r: Components, st: Parsed)
    requires st.environment != UnknownEnvironment ==> |r| > 3
    ensures IsWindows(st) && |r| > 2 && (st.os.Win32? ==> !st.isMinGW32 && !st.isCygwin) ==> WindowsList(r, st, WindowsForm(r, st))
    ensures FilledList(r, Renamed(r, st))
  {
    if IsWindows(st) && |r| > 2 {
      WindowsFormIs(r, st);
      WindowsFourthIs(r, st);
    }
  }

  /** The fourth component, where no other environment is written over it: "eabi"
      goes from an Android environment, and SUSE's "gnueabi" becomes "gnueabihf". */
  ghost predicate FourthIs(parse: Parsers, r: Components, st: Parsed, n: Components)
    requires |r| > 3
  {
    && |n| > 3
    && (forall v {:trigger "android" + v} :: st.environment == Android && r[3] == "androideabi" + v ==> n[3] == "android" + v)
    && (st.vendor == SUSE && st.environment == GNUEABI ==> n[3] == "gnueabihf")
    && (!(st.environment == Android && Starts(r[3], "androideabi")) && !(st.vendor == SUSE && st.environment == GNUEABI) ==>
          FilledAt(r, n, 3))
  }

  lemma RenamedFourthIs(parse: Parsers, r: Components, st: Parsed)
    requires |r| > 3 && (st.environment != UnknownEnvironment ==> r[3] != "" && st.environment == parse.environment(r[3]))
    ensures FourthIs(parse, r, st, Renamed(r, st))
  {
    forall v | st.environment == Android && r[3] == "androideabi" + v ensures Renamed(r, st)[3] == "android" + v {
      assert r[3][|"androideabi"|..] == v && Starts(r[3], "androideabi");
    }
  }

  lemma NormalFourth(parse: Parsers, cs: Components)
    requires Known(parse)
    ensures var r, st := Searching(parse, cs, 4).0, ParsedRounds(parse, cs, 4);
            |r| > 3 && (!IsWindows(st) || (st.os == Win32 && st.environment != UnknownEnvironment)) ==>
              FourthIs(parse, r, st, NormalComponents(parse, cs))
  {
    var (r, found) := Searching(parse, cs, 4);
    var st := ParsedRounds(parse, cs, 4);
    SearchResult(parse, cs);
    NormalFormOf(parse, cs);
    if |r| > 3 {
      RenamedFourthIs(parse, r, st);
      if IsWindows(st) {
        WindowsFormIs(r, st);
        WindowsFourthIs(r, st);
      }
    }
  }

  /** In the searched list as many components are empty as were to begin with and as it has grown by. */
  lemma SearchEmpties(parse: Parsers, cs: Components)
    requires Silent(parse)
    ensures var r := Searching(parse, cs, 4).0; |r| >= |cs| && multiset(r)[""] == multiset(cs)[""] + (|r| - |cs|)
  {
    var rules := RulesOf(parse);
    RulesAreSound(parse);
    SettledArePlaced(rules, cs);
    var m := RoundsKeep(rules, cs, Settled(rules, cs), 4);
    EmptyCount(cs, Searching(parse, cs, 4).0);
  }

  // ----- A forgotten vendor -----

  /** Pushing the second of two components one to the right. */
  lemma PairPushed(a: string, o: string, found: Found)
    requires o != "" && found == [true, false, false, false]
    ensures Move([a, o], found, 2, 1) == [a, "", o]
  {
    var cs := [a, o];
    assert NextFree(found, 2) == 2;
    assert Ripple(cs[1 := ""], found, 2, o) == cs[1 := ""] + [o];
    assert Ripple(cs, found, 1, "") == [a, "", o];
    assert PushRight([a, "", o], found, 2, 2) == [a, "", o];
  }

  lemma PairRounds(parse: Parsers, a: string, o: string, init: Found)
    requires Silent(parse) && o != "" && init == [true, false, false, false]
    requires !Accepts(parse, 1, a) && !Accepts(parse, 1, o) && !Accepts(parse, 3, a) && !Accepts(parse, 3, o)
    requires !Accepts(parse, 2, a) && Accepts(parse, 2, o)
    ensures var rules := RulesOf(parse);
            && Place(rules, [a, o], init, 1) == ([a, o], init)
            && Place(rules, [a, o], init, 2) == ([a, "", o], [true, false, true, false])
            && Place(rules, [a, "", o], [true, false, true, false], 3) == ([a, "", o], [true, false, true, false])
  {
    var rules, cs := RulesOf(parse), [a, o];
    assert FirstFit(rules, cs, init, 1, 0) == 2;
    assert FirstFit(rules, cs, init, 2, 0) == 1;
    PairPushed(a, o, init);
    assert init[2 := true] == [true, false, true, false];
    NothingAccepted(parse, 3, "");
    assert FirstFit(rules, [a, "", o], [true, false, true, false], 3, 0) == 3;
  }

  /** An architecture and a system with no vendor between: the system moves to its
      position, and one empty component is left for the vendor. */
  lemma VendorFilledIn(parse: Parsers, a: string, o: string)
    requires Silent(parse) && o != ""
    requires forall p: nat {:trigger Accepts(parse, p, a)} :: p < 4 ==> (Accepts(parse, p, a) <==> p == 0)
    requires forall p: nat {:trigger Accepts(parse, p, o)} :: p < 4 ==> (Accepts(parse, p, o) <==> p == 2)
    ensures Searching(parse, [a, o], 4) == ([a, "", o], [true, false, true, false])
  {
    var cs, rules, init := [a, o], RulesOf(parse), [true, false, false, false];
    assert Accepts(parse, 0, a) && !Accepts(parse, 1, o);
    assert !Accepts(parse, 1, a) && !Accepts(parse, 3, a) && !Accepts(parse, 3, o) && !Accepts(parse, 2, a) && Accepts(parse, 2, o);
    SettlingIsAccepting(parse, 1, o);
    assert Settled(rules, cs) == init;
    PairRounds(parse, a, o, init);
    assert Rounds(rules, cs, init, 1) == (cs, init);
    assert Rounds(rules, cs, init, 2) == (cs, init);
    assert Rounds(rules, cs, init, 3) == ([a, "", o], [true, false, true, false]);
  }

  /** So exactly one "unknown" stands for it in the normal form. */
  lemma VendorForgotten(parse: Parsers, a: string, o: string)
    requires Known(parse) && DashFree(a) && DashFree(o) && o != "" && a != ""
    requires forall p: nat {:trigger Accepts(parse, p, a)} :: p < 4 ==> (Accepts(parse, p, a) <==> p == 0)
    requires forall p: nat {:trigger Accepts(parse, p, o)} :: p < 4 ==> (Accepts(parse, p, o) <==> p == 2)
    requires parse.os(o) != Win32 && !Starts(o, "mingw") && !Starts(o, "cygwin")
    ensures NormalString(parse, a + "-" + o) == a + "-unknown-" + o
  {
    SplitDashlessPair(a, o);
    VendorFilledIn(parse, a, o);
    PairNormal(parse, a, o);
    JoinThree(a, o);
  }

  lemma PairNormal(parse: Parsers, a: string, o: string)
    requires Known(parse) && a != "" && o != ""
    requires Searching(parse, [a, o], 4) == ([a, "", o], [true, false, true, false])
    requires parse.os(o) != Win32 && !Starts(o, "mingw") && !Starts(o, "cygwin")
    ensures NormalComponents(parse, [a, o]) == [a, "unknown", o]
  {
    PairParsed(parse, a, o);
    NormalFormOf(parse, [a, o]);
    PairRenamed(parse, [a, "", o], ParsedRounds(parse, [a, o], 4));
    PairFilled(a, o);
  }

  lemma PairFilled(a: string, o: string)
    requires a != "" && o != ""
    ensures Fill([a, "", o]) == [a, "unknown", o]
  {
  }

  lemma PairParsed(parse: Parsers, a: string, o: string)
    requires Silent(parse) && Searching(parse, [a, o], 4) == ([a, "", o], [true, false, true, false])
    requires parse.os(o) != Win32 && !Starts(o, "mingw") && !Starts(o, "cygwin")
    ensures var st := ParsedRounds(parse, [a, o], 4); !IsWindows(st) && st.environment == UnknownEnvironment
  {
    SearchAgrees(parse, [a, o], 4);
  }

  lemma PairRenamed(parse: Parsers, r: Components, st: Parsed)
    requires st.environment == UnknownEnvironment
    ensures Renamed(r, st) == Fill(r)
  {
    RenamedNot(parse, r, st);
  }

  lemma SplitDashlessPair(a: string, o: string)
    requires DashFree(a) && DashFree(o)
    ensures Split(a + "-" + o) == [a, o]
  {
    SplitCons(a, o);
    DashNone(o);
    FirstAlone(o);
  }

  lemma JoinThree(a: string, o: string)
    ensures Join([a, "unknown", o]) == a + "-unknown-" + o
  {
    var u := "unknown";
    assert [a, u, o][1..] == [u, o] && [u, o][1..] == [o];
    assert Join([u, o]) == u + "-" + o;
    assert Join([a, u, o]) == a + "-" + (u + "-" + o);
    assert "-unknown-" == "-" + u + "-";
    DashAssociates(a, u, o);
    assert a + ("-" + u + "-") + o == a + "-" + u + "-" + o;
  }

  // ----- The example -----

  lemma I386IsArch(host: Host)
    ensures ParseArch(host, "i386") == X86
  {
    NoPrefix("kalimba", "i386");
    assert COMMON_ARCHES[0] == ("i386", X86);
    SwitchFinds(Case, COMMON_ARCHES, "i386", 0, 0, Switch(Case, MIPS_ARCHES, "i386", 0, Switch(Case, OTHER_ARCHES, "i386", 0, UnknownArch)));
  }

  lemma I386IsNoVendor()
    ensures NotIn(VENDORS, "i386")
  {
  }

  lemma I386StartsNothing()
    ensures forall i {:trigger OSES[i]} :: 0 <= i < |OSES| ==> Clash(OSES[i].0, "i386")
    ensures forall i {:trigger ENVIRONMENTS[i]} :: 0 <= i < |ENVIRONMENTS| ==> Clash(ENVIRONMENTS[i].0, "i386")
  {
  }

  lemma I386EndsNothing()
    ensures forall i {:trigger FORMATS[i]} :: 0 <= i < |FORMATS| ==> EndClash(FORMATS[i].0, "i386")
    ensures forall i {:trigger FORMATS[i]} :: 0 <= i < |FORMATS| ==> EndClash(FORMATS[i].0, "linux")
  {
  }

  lemma NoHits(os: string)
    requires forall i {:trigger OSES[i]} :: 0 <= i < |OSES| ==> Clash(OSES[i].0, os)
    ensures ParseOS(os) == UnknownOS
  {
    forall i | 0 <= i < |OSES| ensures !Hits(StartsWith, OSES[i].0, os) {
      ClashIsNoPrefix(OSES[i].0, os);
    }
    SwitchMisses(StartsWith, OSES, os, 0, UnknownOS);
  }

  lemma NoEnvironmentOrFormat(c: string)
    requires forall i {:trigger ENVIRONMENTS[i]} :: 0 <= i < |ENVIRONMENTS| ==> Clash(ENVIRONMENTS[i].0, c)
    requires forall i {:trigger FORMATS[i]} :: 0 <= i < |FORMATS| ==> EndClash(FORMATS[i].0, c)
    ensures ParseEnvironment(c) == UnknownEnvironment && ParseFormat(c) == UnknownObjectFormat
  {
    forall i | 0 <= i < |ENVIRONMENTS| ensures !Hits(StartsWith, ENVIRONMENTS[i].0, c) {
      ClashIsNoPrefix(ENVIRONMENTS[i].0, c);
    }
    SwitchMisses(StartsWith, ENVIRONMENTS, c, 0, UnknownEnvironment);
    forall i | 0 <= i < |FORMATS| ensures !Hits(EndsWith, FORMATS[i].0, c) {
      EndClashIsNoSuffix(FORMATS[i].0, c);
    }
    SwitchMisses(EndsWith, FORMATS, c, 0, UnknownObjectFormat);
  }

  lemma I386Fits(host: Host, p: nat)
    ensures p < 4 ==> (Accepts(ParsersOf(host), p, "i386") <==> p == 0)
  {
    I386IsArch(host);
    I386IsNoVendor();
    NotInMisses(VENDORS, "i386", UnknownVendor);
    I386StartsNothing();
    I386EndsNothing();
    NoHits("i386");
    NoEnvironmentOrFormat("i386");
    NoPrefix("mingw", "i386");
    NoPrefix("cygwin", "i386");
    FitsFirstOnly(ParsersOf(host), "i386", p);
  }

  lemma FitsFirstOnly(parse: Parsers, c: string, p: nat)
    requires parse.arch(c) != UnknownArch && parse.vendor(c) == UnknownVendor && parse.os(c) == UnknownOS
    requires !Starts(c, "cygwin") && !Starts(c, "mingw")
    requires parse.environment(c) == UnknownEnvironment && parse.format(c) == UnknownObjectFormat
    ensures p < 4 ==> (Accepts(parse, p, c) <==> p == 0)
  {
  }

  lemma LinuxIsNoArch(host: Host)
    ensures ParseArch(host, "linux") == UnknownArch && NotIn(VENDORS, "linux")
  {
    LinuxInNoTable();
    LinuxIsNoOtherArch();
    NoPrefix("kalimba", "linux");
    NoPrefix("arm", "linux");
    NoPrefix("thumb", "linux");
    NoPrefix("aarch64", "linux");
    NoPrefix("bpf", "linux");
    InNoTable(host, "linux");
  }

  lemma LinuxInNoTable()
    ensures NotIn(COMMON_ARCHES, "linux") && NotIn(MIPS_ARCHES, "linux") && NotIn(VENDORS, "linux")
  {
  }

  lemma LinuxIsNoOtherArch()
    ensures NotIn(OTHER_ARCHES, "linux")
    ensures forall i {:trigger ENVIRONMENTS[i]} :: 0 <= i < |ENVIRONMENTS| ==> Clash(ENVIRONMENTS[i].0, "linux")
  {
  }

  lemma LinuxIsNothingElse()
    ensures ParseVendor("linux") == UnknownVendor
    ensures ParseEnvironment("linux") == UnknownEnvironment && ParseFormat("linux") == UnknownObjectFormat
  {
    LinuxInNoTable();
    NotInMisses(VENDORS, "linux", UnknownVendor);
    LinuxIsNoOtherArch();
    I386EndsNothing();
    NoEnvironmentOrFormat("linux");
  }

  lemma LinuxIsLinux()
    ensures ParseOS("linux") == Linux && !Starts("linux", "cygwin") && !Starts("linux", "mingw")
  {
    OSParses(Linux, "");
    assert OSName(Linux) + "" == "linux";
    NoPrefix("mingw", "linux");
    NoPrefix("cygwin", "linux");
  }

  lemma LinuxFits(host: Host, p: nat)
    ensures p < 4 ==> (Accepts(ParsersOf(host), p, "linux") <==> p == 2)
  {
    LinuxIsNoArch(host);
    LinuxIsNothingElse();
    LinuxIsLinux();
    FitsThirdOnly(ParsersOf(host), "linux", p);
  }

  lemma FitsThirdOnly(parse: Parsers, c: string, p: nat)
    requires parse.arch(c) == UnknownArch && parse.vendor(c) == UnknownVendor && parse.os(c) != UnknownOS
    requires parse.environment(c) == UnknownEnvironment && parse.format(c) == UnknownObjectFormat
    ensures p < 4 ==> (Accepts(parse, p, c) <==> p == 2)
  {
  }

  /** "i386-linux" becomes "i386-unknown-linux". */
  lemma I386Linux(host: Host)
    ensures Normalized(host, "i386-linux") == "i386-unknown-linux"
  {
    TablesAreKnown(host);
    forall p: nat ensures p < 4 ==> (Accepts(ParsersOf(host), p, "i386") <==> p == 0) {
      I386Fits(host, p);
    }
    forall p: nat ensures p < 4 ==> (Accepts(ParsersOf(host), p, "linux") <==> p == 2) {
      LinuxFits(host, p);
    }
    LinuxIsLinux();
    PlainStrings();
    VendorForgotten(ParsersOf(host), "i386", "linux");
  }

  lemma PlainStrings()
    ensures DashFree("i386") && DashFree("linux")
    ensures "i386" + "-" + "linux" == "i386-linux" && "i386" + "-unknown-" + "linux" == "i386-unknown-linux"
  {
  }
}
