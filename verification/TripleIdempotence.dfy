/** Normalizing twice. */
module TripleIdempotence {
  import opened TripleParsing
  import opened TripleStrings
  import opened TripleNames
  import opened TripleComponents
  import opened TripleSearch
  import opened TripleShapes
  import opened TripleNormalize
  import opened TripleAgreement
  import opened TripleSpecialCases

  // ----- What is known of a searched list -----

  /** What was parsed, in terms of the components the search has found. */
  predicate Summary(parse: Parsers, r: Components, found: Found, st: Parsed) {
    && Placed(r, found) && (forall p :: 0 <= p < 4 && found[p] ==> r[p] != "")
    && st.vendor == (if found[1] then parse.vendor(r[1]) else UnknownVendor)
    && (IsWindows(st) ==> found[2]) && (st.os.Win32? ==> !st.isMinGW32 && !st.isCygwin)
    && st.environment == (if found[3] then parse.environment(r[3]) else UnknownEnvironment)
    && (st.environment == UnknownEnvironment && !PlainFormat(st.format) ==> found[3])
  }

  /** A list `r` after the search, with what was found, what had settled, and what was parsed. */
  ghost predicate Result(parse: Parsers, r: Components, found: Found, init: Found, st: Parsed) {
    Stable(RulesOf(parse), r, found, init) && Agrees(parse, r, found, st, 4) && Summary(parse, r, found, st)
  }

  lemma SearchResult(parse: Parsers, cs: Components)
    requires Known(parse)
    ensures var (r, found) := Searching(parse, cs, 4);
            Result(parse, r, found, Settled(RulesOf(parse), cs), ParsedRounds(parse, cs, 4))
  {
    var (r, found) := Searching(parse, cs, 4);
    RulesAreSound(parse);
    SearchIsStable(RulesOf(parse), cs);
    SearchAgrees(parse, cs, 4);
    forall p | 0 <= p < 4 && found[p] ensures r[p] != "" {
      FoundIsFilled(RulesOf(parse), r, found, p);
    }
    SummaryHolds(parse, r, found, ParsedRounds(parse, cs, 4));
  }

  lemma SummaryHolds(parse: Parsers, r: Components, found: Found, st: Parsed)
    requires ReadsWindows(parse) && Placed(r, found) && Agrees(parse, r, found, st, 4)
    requires forall p :: 0 <= p < 4 && found[p] ==> r[p] != ""
    ensures Summary(parse, r, found, st)
  {
    if found[2] {
      assert parse.os(r[2]) == parse.os(r[2]);
    }
  }

  // ----- The two kinds of normal forms -----

  /** A Windows form has a system and an environment. */
  function WithWindows(found: Found): (r: Found)
    ensures r[2] && r[3] && r[0] == found[0] && r[1] == found[1]
  {
    [found[0], found[1], true, true]
  }

  predicate IsWindows(st: Parsed) {
    st.os.Win32? || st.isMinGW32 || st.isCygwin
  }

  /** The list after the first two special cases. */
  function Renamed(r: Components, st: Parsed): (s: Components)
    requires st.environment != UnknownEnvironment ==> |r| > 3
    ensures |s| == |r| && forall k :: 0 <= k < |s| && k != 3 ==> s[k] == Fill(r)[k]
  {
    SuseCase(AndroidCase(Fill(r), st), st)
  }

  lemma RenamedSettles(parse: Parsers, r: Components, st: Parsed)
    requires Known(parse) && |r| > 3 && r[3] != "" && st.environment == parse.environment(r[3]) != UnknownEnvironment
    ensures Settles(parse, 3, Renamed(r, st)[3])
  {
    RenamedIs(parse, r, st);
    RenameSettles(parse, r[3], st.vendor);
  }

  lemma RenameSettles(parse: Parsers, c: string, vendor: Vendor)
    requires Known(parse) && parse.environment(c) != UnknownEnvironment
    ensures Settles(parse, 3, Rename(parse, c, vendor))
  {
    if parse.environment(c).Android? && Starts(c, "androideabi") {
      assert "android" + c[|"androideabi"|..] == "android" + c[|"androideabi"|..];
    } else {
      assert ReadsBack(parse, GNUEABIHF);
    }
  }

  lemma PlainShaped(parse: Parsers, r: Components, found: Found, st: Parsed)
    requires Known(parse) && Summary(parse, r, found, st)
    ensures Shaped(RulesOf(parse), r, found, Renamed(r, st), found)
  {
    var s := Renamed(r, st);
    if st.environment != UnknownEnvironment {
      RenamedSettles(parse, r, st);
    } else {
      RenamedNot(parse, r, st);
    }
    RenamedShaped(RulesOf(parse), r, found, s, st.environment != UnknownEnvironment);
  }

  lemma RenamedShaped(rules: Rules, r: Components, found: Found, s: Components, renamed: bool)
    requires |s| == |r| && Placed(r, found) && forall k :: 0 <= k < |s| && k != 3 ==> s[k] == Fill(r)[k]
    requires if renamed then found[3] && rules.settles(3, s[3]) else s == Fill(r)
    ensures Shaped(rules, r, found, s, found)
  {
    forall k | 0 <= k < |s| ensures Slot(rules, r, found, s, found, k) {
      if k == 3 && renamed {
        assert SettledAt(rules, s, found, 3);
      } else {
        assert KeptAt(r, found, s, found, k);
      }
    }
  }

  /** The fourth component of a Windows normal form. */
  function WindowsEnvironment(r: Components, st: Parsed): string
    requires st.environment != UnknownEnvironment ==> |r| > 3
  {
    if st.os.Win32? then
      if st.environment != UnknownEnvironment then Renamed(r, st)[3]
      else if PlainFormat(st.format) then EnvironmentName(MSVC)
      else FormatName(st.format)
    else if st.isMinGW32 then EnvironmentName(GNU)
    else EnvironmentName(Cygnus)
  }

  function WindowsForm(r: Components, st: Parsed): Components
    requires |r| > 2 && (st.environment != UnknownEnvironment ==> |r| > 3)
  {
    [Fill(r)[0], Fill(r)[1], "windows", WindowsEnvironment(r, st)] +
    if KeepsFormat(st) && !PlainFormat(st.format) then [FormatName(st.format)] else []
  }

  lemma SpecialIsWindowsForm(r: Components, st: Parsed)
    requires |r| > 2 && (st.environment != UnknownEnvironment ==> |r| > 3) && IsWindows(st)
    ensures Special(Fill(r), st) == WindowsForm(r, st)
  {
    WindowsCaseIs(r, st, Renamed(r, st));
  }

  lemma WindowsCaseIs(r: Components, st: Parsed, b: Components)
    requires |r| > 2 && (st.environment != UnknownEnvironment ==> |r| > 3) && IsWindows(st) && b == Renamed(r, st)
    ensures WindowsCase(b, st) == [Fill(r)[0], Fill(r)[1], "windows", WindowsEnvironment(r, st)]
  {
  }

  lemma SpecialIsRenamed(r: Components, st: Parsed)
    requires (st.environment != UnknownEnvironment ==> |r| > 3) && !IsWindows(st)
    ensures Special(Fill(r), st) == Renamed(r, st)
  {
  }

  lemma WindowsShaped(parse: Parsers, r: Components, found: Found, st: Parsed)
    requires Known(parse) && Summary(parse, r, found, st) && IsWindows(st)
    ensures Shaped(RulesOf(parse), r, found, WindowsForm(r, st), WithWindows(found))
  {
    WindowsSystemSettles(parse);
    WindowsThird(parse, r, found, st);
    if !PlainFormat(st.format) {
      FormatRead(parse, st.format);
    }
    WindowsShapedFrom(parse, r, found, st);
  }

  lemma WindowsShapedFrom(parse: Parsers, r: Components, found: Found, st: Parsed)
    requires Summary(parse, r, found, st) && IsWindows(st) && Settles(parse, 2, "windows")
    requires WritesFormat(st) || Settles(parse, 3, WindowsEnvironment(r, st))
    requires WritesFormat(st) ==> WindowsEnvironment(r, st) == FormatName(st.format)
    requires !PlainFormat(st.format) ==> IsFormat(RulesOf(parse), FormatName(st.format))
    ensures Shaped(RulesOf(parse), r, found, WindowsForm(r, st), WithWindows(found))
  {
    WindowsFormIs(r, st);
    WindowsShapedOf(parse, r, found, st, WindowsForm(r, st));
  }

  lemma WindowsFormIs(r: Components, st: Parsed)
    requires |r| > 2 && (st.environment != UnknownEnvironment ==> |r| > 3)
    ensures var s := WindowsForm(r, st);
            && 4 <= |s| <= 5 && s[0] == Fill(r)[0] && s[1] == Fill(r)[1] && s[2] == "windows"
            && s[3] == WindowsEnvironment(r, st) && (|s| > 4 ==> !PlainFormat(st.format) && s[4] == FormatName(st.format))
  {
  }

  lemma WindowsShapedOf(parse: Parsers, r: Components, found: Found, st: Parsed, s: Components)
    requires Summary(parse, r, found, st) && |r| > 2 && 4 <= |s| <= 5
    requires s[0] == Fill(r)[0] && s[1] == Fill(r)[1] && Settles(parse, 2, s[2])
    requires if WritesFormat(st) then IsFormat(RulesOf(parse), s[3]) else Settles(parse, 3, s[3])
    requires |s| > 4 ==> IsFormat(RulesOf(parse), s[4])
    ensures Shaped(RulesOf(parse), r, found, s, WithWindows(found))
  {
    if WritesFormat(st) {
      FormatWritten(parse, r, found, st, s);
    }
    WindowsSlots(RulesOf(parse), r, found, s);
  }

  lemma FormatWritten(parse: Parsers, r: Components, found: Found, st: Parsed, s: Components)
    requires Summary(parse, r, found, st) && WritesFormat(st) && |s| > 3 && IsFormat(RulesOf(parse), s[3])
    ensures FormatAt(RulesOf(parse), r, found, s, WithWindows(found), 3)
  {
  }

  lemma WindowsSystemSettles(parse: Parsers)
    requires Known(parse)
    ensures Settles(parse, 2, "windows")
  {
  }

  /** The name of an object format is taken for a format only. */
  lemma FormatRead(parse: Parsers, f: ObjectFormat)
    requires Faithful(parse) && f != UnknownObjectFormat
    ensures IsFormat(RulesOf(parse), FormatName(f)) && parse.environment(FormatName(f)) == UnknownEnvironment
    ensures parse.format(FormatName(f)) == f
  {
    assert ReadsFormat(parse, f);
  }

  lemma WindowsSlots(rules: Rules, r: Components, found: Found, s: Components)
    requires |r| > 2 && 4 <= |s| <= 5 && Placed(r, found)
    requires s[0] == Fill(r)[0] && s[1] == Fill(r)[1] && rules.settles(2, s[2])
    requires rules.settles(3, s[3]) || FormatAt(rules, r, found, s, WithWindows(found), 3)
    requires |s| > 4 ==> IsFormat(rules, s[4])
    ensures Shaped(rules, r, found, s, WithWindows(found))
  {
    var found' := WithWindows(found);
    assert KeptAt(r, found, s, found', 0) && KeptAt(r, found, s, found', 1) && SettledAt(rules, s, found', 2);
    assert rules.settles(3, s[3]) ==> SettledAt(rules, s, found', 3);
    assert |s| > 4 ==> FormatAt(rules, r, found, s, found', 4);
  }

  lemma NameSettles(parse: Parsers, k: Environment)
    requires Known(parse) && k != UnknownEnvironment
    ensures Settles(parse, 3, EnvironmentName(k)) && parse.environment(EnvironmentName(k)) == k
  {
    assert ReadsBack(parse, k);
  }

  /** The environment that is written where there is none to keep. */
  function Given(st: Parsed): Environment {
    if st.os.Win32? then MSVC else if st.isMinGW32 then GNU else Cygnus
  }

  /** A format is written fourth exactly when there is a system, no environment and a format to keep. */
  predicate WritesFormat(st: Parsed) {
    st.os.Win32? && st.environment == UnknownEnvironment && !PlainFormat(st.format)
  }

  lemma WindowsFourthIs(r: Components, st: Parsed)
    requires (st.environment != UnknownEnvironment ==> |r| > 3) && IsWindows(st)
    ensures WindowsEnvironment(r, st) ==
            if WritesFormat(st) then FormatName(st.format)
            else if st.os.Win32? && st.environment != UnknownEnvironment then Renamed(r, st)[3]
            else EnvironmentName(Given(st))
  {
  }

  /** The fourth component is an environment, unless a format is written there. */
  lemma WindowsThird(parse: Parsers, r: Components, found: Found, st: Parsed)
    requires Known(parse) && Summary(parse, r, found, st) && IsWindows(st)
    ensures WritesFormat(st) ==> WindowsEnvironment(r, st) == FormatName(st.format)
    ensures !WritesFormat(st) ==> Settles(parse, 3, WindowsEnvironment(r, st))
  {
    NameSettles(parse, Given(st));
    if st.environment != UnknownEnvironment {
      RenamedSettles(parse, r, st);
    }
    WindowsFourthIs(r, st);
  }

  // ----- The fourth component, renamed twice -----

  /** What the first two special cases do to an environment component. */
  function Rename(parse: Parsers, c: string, vendor: Vendor): string {
    var environment := parse.environment(c);
    if environment.Android? && Starts(c, "androideabi") then "android" + c[|"androideabi"|..]
    else if vendor.SUSE? && environment.GNUEABI? then EnvironmentName(GNUEABIHF)
    else c
  }

  lemma RenamedIs(parse: Parsers, r: Components, st: Parsed)
    requires |r| > 3 && r[3] != "" && st.environment == parse.environment(r[3])
    ensures Renamed(r, st)[3] == Rename(parse, r[3], st.vendor)
  {
  }

  lemma RenamedNot(parse: Parsers, r: Components, st: Parsed)
    requires st.environment == UnknownEnvironment || (|r| > 3 && Rename(parse, r[3], st.vendor) == r[3] != "" && st.environment == parse.environment(r[3]))
    ensures Renamed(r, st) == Fill(r)
  {
  }

  /** A second "eabi" follows the first. */
  lemma AndroidTwice(c: string)
    requires Starts(c, "androideabi")
    ensures var x := "android" + c[|"androideabi"|..]; |x| < |c| && (Starts(x, "androideabi") <==> Starts(c, "androideabieabi"))
  {
    var v := c[|"androideabi"|..];
    var x := "android" + v;
    assert c == "androideabi" + v;
    EabiAfter("android", v);
    EabiAfter("androideabi", v);
    assert "android" + "eabi" == "androideabi" && "androideabi" + "eabi" == "androideabieabi";
  }

  lemma EabiAfter(p: string, v: string)
    ensures Starts(p + v, p + "eabi") <==> Starts(v, "eabi")
  {
    assert (p + v)[|p|..] == v && (p + "eabi")[|p|..] == "eabi";
    if Starts(v, "eabi") {
      assert p + v == (p + "eabi") + v[4..];
    }
    if Starts(p + v, p + "eabi") {
      assert forall j :: 0 <= j < 4 ==> v[j] == (p + v)[|p| + j] == (p + "eabi")[|p| + j];
    }
  }

  /** Renaming twice is renaming once, except for "androideabieabi". */
  lemma RenameTwice(parse: Parsers, c: string, vendor: Vendor)
    requires Known(parse)
    ensures var x := Rename(parse, c, vendor);
            Rename(parse, x, vendor) == x <==> !(parse.environment(c) == Android && Starts(c, "androideabieabi"))
  {
    var environment := parse.environment(c);
    if environment.Android? && Starts(c, "androideabi") {
      var x := "android" + c[|"androideabi"|..];
      AndroidTwice(c);
      RenameAndroid(parse, x, vendor);
    } else {
      assert ReadsBack(parse, GNUEABIHF);
      LongerAndroid(c);
    }
  }

  lemma LongerAndroid(c: string)
    ensures Starts(c, "androideabieabi") ==> Starts(c, "androideabi")
  {
    assert "androideabi" + "eabi" == "androideabieabi";
  }

  lemma RenameAndroid(parse: Parsers, x: string, vendor: Vendor)
    requires parse.environment(x) == Android
    ensures Rename(parse, x, vendor) == x <==> !Starts(x, "androideabi")
  {
    if Starts(x, "androideabi") {
      AndroidTwice(x);
    }
  }

  // ----- The second pass -----

  /** The version of an Android environment begins with "eabi" again, and no
      special case for Windows writes over it. */
  predicate DropsEabi(r: Components, st: Parsed) {
    st.environment.Android? && |r| > 3 && Starts(r[3], "androideabieabi") && !st.isMinGW32 && !st.isCygwin
  }

  /** In a list that is not for Windows, a second pass parses what the first did, but for a renamed environment. */
  lemma PlainParsed(parse: Parsers, r: Components, found: Found, st: Parsed, s: Components, st': Parsed)
    requires Summary(parse, r, found, st) && Agrees(parse, r, found, st, 4) && !IsWindows(st)
    requires |s| == |r| && forall k :: 0 <= k < |s| && k != 3 ==> s[k] == Fill(r)[k]
    requires Agrees(parse, s, found, st', 4)
    ensures !IsWindows(st') && st'.vendor == st.vendor
    ensures st'.environment == if found[3] then parse.environment(s[3]) else UnknownEnvironment
  {
    assert found[1] ==> s[1] == r[1];
    assert found[2] ==> s[2] == r[2];
  }

  lemma AgainPlain(parse: Parsers, r: Components, found: Found, init: Found, st: Parsed)
    requires Known(parse) && Result(parse, r, found, init, st) && !IsWindows(st)
    ensures NormalComponents(parse, Renamed(r, st)) == Renamed(r, st) <==> !DropsEabi(r, st)
  {
    var s := Renamed(r, st);
    RulesAreSound(parse);
    PlainShaped(parse, r, found, st);
    ShapedIsFixpoint(RulesOf(parse), r, found, init, s, found);
    SearchAgrees(parse, s, 4);
    PlainAgain(parse, r, found, st, s, ParsedRounds(parse, s, 4));
  }

  lemma PlainAgain(parse: Parsers, r: Components, found: Found, st: Parsed, s: Components, st': Parsed)
    requires Known(parse) && Summary(parse, r, found, st) && Agrees(parse, r, found, st, 4) && !IsWindows(st)
    requires s == Renamed(r, st) && Fill(s) == s && Agrees(parse, s, found, st', 4)
    requires st' == ParsedRounds(parse, s, 4) && Searching(parse, s, 4) == (s, found)
    ensures NormalComponents(parse, s) == s <==> !DropsEabi(r, st)
  {
    PlainParsed(parse, r, found, st, s, st');
    SpecialIsRenamed(s, st');
    RenamedTwice(parse, r, found, st, st');
    SpecialIsSafe(parse, s);
  }

  lemma RenamedTwice(parse: Parsers, r: Components, found: Found, st: Parsed, st': Parsed)
    requires Known(parse)
    requires found[3] ==> |r| > 3 && r[3] != ""
    requires st.environment == if found[3] then parse.environment(r[3]) else UnknownEnvironment
    requires !IsWindows(st) && st'.vendor == st.vendor && Fill(Renamed(r, st)) == Renamed(r, st)
    requires st'.environment == if found[3] then parse.environment(Renamed(r, st)[3]) else UnknownEnvironment
    ensures Renamed(Renamed(r, st), st') == Renamed(r, st) <==> !DropsEabi(r, st)
  {
    var s := Renamed(r, st);
    if st.environment == UnknownEnvironment {
      RenamedNot(parse, r, st);
      RenamedNot(parse, s, st');
    } else {
      RenamedIs(parse, r, st);
      RenamedIs(parse, s, st');
      RenameTwice(parse, r[3], st.vendor);
      SameButThree(s, Renamed(s, st'));
    }
  }

  lemma SameButThree(s: Components, t: Components)
    requires |s| == |t| && |s| > 3 && forall k :: 0 <= k < |s| && k != 3 ==> t[k] == s[k]
    ensures t == s <==> t[3] == s[3]
  {
  }

  // ----- The second pass over a Windows list -----

  /** What a second pass parses in a Windows list. */
  lemma WindowsParsed(parse: Parsers, r: Components, found: Found, st: Parsed, s: Components, st': Parsed)
    requires ReadsWindows(parse) && Summary(parse, r, found, st) && IsWindows(st) && s == WindowsForm(r, st)
    requires Agrees(parse, s, WithWindows(found), st', 4)
    ensures SecondPass(parse, st, s, st')
  {
    NoPrefix("mingw", s[2]);
    NoPrefix("cygwin", s[2]);
    assert parse.os(s[2]) == Win32;
    assert found[1] ==> s[1] == r[1];
    WindowsParsedFrom(parse, found, st, s, st');
  }

  /** The state of the second pass over a Windows list. */
  predicate SecondPass(parse: Parsers, st: Parsed, s: Components, st': Parsed) {
    && st'.os.Win32? && !st'.isMinGW32 && !st'.isCygwin && st'.vendor == st.vendor
    && |s| > 3 && st'.environment == parse.environment(s[3])
    && (st'.environment == UnknownEnvironment ==> st'.format == parse.format(s[3]))
  }

  lemma WindowsParsedFrom(parse: Parsers, found: Found, st: Parsed, s: Components, st': Parsed)
    requires |s| > 3 && parse.os(s[2]) == Win32 && !Starts(s[2], "mingw") && !Starts(s[2], "cygwin")
    requires st.vendor == if found[1] then parse.vendor(s[1]) else UnknownVendor
    requires Agrees(parse, s, WithWindows(found), st', 4)
    ensures SecondPass(parse, st, s, st')
  {
  }

  lemma WindowsFormAgain(s: Components, st': Parsed)
    requires |s| > 3 && s[2] == "windows" && Fill(s) == s && st'.os.Win32? && !st'.isMinGW32 && !st'.isCygwin
    ensures WindowsForm(s, st') ==
            s[..3] + [WindowsEnvironment(s, st')] +
            if st'.environment != UnknownEnvironment && !PlainFormat(st'.format) then [FormatName(st'.format)] else []
  {
  }

  /** The fourth component of a Windows list, renamed once more. */
  lemma WindowsFourth(parse: Parsers, r: Components, found: Found, st: Parsed)
    requires Known(parse) && Summary(parse, r, found, st) && IsWindows(st) && !WritesFormat(st)
    ensures var e := WindowsEnvironment(r, st);
            && parse.environment(e) != UnknownEnvironment
            && (Rename(parse, e, st.vendor) == e <==> !DropsEabi(r, st))
  {
    WindowsFourthIs(r, st);
    if st.os.Win32? && st.environment != UnknownEnvironment {
      RenamedFourth(parse, r, st);
    } else {
      NameSettles(parse, Given(st));
      GivenFourth(parse, r, st, EnvironmentName(Given(st)));
    }
  }

  lemma RenamedFourth(parse: Parsers, r: Components, st: Parsed)
    requires Known(parse) && |r| > 3 && r[3] != "" && st.environment == parse.environment(r[3]) != UnknownEnvironment
    requires !st.isMinGW32 && !st.isCygwin
    ensures var e := Renamed(r, st)[3];
            && parse.environment(e) != UnknownEnvironment
            && (Rename(parse, e, st.vendor) == e <==> !DropsEabi(r, st))
  {
    RenamedIs(parse, r, st);
    RenamedSettles(parse, r, st);
    RenameTwice(parse, r[3], st.vendor);
  }

  lemma GivenFourth(parse: Parsers, r: Components, st: Parsed, e: string)
    requires parse.environment(e) == Given(st) && IsWindows(st) && !(st.os.Win32? && st.environment != UnknownEnvironment)
    ensures Rename(parse, e, st.vendor) == e && !DropsEabi(r, st)
  {
  }

  lemma WindowsFifth(parse: Parsers, r: Components, st: Parsed, s: Components, st': Parsed)
    requires Faithful(parse) && |r| > 2 && (st.environment != UnknownEnvironment ==> |r| > 3) && s == WindowsForm(r, st)
    requires WritesFormat(st) ==> !st.isMinGW32 && !st.isCygwin
    requires st'.environment == UnknownEnvironment ==> WritesFormat(st)
    requires st'.environment != UnknownEnvironment ==> st'.format == ParsedInPlace(parse, s).format
    ensures s[4..] == if st'.environment != UnknownEnvironment && !PlainFormat(st'.format) then [FormatName(st'.format)] else []
  {
    if |s| > 4 {
      FormatRead(parse, st.format);
    }
  }

  /** The second pass agrees with the first on its fourth component unless "eabi" is dropped again. */
  lemma WindowsFourthAgain(parse: Parsers, r: Components, found: Found, st: Parsed, s: Components, st': Parsed)
    requires Known(parse) && Summary(parse, r, found, st) && IsWindows(st) && SecondPass(parse, st, s, st')
    requires s[3] == WindowsEnvironment(r, st) != ""
    ensures st'.environment == UnknownEnvironment <==> WritesFormat(st)
    ensures WindowsEnvironment(s, st') == s[3] <==> !DropsEabi(r, st)
  {
    if WritesFormat(st) {
      WindowsFourthIs(r, st);
      FormatRead(parse, st.format);
    } else {
      WindowsFourth(parse, r, found, st);
      RenamedIs(parse, s, st');
    }
    WindowsFourthIs(s, st');
  }

  lemma AgainWindows(parse: Parsers, r: Components, found: Found, init: Found, st: Parsed)
    requires Known(parse) && Result(parse, r, found, init, st) && IsWindows(st)
    ensures NormalComponents(parse, WindowsForm(r, st)) == WindowsForm(r, st) <==> !DropsEabi(r, st)
  {
    var s, found' := WindowsForm(r, st), WithWindows(found);
    RulesAreSound(parse);
    WindowsShaped(parse, r, found, st);
    ShapedIsFixpoint(RulesOf(parse), r, found, init, s, found');
    SearchAgrees(parse, s, 4);
    WindowsAgain(parse, r, found, st, s, ParsedRounds(parse, s, 4));
  }

  lemma WindowsAgain(parse: Parsers, r: Components, found: Found, st: Parsed, s: Components, st': Parsed)
    requires Known(parse) && Summary(parse, r, found, st) && IsWindows(st)
    requires s == WindowsForm(r, st) && Fill(s) == s && st' == ParsedRounds(parse, s, 4)
    requires Searching(parse, s, 4) == (s, WithWindows(found)) && Agrees(parse, s, WithWindows(found), st', 4)
    ensures NormalComponents(parse, s) == s <==> !DropsEabi(r, st)
  {
    WindowsParsed(parse, r, found, st, s, st');
    WindowsTwice(parse, r, found, st, s, st');
    SpecialIsWindowsForm(s, st');
    SpecialIsSafe(parse, s);
  }

  lemma WindowsTwice(parse: Parsers, r: Components, found: Found, st: Parsed, s: Components, st': Parsed)
    requires Known(parse) && Summary(parse, r, found, st) && IsWindows(st)
    requires s == WindowsForm(r, st) && Fill(s) == s && st' == ParsedRounds(parse, s, 4) && SecondPass(parse, st, s, st')
    ensures WindowsForm(s, st') == s <==> !DropsEabi(r, st)
  {
    assert Fill(s)[3] != "";
    WindowsFourthAgain(parse, r, found, st, s, st');
    if st'.environment != UnknownEnvironment {
      FormatIsOriginal(parse, s, 4);
    }
    WindowsFifth(parse, r, st, s, st');
    WindowsFormAgain(s, st');
    SameButFourth(s, WindowsEnvironment(s, st'), s[4..]);
  }

  lemma SameButFourth(s: Components, e: string, rest: Components)
    requires |s| > 3 && rest == s[4..]
    ensures s[..3] + [e] + rest == s <==> e == s[3]
  {
    assert s == s[..3] + [s[3]] + s[4..];
    assert (s[..3] + [e] + rest)[3] == e;
  }

  // ----- Whole strings -----

  lemma NormalFormOf(parse: Parsers, cs: Components)
    requires Known(parse)
    ensures var (r, found) := Searching(parse, cs, 4);
            var st := ParsedRounds(parse, cs, 4);
            && (st.environment != UnknownEnvironment ==> |r| > 3)
            && (IsWindows(st) ==> |r| > 2 && NormalComponents(parse, cs) == WindowsForm(r, st))
            && (!IsWindows(st) ==> NormalComponents(parse, cs) == Renamed(r, st))
  {
    SearchResult(parse, cs);
    var (r, found) := Searching(parse, cs, 4);
    var st := ParsedRounds(parse, cs, 4);
    if IsWindows(st) {
      SpecialIsWindowsForm(r, st);
    } else {
      SpecialIsRenamed(r, st);
    }
  }

  /** Normalizing a list twice is normalizing it once, exactly if no "eabi" is dropped a second time. */
  lemma NormalTwice(parse: Parsers, cs: Components)
    requires Known(parse)
    ensures var n := NormalComponents(parse, cs);
            NormalComponents(parse, n) == n <==> !DropsEabi(Searching(parse, cs, 4).0, ParsedRounds(parse, cs, 4))
  {
    SearchResult(parse, cs);
    NormalFormOf(parse, cs);
    var (r, found) := Searching(parse, cs, 4);
    var st := ParsedRounds(parse, cs, 4);
    if IsWindows(st) {
      AgainWindows(parse, r, found, Settled(RulesOf(parse), cs), st);
    } else {
      AgainPlain(parse, r, found, Settled(RulesOf(parse), cs), st);
    }
  }

  // ----- No dash is made up -----

  /** What the search leaves in a list was in it to begin with. */
  lemma SearchMakesNothingUp(parse: Parsers, cs: Components, k: nat)
    requires Silent(parse) && k < |Searching(parse, cs, 4).0| && Searching(parse, cs, 4).0[k] != ""
    ensures Searching(parse, cs, 4).0[k] in cs
  {
    var rules := RulesOf(parse);
    var r := Searching(parse, cs, 4).0;
    RulesAreSound(parse);
    SettledArePlaced(rules, cs);
    var m := RoundsKeep(rules, cs, Settled(rules, cs), 4);
    assert r[k] in multiset(r) && multiset(r)[r[k]] == multiset(cs)[r[k]];
  }

  lemma FillDashFree(r: Components)
    requires forall k :: 0 <= k < |r| && r[k] != "" ==> DashFree(r[k])
    ensures AllDashFree(Fill(r))
  {
    forall c | c in Fill(r) ensures DashFree(c) {
      var k :| 0 <= k < |r| && c == Fill(r)[k];
    }
  }

  lemma SearchDashFree(parse: Parsers, cs: Components)
    requires Silent(parse) && AllDashFree(cs)
    ensures AllDashFree(Fill(Searching(parse, cs, 4).0))
  {
    var r := Searching(parse, cs, 4).0;
    forall k | 0 <= k < |r| && r[k] != "" ensures DashFree(r[k]) {
      SearchMakesNothingUp(parse, cs, k);
    }
    FillDashFree(r);
  }

  lemma DashFreeAt(cs: Components, k: nat)
    requires AllDashFree(cs) && k < |cs|
    ensures DashFree(cs[k])
  {
    assert cs[k] in cs;
  }

  lemma RenamedDashFree(r: Components, st: Parsed)
    requires (st.environment != UnknownEnvironment ==> |r| > 3) && AllDashFree(Fill(r))
    ensures AllDashFree(Renamed(r, st))
  {
    var s := Renamed(r, st);
    forall c | c in s ensures DashFree(c) {
      var k :| 0 <= k < |s| && c == s[k];
      DashFreeAt(Fill(r), k);
      if k == 3 {
        RenamedThird(r, st);
      }
    }
  }

  lemma RenamedThird(r: Components, st: Parsed)
    requires (st.environment != UnknownEnvironment ==> |r| > 3) && |r| > 3 && DashFree(Fill(r)[3])
    ensures DashFree(Renamed(r, st)[3])
  {
    var c := Fill(r)[3];
    if Starts(c, "androideabi") {
      assert forall x :: x in c[|"androideabi"|..] ==> x in c;
    }
  }

  lemma NormalDashFree(parse: Parsers, cs: Components)
    requires Known(parse) && AllDashFree(cs)
    ensures AllDashFree(NormalComponents(parse, cs))
  {
    NormalFormOf(parse, cs);
    SearchDashFree(parse, cs);
    var r := Searching(parse, cs, 4).0;
    var st := ParsedRounds(parse, cs, 4);
    RenamedDashFree(r, st);
    if IsWindows(st) {
      WindowsDashFree(r, st);
    }
  }

  lemma WindowsDashFree(r: Components, st: Parsed)
    requires |r| > 2 && (st.environment != UnknownEnvironment ==> |r| > 3)
    requires AllDashFree(Fill(r)) && AllDashFree(Renamed(r, st))
    ensures AllDashFree(WindowsForm(r, st))
  {
    DashFreeAt(Fill(r), 0);
    DashFreeAt(Fill(r), 1);
    FourthDashFree(r, st);
    NamesDashFree(MSVC, st.format);
    assert DashFree("windows");
  }

  lemma FourthDashFree(r: Components, st: Parsed)
    requires st.environment != UnknownEnvironment ==> |r| > 3
    requires AllDashFree(Renamed(r, st))
    ensures DashFree(WindowsEnvironment(r, st))
  {
    if st.environment != UnknownEnvironment {
      DashFreeAt(Renamed(r, st), 3);
    }
    NamesDashFree(MSVC, st.format);
    NamesDashFree(GNU, st.format);
    NamesDashFree(Cygnus, st.format);
  }

  // ----- Whole strings -----

  /** The normal form up to the special cases, with the parsers of the tables. */
  function Canonicalized(host: Host, str: string): string {
    TablesAreSilent(host);
    SearchGrows(ParsersOf(host), Split(str), 4);
    Join(Canonical(RulesOf(ParsersOf(host)), Split(str)))
  }

  /** For every string, moving components about a second time changes nothing. */
  lemma CanonicalTwice(host: Host, str: string)
    ensures Canonicalized(host, Canonicalized(host, str)) == Canonicalized(host, str)
  {
    var parse := ParsersOf(host);
    TablesAreSilent(host);
    RulesAreSound(parse);
    SplitDashFree(str);
    SearchDashFree(parse, Split(str));
    SearchGrows(parse, Split(str), 4);
    SplitJoin(Canonical(RulesOf(parse), Split(str)));
    CanonicalIsFixpoint(RulesOf(parse), Split(str));
  }

  lemma NormalStringTwice(parse: Parsers, str: string)
    requires Known(parse)
    ensures NormalString(parse, NormalString(parse, str)) == NormalString(parse, str) <==>
            !DropsEabi(Searching(parse, Split(str), 4).0, ParsedRounds(parse, Split(str), 4))
  {
    var cs := Split(str);
    var n := NormalComponents(parse, cs);
    SplitDashFree(str);
    NormalDashFree(parse, cs);
    NormalDashFree(parse, n);
    NormalNotEmpty(parse, cs);
    NormalNotEmpty(parse, n);
    SplitJoin(n);
    SplitJoin(NormalComponents(parse, n));
    NormalTwice(parse, cs);
  }

  /** The guard of the case that fails, on what the search has found in a string. */
  predicate DropsEabiIn(host: Host, str: string) {
    DropsEabi(Searching(ParsersOf(host), Split(str), 4).0, ParsedRounds(ParsersOf(host), Split(str), 4))
  }

  /** Normalizing a string a second time changes it exactly when the first time
      leaves an Android environment whose version begins with "eabi" again. */
  lemma NormalizeTwice(host: Host, str: string)
    ensures Normalized(host, Normalized(host, str)) == Normalized(host, str) <==> !DropsEabiIn(host, str)
  {
    TablesAreKnown(host);
    NormalStringTwice(ParsersOf(host), str);
  }

  /** A caller can tell from the string: if none of its components starts with
      "androideabieabi", normalizing twice is normalizing once. */
  lemma NormalizeTwiceFromInput(host: Host, str: string)
    requires forall c :: c in Split(str) ==> !Starts(c, "androideabieabi")
    ensures Normalized(host, Normalized(host, str)) == Normalized(host, str)
  {
    TablesAreSilent(host);
    var r := Searching(ParsersOf(host), Split(str), 4).0;
    if |r| > 3 && r[3] != "" {
      SearchMakesNothingUp(ParsersOf(host), Split(str), 3);
    }
    NormalizeTwice(host, str);
  }

  // ----- An input for which it does -----

  const EABI_TWICE: string := "androideabieabi"

  lemma TablesMissEabiTwice()
    ensures NotIn(COMMON_ARCHES, EABI_TWICE)
    ensures NotIn(MIPS_ARCHES, EABI_TWICE)
    ensures NotIn(VENDORS, EABI_TWICE)
  {
  }

  lemma OtherTablesMissEabiTwice()
    ensures NotIn(OTHER_ARCHES, EABI_TWICE)
  {
  }

  lemma SystemsMissEabiTwice()
    ensures forall i {:trigger OSES[i]} :: 0 <= i < |OSES| ==> Differs(OSES[i].0, EABI_TWICE)
  {
  }

  lemma EabiTwiceNoArchPrefix()
    ensures !Starts(EABI_TWICE, "kalimba") && !Starts(EABI_TWICE, "arm") && !Starts(EABI_TWICE, "thumb")
    ensures !Starts(EABI_TWICE, "aarch64") && !Starts(EABI_TWICE, "bpf")
  {
    DifferentPrefixes(EABI_TWICE, "kalimba", EABI_TWICE);
    DifferentPrefixes(EABI_TWICE, "arm", EABI_TWICE);
    DifferentPrefixes(EABI_TWICE, "thumb", EABI_TWICE);
    DifferentPrefixes(EABI_TWICE, "aarch64", EABI_TWICE);
    DifferentPrefixes(EABI_TWICE, "bpf", EABI_TWICE);
  }

  lemma EabiTwiceIsNoArch(host: Host)
    ensures ParseArch(host, EABI_TWICE) == UnknownArch
  {
    TablesMissEabiTwice();
    OtherTablesMissEabiTwice();
    EabiTwiceNoArchPrefix();
    InNoTable(host, EABI_TWICE);
  }

  lemma EabiTwiceIsNoVendor()
    ensures ParseVendor(EABI_TWICE) == UnknownVendor
  {
    TablesMissEabiTwice();
    NotInMisses(VENDORS, EABI_TWICE, UnknownVendor);
  }

  lemma EabiTwiceIsNoSystem()
    ensures ParseOS(EABI_TWICE) == UnknownOS && !Starts(EABI_TWICE, "mingw") && !Starts(EABI_TWICE, "cygwin")
  {
    SystemsMissEabiTwice();
    forall i | 0 <= i < |OSES| ensures !Hits(StartsWith, OSES[i].0, EABI_TWICE) {
      DifferentPrefixes(EABI_TWICE, OSES[i].0, EABI_TWICE);
    }
    SwitchMisses(StartsWith, OSES, EABI_TWICE, 0, UnknownOS);
    DifferentPrefixes(EABI_TWICE, "mingw", EABI_TWICE);
    DifferentPrefixes(EABI_TWICE, "cygwin", EABI_TWICE);
  }

  lemma EabiTwiceIsAndroid()
    ensures ParseEnvironment(EABI_TWICE) == Android && DashFree(EABI_TWICE)
  {
    AndroidParses("eabieabi");
    assert "android" + "eabieabi" == EABI_TWICE;
  }

  lemma EabiTwiceFits(host: Host, p: nat)
    ensures Accepts(ParsersOf(host), p, EABI_TWICE) <==> p == 3
  {
    EabiTwiceIsNoArch(host);
    EabiTwiceIsNoVendor();
    EabiTwiceIsNoSystem();
    EabiTwiceIsAndroid();
    FitsFourth(ParsersOf(host), EABI_TWICE, p);
  }

  lemma FitsFourth(parse: Parsers, c: string, p: nat)
    requires parse.arch(c) == UnknownArch && parse.vendor(c) == UnknownVendor && parse.os(c) == UnknownOS
    requires !Starts(c, "mingw") && !Starts(c, "cygwin") && parse.environment(c) != UnknownEnvironment
    ensures Accepts(parse, p, c) <==> p == 3
  {
  }

  /** A component that fits the fourth position only ends up there, if it is all there is. */
  lemma AlonePlaced(parse: Parsers, c: string)
    requires Silent(parse) && c != "" && forall p {:trigger Accepts(parse, p, c)} :: Accepts(parse, p, c) <==> p == 3
    ensures var (r, found) := Searching(parse, [c], 4); found[3] && !found[2] && |r| > 3 && r[3] == c
  {
    var (r, found) := Searching(parse, [c], 4);
    AloneKept(parse, c);
    forall p: nat | p < 4 ensures found[p] ==> p == 3 && |r| > 3 && r[3] == c {
      AloneFound(parse, c, p);
    }
    var k :| 0 <= k < |r| && r[k] == c;
    SearchFinds(parse, [c], 3);
    assert Accepts(parse, 3, c);
    assert found[3] || !IsFixed(found, k);
  }

  /** The search loses no component. */
  lemma AloneKept(parse: Parsers, c: string)
    requires Silent(parse) && c != ""
    ensures c in Searching(parse, [c], 4).0
  {
    var cs := [c];
    var r := Searching(parse, cs, 4).0;
    RulesAreSound(parse);
    SettledArePlaced(RulesOf(parse), cs);
    var m := RoundsKeep(RulesOf(parse), cs, Settled(RulesOf(parse), cs), 4);
    assert multiset(r)[c] == multiset(cs)[c] == 1;
  }

  /** What is found for a position is the component. */
  lemma AloneFound(parse: Parsers, c: string, p: nat)
    requires Silent(parse) && p < 4
    ensures var (r, found) := Searching(parse, [c], 4); found[p] ==> p < |r| && r[p] == c && Accepts(parse, p, c)
  {
    var (r, found) := Searching(parse, [c], 4);
    if found[p] {
      SearchFinds(parse, [c], p);
      NothingAccepted(parse, p, "");
      SearchMakesNothingUp(parse, [c], p);
    }
  }

  lemma AloneDrops(parse: Parsers, c: string)
    requires Silent(parse) && forall p {:trigger Accepts(parse, p, c)} :: Accepts(parse, p, c) <==> p == 3
    requires c != "" && parse.environment(c) == Android && Starts(c, "androideabieabi")
    ensures DropsEabi(Searching(parse, [c], 4).0, ParsedRounds(parse, [c], 4))
  {
    AlonePlaced(parse, c);
    SearchAgrees(parse, [c], 4);
  }

  /** "androideabieabi" becomes "unknown-unknown-unknown-androideabi", and that changes again. */
  lemma EabiIsDroppedTwice(host: Host)
    ensures Normalized(host, Normalized(host, EABI_TWICE)) != Normalized(host, EABI_TWICE)
  {
    TablesAreSilent(host);
    EabiTwiceIsAndroid();
    forall p: nat ensures Accepts(ParsersOf(host), p, EABI_TWICE) <==> p == 3 {
      EabiTwiceFits(host, p);
    }
    AloneDrops(ParsersOf(host), EABI_TWICE);
    DashNone(EABI_TWICE);
    NormalizeTwice(host, EABI_TWICE);
  }
}
