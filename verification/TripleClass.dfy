/** The `Triple` class: its string and enumerations, and the mutators that
    rebuild the string and parse it again. */
module TripleClass {
  import opened TripleStrings
  import opened TripleParsing
  import opened TripleNames
  import opened TripleFields
  import opened TripleTables

  // ----- The strings the mutators build -----

  function WithArchName(s: string, n: string): string {
    n + "-" + VendorPart(s) + "-" + OSAndEnvironmentPart(s)
  }

  function WithVendorName(s: string, n: string): string {
    ArchPart(s) + "-" + n + "-" + OSAndEnvironmentPart(s)
  }

  function WithOSName(s: string, n: string): string {
    if HasEnvironment(s) then ArchPart(s) + "-" + VendorPart(s) + "-" + n + "-" + EnvironmentPart(s)
    else ArchPart(s) + "-" + VendorPart(s) + "-" + n
  }

  function WithEnvironmentName(s: string, n: string): string {
    ArchPart(s) + "-" + VendorPart(s) + "-" + OSPart(s) + "-" + n
  }

  function WithOSAndEnvironmentName(s: string, n: string): string {
    ArchPart(s) + "-" + VendorPart(s) + "-" + n
  }

  lemma Regroup(a: string, b: string, c: string)
    ensures a + b + c == a + (b + c)
  {
  }

  lemma PartsOfThree(a: string, v: string, x: string)
    requires DashFree(a) && DashFree(v)
    ensures var s := a + "-" + v + "-" + x;
            ArchPart(s) == a && VendorPart(s) == v && OSAndEnvironmentPart(s) == x && Dash(s) < |s|
  {
    assert a + "-" + v + "-" + x == a + "-" + (v + "-" + x) by {
      Regroup(a + "-", v + "-", x);
      Regroup(a + "-", v, "-");
    }
    FirstSecond(a, v + "-" + x);
    FirstSecond(v, x);
  }

  lemma PartsOfFour(a: string, v: string, o: string, e: string)
    requires DashFree(a) && DashFree(v) && DashFree(o)
    ensures var s := a + "-" + v + "-" + o + "-" + e;
            ArchPart(s) == a && VendorPart(s) == v && OSPart(s) == o && EnvironmentPart(s) == e && Dash(s) < |s|
  {
    assert a + "-" + v + "-" + o + "-" + e == a + "-" + v + "-" + (o + "-" + e) by {
      Regroup(a + "-" + v + "-", o + "-", e);
      Regroup(a + "-" + v + "-", o, "-");
    }
    PartsOfThree(a, v, o + "-" + e);
    FirstSecond(o, e);
  }

  lemma PartsAreDashFree(s: string)
    ensures DashFree(ArchPart(s)) && DashFree(VendorPart(s)) && DashFree(OSPart(s))
  {
    FirstDashFree(s);
    FirstDashFree(Second(s));
    FirstDashFree(Second(Second(s)));
  }

  // ----- The components of those strings -----

  /** An environment is what comes fourth, if that is not a last component that is empty. */
  lemma HasEnvironmentIs(s: string)
    ensures HasEnvironment(s) <==> |Split(s)| > 4 || (|Split(s)| == 4 && Split(s)[3] != "")
  {
    PartsOfSplit(s);
    if |Split(s)| > 3 {
      JoinSplit(EnvironmentPart(s));
      if |Split(s)| == 4 {
        assert Split(EnvironmentPart(s)) == [Split(s)[3]];
      } else if EnvironmentPart(s) == "" {
        EmptySplits();
      }
    }
  }

  lemma SplitThree(a: string, b: string, c: string)
    ensures Split(a + "-" + b + "-" + c) == Split(a) + Split(b) + Split(c)
  {
    SplitBoth(a, b);
    SplitBoth(a + "-" + b, c);
  }

  lemma SplitFour(a: string, b: string, c: string, d: string)
    ensures Split(a + "-" + b + "-" + c + "-" + d) == Split(a) + Split(b) + Split(c) + Split(d)
  {
    SplitThree(a, b, c);
    SplitBoth(a + "-" + b + "-" + c, d);
  }

  lemma SplitDashless(a: string)
    requires DashFree(a)
    ensures Split(a) == [a]
  {
    FirstAlone(a);
    DashNone(a);
  }

  /** The parts hold no dash, and are the components. */
  lemma SplitsOfParts(s: string)
    ensures var cs := Padded(Split(s), 3);
            && Split(ArchPart(s)) == [cs[0]] && Split(VendorPart(s)) == [cs[1]] && Split(OSPart(s)) == [cs[2]]
            && Split(OSAndEnvironmentPart(s)) == cs[2..]
  {
    PartsAreDashFree(s);
    PartsOfSplit(s);
    SplitDashless(ArchPart(s));
    SplitDashless(VendorPart(s));
    SplitDashless(OSPart(s));
  }

  lemma Around(cs: seq<string>, x: seq<string>)
    requires |cs| >= 3
    ensures x + [cs[1]] + cs[2..] == x + cs[1..]
    ensures [cs[0]] == cs[..1] && [cs[0]] + [cs[1]] == cs[..2] && [cs[0]] + [cs[1]] + [cs[2]] == cs[..3]
  {
    assert [cs[1]] + cs[2..] == cs[1..];
    assert x + [cs[1]] + cs[2..] == x + ([cs[1]] + cs[2..]);
  }

  /** A mutator puts the components of the new name in the place of one of the
      first three components, or of all from the third or fourth on. Those before
      and after it, up to the third, are there afterwards, empty if they were
      missing; a fourth component that is last and empty goes when the system is set. */
  lemma ArchNameComponents(s: string, n: string)
    ensures Split(WithArchName(s, n)) == Split(n) + Padded(Split(s), 3)[1..]
  {
    SplitsOfParts(s);
    SplitThree(n, VendorPart(s), OSAndEnvironmentPart(s));
    Around(Padded(Split(s), 3), Split(n));
  }

  lemma VendorNameComponents(s: string, n: string)
    ensures Split(WithVendorName(s, n)) == Padded(Split(s), 3)[..1] + Split(n) + Padded(Split(s), 3)[2..]
  {
    SplitsOfParts(s);
    SplitThree(ArchPart(s), n, OSAndEnvironmentPart(s));
    Around(Padded(Split(s), 3), Split(n));
  }

  lemma OSNameComponents(s: string, n: string)
    ensures Split(WithOSName(s, n)) ==
            Padded(Split(s), 3)[..2] + Split(n) +
            if |Split(s)| > 4 || (|Split(s)| == 4 && Split(s)[3] != "") then Split(s)[3..] else []
  {
    SplitsOfParts(s);
    HasEnvironmentIs(s);
    Around(Padded(Split(s), 3), Split(n));
    if HasEnvironment(s) {
      PartsOfSplit(s);
      SplitFour(ArchPart(s), VendorPart(s), n, EnvironmentPart(s));
    } else {
      SplitThree(ArchPart(s), VendorPart(s), n);
    }
  }

  lemma EnvironmentNameComponents(s: string, n: string)
    ensures Split(WithEnvironmentName(s, n)) == Padded(Split(s), 3)[..3] + Split(n)
  {
    SplitsOfParts(s);
    SplitFour(ArchPart(s), VendorPart(s), OSPart(s), n);
    Around(Padded(Split(s), 3), Split(n));
  }

  lemma OSAndEnvironmentNameComponents(s: string, n: string)
    ensures Split(WithOSAndEnvironmentName(s, n)) == Padded(Split(s), 3)[..2] + Split(n)
  {
    SplitsOfParts(s);
    SplitThree(ArchPart(s), VendorPart(s), n);
    Around(Padded(Split(s), 3), Split(n));
  }

  lemma SameComponents(s: string, t: string)
    ensures s == t <==> Split(s) == Split(t)
  {
    JoinSplit(s);
    JoinSplit(t);
  }

  /** Giving a component the name it has changes nothing, in a string that has
      the first three; except that setting the system drops a fourth component
      that is last and empty. */
  lemma OwnNames(s: string)
    requires |Split(s)| >= 3
    ensures WithArchName(s, ArchPart(s)) == s && WithVendorName(s, VendorPart(s)) == s
    ensures WithOSName(s, OSPart(s)) == s <==> !(|Split(s)| == 4 && Split(s)[3] == "")
    ensures |Split(s)| > 3 ==> WithEnvironmentName(s, EnvironmentPart(s)) == s
    ensures WithOSAndEnvironmentName(s, OSAndEnvironmentPart(s)) == s
  {
    OwnFront(s);
    OwnSystem(s);
    OwnRest(s);
  }

  lemma Rejoined(cs: seq<string>)
    requires |cs| >= 3
    ensures [cs[0]] + cs[1..] == cs && cs[..1] + [cs[1]] + cs[2..] == cs && cs[..2] + [cs[2]] + cs[3..] == cs
    ensures cs[..3] + cs[3..] == cs && cs[..2] + cs[2..] == cs
  {
  }

  lemma OwnFront(s: string)
    requires |Split(s)| >= 3
    ensures WithArchName(s, ArchPart(s)) == s && WithVendorName(s, VendorPart(s)) == s
  {
    SplitsOfParts(s);
    ArchNameComponents(s, ArchPart(s));
    VendorNameComponents(s, VendorPart(s));
    Rejoined(Split(s));
    SameComponents(WithArchName(s, ArchPart(s)), s);
    SameComponents(WithVendorName(s, VendorPart(s)), s);
  }

  lemma OwnSystem(s: string)
    requires |Split(s)| >= 3
    ensures WithOSName(s, OSPart(s)) == s <==> !(|Split(s)| == 4 && Split(s)[3] == "")
  {
    SplitsOfParts(s);
    OSNameComponents(s, OSPart(s));
    Rejoined(Split(s));
    SameComponents(WithOSName(s, OSPart(s)), s);
    if |Split(s)| == 3 {
      assert Split(s)[3..] == [];
    }
  }

  lemma OwnRest(s: string)
    requires |Split(s)| >= 3
    ensures |Split(s)| > 3 ==> WithEnvironmentName(s, EnvironmentPart(s)) == s
    ensures WithOSAndEnvironmentName(s, OSAndEnvironmentPart(s)) == s
  {
    PartsOfSplit(s);
    EnvironmentNameComponents(s, EnvironmentPart(s));
    OSAndEnvironmentNameComponents(s, OSAndEnvironmentPart(s));
    Rejoined(Split(s));
    SameComponents(WithEnvironmentName(s, EnvironmentPart(s)), s);
    SameComponents(WithOSAndEnvironmentName(s, OSAndEnvironmentPart(s)), s);
  }

  // ----- What each mutator changes -----

  /** A new architecture name changes the architecture. Other components stay,
      with their enumerations: except that an object format that is not spelled
      out follows the architecture, and that a triple that was only an
      architecture loses the environment of the mips rule. */
  lemma ArchNameSet(p: Parsers, s: string, n: string)
    requires Faithful(p) && DashFree(n)
    ensures var t := WithArchName(s, n);
            && ArchPart(t) == n && VendorPart(t) == VendorPart(s) && OSPart(t) == OSPart(s)
            && EnvironmentPart(t) == EnvironmentPart(s)
            && Parse(p, t) == Parse(p, s).(arch := p.arch(n), subArch := p.subArch(n),
                                           environment := if Dash(s) < |s| then Parse(p, s).environment else UnknownEnvironment,
                                           format := WithDefault(p.format(EnvironmentPart(s)), p.arch(n), Parse(p, s).os))
  {
    OneComponentParts(s);
    PartsAreDashFree(s);
    PartsOfThree(n, VendorPart(s), OSAndEnvironmentPart(s));
    ParseIsParseParts(p, s);
    ParseIsParseParts(p, WithArchName(s, n));
  }

  /** A new vendor name changes the vendor and nothing else. */
  lemma VendorNameSet(p: Parsers, s: string, n: string)
    requires Faithful(p) && DashFree(n)
    ensures var t := WithVendorName(s, n);
            && ArchPart(t) == ArchPart(s) && VendorPart(t) == n && OSPart(t) == OSPart(s)
            && EnvironmentPart(t) == EnvironmentPart(s)
            && (Dash(s) < |s| ==> Parse(p, t) == Parse(p, s).(vendor := p.vendor(n)))
            && (Dash(s) == |s| ==> Parse(p, t) == Parse(p, s).(vendor := p.vendor(n), environment := UnknownEnvironment))
  {
    PartsAreDashFree(s);
    PartsOfThree(ArchPart(s), n, OSAndEnvironmentPart(s));
    ParseIsParseParts(p, s);
    ParseIsParseParts(p, WithVendorName(s, n));
    OneComponentParts(s);
  }

  lemma OneComponentParts(s: string)
    ensures Dash(s) == |s| ==> VendorPart(s) == "" && OSPart(s) == "" && EnvironmentPart(s) == ""
  {
    EmptySplits();
  }

  /** A new system name changes the system, and the object format where that is not spelled out. */
  lemma OSNameSet(p: Parsers, s: string, n: string)
    requires Faithful(p) && DashFree(n)
    ensures var t := WithOSName(s, n);
            && ArchPart(t) == ArchPart(s) && VendorPart(t) == VendorPart(s) && OSPart(t) == n
            && EnvironmentPart(t) == EnvironmentPart(s)
            && Parse(p, t) == Parse(p, s).(os := p.os(n),
                                           environment := if Dash(s) < |s| then Parse(p, s).environment else UnknownEnvironment,
                                           format := WithDefault(p.format(EnvironmentPart(s)), Parse(p, s).arch, p.os(n)))
  {
    OneComponentParts(s);
    OSNameParts(s, n);
    ParseIsParseParts(p, s);
    ParseIsParseParts(p, WithOSName(s, n));
  }

  lemma OSNameParts(s: string, n: string)
    requires DashFree(n)
    ensures var t := WithOSName(s, n);
            && ArchPart(t) == ArchPart(s) && VendorPart(t) == VendorPart(s) && OSPart(t) == n
            && EnvironmentPart(t) == EnvironmentPart(s) && Dash(t) < |t|
  {
    PartsAreDashFree(s);
    if HasEnvironment(s) {
      PartsOfFour(ArchPart(s), VendorPart(s), n, EnvironmentPart(s));
    } else {
      PartsOfThree(ArchPart(s), VendorPart(s), n);
      FirstAlone(n);
    }
  }

  /** A new environment name, which may hold dashes, changes the environment and
      the object format and nothing else. */
  lemma EnvironmentNameSet(p: Parsers, s: string, n: string)
    requires Faithful(p)
    ensures var t := WithEnvironmentName(s, n);
            && ArchPart(t) == ArchPart(s) && VendorPart(t) == VendorPart(s) && OSPart(t) == OSPart(s) && EnvironmentPart(t) == n
            && Parse(p, t) == Parse(p, s).(environment := p.environment(n),
                                           format := WithDefault(p.format(n), Parse(p, s).arch, Parse(p, s).os))
  {
    PartsAreDashFree(s);
    PartsOfFour(ArchPart(s), VendorPart(s), OSPart(s), n);
    ParseIsParseParts(p, s);
    ParseIsParseParts(p, WithEnvironmentName(s, n));
  }

  /** A new system and environment change just those, and the object format. */
  lemma OSAndEnvironmentNameSet(p: Parsers, s: string, n: string)
    requires Faithful(p)
    ensures var t := WithOSAndEnvironmentName(s, n);
            && ArchPart(t) == ArchPart(s) && VendorPart(t) == VendorPart(s) && OSAndEnvironmentPart(t) == n
            && Parse(p, t) == Parse(p, s).(os := p.os(First(n)), environment := p.environment(Second(n)),
                                           format := WithDefault(p.format(Second(n)), Parse(p, s).arch, p.os(First(n))))
  {
    PartsAreDashFree(s);
    PartsOfThree(ArchPart(s), VendorPart(s), n);
    ParseIsParseParts(p, s);
    ParseIsParseParts(p, WithOSAndEnvironmentName(s, n));
  }

  // ----- Setting the environment and the object format by kind -----

  /** The environment name `setEnvironment` writes for a triple with these fields. */
  function EnvironmentText(f: Fields, k: Environment): string {
    if f.format == DefaultFormat(f.arch, f.os) then EnvironmentName(k)
    else EnvironmentName(k) + "-" + FormatName(f.format)
  }

  /** The environment name `setObjectFormat` writes. */
  function FormatText(f: Fields, k: ObjectFormat): string {
    if f.environment == UnknownEnvironment then FormatName(k)
    else EnvironmentName(f.environment) + "-" + FormatName(k)
  }

  /** An object format that is unknown is the default. */
  lemma UnknownIsDefault(p: Parsers, s: string)
    ensures Parse(p, s).format == UnknownObjectFormat ==>
              DefaultFormat(Parse(p, s).arch, Parse(p, s).os) == UnknownObjectFormat
  {
  }

  /** Setting the environment to `k` makes it `k` and keeps everything else, the object format included. */
  lemma EnvironmentSet(p: Parsers, s: string, k: Environment)
    requires Faithful(p)
    ensures Parse(p, WithEnvironmentName(s, EnvironmentText(Parse(p, s), k))) == Parse(p, s).(environment := k)
  {
    var f := Parse(p, s);
    EnvironmentNameSet(p, s, EnvironmentText(f, k));
    UnknownIsDefault(p, s);
    assert ReadsBack(p, k);
    if f.format != DefaultFormat(f.arch, f.os) {
      assert ReadsFormat(p, f.format);
      assert EnvironmentText(f, k) == EnvironmentName(k) + "-" + FormatName(f.format);
    }
  }

  /** Setting the object format to `k` makes it `k`, or the default where `k` is
      the unknown one, and keeps everything else, the environment included. */
  lemma ObjectFormatSet(p: Parsers, s: string, k: ObjectFormat)
    requires Faithful(p)
    ensures Parse(p, WithEnvironmentName(s, FormatText(Parse(p, s), k))) ==
            Parse(p, s).(format := WithDefault(k, Parse(p, s).arch, Parse(p, s).os))
  {
    var f := Parse(p, s);
    EnvironmentNameSet(p, s, FormatText(f, k));
    FormatTextReads(p, f, k);
  }

  lemma FormatTextReads(p: Parsers, f: Fields, k: ObjectFormat)
    requires Faithful(p)
    ensures p.environment(FormatText(f, k)) == f.environment && p.format(FormatText(f, k)) == k
  {
    assert ReadsBack(p, f.environment);
    if k != UnknownObjectFormat {
      assert ReadsFormat(p, k);
      if f.environment != UnknownEnvironment {
        assert FormatText(f, k) == EnvironmentName(f.environment) + "-" + FormatName(k);
      }
    } else if f.environment != UnknownEnvironment {
      assert FormatText(f, k) == EnvironmentName(f.environment) + "-";
      assert EnvironmentName(f.environment) + "-" == EnvironmentName(f.environment) + "-" + "";
    }
  }

  lemma TextSplits(k: Environment, f: ObjectFormat)
    ensures Split(EnvironmentName(k)) == [EnvironmentName(k)] && Split(FormatName(f)) == [FormatName(f)]
    ensures Split(EnvironmentName(k) + "-" + FormatName(f)) == [EnvironmentName(k)] + [FormatName(f)]
  {
    NamesDashFree(k, f);
    SplitDashless(EnvironmentName(k));
    SplitDashless(FormatName(f));
    SplitBoth(EnvironmentName(k), FormatName(f));
  }

  /** The new environment spells the object format out only where that is not the default. */
  lemma EnvironmentSpelled(s: string, f: Fields, k: Environment)
    ensures Split(WithEnvironmentName(s, EnvironmentText(f, k))) ==
            Padded(Split(s), 3)[..3] +
            if f.format == DefaultFormat(f.arch, f.os) then [EnvironmentName(k)]
            else [EnvironmentName(k)] + [FormatName(f.format)]
  {
    EnvironmentNameComponents(s, EnvironmentText(f, k));
    TextSplits(k, f.format);
  }

  /** The new object format is always spelled out, after the environment if there is one. */
  lemma FormatSpelled(s: string, f: Fields, k: ObjectFormat)
    ensures Split(WithEnvironmentName(s, FormatText(f, k))) ==
            Padded(Split(s), 3)[..3] +
            if f.environment == UnknownEnvironment then [FormatName(k)]
            else [EnvironmentName(f.environment)] + [FormatName(k)]
  {
    EnvironmentNameComponents(s, FormatText(f, k));
    TextSplits(f.environment, k);
  }

  /** Setting the vendor by kind makes it that, and keeps all else but for the mips rule. */
  lemma VendorSet(p: Parsers, s: string, k: Vendor)
    requires Faithful(p) && ReadsNames(p)
    ensures Parse(p, WithVendorName(s, VendorName(k))) ==
            Parse(p, s).(vendor := k,
                         environment := if Dash(s) < |s| then Parse(p, s).environment else UnknownEnvironment)
  {
    VendorNameDashFree(k);
    VendorNameSet(p, s, VendorName(k));
  }

  /** Setting the system by kind makes it that. */
  lemma OSSet(p: Parsers, s: string, k: OS)
    requires Faithful(p) && ReadsNames(p)
    ensures Parse(p, WithOSName(s, OSName(k))) ==
            Parse(p, s).(os := k,
                         environment := if Dash(s) < |s| then Parse(p, s).environment else UnknownEnvironment,
                         format := WithDefault(p.format(EnvironmentPart(s)), Parse(p, s).arch, k))
  {
    OSNameDashFree(k);
    OSNameSet(p, s, OSName(k));
  }

  // ----- Constructors -----

  /** The three- and four-string constructors parse their arguments directly. For
      the joined string, the system ends at its first dash and the environment
      takes the rest: what is parsed is the same where no argument holds a dash. */
  lemma StringsParse(p: Parsers, a: string, v: string, o: string, e: string)
    requires Faithful(p) && DashFree(a) && DashFree(v)
    ensures Parse(p, a + "-" + v + "-" + o) == FieldsFrom(p, a, v, First(o), Second(o))
    ensures DashFree(o) ==> Parse(p, a + "-" + v + "-" + o) == FieldsFrom(p, a, v, o, "")
    ensures DashFree(o) ==> Parse(p, a + "-" + v + "-" + o + "-" + e) == FieldsFrom(p, a, v, o, e)
  {
    PartsOfThree(a, v, o);
    ParseIsParseParts(p, a + "-" + v + "-" + o);
    if DashFree(o) {
      FirstAlone(o);
      PartsOfFour(a, v, o, e);
      ParseIsParseParts(p, a + "-" + v + "-" + o + "-" + e);
    }
  }

  /** So the three-string constructor agrees with parsing the string it builds exactly
      when what follows a dash in the system is read neither as part of the system,
      nor as an environment, nor as an object format other than the default. */
  lemma ThreeStringsAgree(p: Parsers, a: string, v: string, o: string)
    requires Faithful(p) && DashFree(a) && DashFree(v)
    ensures Parse(p, a + "-" + v + "-" + o) == FieldsFrom(p, a, v, o, "") <==>
            && p.os(First(o)) == p.os(o) && p.environment(Second(o)) == UnknownEnvironment
            && (p.format(Second(o)) == UnknownObjectFormat || p.format(Second(o)) == DefaultFormat(p.arch(a), p.os(o)))
  {
    StringsParse(p, a, v, o, "");
    assert SilentOn(p, "");
  }

  /** A system string that brings its environment along leaves the constructor
      without one, though the string it has built holds it. */
  lemma EnvironmentOverlooked(p: Parsers, a: string, v: string, o: string, k: Environment)
    requires Faithful(p) && DashFree(a) && DashFree(v) && DashFree(o) && k != UnknownEnvironment
    ensures FieldsFrom(p, a, v, o + "-" + EnvironmentName(k), "").environment == UnknownEnvironment
    ensures Parse(p, a + "-" + v + "-" + (o + "-" + EnvironmentName(k))).environment == k
  {
    StringsParse(p, a, v, o + "-" + EnvironmentName(k), "");
    FirstSecond(o, EnvironmentName(k));
    assert ReadsBack(p, k);
  }

  class Triple {
    const parsers: Parsers
    var data: string
    var fields: Fields

    /** The enumerations are what the string parses to. */
    predicate Valid()
      reads this
    {
      fields == Parse(parsers, data)
    }

    constructor (p: Parsers, str: string)
      ensures parsers == p && data == str && Valid()
    {
      parsers, data := p, str;
      fields := Parse(p, str);
    }

    constructor FromThree(p: Parsers, arch: string, vendor: string, os: string)
      requires Faithful(p)
      ensures parsers == p && data == arch + "-" + vendor + "-" + os && fields == FieldsFrom(p, arch, vendor, os, "")
      ensures DashFree(arch) && DashFree(vendor) && DashFree(os) ==> Valid()
    {
      parsers, data := p, arch + "-" + vendor + "-" + os;
      var format := DefaultFormat(p.arch(arch), p.os(os));
      fields := Fields(p.arch(arch), p.subArch(arch), p.vendor(vendor), p.os(os), UnknownEnvironment, format);
      new;
      if DashFree(arch) && DashFree(vendor) && DashFree(os) {
        StringsParse(p, arch, vendor, os, "");
      }
    }

    constructor FromFour(p: Parsers, arch: string, vendor: string, os: string, environment: string)
      requires Faithful(p)
      ensures parsers == p && data == arch + "-" + vendor + "-" + os + "-" + environment
      ensures fields == FieldsFrom(p, arch, vendor, os, environment)
      ensures DashFree(arch) && DashFree(vendor) && DashFree(os) ==> Valid()
    {
      parsers, data := p, arch + "-" + vendor + "-" + os + "-" + environment;
      var format := p.format(environment);
      if format == UnknownObjectFormat {
        format := DefaultFormat(p.arch(arch), p.os(os));
      }
      fields := Fields(p.arch(arch), p.subArch(arch), p.vendor(vendor), p.os(os), p.environment(environment), format);
      new;
      if DashFree(arch) && DashFree(vendor) && DashFree(os) {
        StringsParse(p, arch, vendor, os, environment);
      }
    }

    method SetTriple(str: string)
      modifies this
      ensures data == str && Valid()
    {
      data := str;
      fields := Parse(parsers, str);
    }

    method SetArchName(n: string)
      modifies this
      ensures data == WithArchName(old(data), n) && Valid()
    {
      SetTriple(n + "-" + VendorPart(data) + "-" + OSAndEnvironmentPart(data));
    }

    method SetVendorName(n: string)
      modifies this
      ensures data == WithVendorName(old(data), n) && Valid()
    {
      SetTriple(ArchPart(data) + "-" + n + "-" + OSAndEnvironmentPart(data));
    }

    method SetOSName(n: string)
      modifies this
      ensures data == WithOSName(old(data), n) && Valid()
    {
      if HasEnvironment(data) {
        SetTriple(ArchPart(data) + "-" + VendorPart(data) + "-" + n + "-" + EnvironmentPart(data));
      } else {
        SetTriple(ArchPart(data) + "-" + VendorPart(data) + "-" + n);
      }
    }

    method SetEnvironmentName(n: string)
      modifies this
      ensures data == WithEnvironmentName(old(data), n) && Valid()
    {
      SetTriple(ArchPart(data) + "-" + VendorPart(data) + "-" + OSPart(data) + "-" + n);
    }

    method SetOSAndEnvironmentName(n: string)
      modifies this
      ensures data == WithOSAndEnvironmentName(old(data), n) && Valid()
    {
      SetTriple(ArchPart(data) + "-" + VendorPart(data) + "-" + n);
    }

    /** Only the vendor changes, and the environment of a triple that was only an architecture. */
    method SetVendor(k: Vendor)
      requires Valid() && Faithful(parsers) && ReadsNames(parsers)
      modifies this
      ensures Valid() && data == WithVendorName(old(data), VendorName(k))
      ensures fields.vendor == k && fields.(vendor := old(fields.vendor), environment := old(fields.environment)) == old(fields)
      ensures Dash(old(data)) < |old(data)| ==> fields.environment == old(fields.environment)
    {
      VendorSet(parsers, data, k);
      SetVendorName(VendorName(k));
    }

    /** The system changes, and the format and environment that depend on it. */
    method SetOS(k: OS)
      requires Valid() && Faithful(parsers) && ReadsNames(parsers)
      modifies this
      ensures Valid() && data == WithOSName(old(data), OSName(k))
      ensures fields.os == k && fields.arch == old(fields.arch) && fields.vendor == old(fields.vendor)
    {
      OSSet(parsers, data, k);
      SetOSName(OSName(k));
    }

    /** Only the environment changes. */
    method SetEnvironment(k: Environment)
      requires Valid() && Faithful(parsers)
      modifies this
      ensures Valid() && fields == old(fields).(environment := k)
      ensures data == WithEnvironmentName(old(data), EnvironmentText(old(fields), k))
    {
      EnvironmentSet(parsers, data, k);
      if fields.format == DefaultFormat(fields.arch, fields.os) {
        SetEnvironmentName(EnvironmentName(k));
      } else {
        SetEnvironmentName(EnvironmentName(k) + "-" + FormatName(fields.format));
      }
    }

    /** Only the object format changes; the unknown one sets the default. */
    method SetObjectFormat(k: ObjectFormat)
      requires Valid() && Faithful(parsers)
      modifies this
      ensures Valid() && data == WithEnvironmentName(old(data), FormatText(old(fields), k))
      ensures fields == old(fields).(format := WithDefault(k, old(fields.arch), old(fields.os)))
    {
      ObjectFormatSet(parsers, data, k);
      if fields.environment == UnknownEnvironment {
        SetEnvironmentName(FormatName(k));
      } else {
        SetEnvironmentName(EnvironmentName(fields.environment) + "-" + FormatName(k));
      }
    }
  }
}
