/** After the search, what was parsed agrees with the components. */
module TripleAgreement {
  import opened TripleParsing
  import opened TripleComponents
  import opened TripleSearch
  import opened TripleNormalize

  /** Architecture and vendor are those of the components found, or unknown. */
  predicate FrontAgrees(parse: Parsers, cs: Components, found: Found, st: Parsed)
    requires Placed(cs, found)
  {
    && st.arch == (if found[0] then parse.arch(cs[0]) else UnknownArch)
    && st.vendor == (if found[1] then parse.vendor(cs[1]) else UnknownVendor)
  }

  /** So are the system and its two flags; before their round the flags may be of a component that does not stay. */
  predicate SystemAgrees(parse: Parsers, cs: Components, found: Found, st: Parsed, n: nat)
    requires Placed(cs, found)
  {
    && st.os == (if found[2] then parse.os(cs[2]) else UnknownOS)
    && (found[2] ==> st.isMinGW32 == Starts(cs[2], "mingw") && st.isCygwin == Starts(cs[2], "cygwin"))
    && (!found[2] && (n > 2 || |cs| <= 2) ==> !st.isMinGW32 && !st.isCygwin)
  }

  /** And the environment; the object format only where the environment is unknown. */
  predicate EnvironmentAgrees(parse: Parsers, cs: Components, found: Found, st: Parsed, n: nat)
    requires Placed(cs, found)
  {
    && st.environment == (if found[3] then parse.environment(cs[3]) else UnknownEnvironment)
    && (n <= 3 && |cs| <= 4 ==> st.format == UnknownObjectFormat)
    && (n > 3 && st.environment == UnknownEnvironment ==>
          st.format == if found[3] then parse.format(cs[3]) else UnknownObjectFormat)
  }

  predicate Agrees(parse: Parsers, cs: Components, found: Found, st: Parsed, n: nat)
    requires Placed(cs, found)
  {
    FrontAgrees(parse, cs, found, st) && SystemAgrees(parse, cs, found, st, n) && EnvironmentAgrees(parse, cs, found, st, n)
  }

  // ----- What the attempts of a round leave behind -----

  /** Attempts that fail leave the architecture unknown; the one that is taken sets it. */
  lemma {:induction false} TriedArch(parse: Parsers, cs: Components, found: Found, st: Parsed, idx: nat)
    requires idx <= |cs| && st.arch == UnknownArch
    ensures var k := FirstFit(RulesOf(parse), cs, found, 0, idx);
            Tried(parse, cs, found, st, 0, idx) == st.(arch := if k < |cs| then parse.arch(cs[k]) else UnknownArch)
    decreases |cs| - idx
  {
    if idx < |cs| {
      TriedArch(parse, cs, found, st, idx + 1);
    }
  }

  lemma {:induction false} TriedVendor(parse: Parsers, cs: Components, found: Found, st: Parsed, idx: nat)
    requires idx <= |cs| && st.vendor == UnknownVendor
    ensures var k := FirstFit(RulesOf(parse), cs, found, 1, idx);
            Tried(parse, cs, found, st, 1, idx) == st.(vendor := if k < |cs| then parse.vendor(cs[k]) else UnknownVendor)
    decreases |cs| - idx
  {
    if idx < |cs| {
      TriedVendor(parse, cs, found, st, idx + 1);
    }
  }

  predicate AnyFree(cs: Components, found: Found, idx: nat) {
    exists j :: idx <= j < |cs| && !IsFixed(found, j)
  }

  predicate SystemIs(parse: Parsers, r: Parsed, c: string) {
    r.os == parse.os(c) && r.isMinGW32 == Starts(c, "mingw") && r.isCygwin == Starts(c, "cygwin")
  }

  /** No component is a system; the flags are cleared if there was one to try. */
  predicate SystemIsNone(st: Parsed, r: Parsed, tried: bool) {
    && r.os == UnknownOS
    && (r == st || (!r.isMinGW32 && !r.isCygwin))
    && (tried ==> !r.isMinGW32 && !r.isCygwin)
  }

  /** An attempt for the system sets the flags too. */
  lemma {:induction false} TriedSystem(parse: Parsers, cs: Components, found: Found, st: Parsed, idx: nat)
    requires idx <= |cs| && st.os == UnknownOS
    ensures var k := FirstFit(RulesOf(parse), cs, found, 2, idx);
            var r := Tried(parse, cs, found, st, 2, idx);
            && r == st.(os := r.os, isMinGW32 := r.isMinGW32, isCygwin := r.isCygwin)
            && if k < |cs| then SystemIs(parse, r, cs[k]) else SystemIsNone(st, r, AnyFree(cs, found, idx))
    decreases |cs| - idx
  {
    if idx < |cs| {
      assert AnyFree(cs, found, idx) <==> !IsFixed(found, idx) || AnyFree(cs, found, idx + 1);
      if IsFixed(found, idx) {
        TriedSystem(parse, cs, found, st, idx + 1);
      } else if !Accepts(parse, 2, cs[idx]) {
        TriedSystem(parse, cs, found, Try(parse, st, 2, cs[idx]), idx + 1);
      }
    }
  }

  predicate EnvironmentIs(parse: Parsers, r: Parsed, c: string) {
    r.environment == parse.environment(c) && (r.environment == UnknownEnvironment ==> r.format == parse.format(c))
  }

  predicate EnvironmentIsNone(st: Parsed, r: Parsed, tried: bool) {
    && r.environment == UnknownEnvironment
    && (r == st || r.format == UnknownObjectFormat)
    && (tried ==> r.format == UnknownObjectFormat)
  }

  /** An attempt that is no environment sets the object format. */
  lemma {:induction false} TriedEnvironment(parse: Parsers, cs: Components, found: Found, st: Parsed, idx: nat)
    requires idx <= |cs| && st.environment == UnknownEnvironment
    ensures var k := FirstFit(RulesOf(parse), cs, found, 3, idx);
            var r := Tried(parse, cs, found, st, 3, idx);
            && r == st.(environment := r.environment, format := r.format)
            && if k < |cs| then EnvironmentIs(parse, r, cs[k]) else EnvironmentIsNone(st, r, AnyFree(cs, found, idx))
    decreases |cs| - idx
  {
    if idx < |cs| {
      assert AnyFree(cs, found, idx) <==> !IsFixed(found, idx) || AnyFree(cs, found, idx + 1);
      if IsFixed(found, idx) {
        TriedEnvironment(parse, cs, found, st, idx + 1);
      } else if !Accepts(parse, 3, cs[idx]) {
        TriedEnvironment(parse, cs, found, Try(parse, st, 3, cs[idx]), idx + 1);
      }
    }
  }

  // ----- Over the rounds -----

  lemma StartAgrees(parse: Parsers, cs: Components)
    ensures Placed(cs, Settled(RulesOf(parse), cs))
    ensures Agrees(parse, cs, Settled(RulesOf(parse), cs), ParsedInPlace(parse, cs), 0)
  {
    FoundInPlace(parse, cs);
  }

  /** One round keeps what is fixed, and fixes `n` if something fits it. */
  ghost predicate RoundOf(parse: Parsers, cs: Components, found: Found, n: nat, cs': Components, found': Found)
    requires n < 4
  {
    && Placed(cs, found) && Placed(cs', found') && |cs'| >= |cs|
    && (forall p :: 0 <= p < 4 && found[p] ==> cs'[p] == cs[p])
    && found' == (if FirstFit(RulesOf(parse), cs, found, n, 0) < |cs| then found[n := true] else found)
    && (found' == found ==> cs' == cs)
    && (!found[n] && found'[n] ==> cs'[n] == cs[FirstFit(RulesOf(parse), cs, found, n, 0)])
  }

  lemma PlaceIsRound(parse: Parsers, cs: Components, found: Found, n: nat)
    requires Silent(parse) && n < 4 && Placed(cs, found) && !found[n]
    ensures var (cs', found') := Place(RulesOf(parse), cs, found, n); RoundOf(parse, cs, found, n, cs', found')
  {
    var idx := FirstFit(RulesOf(parse), cs, found, n, 0);
    RulesAreSound(parse);
    if idx < |cs| {
      MoveIsRound(RulesOf(parse), cs, found, n, idx);
    }
  }

  lemma MoveIsRound(rules: Rules, cs: Components, found: Found, n: nat, idx: nat)
    requires Sound(rules) && n < 4 && Placed(cs, found) && !found[n]
    requires idx < |cs| && !IsFixed(found, idx) && rules.accepts(n, cs[idx])
    ensures var cs' := Move(cs, found, n, idx);
            && |cs'| >= |cs| && n < |cs'| && Placed(cs', found[n := true]) && cs'[n] == cs[idx]
            && forall p :: 0 <= p < 4 && found[p] ==> cs'[p] == cs[p]
  {
    assert !rules.accepts(n, "");
    MoveArrives(cs, found, n, idx);
    forall p | 0 <= p < 4 && found[p] ensures Move(cs, found, n, idx)[p] == cs[p] {
      assert IsFixed(found, p);
    }
  }

  lemma FrontKept(parse: Parsers, cs: Components, found: Found, st: Parsed, n: nat, cs': Components, found': Found, st': Parsed)
    requires n < 4 && RoundOf(parse, cs, found, n, cs', found') && !found[n] && FrontAgrees(parse, cs, found, st)
    requires st' == Tried(parse, cs, found, st, n, 0)
    requires n >= 2 ==> st'.arch == st.arch && st'.vendor == st.vendor
    ensures FrontAgrees(parse, cs', found', st')
  {
    if n == 0 {
      TriedArch(parse, cs, found, st, 0);
    } else if n == 1 {
      TriedVendor(parse, cs, found, st, 0);
    }
  }

  lemma SystemKept(parse: Parsers, cs: Components, found: Found, st: Parsed, n: nat, cs': Components, found': Found, st': Parsed)
    requires n < 4 && RoundOf(parse, cs, found, n, cs', found') && !found[n] && SystemAgrees(parse, cs, found, st, n)
    requires st' == Tried(parse, cs, found, st, n, 0)
    requires n != 2 ==> st'.os == st.os && st'.isMinGW32 == st.isMinGW32 && st'.isCygwin == st.isCygwin
    ensures SystemAgrees(parse, cs', found', st', n + 1)
  {
    if n == 2 {
      TriedSystem(parse, cs, found, st, 0);
      if |cs| > 2 {
        assert !IsFixed(found, 2);
        assert AnyFree(cs, found, 0);
      }
    }
  }

  lemma EnvironmentKept(parse: Parsers, cs: Components, found: Found, st: Parsed, n: nat, cs': Components, found': Found, st': Parsed)
    requires n < 4 && RoundOf(parse, cs, found, n, cs', found') && !found[n] && EnvironmentAgrees(parse, cs, found, st, n)
    requires st' == Tried(parse, cs, found, st, n, 0)
    requires n != 3 ==> st'.environment == st.environment && st'.format == st.format
    ensures EnvironmentAgrees(parse, cs', found', st', n + 1)
  {
    if n == 3 {
      TriedEnvironment(parse, cs, found, st, 0);
      if |cs| > 4 {
        assert !IsFixed(found, 4);
        assert AnyFree(cs, found, 0);
      }
    }
  }

  /** Attempts for one position leave what belongs to the others alone. */
  lemma {:induction false} TriedFrame(parse: Parsers, cs: Components, found: Found, st: Parsed, n: nat, idx: nat)
    requires idx <= |cs|
    ensures var r := Tried(parse, cs, found, st, n, idx);
            && (n != 0 ==> r.arch == st.arch) && (n != 1 ==> r.vendor == st.vendor)
            && (n != 2 ==> r.os == st.os && r.isMinGW32 == st.isMinGW32 && r.isCygwin == st.isCygwin)
            && (n != 3 ==> r.environment == st.environment && r.format == st.format)
    decreases |cs| - idx
  {
    if idx < |cs| {
      if IsFixed(found, idx) {
        TriedFrame(parse, cs, found, st, n, idx + 1);
      } else if !Accepts(parse, n, cs[idx]) {
        TriedFrame(parse, cs, found, Try(parse, st, n, cs[idx]), n, idx + 1);
      }
    }
  }

  lemma RoundAgrees(parse: Parsers, cs: Components, found: Found, st: Parsed, n: nat)
    requires Silent(parse) && n < 4 && Placed(cs, found) && !found[n] && Agrees(parse, cs, found, st, n)
    ensures var (cs', found') := Place(RulesOf(parse), cs, found, n);
            Placed(cs', found') && Agrees(parse, cs', found', Tried(parse, cs, found, st, n, 0), n + 1)
  {
    var (cs', found') := Place(RulesOf(parse), cs, found, n);
    var st' := Tried(parse, cs, found, st, n, 0);
    PlaceIsRound(parse, cs, found, n);
    TriedFrame(parse, cs, found, st, n, 0);
    FrontKept(parse, cs, found, st, n, cs', found', st');
    SystemKept(parse, cs, found, st, n, cs', found', st');
    EnvironmentKept(parse, cs, found, st, n, cs', found', st');
  }

  /** A round passed over because its position is found changes nothing. */
  lemma FoundAgrees(parse: Parsers, cs: Components, found: Found, st: Parsed, n: nat)
    requires n < 4 && Placed(cs, found) && found[n] && Agrees(parse, cs, found, st, n)
    requires n == 3 ==> st.environment != UnknownEnvironment
    ensures Agrees(parse, cs, found, st, n + 1)
  {
  }

  /** The fourth position holds an environment if it is found at all. */
  predicate EnvironmentIfFound(parse: Parsers, cs: Components, found: Found) {
    found[3] ==> |cs| > 3 && parse.environment(cs[3]) != UnknownEnvironment
  }

  lemma EnvironmentRound(parse: Parsers, cs: Components, found: Found, n: nat)
    requires Silent(parse) && n < 3 && Placed(cs, found) && EnvironmentIfFound(parse, cs, found)
    ensures var (cs', found') := Place(RulesOf(parse), cs, found, n); EnvironmentIfFound(parse, cs', found')
  {
    if !found[n] {
      PlaceIsRound(parse, cs, found, n);
    }
  }

  /** Before its round, only an environment that settled is found at position 3. */
  lemma {:induction false} EnvironmentSettled(parse: Parsers, cs: Components, n: nat)
    requires Silent(parse) && n <= 3
    ensures EnvironmentIfFound(parse, Searching(parse, cs, n).0, Searching(parse, cs, n).1)
  {
    if n > 0 {
      EnvironmentSettled(parse, cs, n - 1);
      SearchingPlaced(parse, cs, n - 1);
      var (cs', found') := Searching(parse, cs, n - 1);
      EnvironmentRound(parse, cs', found', n - 1);
    }
  }

  lemma SearchAgreesStep(parse: Parsers, cs: Components, n: nat)
    requires Silent(parse) && n < 4
    requires var (cs', found') := Searching(parse, cs, n);
             Placed(cs', found') && Agrees(parse, cs', found', ParsedRounds(parse, cs, n), n)
    ensures var (cs', found') := Searching(parse, cs, n + 1);
            Placed(cs', found') && Agrees(parse, cs', found', ParsedRounds(parse, cs, n + 1), n + 1)
  {
    SearchingStep(parse, cs, n);
    var (cs', found') := Searching(parse, cs, n);
    var st := ParsedRounds(parse, cs, n);
    if found'[n] {
      EnvironmentSettled(parse, cs, n);
      FoundAgrees(parse, cs', found', st, n);
    } else {
      RoundAgrees(parse, cs', found', st, n);
    }
  }

  /** After every round, and so after all four: architecture, vendor, system,
      environment and flags are those of the components at their positions,
      unknown or unset where no component was found; the object format is too
      where the environment is unknown. */
  lemma {:induction false} SearchAgrees(parse: Parsers, cs: Components, n: nat)
    requires Silent(parse) && n <= 4
    ensures var (cs', found') := Searching(parse, cs, n);
            Placed(cs', found') && Agrees(parse, cs', found', ParsedRounds(parse, cs, n), n)
  {
    if n == 0 {
      StartAgrees(parse, cs);
    } else {
      SearchAgrees(parse, cs, n - 1);
      SearchAgreesStep(parse, cs, n - 1);
    }
  }

  /** A position that is found holds a component its parser takes; for one that
      is not, no component left over is taken. */
  lemma SearchFinds(parse: Parsers, cs: Components, p: nat)
    requires Silent(parse) && p < 4
    ensures var (cs', found') := Searching(parse, cs, 4);
            if found'[p] then p < |cs'| && Accepts(parse, p, cs'[p])
            else forall k {:trigger cs'[k]} :: 0 <= k < |cs'| && !IsFixed(found', k) ==> !Accepts(parse, p, cs'[k])
  {
    var rules := RulesOf(parse);
    var (cs', found') := Searching(parse, cs, 4);
    RulesAreSound(parse);
    RoundsSearched(rules, cs, 4);
    if found'[p] {
      assert rules.accepts(p, cs'[p]);
    } else {
      assert NoneFits(rules, cs', found', Settled(rules, cs), p);
      forall k | 0 <= k < |cs'| && !IsFixed(found', k) ensures !Accepts(parse, p, cs'[k]) {
        assert !rules.accepts(p, cs'[k]);
      }
    }
  }

  /** Where an environment was in place, the object format is that of the fifth
      component as given, wherever that component has moved since. */
  lemma {:induction false} FormatIsOriginal(parse: Parsers, cs: Components, n: nat)
    requires n <= 4 && |cs| > 3 && parse.environment(cs[3]) != UnknownEnvironment
    ensures Searching(parse, cs, n).1[3]
    ensures ParsedRounds(parse, cs, n).format == ParsedInPlace(parse, cs).format
  {
    if n == 0 {
      FoundInPlace(parse, cs);
    } else {
      FormatIsOriginal(parse, cs, n - 1);
      SearchingStep(parse, cs, n - 1);
      var (cs', found') := Searching(parse, cs, n - 1);
      TriedFrame(parse, cs', found', ParsedRounds(parse, cs, n - 1), n - 1, 0);
    }
  }

  predicate FreeBetween(found: Found, lo: nat, hi: nat) {
    exists j :: lo <= j < hi && !IsFixed(found, j)
  }

  /** Each attempt that is no environment sets the object format, so one that was
      there before is lost unless the first attempt is an environment. */
  lemma {:induction false} TriedFormat(parse: Parsers, cs: Components, found: Found, st: Parsed, idx: nat)
    requires idx <= |cs|
    ensures var k := FirstFit(RulesOf(parse), cs, found, 3, idx);
            Tried(parse, cs, found, st, 3, idx).format ==
            if k < |cs| && parse.environment(cs[k]) == UnknownEnvironment then parse.format(cs[k])
            else if FreeBetween(found, idx, k) then UnknownObjectFormat
            else st.format
    decreases |cs| - idx
  {
    if idx < |cs| {
      var k := FirstFit(RulesOf(parse), cs, found, 3, idx);
      if IsFixed(found, idx) {
        TriedFormat(parse, cs, found, st, idx + 1);
        assert FreeBetween(found, idx, k) <==> FreeBetween(found, idx + 1, k);
      } else if !Accepts(parse, 3, cs[idx]) {
        TriedFormat(parse, cs, found, Try(parse, st, 3, cs[idx]), idx + 1);
        assert FreeBetween(found, idx, k);
      }
    }
  }

  lemma {:induction false} FormatUntilLast(parse: Parsers, cs: Components, n: nat)
    requires n <= 3
    ensures ParsedRounds(parse, cs, n).format == if |cs| > 4 then parse.format(cs[4]) else UnknownObjectFormat
  {
    if n > 0 {
      FormatUntilLast(parse, cs, n - 1);
      SearchingStep(parse, cs, n - 1);
      var (cs', found') := Searching(parse, cs, n - 1);
      TriedFrame(parse, cs', found', ParsedRounds(parse, cs, n - 1), n - 1, 0);
    }
  }

  /** The object format that is found, in every case: of the fifth component as
      given, unless the last round tries components; then of the component found,
      if that is no environment, and unknown if any was tried before that. */
  lemma FormatIs(parse: Parsers, cs: Components)
    ensures var (r, found) := Searching(parse, cs, 3);
            var k := FirstFit(RulesOf(parse), r, found, 3, 0);
            ParsedRounds(parse, cs, 4).format ==
            if !found[3] && k < |r| && parse.environment(r[k]) == UnknownEnvironment then parse.format(r[k])
            else if !found[3] && FreeBetween(found, 0, k) then UnknownObjectFormat
            else if |cs| > 4 then parse.format(cs[4]) else UnknownObjectFormat
  {
    var (r, found) := Searching(parse, cs, 3);
    FormatUntilLast(parse, cs, 3);
    SearchingStep(parse, cs, 3);
    TriedFormat(parse, r, found, ParsedRounds(parse, cs, 3), 0);
  }
}
