/** `Triple::normalize`: the search with its parsers, in place, and the special cases after it. */
module TripleNormalize {
  import opened TripleParsing
  import opened TripleComponents
  import opened TripleSearch

  // ----- The rules of the search -----

  predicate Accepts(parse: Parsers, pos: nat, c: string) {
    match pos
    case 0 => parse.arch(c) != UnknownArch
    case 1 => parse.vendor(c) != UnknownVendor
    case 2 => parse.os(c) != UnknownOS || Starts(c, "cygwin") || Starts(c, "mingw")
    case 3 => parse.environment(c) != UnknownEnvironment || parse.format(c) != UnknownObjectFormat
    case _ => false
  }

  predicate Settles(parse: Parsers, pos: nat, c: string) {
    match pos
    case 0 => parse.arch(c) != UnknownArch
    case 1 => parse.vendor(c) != UnknownVendor
    case 2 => parse.os(c) != UnknownOS
    case 3 => parse.environment(c) != UnknownEnvironment
    case _ => false
  }

  function RulesOf(parse: Parsers): Rules {
    Rules((pos: nat, c: string) => Accepts(parse, pos, c), (pos: nat, c: string) => Settles(parse, pos, c))
  }

  lemma NothingAccepted(parse: Parsers, pos: nat, c: string)
    requires Silent(parse) && (c == "" || c == "unknown")
    ensures !Accepts(parse, pos, c)
  {
    assert SilentOn(parse, c);
    NoPrefix("cygwin", c);
    NoPrefix("mingw", c);
  }

  lemma SettlingIsAccepting(parse: Parsers, pos: nat, c: string)
    ensures Settles(parse, pos, c) ==> Accepts(parse, pos, c)
  {
  }

  /** Parsers that take nothing for something satisfy what the permutation needs. */
  lemma RulesAreSound(parse: Parsers)
    requires Silent(parse)
    ensures Sound(RulesOf(parse)) && UnknownFree(RulesOf(parse))
  {
    var rules := RulesOf(parse);
    forall p: nat ensures !rules.accepts(p, "") && !rules.accepts(p, "unknown") {
      NothingAccepted(parse, p, "");
      NothingAccepted(parse, p, "unknown");
    }
    forall p: nat, c | rules.settles(p, c) ensures rules.accepts(p, c) {
      SettlingIsAccepting(parse, p, c);
    }
  }

  // ----- Moving components in place -----

  /** Inserts the component at `idx` at `pos`, pushing the ones in between to
      the right; it stops at the emptied slot at the latest. */
  method InsertComponentLeft(cs0: Components, found: Found, pos: nat, idx: nat) returns (cs: Components)
    requires pos < idx < |cs0| && !IsFixed(found, pos) && !IsFixed(found, idx) && cs0[idx] != ""
    ensures cs == InsertLeft(cs0, found, pos, idx)
  {
    cs := cs0;
    var current := "";
    current, cs := cs[idx], cs[idx := current];
    ghost var target := Ripple(cs, found, pos, current);
    var i: nat := pos;
    while current != ""
      invariant current != "" ==> NextFree(found, i) <= idx < |cs| && cs[idx] == ""
      invariant current != "" ==> Ripple(cs, found, NextFree(found, i), current) == target
      invariant current == "" ==> cs == target
      decreases if current == "" then 0 else 1 + idx - NextFree(found, i)
    {
      ghost var free := NextFree(found, i);
      while IsFixed(found, i)
        invariant NextFree(found, i) == free
        decreases 4 - i
      {
        i := i + 1;
      }
      current, cs := cs[i], cs[i := current];
      if current != "" {
        NextNotPast(found, i, idx);
      }
      i := i + 1;
    }
  }

  /** Inserts one empty component at `idx`; a component pushed off the end is appended. */
  method InsertEmptyComponent(cs0: Components, found: Found, idx: nat) returns (cs: Components)
    requires idx < |cs0| && !IsFixed(found, idx)
    ensures cs == Ripple(cs0, found, idx, "")
  {
    cs := cs0;
    var current := "";
    var i: nat := idx;
    while i < |cs|
      invariant idx <= i && !IsFixed(found, i) && (i == idx || current != "")
      invariant Ripple(cs, found, i, current) == Ripple(cs0, found, idx, "")
      decreases |cs| - i
    {
      current, cs := cs[i], cs[i := current];
      if current == "" {
        return;
      }
      i := i + 1;
      ghost var free := NextFree(found, i);
      while IsFixed(found, i)
        invariant idx < i && NextFree(found, i) == free
        decreases 4 - i
      {
        i := i + 1;
      }
    }
    cs := cs + [current];
  }

  /** Inserts empty components at `idx0` until its component has reached `pos`, never past it. */
  method PushComponentRight(cs0: Components, found: Found, pos: nat, idx0: nat) returns (cs: Components)
    requires idx0 < |cs0| && idx0 < pos && !IsFixed(found, idx0) && !IsFixed(found, pos)
    requires Placed(cs0, found) && cs0[idx0] != ""
    ensures cs == PushRight(cs0, found, pos, idx0)
  {
    cs := cs0;
    var idx := idx0;
    while idx < pos
      invariant idx <= pos && Pushed(cs0, found, idx0, idx, cs)
      invariant PushRight(cs, found, pos, idx) == PushRight(cs0, found, pos, idx0)
      decreases pos - idx
    {
      PushedOnce(cs0, found, idx0, idx, cs);
      NextNotPast(found, idx, pos);
      ghost var before := idx;
      cs := InsertEmptyComponent(cs, found, idx);
      idx := idx + 1;
      while IsFixed(found, idx)
        invariant before < idx && NextFree(found, idx) == NextFree(found, before + 1)
        decreases 4 - idx
      {
        idx := idx + 1;
      }
    }
  }

  // ----- What is parsed on the way -----

  datatype Parsed = Parsed(arch: Arch, vendor: Vendor, os: OS, environment: Environment, format: ObjectFormat,
                           isMinGW32: bool, isCygwin: bool)

  /** The components parsed at their own positions, before anything moves. */
  function ParsedInPlace(parse: Parsers, cs: Components): Parsed {
    Parsed(if |cs| > 0 then parse.arch(cs[0]) else UnknownArch,
           if |cs| > 1 then parse.vendor(cs[1]) else UnknownVendor,
           if |cs| > 2 then parse.os(cs[2]) else UnknownOS,
           if |cs| > 3 then parse.environment(cs[3]) else UnknownEnvironment,
           if |cs| > 4 then parse.format(cs[4]) else UnknownObjectFormat,
           |cs| > 2 && Starts(cs[2], "mingw"),
           |cs| > 2 && Starts(cs[2], "cygwin"))
  }

  /** What parsing component `c` for position `pos` leaves behind, taken or not. */
  function Try(parse: Parsers, st: Parsed, pos: nat, c: string): Parsed {
    match pos
    case 0 => st.(arch := parse.arch(c))
    case 1 => st.(vendor := parse.vendor(c))
    case 2 => st.(os := parse.os(c), isCygwin := Starts(c, "cygwin"), isMinGW32 := Starts(c, "mingw"))
    case 3 =>
      if parse.environment(c) != UnknownEnvironment then st.(environment := parse.environment(c))
      else st.(environment := UnknownEnvironment, format := parse.format(c))
    case _ => st
  }

  /** All attempts for `pos` from `idx` on, up to the first that is taken. */
  function Tried(parse: Parsers, cs: Components, found: Found, st: Parsed, pos: nat, idx: nat): Parsed
    requires idx <= |cs|
    decreases |cs| - idx
  {
    if idx == |cs| then st
    else if IsFixed(found, idx) then Tried(parse, cs, found, st, pos, idx + 1)
    else if Accepts(parse, pos, cs[idx]) then Try(parse, st, pos, cs[idx])
    else Tried(parse, cs, found, Try(parse, st, pos, cs[idx]), pos, idx + 1)
  }

  /** The list and what is found after the first `n` rounds. */
  function Searching(parse: Parsers, cs: Components, n: nat): (Components, Found)
    requires n <= 4
  {
    Rounds(RulesOf(parse), cs, Settled(RulesOf(parse), cs), n)
  }

  /** What is parsed in the first `n` rounds. */
  function ParsedRounds(parse: Parsers, cs: Components, n: nat): Parsed
    requires n <= 4
  {
    if n == 0 then ParsedInPlace(parse, cs)
    else
      var st := ParsedRounds(parse, cs, n - 1);
      var (cs', found') := Searching(parse, cs, n - 1);
      if found'[n - 1] then st else Tried(parse, cs', found', st, n - 1, 0)
  }

  /** What is found before anything moves is what settles. */
  lemma FoundInPlace(parse: Parsers, cs: Components)
    ensures var st := ParsedInPlace(parse, cs);
            Settled(RulesOf(parse), cs) ==
            [st.arch != UnknownArch, st.vendor != UnknownVendor, st.os != UnknownOS, st.environment != UnknownEnvironment]
  {
  }

  lemma SearchingPlaced(parse: Parsers, cs: Components, n: nat)
    requires Silent(parse) && n <= 4
    ensures Placed(Searching(parse, cs, n).0, Searching(parse, cs, n).1)
  {
    RulesAreSound(parse);
    RoundsPlaced(RulesOf(parse), cs, n);
  }

  lemma SearchingStep(parse: Parsers, cs: Components, n: nat)
    requires n < 4
    ensures var (cs', found') := Searching(parse, cs, n);
            && Searching(parse, cs, n + 1) == Place(RulesOf(parse), cs', found', n)
            && ParsedRounds(parse, cs, n + 1) ==
               if found'[n] then ParsedRounds(parse, cs, n)
               else Tried(parse, cs', found', ParsedRounds(parse, cs, n), n, 0)
  {
  }

  // ----- The search in place -----

  /** One attempt: parses `c` for `pos` and says whether it is valid there. */
  method TryComponent(parse: Parsers, st0: Parsed, pos: nat, c: string) returns (st: Parsed, valid: bool)
    requires pos < 4
    ensures st == Try(parse, st0, pos, c) && valid == Accepts(parse, pos, c)
  {
    st := st0;
    match pos
    case 0 =>
      st := st.(arch := parse.arch(c));
      valid := st.arch != UnknownArch;
    case 1 =>
      st := st.(vendor := parse.vendor(c));
      valid := st.vendor != UnknownVendor;
    case 2 =>
      st := st.(os := parse.os(c), isCygwin := Starts(c, "cygwin"), isMinGW32 := Starts(c, "mingw"));
      valid := st.os != UnknownOS || st.isCygwin || st.isMinGW32;
    case 3 =>
      st := st.(environment := parse.environment(c));
      valid := st.environment != UnknownEnvironment;
      if !valid {
        st := st.(format := parse.format(c));
        valid := st.format != UnknownObjectFormat;
      }
  }

  /** An accepted component is not empty, and a move takes it where it should go. */
  lemma MovePlaces(parse: Parsers, cs: Components, found: Found, pos: nat, idx: nat)
    requires Silent(parse) && pos < 4 && Placed(cs, found) && !IsFixed(found, pos)
    requires idx < |cs| && !IsFixed(found, idx) && Accepts(parse, pos, cs[idx])
    ensures cs[idx] != "" && pos < |Move(cs, found, pos, idx)| && Move(cs, found, pos, idx)[pos] == cs[idx]
  {
    NothingAccepted(parse, pos, "");
    MoveArrives(cs, found, pos, idx);
  }

  /** Moves the component at `idx` to `pos`, left or right; the assertion of the source holds. */
  method MoveComponent(parse: Parsers, cs0: Components, found: Found, pos: nat, idx: nat) returns (cs: Components)
    requires Silent(parse) && pos < 4 && Placed(cs0, found) && !IsFixed(found, pos)
    requires idx < |cs0| && !IsFixed(found, idx) && Accepts(parse, pos, cs0[idx])
    ensures cs == Move(cs0, found, pos, idx)
  {
    cs := cs0;
    var comp := cs[idx];
    MovePlaces(parse, cs, found, pos, idx);
    if pos < idx {
      cs := InsertComponentLeft(cs, found, pos, idx);
    } else if pos > idx {
      cs := PushComponentRight(cs, found, pos, idx);
    }
    assert pos < |cs| && cs[pos] == comp;
  }

  /** What is left to do from `idx` on: where the component to move is, and what is parsed until then. */
  function Ahead(parse: Parsers, cs: Components, found: Found, st: Parsed, pos: nat, idx: nat): (nat, Parsed)
    requires idx <= |cs|
  {
    (FirstFit(RulesOf(parse), cs, found, pos, idx), Tried(parse, cs, found, st, pos, idx))
  }

  /** One attempt. */
  lemma AheadStep(parse: Parsers, cs: Components, found: Found, st: Parsed, pos: nat, idx: nat)
    requires idx < |cs|
    ensures Ahead(parse, cs, found, st, pos, idx) ==
            if IsFixed(found, idx) then Ahead(parse, cs, found, st, pos, idx + 1)
            else if Accepts(parse, pos, cs[idx]) then (idx, Try(parse, st, pos, cs[idx]))
            else Ahead(parse, cs, found, Try(parse, st, pos, cs[idx]), pos, idx + 1)
  {
  }

  function Fix(found: Found, pos: nat): (r: Found)
    requires pos < 4
    ensures r == found[pos := true]
  {
    found[pos := true]
  }

  lemma PlaceAhead(parse: Parsers, cs: Components, found: Found, pos: nat)
    requires pos < 4 && !found[pos]
    ensures Place(RulesOf(parse), cs, found, pos) ==
            var idx := FirstFit(RulesOf(parse), cs, found, pos, 0);
            if idx < |cs| then (Move(cs, found, pos, idx), Fix(found, pos)) else (cs, found)
  {
  }

  /** The attempts for one position, up to the first component that is taken. */
  method FindComponent(parse: Parsers, cs: Components, found: Found, st0: Parsed, pos: nat) returns (idx: nat, st: Parsed)
    requires pos < 4
    ensures idx == FirstFit(RulesOf(parse), cs, found, pos, 0)
    ensures st == Tried(parse, cs, found, st0, pos, 0)
    ensures idx < |cs| ==> !IsFixed(found, idx) && Accepts(parse, pos, cs[idx])
  {
    idx, st := 0, st0;
    while idx != |cs|
      invariant idx <= |cs|
      invariant Ahead(parse, cs, found, st0, pos, 0) == Ahead(parse, cs, found, st, pos, idx)
      decreases |cs| - idx
    {
      AheadStep(parse, cs, found, st, pos, idx);
      if IsFixed(found, idx) {
        idx := idx + 1;
        continue;
      }
      var valid;
      st, valid := TryComponent(parse, st, pos, cs[idx]);
      if valid {
        return;
      }
      idx := idx + 1;
    }
  }

  /** The loop over components for one position that is not settled. */
  method PlaceComponent(parse: Parsers, cs0: Components, found0: Found, st0: Parsed, pos: nat)
    returns (cs: Components, found: Found, st: Parsed)
    requires Silent(parse) && pos < 4 && !found0[pos] && Placed(cs0, found0)
    ensures (cs, found) == Place(RulesOf(parse), cs0, found0, pos)
    ensures st == Tried(parse, cs0, found0, st0, pos, 0)
  {
    cs, found := cs0, found0;
    var idx;
    idx, st := FindComponent(parse, cs, found, st0, pos);
    PlaceAhead(parse, cs, found, pos);
    if idx != |cs| {
      cs := MoveComponent(parse, cs, found, pos, idx);
      found := Fix(found, pos);
    }
  }

  /** Moves the components to their canonical positions. */
  method Permute(parse: Parsers, cs0: Components) returns (cs: Components, found: Found, st: Parsed)
    requires Silent(parse)
    ensures (cs, found) == Searching(parse, cs0, 4)
    ensures st == ParsedRounds(parse, cs0, 4)
  {
    cs, st := cs0, ParsedInPlace(parse, cs0);
    found := [st.arch != UnknownArch, st.vendor != UnknownVendor, st.os != UnknownOS,
              st.environment != UnknownEnvironment];
    FoundInPlace(parse, cs0);
    var pos: nat := 0;
    while pos != 4
      invariant pos <= 4
      invariant (cs, found) == Searching(parse, cs0, pos)
      invariant st == ParsedRounds(parse, cs0, pos)
      decreases 4 - pos
    {
      SearchingPlaced(parse, cs0, pos);
      SearchingStep(parse, cs0, pos);
      if !found[pos] {
        cs, found, st := PlaceComponent(parse, cs, found, st, pos);
      }
      pos := pos + 1;
    }
  }
}
