/** Expanding a run of selects keeps the function well formed. */
module ExpansionWellFormed {
  import opened Wrappers
  import opened Conditions
  import opened MachineIR
  import opened LocalSsa
  import opened SelectExpansion
  import opened WellFormedness
  import opened ExpansionPreserves
  import opened SelectRuns

  // ----- One block: definitions and uses stay in order -----

  ghost predicate Ordered(code: Code) {
    UsesPrecedeDefs(code) && DistinctDefs(code)
  }

  /** `y` defines what `z` defines, and reads where it stands nothing that `z` does not. */
  predicate StandsFor(y: Instr, z: Instr) {
    Defs(y) == Defs(z) && Uses(y) <= Uses(z)
  }

  predicate Inert(y: Instr) {
    Defs(y) == {} && Uses(y) == {}
  }

  predicate FromBefore(y: Instr, code: Code, k: nat)
    requires k <= |code|
  {
    Inert(y) || exists j :: 0 <= j < k && StandsFor(y, code[j])
  }

  /** Code built so far out of the first `k` instructions of an ordered block. */
  ghost predicate BuiltFrom(a: Code, code: Code, k: nat) {
    k <= |code| && Ordered(a) && forall y {:trigger FromBefore(y, code, k)} :: y in a ==> FromBefore(y, code, k)
  }

  lemma BuiltFromMore(a: Code, code: Code, k: nat, k': nat)
    requires BuiltFrom(a, code, k) && k <= k' <= |code|
    ensures BuiltFrom(a, code, k')
  {
    forall y | y in a ensures FromBefore(y, code, k') {
      assert FromBefore(y, code, k);
    }
  }

  lemma BuiltSnoc(a: Code, x: Instr, code: Code, k: nat)
    requires BuiltFrom(a, code, k) && k < |code| && Ordered(code) && (StandsFor(x, code[k]) || Inert(x))
    ensures BuiltFrom(a + [x], code, k + 1)
  {
    forall y | y in a + [x] ensures FromBefore(y, code, k + 1) {
      if y in a {
        assert FromBefore(y, code, k);
      }
    }
    forall y | y in a + [x] ensures DoesNotRead(y, x) {
      OrderedPair(y, x, code, k);
    }
    forall y | y in a ensures DefineApart(y, x) {
      assert FromBefore(y, code, k);
      if j :| 0 <= j < k && StandsFor(y, code[j]) {
        assert DefineApart(code[j], code[k]);
      }
    }
    OrderedSnoc(a, x);
  }

  lemma OrderedPair(y: Instr, x: Instr, code: Code, k: nat)
    requires k < |code| && Ordered(code) && (StandsFor(x, code[k]) || Inert(x)) && FromBefore(y, code, k + 1)
    ensures DoesNotRead(y, x)
  {
    if j :| 0 <= j < k + 1 && StandsFor(y, code[j]) {
      assert DoesNotRead(code[j], code[k]);
    }
  }

  lemma OrderedSnoc(a: Code, x: Instr)
    requires Ordered(a)
    requires forall y :: y in a + [x] ==> DoesNotRead(y, x)
    requires forall y :: y in a ==> DefineApart(y, x)
    ensures Ordered(a + [x])
  {
    var c := a + [x];
    forall j, k | 0 <= j <= k < |c| ensures DoesNotRead(c[j], c[k]) {
      if k < |a| {
        assert DoesNotRead(a[j], a[k]);
      } else {
        assert c[j] in c;
      }
    }
    forall j, k | 0 <= j < k < |c| ensures DefineApart(c[j], c[k]) {
      if k < |a| {
        assert DefineApart(a[j], a[k]);
      } else {
        assert c[j] == a[j] && a[j] in a;
      }
    }
  }

  lemma {:induction false} PrefixBuilt(code: Code, k: nat)
    requires Ordered(code) && k <= |code|
    ensures BuiltFrom(code[..k], code, k)
  {
    if k > 0 {
      PrefixBuilt(code, k - 1);
      assert code[..k] == code[..k - 1] + [code[k - 1]];
      BuiltSnoc(code[..k - 1], code[k - 1], code, k - 1);
    } else {
      assert code[..0] == [];
    }
  }

  lemma {:induction false} KeptBuilt(code: Code, at: nat, k: nat, gone: set<nat>)
    requires Ordered(code) && at <= k <= |code|
    ensures BuiltFrom(code[..at] + Kept(code, at, k, gone), code, k)
  {
    if k == at {
      PrefixBuilt(code, at);
      assert code[..at] + [] == code[..at];
    } else {
      KeptBuilt(code, at, k - 1, gone);
      var a := code[..at] + Kept(code, at, k - 1, gone);
      if code[k - 1].Select? || k - 1 in gone {
        BuiltFromMore(a, code, k - 1, k);
      } else {
        BuiltSnoc(a, code[k - 1], code, k - 1);
        assert code[..at] + Kept(code, at, k, gone) == a + [code[k - 1]];
      }
    }
  }

  lemma HeadOrdered(code: Code, at: nat, tail: BlockId)
    requires Ordered(code) && IsSelectAt(code, at)
    ensures Ordered(HeadCode(code, at, tail))
  {
    var a := code[..at] + KeptRun(code, at);
    var br := CondBr(GetBrCond(code[at].cc), code[at].lhs, code[at].rhs, tail);
    KeptBuilt(code, at, LastSelect(code, at) + 1, Positions(Moved(code, at)));
    OrderedSnoc(a, br);
  }

  lemma {:induction false} PhisBuilt(code: Code, at: nat, k: nat, head: BlockId, ifFalse: BlockId)
    requires Ordered(code) && at <= k <= |code|
    ensures BuiltFrom(PhisOf(code, at, k, head, ifFalse), code, k)
  {
    if k > at {
      PhisBuilt(code, at, k - 1, head, ifFalse);
      var phis := PhisOf(code, at, k - 1, head, ifFalse);
      if code[k - 1].Select? {
        BuiltSnoc(phis, PhiFor(code[k - 1], head, ifFalse), code, k - 1);
      } else {
        BuiltFromMore(phis, code, k - 1, k);
      }
    }
  }

  lemma {:induction false} InertBuilt(a: Code, debug: Code, code: Code, k: nat)
    requires BuiltFrom(a, code, k) && forall j :: 0 <= j < |debug| ==> debug[j].Debug?
    ensures BuiltFrom(a + debug, code, k)
    decreases |debug|
  {
    if debug == [] {
      assert a + debug == a;
    } else {
      var x := debug[0];
      OrderedSnoc(a, x);
      forall y | y in a + [x] ensures FromBefore(y, code, k) {
      }
      InertBuilt(a + [x], debug[1..], code, k);
      assert a + debug == (a + [x]) + debug[1..];
    }
  }

  lemma {:induction false} RestBuilt(a: Code, code: Code, lo: nat, k: nat, gone: set<nat>)
    requires Ordered(code) && lo <= k <= |code| && BuiltFrom(a, code, lo)
    ensures BuiltFrom(a + Without(code, lo, k, gone), code, k)
  {
    if k == lo {
      assert a + [] == a;
    } else {
      RestBuilt(a, code, lo, k - 1, gone);
      var b := a + Without(code, lo, k - 1, gone);
      if k - 1 in gone {
        BuiltFromMore(b, code, k - 1, k);
        assert a + Without(code, lo, k, gone) == b;
      } else {
        BuiltSnoc(b, code[k - 1], code, k - 1);
        assert a + Without(code, lo, k, gone) == b + [code[k - 1]];
      }
    }
  }

  /** PHIs and moved debug values: what the tail has in front of the rest of the block. */
  function TailFront(code: Code, at: nat, head: BlockId, ifFalse: BlockId): Code
    requires IsSelectAt(code, at)
  {
    PhisOf(code, at, LastSelect(code, at) + 1, head, ifFalse) + Pick(code, Moved(code, at))
  }

  function TailBack(code: Code, at: nat): Code
    requires IsSelectAt(code, at)
  {
    Without(code, LastSelect(code, at) + 1, |code|, Positions(Moved(code, at)))
  }

  lemma TailPieces(code: Code, at: nat, head: BlockId, ifFalse: BlockId)
    requires IsSelectAt(code, at)
    ensures TailCode(code, at, head, ifFalse) == TailFront(code, at, head, ifFalse) + TailBack(code, at)
  {
  }

  lemma PickedAreDebug(code: Code, at: nat)
    requires IsSelectAt(code, at)
    ensures forall j :: 0 <= j < |Moved(code, at)| ==> Pick(code, Moved(code, at))[j].Debug?
  {
    var moved := Moved(code, at);
    assert forall j :: 0 <= j < |moved| ==> moved[j] in moved;
  }

  lemma FrontBuilt(code: Code, at: nat, head: BlockId, ifFalse: BlockId)
    requires Ordered(code) && IsSelectAt(code, at)
    ensures BuiltFrom(TailFront(code, at, head, ifFalse), code, LastSelect(code, at) + 1)
  {
    var last := LastSelect(code, at);
    PickedAreDebug(code, at);
    PhisBuilt(code, at, last + 1, head, ifFalse);
    InertBuilt(PhisOf(code, at, last + 1, head, ifFalse), Pick(code, Moved(code, at)), code, last + 1);
  }

  lemma TailOrdered(code: Code, at: nat, head: BlockId, ifFalse: BlockId)
    requires Ordered(code) && IsSelectAt(code, at)
    ensures Ordered(TailCode(code, at, head, ifFalse))
  {
    FrontBuilt(code, at, head, ifFalse);
    RestBuilt(TailFront(code, at, head, ifFalse), code, LastSelect(code, at) + 1, |code|, Positions(Moved(code, at)));
    TailPieces(code, at, head, ifFalse);
  }

  // ----- One block: terminators stay last -----

  lemma HeadTerminators(code: Code, at: nat, tail: BlockId)
    requires LocalOk(code) && IsSelectAt(code, at)
    ensures TerminatorsLast(HeadCode(code, at, tail))
  {
    StraightToSelect(code, at);
    HeadStraight(code, at, tail);
    OneTerminator(HeadCode(code, at, tail));
  }

  lemma OneTerminator(code: Code)
    requires code != [] && StraightUpTo(code, |code| - 1)
    ensures TerminatorsLast(code)
  {
  }

  lemma HeadStraight(code: Code, at: nat, tail: BlockId)
    requires IsSelectAt(code, at) && StraightUpTo(code, LastSelect(code, at) + 1)
    ensures HeadCode(code, at, tail) != [] && StraightUpTo(HeadCode(code, at, tail), |HeadCode(code, at, tail)| - 1)
  {
    var head := HeadCode(code, at, tail);
    GatheredStraight(code, at);
    forall k | 0 <= k < |head| - 1 ensures !IsTerminator(head[k]) {
      if k >= at {
        assert head[k] == KeptRun(code, at)[k - at];
      }
    }
  }

  predicate TerminatorsSoFar(a: Code, code: Code, k: nat)
    requires k <= |code|
  {
    && TerminatorsLast(a)
    && forall y :: y in a && IsTerminator(y) ==> exists j :: 0 <= j < k && code[j] == y
  }

  lemma {:induction false} RestTerminators(a: Code, code: Code, lo: nat, k: nat, gone: set<nat>)
    requires TerminatorsLast(code) && lo <= k <= |code| && TerminatorsSoFar(a, code, lo)
    ensures TerminatorsSoFar(a + Without(code, lo, k, gone), code, k)
  {
    if k == lo {
      assert a + [] == a;
    } else {
      RestTerminators(a, code, lo, k - 1, gone);
      var b, x := a + Without(code, lo, k - 1, gone), code[k - 1];
      if k - 1 in gone {
        assert a + Without(code, lo, k, gone) == b;
      } else {
        assert a + Without(code, lo, k, gone) == b + [x];
        forall i | 0 <= i < |b| && IsTerminator(b[i]) ensures IsTerminator(x) {
          assert b[i] in b;
        }
      }
    }
  }

  lemma TailFrontStraight(code: Code, at: nat, head: BlockId, ifFalse: BlockId)
    requires IsSelectAt(code, at)
    ensures StraightUpTo(TailFront(code, at, head, ifFalse), |TailFront(code, at, head, ifFalse)|)
  {
    var phis := PhisOf(code, at, LastSelect(code, at) + 1, head, ifFalse);
    PickedAreDebug(code, at);
    assert forall j :: 0 <= j < |phis| ==> phis[j] in phis;
  }

  lemma TailTerminators(code: Code, at: nat, head: BlockId, ifFalse: BlockId)
    requires TerminatorsLast(code) && IsSelectAt(code, at)
    ensures TerminatorsLast(TailCode(code, at, head, ifFalse))
  {
    var front, last := TailFront(code, at, head, ifFalse), LastSelect(code, at);
    TailFrontStraight(code, at, head, ifFalse);
    StraightSoFar(front, code, last + 1);
    RestTerminators(front, code, last + 1, |code|, Positions(Moved(code, at)));
    TailPieces(code, at, head, ifFalse);
  }

  lemma StraightSoFar(a: Code, code: Code, k: nat)
    requires StraightUpTo(a, |a|) && k <= |code|
    ensures TerminatorsSoFar(a, code, k)
  {
  }

  // ----- One block: all local conditions -----

  lemma RenamedLocal(code: Code, renamed: bool, from: BlockId, to: BlockId)
    requires Ordered(code) && TerminatorsLast(code)
    ensures var code' := MaybeRenamed(code, renamed, from, to); Ordered(code') && TerminatorsLast(code')
  {
    var code' := MaybeRenamed(code, renamed, from, to);
    forall j, k | 0 <= j <= k < |code| ensures DoesNotRead(code'[j], code'[k]) {
      assert DoesNotRead(code[j], code[k]);
    }
    forall j, k | 0 <= j < k < |code| ensures DefineApart(code'[j], code'[k]) {
      assert DefineApart(code[j], code[k]);
    }
  }

  lemma RenamedPhisFirst(phis: Code, rest: Code, renamed: bool, from: BlockId, to: BlockId)
    requires (forall x :: x in phis ==> x.Phi?) && (forall x :: x in rest ==> !x.Phi?)
    ensures PhisFirst(MaybeRenamed(phis + rest, renamed, from, to))
  {
    var phis', rest' := MaybeRenamed(phis, renamed, from, to), MaybeRenamed(rest, renamed, from, to);
    assert MaybeRenamed(phis + rest, renamed, from, to) == phis' + rest';
    forall k | 0 <= k < |phis'| ensures phis'[k].Phi? {
      assert phis[k] in phis;
    }
    forall k | 0 <= k < |rest'| ensures !rest'[k].Phi? {
      assert rest[k] in rest;
    }
    PhiCountOf(phis', rest');
  }

  lemma OtherLocal(code: Code, renamed: bool, from: BlockId, to: BlockId)
    requires LocalOk(code)
    ensures LocalOk(MaybeRenamed(code, renamed, from, to))
  {
    RenamedLocal(code, renamed, from, to);
    var n := PhiCount(code);
    assert code == code[..n] + code[n..];
    RenamedPhisFirst(code[..n], code[n..], renamed, from, to);
  }

  lemma HeadLocal(code: Code, at: nat, renamed: bool, from: BlockId, tail: BlockId)
    requires LocalOk(code) && IsSelectAt(code, at)
    ensures LocalOk(MaybeRenamed(HeadCode(code, at, tail), renamed, from, tail))
  {
    var n := PhiCount(code);
    HeadOrdered(code, at, tail);
    HeadTerminators(code, at, tail);
    RenamedLocal(HeadCode(code, at, tail), renamed, from, tail);
    HeadNoPhi(code, at, tail);
    HeadFrom(code, n, at, tail);
    assert HeadCode(code, at, tail) == code[..n] + HeadCode(code, at, tail)[n..];
    RenamedPhisFirst(code[..n], HeadCode(code, at, tail)[n..], renamed, from, tail);
  }

  lemma TailLocal(code: Code, at: nat, head: BlockId, ifFalse: BlockId)
    requires LocalOk(code) && IsSelectAt(code, at)
    ensures LocalOk(TailCode(code, at, head, ifFalse))
  {
    TailOrdered(code, at, head, ifFalse);
    TailTerminators(code, at, head, ifFalse);
    TailRestNoPhi(code, at);
    RenamedPhisFirst(PhisOf(code, at, LastSelect(code, at) + 1, head, ifFalse), TailRest(code, at), false, head, ifFalse);
  }

  // ----- Control flow -----

  lemma RenamedTargets(code: Code, renamed: bool, from: BlockId, to: BlockId)
    ensures BranchTargets(MaybeRenamed(code, renamed, from, to)) == BranchTargets(code)
    ensures FallsThrough(MaybeRenamed(code, renamed, from, to)) <==> FallsThrough(code)
  {
    var code' := MaybeRenamed(code, renamed, from, to);
    forall x | x in code && IsTerminator(x) ensures x in code' {
      var k :| 0 <= k < |code| && code[k] == x;
      assert code'[k] == x;
    }
    forall x | x in code' && IsTerminator(x) ensures x in code {
      var k :| 0 <= k < |code'| && code'[k] == x;
      assert code[k] == x;
    }
  }

  lemma HeadTargets(code: Code, at: nat, tail: BlockId)
    requires LocalOk(code) && IsSelectAt(code, at)
    ensures BranchTargets(HeadCode(code, at, tail)) == {tail} && FallsThrough(HeadCode(code, at, tail))
  {
    var head := HeadCode(code, at, tail);
    StraightToSelect(code, at);
    HeadStraight(code, at, tail);
    assert head[|head| - 1].CondBr? && head[|head| - 1].target == tail;
  }

  lemma TailTargets(code: Code, at: nat, head: BlockId, ifFalse: BlockId)
    requires LocalOk(code) && IsSelectAt(code, at)
    ensures BranchTargets(TailCode(code, at, head, ifFalse)) == BranchTargets(code)
    ensures FallsThrough(TailCode(code, at, head, ifFalse)) <==> FallsThrough(code)
  {
    StraightToSelect(code, at);
    forall x | IsTerminator(x) ensures x in TailCode(code, at, head, ifFalse) <==> x in code {
      TailTerminator(code, at, head, ifFalse, x);
    }
  }

  lemma TailTerminator(code: Code, at: nat, head: BlockId, ifFalse: BlockId, x: Instr)
    requires IsSelectAt(code, at) && StraightUpTo(code, LastSelect(code, at) + 1) && IsTerminator(x)
    ensures x in TailCode(code, at, head, ifFalse) <==> x in code
  {
    var last, gone := LastSelect(code, at), Positions(Moved(code, at));
    OnlyRestTerminates(code, at, head, ifFalse, x);
    GoneAreDebug(code, at);
    RestHasTerminators(code, last + 1, gone, x);
  }

  lemma RestHasTerminators(code: Code, lo: nat, gone: set<nat>, x: Instr)
    requires lo <= |code| && StraightUpTo(code, lo) && IsTerminator(x)
    requires forall d :: d in gone ==> d < |code| && code[d].Debug?
    ensures x in Without(code, lo, |code|, gone) <==> x in code
  {
    if x in Without(code, lo, |code|, gone) {
      WithoutOrigin(code, lo, |code|, gone, x);
    }
    if x in code {
      var j :| 0 <= j < |code| && code[j] == x;
      WithoutHas(code, lo, |code|, gone, j);
    }
  }

  lemma OnlyRestTerminates(code: Code, at: nat, head: BlockId, ifFalse: BlockId, x: Instr)
    requires IsSelectAt(code, at) && IsTerminator(x)
    ensures x in TailCode(code, at, head, ifFalse) <==>
            x in Without(code, LastSelect(code, at) + 1, |code|, Positions(Moved(code, at)))
  {
    TailPieces(code, at, head, ifFalse);
    TailFrontStraight(code, at, head, ifFalse);
    NotInStraight(TailFront(code, at, head, ifFalse), x);
  }

  lemma NotInStraight(a: Code, x: Instr)
    requires StraightUpTo(a, |a|) && IsTerminator(x)
    ensures x !in a
  {
  }

  lemma {:induction false} WithoutHas(code: Code, lo: nat, hi: nat, gone: set<nat>, j: nat)
    requires lo <= j < hi <= |code| && j !in gone
    ensures code[j] in Without(code, lo, hi, gone)
  {
    if j < hi - 1 {
      WithoutHas(code, lo, hi - 1, gone, j);
    }
  }

  // ----- The whole function -----

  /** The expanded function, block by block. */
  ghost predicate ExpansionOf(f: Function, b: BlockId, at: nat, g: Function)
    requires CanExpand(f, b, at)
  {
    && Expansion(f, b, at, g)
    && g.succs.Keys == g.code.Keys
    && forall x {:trigger g.succs[x]} :: x in g.succs ==> g.succs[x] == ExpandedSuccs(f, b, at, x)
  }

  lemma ExpandIsExpansionOf(f: Function, b: BlockId, at: nat)
    requires CanExpand(f, b, at)
    ensures ExpansionOf(f, b, at, Expand(f, b, at))
  {
  }

  lemma {:induction false} InsertedContents(layout: seq<BlockId>, b: BlockId, xs: seq<BlockId>)
    requires b in layout
    ensures forall x :: x in InsertAfter(layout, b, xs) <==> x in layout || x in xs
  {
    assert layout == [layout[0]] + layout[1..];
    if layout[0] != b {
      InsertedContents(layout[1..], b, xs);
    }
  }

  lemma {:induction false} InsertedNoRepeats(layout: seq<BlockId>, b: BlockId, xs: seq<BlockId>)
    requires NoRepeats(layout) && b in layout && NoRepeats(xs) && forall x :: x in xs ==> x !in layout
    ensures NoRepeats(InsertAfter(layout, b, xs))
  {
    assert layout == [layout[0]] + layout[1..];
    if layout[0] == b {
      NoRepeatsAppend([b], xs);
      NoRepeatsAppend([b] + xs, layout[1..]);
    } else {
      InsertedNoRepeats(layout[1..], b, xs);
      InsertedContents(layout[1..], b, xs);
      var rest := InsertAfter(layout[1..], b, xs);
      NoRepeatsAppend([layout[0]], rest);
    }
  }

  lemma NoRepeatsAppend(a: seq<BlockId>, c: seq<BlockId>)
    requires NoRepeats(a) && NoRepeats(c) && forall x :: x in a ==> x !in c
    ensures NoRepeats(a + c)
  {
    forall j, k | 0 <= j < k < |a + c| ensures (a + c)[j] != (a + c)[k] {
      if j < |a| <= k {
        assert a[j] in a && c[k - |a|] in c;
      }
    }
  }

  lemma AllocatedKept(f: Function, b: BlockId, at: nat, g: Function)
    requires CanExpand(f, b, at) && ExpansionOf(f, b, at, g) && g.nextId == f.nextId + 2
    ensures Allocated(g)
  {
    LayoutAllocated(f, b, g);
    forall x | x in g.code ensures x < g.nextId && g.succs[x] <= g.code.Keys {
      BlockIsExpanded(f, b, at, g, x);
      SuccsAllocated(f, b, at, x);
    }
  }

  lemma LayoutAllocated(f: Function, b: BlockId, g: Function)
    requires Allocated(f) && b in f.layout && g.layout == InsertAfter(f.layout, b, [f.nextId + 1, f.nextId])
    requires g.code.Keys == f.code.Keys + {f.nextId, f.nextId + 1}
    ensures forall x :: x in g.layout ==> x in g.code
  {
    InsertedContents(f.layout, b, [f.nextId + 1, f.nextId]);
  }

  lemma SuccsAllocated(f: Function, b: BlockId, at: nat, x: BlockId)
    requires CanExpand(f, b, at) && (x in f.code || x == f.nextId || x == f.nextId + 1)
    ensures x < f.nextId + 2 && ExpandedSuccs(f, b, at, x) <= f.code.Keys + {f.nextId, f.nextId + 1}
  {
  }

  lemma TailLocalAs(c: Code, code: Code, at: nat, head: BlockId, ifFalse: BlockId)
    requires LocalOk(code) && IsSelectAt(code, at) && c == TailCode(code, at, head, ifFalse)
    ensures LocalOk(c)
  {
    TailLocal(code, at, head, ifFalse);
  }

  lemma HeadLocalAs(c: Code, code: Code, at: nat, renamed: bool, from: BlockId, tail: BlockId)
    requires LocalOk(code) && IsSelectAt(code, at) && c == MaybeRenamed(HeadCode(code, at, tail), renamed, from, tail)
    ensures LocalOk(c)
  {
    HeadLocal(code, at, renamed, from, tail);
  }

  lemma OtherLocalAs(c: Code, code: Code, renamed: bool, from: BlockId, to: BlockId)
    requires LocalOk(code) && c == MaybeRenamed(code, renamed, from, to)
    ensures LocalOk(c)
  {
    OtherLocal(code, renamed, from, to);
  }

  lemma ExpandedTailLocal(f: Function, b: BlockId, at: nat)
    requires CanExpand(f, b, at) && LocalOk(f.code[b])
    ensures LocalOk(ExpandedCode(f, b, at, f.nextId))
  {
    TailLocalAs(ExpandedCode(f, b, at, f.nextId), f.code[b], at, b, f.nextId + 1);
  }

  lemma ExpandedHeadLocal(f: Function, b: BlockId, at: nat)
    requires CanExpand(f, b, at) && LocalOk(f.code[b])
    ensures LocalOk(ExpandedCode(f, b, at, b))
  {
    assert b < f.nextId;
    HeadLocalAs(ExpandedCode(f, b, at, b), f.code[b], at, b in f.succs[b], b, f.nextId);
  }

  lemma ExpandedOtherLocal(f: Function, b: BlockId, at: nat, x: BlockId)
    requires CanExpand(f, b, at) && x in f.code && x != b && LocalOk(f.code[x])
    ensures LocalOk(ExpandedCode(f, b, at, x))
  {
    assert x < f.nextId;
    OtherLocalAs(ExpandedCode(f, b, at, x), f.code[x], x in f.succs[b], b, f.nextId);
  }

  lemma ExpandedEmptyLocal(f: Function, b: BlockId, at: nat)
    requires CanExpand(f, b, at)
    ensures LocalOk(ExpandedCode(f, b, at, f.nextId + 1))
  {
    assert ExpandedCode(f, b, at, f.nextId + 1) == [];
  }

  lemma ExpandedTargets(f: Function, b: BlockId, at: nat, x: BlockId)
    requires CanExpand(f, b, at) && (x in f.code || x == f.nextId || x == f.nextId + 1) && LocalOk(f.code[b])
    ensures var code := ExpandedCode(f, b, at, x);
            if x == f.nextId then
              BranchTargets(code) == BranchTargets(f.code[b]) && (FallsThrough(code) <==> FallsThrough(f.code[b]))
            else if x == b then BranchTargets(code) == {f.nextId} && FallsThrough(code)
            else if x == f.nextId + 1 then BranchTargets(code) == {} && FallsThrough(code)
            else BranchTargets(code) == BranchTargets(f.code[x]) && (FallsThrough(code) <==> FallsThrough(f.code[x]))
  {
    assert x in f.code ==> x < f.nextId;
    if x == f.nextId {
      TailTargets(f.code[b], at, b, f.nextId + 1);
    } else if x == b {
      HeadTargets(f.code[b], at, f.nextId);
      RenamedTargets(HeadCode(f.code[b], at, f.nextId), b in f.succs[b], b, f.nextId);
    } else if x in f.code {
      RenamedTargets(f.code[x], x in f.succs[b], b, f.nextId);
    }
  }

  /** What is known of the old function about the blocks `b` and `x`. */
  ghost predicate OldFacts(f: Function, b: BlockId, at: nat, x: BlockId) {
    && CanExpand(f, b, at) && NoRepeats(f.layout) && LocalOk(f.code[b]) && EdgesOk(f, b)
    && (x in f.code ==> EdgesOk(f, x) && x in f.layout && x < f.nextId)
  }

  /** Block `x` of `g` is what expansion makes of it. */
  ghost predicate ExpandedAt(f: Function, b: BlockId, at: nat, g: Function, x: BlockId)
    requires CanExpand(f, b, at)
  {
    && (x in f.code || x == f.nextId || x == f.nextId + 1)
    && g.layout == InsertAfter(f.layout, b, [f.nextId + 1, f.nextId])
    && x in g.code && x in g.succs
    && g.code[x] == ExpandedCode(f, b, at, x) && g.succs[x] == ExpandedSuccs(f, b, at, x)
  }

  lemma EdgesKept(f: Function, b: BlockId, at: nat, g: Function, x: BlockId)
    requires OldFacts(f, b, at, x) && ExpandedAt(f, b, at, g, x)
    ensures EdgesOk(g, x)
  {
    ExpandedTargets(f, b, at, x);
    ExpandedNext(f, b, g, x);
    EdgesFollow(f, b, at, g, x);
  }

  lemma OldBlockFacts(f: Function, b: BlockId, at: nat, x: BlockId)
    requires Expandable(f, b, at)
    ensures OldFacts(f, b, at, x)
  {
  }

  lemma BlockExpandedAt(f: Function, b: BlockId, at: nat, g: Function, x: BlockId)
    requires CanExpand(f, b, at) && ExpansionOf(f, b, at, g) && x in g.code
    ensures ExpandedAt(f, b, at, g, x)
  {
  }

  lemma ExpandedNext(f: Function, b: BlockId, g: Function, x: BlockId)
    requires Allocated(f) && NoRepeats(f.layout) && b in f.layout
    requires g.layout == InsertAfter(f.layout, b, [f.nextId + 1, f.nextId])
    ensures x in f.layout && x != b ==> NextInLayout(g.layout, x) == NextInLayout(f.layout, x)
    ensures NextInLayout(g.layout, b) == Some(f.nextId + 1)
    ensures NextInLayout(g.layout, f.nextId + 1) == Some(f.nextId)
    ensures NextInLayout(g.layout, f.nextId) == NextInLayout(f.layout, b)
  {
    NextInserted(f.layout, b, f.nextId + 1, f.nextId, x);
  }

  lemma EdgesFollow(f: Function, b: BlockId, at: nat, g: Function, x: BlockId)
    requires CanExpand(f, b, at) && (x in f.code || x == f.nextId || x == f.nextId + 1)
    requires x in g.code && x in g.succs && g.succs[x] == ExpandedSuccs(f, b, at, x)
    requires EdgesOk(f, b) && (x in f.code ==> EdgesOk(f, x))
    requires x in f.layout && x != b ==> NextInLayout(g.layout, x) == NextInLayout(f.layout, x)
    requires NextInLayout(g.layout, b) == Some(f.nextId + 1)
    requires NextInLayout(g.layout, f.nextId + 1) == Some(f.nextId)
    requires NextInLayout(g.layout, f.nextId) == NextInLayout(f.layout, b)
    requires x in f.code ==> x in f.layout && x < f.nextId
    requires if x == f.nextId then
               BranchTargets(g.code[x]) == BranchTargets(f.code[b]) && (FallsThrough(g.code[x]) <==> FallsThrough(f.code[b]))
             else if x == b then BranchTargets(g.code[x]) == {f.nextId} && FallsThrough(g.code[x])
             else if x == f.nextId + 1 then BranchTargets(g.code[x]) == {} && FallsThrough(g.code[x])
             else BranchTargets(g.code[x]) == BranchTargets(f.code[x]) && (FallsThrough(g.code[x]) <==> FallsThrough(f.code[x]))
    ensures EdgesOk(g, x)
  {
  }

  /** The predecessors of an old block: the tail in place of the expanded block. */
  lemma PredsMoved(f: Function, b: BlockId, at: nat, g: Function, x: BlockId)
    requires CanExpand(f, b, at) && ExpansionOf(f, b, at, g) && x in f.code
    ensures b in Preds(f, x) <==> x in f.succs[b]
    ensures Preds(g, x) == if b in Preds(f, x) then Preds(f, x) - {b} + {f.nextId} else Preds(f, x)
    ensures |Preds(g, x)| == |Preds(f, x)|
  {
    assert forall p :: p in f.code ==> p < f.nextId;
    forall p ensures p in Preds(g, x) <==>
                     p in (if b in Preds(f, x) then Preds(f, x) - {b} + {f.nextId} else Preds(f, x)) {
      if p in g.succs {
        assert g.succs[p] == ExpandedSuccs(f, b, at, p);
      }
    }
    assert f.nextId !in Preds(f, x);
  }

  lemma PhisKeptOther(f: Function, b: BlockId, at: nat, g: Function, x: BlockId)
    requires Expandable(f, b, at) && ExpansionOf(f, b, at, g) && x in f.code
    ensures PhisOk(g, x)
  {
    PredsMoved(f, b, at, g, x);
    assert PhisOk(f, x);
    assert g.code[x] == ExpandedCode(f, b, at, x);
    var c := if x == b then HeadCode(f.code[b], at, f.nextId) else f.code[x];
    forall y | y in g.code[x] && y.Phi?
      ensures Sources(y.incoming) == Preds(g, x) && |y.incoming| == |Preds(g, x)|
    {
      var k :| 0 <= k < |c| && y == MaybeRenamed(c, x in f.succs[b], b, f.nextId)[k];
      if x == b {
        HeadPhiOrigin(f.code[b], at, f.nextId, k);
      }
      assert c[k] in f.code[x] && c[k].Phi?;
      SourcesRenamed(c[k].incoming, b, f.nextId);
    }
  }

  lemma SourcesRenamed(incoming: seq<Incoming>, from: BlockId, to: BlockId)
    ensures Sources(RenameIncoming(incoming, from, to)) ==
            if from in Sources(incoming) then Sources(incoming) - {from} + {to} else Sources(incoming)
  {
    var renamed := RenameIncoming(incoming, from, to);
    forall x ensures x in Sources(renamed) <==>
                     x in (if from in Sources(incoming) then Sources(incoming) - {from} + {to} else Sources(incoming)) {
      if inc :| inc in incoming && RenameBlock(inc.block, from, to) == x {
        var k :| 0 <= k < |incoming| && incoming[k] == inc;
        assert renamed[k] in renamed && renamed[k].block == x;
      }
      if inc :| inc in renamed && inc.block == x {
        var k :| 0 <= k < |renamed| && renamed[k] == inc;
        assert incoming[k] in incoming && RenameBlock(incoming[k].block, from, to) == x;
      }
    }
  }

  lemma HeadPhiOrigin(code: Code, at: nat, tail: BlockId, k: nat)
    requires LocalOk(code) && IsSelectAt(code, at) && k < |HeadCode(code, at, tail)| && HeadCode(code, at, tail)[k].Phi?
    ensures HeadCode(code, at, tail)[k] in code
  {
    var head := HeadCode(code, at, tail);
    HeadNoPhi(code, at, tail);
    var n := PhiCount(code);
    PhisBeforeSelects(code, at);
    HeadFrom(code, n, at, tail);
    PhisInFront(head, code, n, k);
  }

  lemma PhisInFront(head: Code, code: Code, n: nat, k: nat)
    requires n <= |code| && n <= |head| && head[..n] == code[..n] && k < |head| && head[k].Phi?
    requires forall x :: x in head[n..] ==> !x.Phi?
    ensures head[k] in code
  {
    assert forall i :: n <= i < |head| ==> head[i] == head[n..][i - n];
    assert head[..n][k] == code[..n][k];
  }

  lemma TailPhisFrom(f: Function, b: BlockId, at: nat, g: Function)
    requires CanExpand(f, b, at) && Expansion(f, b, at, g) && LocalOk(f.code[b])
    ensures f.nextId in g.code && PhisFrom(g.code[f.nextId], b, f.nextId + 1)
  {
    ExpandedTailPhis(f, b, at);
    assert f.nextId in g.code;
    assert g.code[f.nextId] == ExpandedCode(f, b, at, f.nextId);
  }

  lemma PhisKeptTail(f: Function, b: BlockId, at: nat, g: Function)
    requires CanExpand(f, b, at) && ExpansionOf(f, b, at, g)
    requires f.nextId in g.code && PhisFrom(g.code[f.nextId], b, f.nextId + 1)
    ensures PhisOk(g, f.nextId)
  {
    TailPreds(f, b, at, g);
    PhisFollow(g, f.nextId, b, f.nextId + 1);
  }

  lemma ExpandedTailPhis(f: Function, b: BlockId, at: nat)
    requires CanExpand(f, b, at) && LocalOk(f.code[b])
    ensures PhisFrom(ExpandedCode(f, b, at, f.nextId), b, f.nextId + 1)
  {
    TailPhisAs(ExpandedCode(f, b, at, f.nextId), f.code[b], at, b, f.nextId + 1);
  }

  lemma TailPhisAs(c: Code, code: Code, at: nat, head: BlockId, ifFalse: BlockId)
    requires LocalOk(code) && IsSelectAt(code, at) && c == TailCode(code, at, head, ifFalse)
    ensures PhisFrom(c, head, ifFalse)
  {
    TailPhiSources(code, at, head, ifFalse);
  }

  lemma PhisFollow(g: Function, x: BlockId, p: BlockId, q: BlockId)
    requires x in g.code && PhisFrom(g.code[x], p, q) && PredsAre(g, x, p, q)
    ensures PhisOk(g, x)
  {
  }

  /** Every PHI has just the two sources. */
  predicate PhisFrom(code: Code, p: BlockId, q: BlockId) {
    forall y :: y in code && y.Phi? ==> Sources(y.incoming) == {p, q} && |y.incoming| == 2
  }

  lemma TailPhiSources(code: Code, at: nat, head: BlockId, ifFalse: BlockId)
    requires LocalOk(code) && IsSelectAt(code, at)
    ensures PhisFrom(TailCode(code, at, head, ifFalse), head, ifFalse)
  {
    TailRestNoPhi(code, at);
    PhisOfSources(code, at, LastSelect(code, at) + 1, head, ifFalse);
  }

  predicate PredsAre(g: Function, x: BlockId, p: BlockId, q: BlockId) {
    Preds(g, x) == {p, q} && |Preds(g, x)| == 2
  }

  lemma TailPred(f: Function, b: BlockId, at: nat, g: Function, p: BlockId)
    requires CanExpand(f, b, at) && ExpansionOf(f, b, at, g)
    ensures p in Preds(g, f.nextId) <==> p == b || p == f.nextId + 1
  {
    if p in g.succs {
      BlockIsExpanded(f, b, at, g, p);
      EdgeToTail(f, b, at, p);
    }
  }

  lemma EdgeToTail(f: Function, b: BlockId, at: nat, p: BlockId)
    requires CanExpand(f, b, at) && (p in f.code || p == f.nextId || p == f.nextId + 1)
    ensures f.nextId in ExpandedSuccs(f, b, at, p) <==> p == b || p == f.nextId + 1
  {
    assert f.succs[b] <= f.code.Keys;
    assert p in f.code ==> f.succs[p] <= f.code.Keys;
  }

  lemma TailPreds(f: Function, b: BlockId, at: nat, g: Function)
    requires CanExpand(f, b, at) && ExpansionOf(f, b, at, g)
    ensures PredsAre(g, f.nextId, b, f.nextId + 1)
  {
    forall p ensures p in Preds(g, f.nextId) <==> p in {b, f.nextId + 1} {
      TailPred(f, b, at, g, p);
    }
    assert b < f.nextId;
    TwoPreds(g, f.nextId, b, f.nextId + 1);
  }

  lemma TwoPreds(g: Function, x: BlockId, p: BlockId, q: BlockId)
    requires p != q && forall r :: r in Preds(g, x) <==> r in {p, q}
    ensures PredsAre(g, x, p, q)
  {
    assert Preds(g, x) == {p, q} && |{p, q}| == 2;
  }

  lemma {:induction false} PhisOfSources(code: Code, at: nat, k: nat, head: BlockId, ifFalse: BlockId)
    requires at <= k <= |code|
    ensures forall y :: y in PhisOf(code, at, k, head, ifFalse) ==>
              y.Phi? && Sources(y.incoming) == {head, ifFalse} && |y.incoming| == 2
  {
    if k > at {
      PhisOfSources(code, at, k - 1, head, ifFalse);
      if code[k - 1].Select? {
        var inc := PhiFor(code[k - 1], head, ifFalse).incoming;
        assert inc[0] in inc && inc[1] in inc;
        assert Sources(inc) == {head, ifFalse};
      }
    }
  }

  lemma PhisKept(f: Function, b: BlockId, at: nat, g: Function, x: BlockId)
    requires Expandable(f, b, at) && ExpansionOf(f, b, at, g) && x in g.code
    ensures PhisOk(g, x)
  {
    if x == f.nextId {
      assert LocalOk(f.code[b]);
      TailPhisFrom(f, b, at, g);
      PhisKeptTail(f, b, at, g);
    } else if x == f.nextId + 1 {
      assert g.code[x] == ExpandedCode(f, b, at, x);
    } else {
      PhisKeptOther(f, b, at, g, x);
    }
  }

  /** The expansion of a well-formed function is well formed: blocks, edges,
      PHI sources and local order. */
  lemma ExpansionKeepsCfg(f: Function, b: BlockId, at: nat)
    requires CfgOk(f) && CanExpand(f, b, at)
    ensures CfgOk(Expand(f, b, at))
  {
    var g := Expand(f, b, at);
    ExpandIsExpansionOf(f, b, at);
    CfgKept(f, b, at, g);
  }

  lemma BlockEdgesKept(f: Function, b: BlockId, at: nat, g: Function, x: BlockId)
    requires Expandable(f, b, at) && ExpansionOf(f, b, at, g) && x in g.code
    ensures EdgesOk(g, x)
  {
    OldBlockFacts(f, b, at, x);
    BlockExpandedAt(f, b, at, g, x);
    EdgesKept(f, b, at, g, x);
  }

  lemma LocalKept(f: Function, b: BlockId, at: nat, g: Function, x: BlockId)
    requires Expandable(f, b, at) && ExpansionOf(f, b, at, g) && x in g.code
    ensures LocalOk(g.code[x])
  {
    assert LocalOk(f.code[b]);
    BlockIsExpanded(f, b, at, g, x);
    if x == f.nextId {
      ExpandedTailLocal(f, b, at);
    } else if x == f.nextId + 1 {
      ExpandedEmptyLocal(f, b, at);
    } else if x == b {
      ExpandedHeadLocal(f, b, at);
    } else {
      assert LocalOk(f.code[x]);
      ExpandedOtherLocal(f, b, at, x);
    }
  }

  lemma BlockIsExpanded(f: Function, b: BlockId, at: nat, g: Function, x: BlockId)
    requires CanExpand(f, b, at) && ExpansionOf(f, b, at, g) && x in g.code
    ensures x in g.succs && (x in f.code || x == f.nextId || x == f.nextId + 1)
    ensures g.code[x] == ExpandedCode(f, b, at, x) && g.succs[x] == ExpandedSuccs(f, b, at, x)
  {
  }

  lemma LayoutKept(f: Function, b: BlockId, at: nat, g: Function)
    requires Expandable(f, b, at) && Expansion(f, b, at, g)
    ensures (forall x :: x in g.code ==> x in g.layout) && NoRepeats(g.layout)
  {
    InsertedContents(f.layout, b, [f.nextId + 1, f.nextId]);
    InsertedNoRepeats(f.layout, b, [f.nextId + 1, f.nextId]);
  }

  lemma CfgKept(f: Function, b: BlockId, at: nat, g: Function)
    requires Expandable(f, b, at) && ExpansionOf(f, b, at, g) && g.nextId == f.nextId + 2
    ensures CfgOk(g)
  {
    AllocatedKept(f, b, at, g);
    LayoutKept(f, b, at, g);
    forall x | x in g.code ensures LocalOk(g.code[x]) { LocalKept(f, b, at, g, x); }
    forall x | x in g.code ensures EdgesOk(g, x) { BlockEdgesKept(f, b, at, g, x); }
    forall x | x in g.code ensures PhisOk(g, x) { PhisKept(f, b, at, g, x); }
  }
}
