/** Expansion moves instructions about but neither loses nor invents one:
    each gathered select becomes one PHI, everything else that does something
    stays, in order. */
module Conservation {
  import opened Conditions
  import opened MachineIR
  import opened SelectExpansion
  import opened WellFormedness
  import opened ExpansionPreserves
  import opened SelectRuns
  import opened ExpansionWellFormed

  // ----- Tallies -----

  /** What one instruction contributes to a count. */
  type Tally = Instr -> nat

  /** How often `r` is defined. */
  function DefinitionsOf(r: Reg): Tally {
    (x: Instr) => if r in Defs(x) then 1 else 0
  }

  /** How many selects there are. */
  function Selects(): Tally {
    (x: Instr) => if x.Select? then 1 else 0
  }

  /** Debug instructions and branches contribute nothing, and renaming an edge changes nothing. */
  ghost predicate Plain(t: Tally) {
    && (forall x: Instr :: x.Debug? || x.CondBr? ==> t(x) == 0)
    && (forall x: Instr, from, to {:trigger RenamePhi(x, from, to)} :: t(RenamePhi(x, from, to)) == t(x))
  }

  function Sum(t: Tally, code: Code, lo: nat, hi: nat): nat
    requires lo <= hi <= |code|
  {
    if lo == hi then 0 else Sum(t, code, lo, hi - 1) + t(code[hi - 1])
  }

  /** The selects from `lo` up to `hi`, before (`t(x)`) and after they became PHIs. */
  function SumSelects(t: Tally, code: Code, lo: nat, hi: nat, phis: bool): nat
    requires lo <= hi <= |code|
  {
    if lo == hi then 0
    else SumSelects(t, code, lo, hi - 1, phis) +
         (if !code[hi - 1].Select? then 0
          else t(if phis then PhiFor(code[hi - 1], 0, 1) else code[hi - 1]))
  }

  lemma {:induction false} SumPrefix(t: Tally, a: Code, b: Code, hi: nat)
    requires hi <= |a|
    ensures Sum(t, a + b, 0, hi) == Sum(t, a, 0, hi)
  {
    if hi > 0 {
      SumPrefix(t, a, b, hi - 1);
    }
  }

  lemma {:induction false} SumAppend(t: Tally, a: Code, b: Code, hi: nat)
    requires hi <= |b|
    ensures Sum(t, a + b, 0, |a| + hi) == Sum(t, a, 0, |a|) + Sum(t, b, 0, hi)
  {
    if hi > 0 {
      SumAppend(t, a, b, hi - 1);
    } else {
      SumPrefix(t, a, b, |a|);
    }
  }

  lemma SumSnoc(t: Tally, a: Code, x: Instr)
    ensures Sum(t, a + [x], 0, |a| + 1) == Sum(t, a, 0, |a|) + t(x)
  {
    SumPrefix(t, a, [x], |a|);
  }

  lemma {:induction false} SumSplit(t: Tally, code: Code, lo: nat, mid: nat, hi: nat)
    requires lo <= mid <= hi <= |code|
    ensures Sum(t, code, lo, hi) == Sum(t, code, lo, mid) + Sum(t, code, mid, hi)
  {
    if mid < hi {
      SumSplit(t, code, lo, mid, hi - 1);
    }
  }

  lemma {:induction false} SumSlice(t: Tally, code: Code, hi: nat)
    requires hi <= |code|
    ensures Sum(t, code[..hi], 0, hi) == Sum(t, code, 0, hi)
  {
    assert code == code[..hi] + code[hi..];
    SumPrefix(t, code[..hi], code[hi..], hi);
  }

  lemma {:induction false} SumRenamed(t: Tally, code: Code, renamed: bool, from: BlockId, to: BlockId, hi: nat)
    requires Plain(t) && hi <= |code|
    ensures Sum(t, MaybeRenamed(code, renamed, from, to), 0, hi) == Sum(t, code, 0, hi)
  {
    if hi > 0 {
      SumRenamed(t, code, renamed, from, to, hi - 1);
    }
  }

  lemma {:induction false} SumKept(t: Tally, code: Code, at: nat, k: nat, gone: set<nat>)
    requires Plain(t) && at <= k <= |code| && forall d :: d in gone && d < |code| ==> code[d].Debug?
    ensures var kept := Kept(code, at, k, gone);
            Sum(t, kept, 0, |kept|) + SumSelects(t, code, at, k, false) == Sum(t, code, at, k)
  {
    if k > at {
      SumKept(t, code, at, k - 1, gone);
      if !code[k - 1].Select? && k - 1 !in gone {
        SumSnoc(t, Kept(code, at, k - 1, gone), code[k - 1]);
      }
    }
  }

  lemma {:induction false} SumWithout(t: Tally, code: Code, lo: nat, hi: nat, gone: set<nat>)
    requires Plain(t) && lo <= hi <= |code| && forall d :: d in gone && d < |code| ==> code[d].Debug?
    ensures var rest := Without(code, lo, hi, gone);
            Sum(t, rest, 0, |rest|) == Sum(t, code, lo, hi)
  {
    if lo < hi {
      SumWithout(t, code, lo, hi - 1, gone);
      var rest := Without(code, lo, hi - 1, gone);
      if hi - 1 in gone {
        assert Without(code, lo, hi, gone) == rest;
      } else {
        SumSnoc(t, rest, code[hi - 1]);
      }
    }
  }

  /** A tally that does not look at the edges of a PHI. */
  ghost predicate EdgeBlind(t: Tally) {
    forall x: Instr, h, i {:trigger PhiFor(x, h, i)} :: x.Select? ==> t(PhiFor(x, h, i)) == t(PhiFor(x, 0, 1))
  }

  lemma {:induction false} SumPhis(t: Tally, code: Code, at: nat, k: nat, head: BlockId, ifFalse: BlockId)
    requires EdgeBlind(t) && at <= k <= |code|
    ensures var phis := PhisOf(code, at, k, head, ifFalse);
            Sum(t, phis, 0, |phis|) == SumSelects(t, code, at, k, true)
  {
    if k > at {
      SumPhis(t, code, at, k - 1, head, ifFalse);
      if code[k - 1].Select? {
        SumSnoc(t, PhisOf(code, at, k - 1, head, ifFalse), PhiFor(code[k - 1], head, ifFalse));
      }
    }
  }

  lemma {:induction false} SumDebug(t: Tally, debug: Code, hi: nat)
    requires Plain(t) && hi <= |debug| && forall j :: 0 <= j < |debug| ==> debug[j].Debug?
    ensures Sum(t, debug, 0, hi) == 0
  {
    if hi > 0 {
      SumDebug(t, debug, hi - 1);
    }
  }

  function Total(t: Tally, code: Code): nat {
    Sum(t, code, 0, |code|)
  }

  lemma SumThree(t: Tally, a: Code, b: Code, c: Code)
    ensures Total(t, a + b + c) == Total(t, a) + Total(t, b) + Total(t, c)
  {
    SumAppend(t, a + b, c, |c|);
    SumAppend(t, a, b, |b|);
  }

  lemma SumHead(t: Tally, code: Code, at: nat, tail: BlockId)
    requires Plain(t) && IsSelectAt(code, at)
    ensures var head, last := HeadCode(code, at, tail), LastSelect(code, at);
            Sum(t, head, 0, |head|) + SumSelects(t, code, at, last + 1, false) == Sum(t, code, 0, last + 1)
  {
    SumHeadPieces(t, code, at, tail);
    SumKeptRun(t, code, at);
  }

  lemma SumKeptRun(t: Tally, code: Code, at: nat)
    requires Plain(t) && IsSelectAt(code, at)
    ensures var last := LastSelect(code, at);
            Sum(t, code, 0, at) + Total(t, KeptRun(code, at)) + SumSelects(t, code, at, last + 1, false) ==
            Sum(t, code, 0, last + 1)
  {
    GoneAreDebug(code, at);
    SumRun(t, code, at, LastSelect(code, at) + 1, Positions(Moved(code, at)));
  }

  lemma SumRun(t: Tally, code: Code, at: nat, k: nat, gone: set<nat>)
    requires Plain(t) && at <= k <= |code| && forall d :: d in gone ==> d < |code| && code[d].Debug?
    ensures Sum(t, code, 0, at) + Total(t, Kept(code, at, k, gone)) + SumSelects(t, code, at, k, false) ==
            Sum(t, code, 0, k)
  {
    SumKept(t, code, at, k, gone);
    SumSplit(t, code, 0, at, k);
  }

  lemma SumHeadPieces(t: Tally, code: Code, at: nat, tail: BlockId)
    requires Plain(t) && IsSelectAt(code, at)
    ensures var head, kept := HeadCode(code, at, tail), KeptRun(code, at);
            Sum(t, head, 0, |head|) == Sum(t, code, 0, at) + Total(t, kept)
  {
    var kept := KeptRun(code, at);
    var br := CondBr(GetBrCond(code[at].cc), code[at].lhs, code[at].rhs, tail);
    assert t(br) == 0;
    SumSnoc(t, [], br);
    assert [] + [br] == [br];
    SumThree(t, code[..at], kept, [br]);
    SumSlice(t, code, at);
  }

  lemma SumTail(t: Tally, code: Code, at: nat, head: BlockId, ifFalse: BlockId)
    requires Plain(t) && EdgeBlind(t) && IsSelectAt(code, at)
    ensures var tail, last := TailCode(code, at, head, ifFalse), LastSelect(code, at);
            Sum(t, tail, 0, |tail|) == SumSelects(t, code, at, last + 1, true) + Sum(t, code, last + 1, |code|)
  {
    var last := LastSelect(code, at);
    GoneAreDebug(code, at);
    SumTailPieces(t, code, at, head, ifFalse);
    SumPhis(t, code, at, last + 1, head, ifFalse);
    SumWithout(t, code, last + 1, |code|, Positions(Moved(code, at)));
  }

  lemma SumTailPieces(t: Tally, code: Code, at: nat, head: BlockId, ifFalse: BlockId)
    requires Plain(t) && IsSelectAt(code, at)
    ensures var tail, phis, back := TailCode(code, at, head, ifFalse),
                                    PhisOf(code, at, LastSelect(code, at) + 1, head, ifFalse), TailBack(code, at);
            Sum(t, tail, 0, |tail|) == Sum(t, phis, 0, |phis|) + Sum(t, back, 0, |back|)
  {
    var phis, debug, back := PhisOf(code, at, LastSelect(code, at) + 1, head, ifFalse), Pick(code, Moved(code, at)),
                             TailBack(code, at);
    PickedAreDebug(code, at);
    SumDebug(t, debug, |debug|);
    SumThree(t, phis, debug, back);
    TailPieces(code, at, head, ifFalse);
  }

  /** Head and tail together hold what the block held, with the PHIs of the gathered selects in their place. */
  lemma SumExpanded(t: Tally, code: Code, at: nat, head: BlockId, tail: BlockId, ifFalse: BlockId)
    requires Plain(t) && EdgeBlind(t) && IsSelectAt(code, at)
    ensures var h, r, last := HeadCode(code, at, tail), TailCode(code, at, head, ifFalse), LastSelect(code, at);
            Sum(t, h, 0, |h|) + Sum(t, r, 0, |r|) + SumSelects(t, code, at, last + 1, false) ==
            Sum(t, code, 0, |code|) + SumSelects(t, code, at, last + 1, true)
  {
    var last := LastSelect(code, at);
    SumHead(t, code, at, tail);
    SumTail(t, code, at, head, ifFalse);
    SumSplit(t, code, 0, last + 1, |code|);
  }

  lemma {:induction false} SelectsSame(r: Reg, code: Code, lo: nat, hi: nat)
    requires lo <= hi <= |code|
    ensures SumSelects(DefinitionsOf(r), code, lo, hi, true) == SumSelects(DefinitionsOf(r), code, lo, hi, false)
  {
    if lo < hi {
      SelectsSame(r, code, lo, hi - 1);
    }
  }

  lemma {:induction false} SelectsGone(code: Code, lo: nat, hi: nat)
    requires lo <= hi <= |code|
    ensures SumSelects(Selects(), code, lo, hi, true) == 0
  {
    if lo < hi {
      SelectsGone(code, lo, hi - 1);
    }
  }

  lemma {:induction false} SelectsCounted(code: Code, lo: nat, hi: nat)
    requires lo < hi <= |code| && code[lo].Select?
    ensures SumSelects(Selects(), code, lo, hi, false) >= 1
  {
    if lo < hi - 1 {
      SelectsCounted(code, lo, hi - 1);
    }
  }

  lemma DefinitionsPlain(r: Reg)
    ensures Plain(DefinitionsOf(r)) && EdgeBlind(DefinitionsOf(r))
  {
  }

  lemma SelectsPlain()
    ensures Plain(Selects()) && EdgeBlind(Selects())
  {
  }

  // ----- The whole function -----

  function LayoutSum(t: Tally, code: map<BlockId, Code>, layout: seq<BlockId>): nat
    requires forall x :: x in layout ==> x in code
  {
    if layout == [] then 0 else Total(t, code[layout[0]]) + LayoutSum(t, code, layout[1..])
  }

  /** A count over all blocks of a function. */
  function FunctionSum(t: Tally, f: Function): nat
    requires Allocated(f)
  {
    LayoutSum(t, f.code, f.layout)
  }

  lemma {:induction false} LayoutSumInserted(t: Tally, code: map<BlockId, Code>, code': map<BlockId, Code>,
                                             layout: seq<BlockId>, b: BlockId, ifFalse: BlockId, tail: BlockId)
    requires forall x :: x in layout ==> x in code && x in code'
    requires tail in code' && ifFalse in code' && NoRepeats(layout)
    requires forall x :: x in layout && x != b ==> Total(t, code'[x]) == Total(t, code[x])
    requires forall x :: x in InsertAfter(layout, b, [ifFalse, tail]) ==> x in code'
    ensures LayoutSum(t, code', InsertAfter(layout, b, [ifFalse, tail])) ==
            LayoutSum(t, code, layout) +
            if b in layout then
              Total(t, code'[b]) + Total(t, code'[ifFalse]) + Total(t, code'[tail]) - Total(t, code[b])
            else 0
  {
    if layout != [] {
      var rest := layout[1..];
      assert layout == [layout[0]] + rest;
      if layout[0] == b {
        assert InsertAfter(layout, b, [ifFalse, tail]) == [b] + ([ifFalse] + ([tail] + rest));
        LayoutSumCons(t, code', tail, rest);
        LayoutSumCons(t, code', ifFalse, [tail] + rest);
        LayoutSumCons(t, code', b, [ifFalse] + ([tail] + rest));
        LayoutSumSame(t, code, code', rest);
      } else {
        InsertedOnly(rest, b, [ifFalse, tail]);
        LayoutSumInserted(t, code, code', rest, b, ifFalse, tail);
        LayoutSumCons(t, code', layout[0], InsertAfter(rest, b, [ifFalse, tail]));
      }
    }
  }

  lemma LayoutSumCons(t: Tally, code: map<BlockId, Code>, y: BlockId, rest: seq<BlockId>)
    requires y in code && forall x :: x in rest ==> x in code
    ensures LayoutSum(t, code, [y] + rest) == Total(t, code[y]) + LayoutSum(t, code, rest)
  {
    assert ([y] + rest)[1..] == rest;
  }

  lemma {:induction false} InsertedOnly(layout: seq<BlockId>, b: BlockId, xs: seq<BlockId>)
    ensures forall x :: x in InsertAfter(layout, b, xs) ==> x in layout || x in xs
    ensures forall x :: x in layout ==> x in InsertAfter(layout, b, xs)
  {
    if layout != [] {
      assert layout == [layout[0]] + layout[1..];
      if layout[0] != b {
        InsertedOnly(layout[1..], b, xs);
      }
    }
  }

  lemma {:induction false} LayoutSumSame(t: Tally, code: map<BlockId, Code>, code': map<BlockId, Code>, layout: seq<BlockId>)
    requires forall x :: x in layout ==> x in code && x in code' && Total(t, code'[x]) == Total(t, code[x])
    ensures LayoutSum(t, code', layout) == LayoutSum(t, code, layout)
  {
    if layout != [] {
      LayoutSumSame(t, code, code', layout[1..]);
    }
  }

  lemma FunctionSumExpanded(t: Tally, f: Function, b: BlockId, at: nat)
    requires Plain(t) && EdgeBlind(t) && CfgOk(f) && CanExpand(f, b, at) && Allocated(Expand(f, b, at))
    ensures var last := LastSelect(f.code[b], at);
            FunctionSum(t, Expand(f, b, at)) + SumSelects(t, f.code[b], at, last + 1, false) ==
            FunctionSum(t, f) + SumSelects(t, f.code[b], at, last + 1, true)
  {
    var g, tail, ifFalse := Expand(f, b, at), f.nextId, f.nextId + 1;
    ExpandIsExpansion(f, b, at);
    ExpandedBlocks(f, b, at, g);
    forall x | x in f.layout && x != b ensures Total(t, g.code[x]) == Total(t, f.code[x]) {
      assert g.code[x] == ExpandedCode(f, b, at, x);
      SumRenamed(t, f.code[x], x in f.succs[b], b, tail, |f.code[x]|);
    }
    SumRenamed(t, HeadCode(f.code[b], at, tail), b in f.succs[b], b, tail, |HeadCode(f.code[b], at, tail)|);
    SumExpanded(t, f.code[b], at, b, tail, ifFalse);
    LayoutSumInserted(t, f.code, g.code, f.layout, b, ifFalse, tail);
  }

  /** No register gains or loses a definition. */
  lemma DefinitionsConserved(f: Function, b: BlockId, at: nat, r: Reg)
    requires CfgOk(f) && CanExpand(f, b, at)
    ensures Allocated(Expand(f, b, at))
    ensures FunctionSum(DefinitionsOf(r), Expand(f, b, at)) == FunctionSum(DefinitionsOf(r), f)
  {
    ExpansionKeepsCfg(f, b, at);
    DefinitionsPlain(r);
    SelectsSame(r, f.code[b], at, LastSelect(f.code[b], at) + 1);
    SumConserved(DefinitionsOf(r), f, b, at);
  }

  lemma SumConserved(t: Tally, f: Function, b: BlockId, at: nat)
    requires Plain(t) && EdgeBlind(t) && CfgOk(f) && CanExpand(f, b, at) && Allocated(Expand(f, b, at))
    requires var last := LastSelect(f.code[b], at);
             SumSelects(t, f.code[b], at, last + 1, true) == SumSelects(t, f.code[b], at, last + 1, false)
    ensures FunctionSum(t, Expand(f, b, at)) == FunctionSum(t, f)
  {
    FunctionSumExpanded(t, f, b, at);
  }

  /** Every expansion leaves strictly fewer selects, by exactly the number gathered. */
  lemma SelectsDecrease(f: Function, b: BlockId, at: nat)
    requires CfgOk(f) && CanExpand(f, b, at)
    ensures Allocated(Expand(f, b, at))
    ensures FunctionSum(Selects(), Expand(f, b, at)) ==
            FunctionSum(Selects(), f) - SumSelects(Selects(), f.code[b], at, LastSelect(f.code[b], at) + 1, false)
    ensures FunctionSum(Selects(), Expand(f, b, at)) < FunctionSum(Selects(), f)
  {
    ExpansionKeepsCfg(f, b, at);
    SelectsPlain();
    FunctionSumExpanded(Selects(), f, b, at);
    SelectsGone(f.code[b], at, LastSelect(f.code[b], at) + 1);
    SelectsCounted(f.code[b], at, LastSelect(f.code[b], at) + 1);
  }

  // ----- Order -----

  /** The instructions of `code[..hi]` that do something, in order. */
  function Solid(code: Code, hi: nat): Code
    requires hi <= |code|
  {
    if hi == 0 then []
    else if code[hi - 1].Debug? then Solid(code, hi - 1)
    else Solid(code, hi - 1) + [code[hi - 1]]
  }

  /** The same without the selects from `at` up to `last`. */
  function Remaining(code: Code, at: nat, last: nat, hi: nat): Code
    requires hi <= |code|
  {
    if hi == 0 then []
    else if code[hi - 1].Debug? || (at <= hi - 1 <= last && code[hi - 1].Select?) then Remaining(code, at, last, hi - 1)
    else Remaining(code, at, last, hi - 1) + [code[hi - 1]]
  }

  lemma {:induction false} SolidPrefix(a: Code, b: Code, hi: nat)
    requires hi <= |a|
    ensures Solid(a + b, hi) == Solid(a, hi)
  {
    if hi > 0 {
      SolidPrefix(a, b, hi - 1);
    }
  }

  lemma SolidSnoc(a: Code, x: Instr)
    ensures Solid(a + [x], |a| + 1) == if x.Debug? then Solid(a, |a|) else Solid(a, |a|) + [x]
  {
    SolidPrefix(a, [x], |a|);
  }

  lemma {:induction false} SolidBefore(code: Code, at: nat, last: nat, hi: nat)
    requires hi <= at && hi <= |code|
    ensures Solid(code[..hi], hi) == Remaining(code, at, last, hi)
  {
    if hi > 0 {
      SolidBefore(code, at, last, hi - 1);
      assert code[..hi] == code[..hi - 1] + [code[hi - 1]];
      SolidSnoc(code[..hi - 1], code[hi - 1]);
    }
  }

  lemma {:induction false} SolidAppend(a: Code, b: Code, hi: nat)
    requires hi <= |b|
    ensures Solid(a + b, |a| + hi) == Solid(a, |a|) + Solid(b, hi)
  {
    if hi > 0 {
      SolidAppend(a, b, hi - 1);
      assert (a + b)[|a| + hi - 1] == b[hi - 1];
    } else {
      SolidPrefix(a, b, |a|);
    }
  }

  /** What is kept of the run remains, after what stood before it. */
  lemma {:induction false} KeptRemains(code: Code, at: nat, last: nat, k: nat, gone: set<nat>)
    requires at <= k <= |code| && k <= last + 1 && forall d :: d in gone && d < |code| ==> code[d].Debug?
    ensures var kept := Kept(code, at, k, gone);
            Remaining(code, at, last, k) == Remaining(code, at, last, at) + Solid(kept, |kept|)
  {
    if k > at {
      KeptRemains(code, at, last, k - 1, gone);
      SolidSnoc(Kept(code, at, k - 1, gone), code[k - 1]);
    }
  }

  lemma SolidKept(code: Code, at: nat, last: nat, k: nat, gone: set<nat>)
    requires at <= k <= |code| && k <= last + 1 && forall d :: d in gone && d < |code| ==> code[d].Debug?
    ensures var head := code[..at] + Kept(code, at, k, gone); Solid(head, |head|) == Remaining(code, at, last, k)
  {
    var kept := Kept(code, at, k, gone);
    SolidBefore(code, at, last, at);
    KeptRemains(code, at, last, k, gone);
    SolidAppend(code[..at], kept, |kept|);
  }

  /** The instructions from `lo` up to `hi` that do something. */
  function SolidFrom(code: Code, lo: nat, hi: nat): Code
    requires lo <= hi <= |code|
  {
    if hi == lo then []
    else if code[hi - 1].Debug? then SolidFrom(code, lo, hi - 1)
    else SolidFrom(code, lo, hi - 1) + [code[hi - 1]]
  }

  lemma {:induction false} RemainingAfter(code: Code, at: nat, last: nat, k: nat)
    requires last < k <= |code|
    ensures Remaining(code, at, last, k) == Remaining(code, at, last, last + 1) + SolidFrom(code, last + 1, k)
  {
    if k > last + 1 {
      RemainingAfter(code, at, last, k - 1);
    }
  }

  lemma {:induction false} SolidWithout(code: Code, lo: nat, k: nat, gone: set<nat>)
    requires lo <= k <= |code| && forall d :: d in gone && d < |code| ==> code[d].Debug?
    ensures var rest := Without(code, lo, k, gone); Solid(rest, |rest|) == SolidFrom(code, lo, k)
  {
    if k > lo {
      SolidWithout(code, lo, k - 1, gone);
      var rest := Without(code, lo, k - 1, gone);
      if k - 1 in gone {
        assert rest + [] == rest;
      } else {
        SolidSnoc(rest, code[k - 1]);
      }
    }
  }

  lemma SolidRest(a: Code, code: Code, lo: nat, k: nat, gone: set<nat>)
    requires lo <= k <= |code| && forall d :: d in gone && d < |code| ==> code[d].Debug?
    requires Solid(a, |a|) == []
    ensures var all := a + Without(code, lo, k, gone); Solid(all, |all|) == SolidFrom(code, lo, k)
  {
    var rest := Without(code, lo, k, gone);
    SolidWithout(code, lo, k, gone);
    SolidAppend(a, rest, |rest|);
    assert [] + Solid(rest, |rest|) == Solid(rest, |rest|);
  }

  lemma {:induction false} SolidDebug(debug: Code, hi: nat)
    requires hi <= |debug| && forall j :: 0 <= j < |debug| ==> debug[j].Debug?
    ensures Solid(debug, hi) == []
  {
    if hi > 0 {
      SolidDebug(debug, hi - 1);
    }
  }

  /** Apart from debug instructions and the gathered selects, the head (up to
      its branch) and the tail (after its PHIs) together hold the instructions
      of the block, each once and in order. */
  lemma OrderKept(code: Code, at: nat, tail: BlockId)
    requires IsSelectAt(code, at)
    ensures var h, r := HeadCode(code, at, tail), TailRest(code, at);
            Solid(h, |h| - 1) + Solid(r, |r|) == Remaining(code, at, LastSelect(code, at), |code|)
  {
    var h, r := HeadCode(code, at, tail), TailRest(code, at);
    OrderHead(code, at, tail);
    OrderTail(code, at);
    OrderJoined(code, at, LastSelect(code, at), Solid(h, |h| - 1), Solid(r, |r|));
  }

  lemma OrderJoined(code: Code, at: nat, last: nat, a: Code, b: Code)
    requires last < |code| && a == Remaining(code, at, last, last + 1) && b == SolidFrom(code, last + 1, |code|)
    ensures a + b == Remaining(code, at, last, |code|)
  {
    RemainingAfter(code, at, last, |code|);
  }

  /** The PHIs of the tail stand for the gathered selects, one each and in order. */
  lemma {:induction false} PhisInOrder(code: Code, at: nat, k: nat, head: BlockId, ifFalse: BlockId)
    requires at <= k <= |code|
    ensures var phis := PhisOf(code, at, k, head, ifFalse);
            && |phis| == SumSelects(Selects(), code, at, k, false)
            && forall j {:trigger code[j]} :: at <= j < k && code[j].Select? ==>
                 var i := SumSelects(Selects(), code, at, j, false);
                 i < |phis| && phis[i] == PhiFor(code[j], head, ifFalse)
  {
    if k > at {
      PhisInOrder(code, at, k - 1, head, ifFalse);
    }
  }

  lemma OrderHead(code: Code, at: nat, tail: BlockId)
    requires IsSelectAt(code, at)
    ensures var h, last := HeadCode(code, at, tail), LastSelect(code, at);
            |h| > 0 && Solid(h, |h| - 1) == Remaining(code, at, last, last + 1)
  {
    GoneAreDebug(code, at);
    OrderBefore(code, at, LastSelect(code, at), Positions(Moved(code, at)), HeadCode(code, at, tail),
                CondBr(GetBrCond(code[at].cc), code[at].lhs, code[at].rhs, tail));
  }

  lemma OrderBefore(code: Code, at: nat, last: nat, gone: set<nat>, h: Code, br: Instr)
    requires at <= last < |code| && forall d :: d in gone && d < |code| ==> code[d].Debug?
    requires h == code[..at] + Kept(code, at, last + 1, gone) + [br]
    ensures |h| > 0 && Solid(h, |h| - 1) == Remaining(code, at, last, last + 1)
  {
    var front := code[..at] + Kept(code, at, last + 1, gone);
    SolidKept(code, at, last, last + 1, gone);
    SolidPrefix(front, [br], |front|);
  }

  lemma OrderTail(code: Code, at: nat)
    requires IsSelectAt(code, at)
    ensures var r, last := TailRest(code, at), LastSelect(code, at);
            Solid(r, |r|) == SolidFrom(code, last + 1, |code|)
  {
    var debug := Pick(code, Moved(code, at));
    GoneAreDebug(code, at);
    PickedAreDebug(code, at);
    SolidDebug(debug, |debug|);
    SolidRest(debug, code, LastSelect(code, at) + 1, |code|, Positions(Moved(code, at)));
  }
}
