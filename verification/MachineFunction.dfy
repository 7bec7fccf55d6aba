/** The machine function as the compiler updates it in place. */
module MachineFunctionClass {
  import opened Conditions
  import opened MachineIR
  import opened SelectExpansion

  // ----- Erasing selects from an instruction list -----

  /** What is left of `code` from `lo` on when its selects are erased. */
  function SelectsErased(code: Code, lo: nat): Code
    requires lo <= |code|
  {
    Kept(code, lo, |code|, {})
  }

  /** The PHIs of the selects of `code` from `lo` on. */
  function PhisMade(code: Code, lo: nat, head: BlockId, ifFalse: BlockId): Code
    requires lo <= |code|
  {
    PhisOf(code, lo, |code|, head, ifFalse)
  }

  /** What stands between the first and the last gathered select, debug values taken out. */
  function Gathered(code: Code, at: nat): Code
    requires IsSelectAt(code, at)
  {
    Without(code, at, LastSelect(code, at) + 1, Positions(Moved(code, at)))
  }

  /** The head before its selects are erased and its branch is added. */
  function HeadWithSelects(code: Code, at: nat): Code
    requires IsSelectAt(code, at)
  {
    code[..at] + Gathered(code, at)
  }

  lemma {:induction false} KeptPrefix(a: Code, x: Instr, lo: nat, hi: nat)
    requires lo <= hi <= |a|
    ensures Kept(a + [x], lo, hi, {}) == Kept(a, lo, hi, {})
  {
    if lo < hi {
      KeptPrefix(a, x, lo, hi - 1);
    }
  }

  lemma {:induction false} PhisPrefix(a: Code, x: Instr, lo: nat, hi: nat, head: BlockId, ifFalse: BlockId)
    requires lo <= hi <= |a|
    ensures PhisOf(a + [x], lo, hi, head, ifFalse) == PhisOf(a, lo, hi, head, ifFalse)
  {
    if lo < hi {
      PhisPrefix(a, x, lo, hi - 1, head, ifFalse);
    }
  }

  lemma ErasedSnoc(a: Code, x: Instr, lo: nat)
    requires lo <= |a|
    ensures SelectsErased(a + [x], lo) == if x.Select? then SelectsErased(a, lo) else SelectsErased(a, lo) + [x]
  {
    KeptPrefix(a, x, lo, |a|);
  }

  lemma PhisSnoc(a: Code, x: Instr, lo: nat, head: BlockId, ifFalse: BlockId)
    requires lo <= |a|
    ensures PhisMade(a + [x], lo, head, ifFalse) ==
            if x.Select? then PhisMade(a, lo, head, ifFalse) + [PhiFor(x, head, ifFalse)] else PhisMade(a, lo, head, ifFalse)
  {
    PhisPrefix(a, x, lo, |a|, head, ifFalse);
  }

  lemma {:induction false} KeptBehind(front: Code, a: Code, hi: nat)
    requires hi <= |a|
    ensures Kept(front + a, |front|, |front| + hi, {}) == Kept(a, 0, hi, {})
  {
    if hi > 0 {
      KeptBehind(front, a, hi - 1);
      assert (front + a)[|front| + hi - 1] == a[hi - 1];
    }
  }

  lemma {:induction false} PhisBehind(front: Code, a: Code, hi: nat, head: BlockId, ifFalse: BlockId)
    requires hi <= |a|
    ensures PhisOf(front + a, |front|, |front| + hi, head, ifFalse) == PhisOf(a, 0, hi, head, ifFalse)
  {
    if hi > 0 {
      PhisBehind(front, a, hi - 1, head, ifFalse);
      assert (front + a)[|front| + hi - 1] == a[hi - 1];
    }
  }

  /** Taking the moved debug values out first makes no difference to what is kept. */
  lemma {:induction false} WithoutErased(code: Code, at: nat, k: nat, gone: set<nat>)
    requires at <= k <= |code|
    ensures SelectsErased(Without(code, at, k, gone), 0) == Kept(code, at, k, gone)
  {
    if k > at {
      WithoutErased(code, at, k - 1, gone);
      var rest := Without(code, at, k - 1, gone);
      if k - 1 in gone {
        assert rest + [] == rest;
      } else {
        ErasedSnoc(rest, code[k - 1], 0);
      }
    }
  }

  /** Nor to the PHIs. */
  lemma {:induction false} WithoutPhis(code: Code, at: nat, k: nat, gone: set<nat>, head: BlockId, ifFalse: BlockId)
    requires at <= k <= |code| && forall d :: d in gone && d < |code| ==> code[d].Debug?
    ensures PhisMade(Without(code, at, k, gone), 0, head, ifFalse) == PhisOf(code, at, k, head, ifFalse)
  {
    if k > at {
      WithoutPhis(code, at, k - 1, gone, head, ifFalse);
      var rest := Without(code, at, k - 1, gone);
      if k - 1 in gone {
        assert rest + [] == rest;
      } else {
        PhisSnoc(rest, code[k - 1], 0, head, ifFalse);
      }
    }
  }

  lemma ErasedIsKept(front: Code, code: Code, at: nat, k: nat, gone: set<nat>)
    requires at <= k <= |code|
    ensures SelectsErased(front + Without(code, at, k, gone), |front|) == Kept(code, at, k, gone)
  {
    WithoutErased(code, at, k, gone);
    ErasedBehind(front, Without(code, at, k, gone));
  }

  lemma ErasedBehind(front: Code, a: Code)
    ensures SelectsErased(front + a, |front|) == SelectsErased(a, 0)
  {
    KeptBehind(front, a, |a|);
  }

  lemma MadeIsPhisOf(front: Code, code: Code, at: nat, k: nat, gone: set<nat>, head: BlockId, ifFalse: BlockId)
    requires at <= k <= |code| && forall d :: d in gone && d < |code| ==> code[d].Debug?
    ensures PhisMade(front + Without(code, at, k, gone), |front|, head, ifFalse) == PhisOf(code, at, k, head, ifFalse)
  {
    WithoutPhis(code, at, k, gone, head, ifFalse);
    MadeBehind(front, Without(code, at, k, gone), head, ifFalse);
  }

  lemma MadeBehind(front: Code, a: Code, head: BlockId, ifFalse: BlockId)
    ensures PhisMade(front + a, |front|, head, ifFalse) == PhisMade(a, 0, head, ifFalse)
  {
    PhisBehind(front, a, |a|, head, ifFalse);
  }

  lemma RenameAppend(a: Code, b: Code, from: BlockId, to: BlockId)
    ensures RenamePhis(a + b, from, to) == RenamePhis(a, from, to) + RenamePhis(b, from, to)
  {
  }

  /** Nor does renaming PHIs before. */
  lemma {:induction false} RenameKept(code: Code, from: BlockId, to: BlockId, lo: nat, hi: nat)
    requires lo <= hi <= |code|
    ensures Kept(RenamePhis(code, from, to), lo, hi, {}) == RenamePhis(Kept(code, lo, hi, {}), from, to)
  {
    if lo < hi {
      RenameKept(code, from, to, lo, hi - 1);
      RenameAppend(Kept(code, lo, hi - 1, {}), [code[hi - 1]], from, to);
      assert RenamePhis([code[hi - 1]], from, to) == [RenamePhi(code[hi - 1], from, to)];
    }
  }

  lemma {:induction false} RenamePhisOf(code: Code, from: BlockId, to: BlockId, lo: nat, hi: nat, head: BlockId, ifFalse: BlockId)
    requires lo <= hi <= |code|
    ensures PhisOf(RenamePhis(code, from, to), lo, hi, head, ifFalse) == PhisOf(code, lo, hi, head, ifFalse)
  {
    if lo < hi {
      RenamePhisOf(code, from, to, lo, hi - 1, head, ifFalse);
    }
  }

  function HeadWithBranch(head: Code, at: nat, first: Instr, tail: BlockId): Code
    requires at <= |head| && first.Select?
  {
    head[..at] + SelectsErased(head, at) + [CondBr(GetBrCond(first.cc), first.lhs, first.rhs, tail)]
  }

  /** Renaming the PHIs of the head before or after its selects go makes no difference. */
  lemma HeadRenamed(c: Code, at: nat, renamed: bool, b: BlockId, tail: BlockId)
    requires IsSelectAt(c, at)
    ensures var head := MaybeRenamed(HeadWithSelects(c, at), renamed, b, tail);
            |head| >= at && HeadWithBranch(head, at, c[at], tail) == MaybeRenamed(HeadCode(c, at, tail), renamed, b, tail)
  {
    var last, gone := LastSelect(c, at), Positions(Moved(c, at));
    ErasedIsKept(c[..at], c, at, last + 1, gone);
    BranchRenamed(c[..at], HeadWithSelects(c, at), Kept(c, at, last + 1, gone),
                  CondBr(GetBrCond(c[at].cc), c[at].lhs, c[at].rhs, tail), renamed, b, tail);
  }

  lemma BranchRenamed(front: Code, head: Code, kept: Code, br: Instr, renamed: bool, from: BlockId, to: BlockId)
    requires |front| <= |head| && head[..|front|] == front && SelectsErased(head, |front|) == kept && !br.Phi?
    ensures var head' := MaybeRenamed(head, renamed, from, to);
            head'[..|front|] + SelectsErased(head', |front|) + [br] == MaybeRenamed(front + kept + [br], renamed, from, to)
  {
    if renamed {
      RenameKept(head, from, to, |front|, |head|);
      assert RenamePhis(head, from, to)[..|front|] == RenamePhis(front, from, to);
      RenameAppend(front + kept, [br], from, to);
      RenameAppend(front, kept, from, to);
      assert RenamePhis([br], from, to) == [br];
    }
  }

  lemma MadeRenamed(a: Code, renamed: bool, from: BlockId, to: BlockId, lo: nat, head: BlockId, ifFalse: BlockId)
    requires lo <= |a|
    ensures |MaybeRenamed(a, renamed, from, to)| == |a|
    ensures PhisMade(MaybeRenamed(a, renamed, from, to), lo, head, ifFalse) == PhisMade(a, lo, head, ifFalse)
  {
    RenamePhisOf(a, from, to, lo, |a|, head, ifFalse);
  }

  lemma PhisRenamed(c: Code, at: nat, renamed: bool, b: BlockId, tail: BlockId, ifFalse: BlockId)
    requires IsSelectAt(c, at)
    ensures var head := MaybeRenamed(HeadWithSelects(c, at), renamed, b, tail);
            |head| >= at && PhisMade(head, at, b, ifFalse) == PhisOf(c, at, LastSelect(c, at) + 1, b, ifFalse)
  {
    GoneAreDebug(c, at);
    MadeIsPhisOf(c[..at], c, at, LastSelect(c, at) + 1, Positions(Moved(c, at)), b, ifFalse);
    MadeRenamed(HeadWithSelects(c, at), renamed, b, tail, at, b, ifFalse);
  }

  /** The code with the PHIs of some blocks renamed. */
  function RenamedIn(code: map<BlockId, Code>, blocks: set<BlockId>, from: BlockId, to: BlockId): map<BlockId, Code> {
    map x | x in code :: MaybeRenamed(code[x], x in blocks, from, to)
  }

  lemma RenamedOnce(code: map<BlockId, Code>, moved: set<BlockId>, s: BlockId, from: BlockId, to: BlockId)
    requires s in code && s !in moved
    ensures RenamedIn(code, moved, from, to)[s := RenamePhis(code[s], from, to)] == RenamedIn(code, moved + {s}, from, to)
  {
  }

  lemma RenamedNone(code: map<BlockId, Code>, from: BlockId, to: BlockId)
    ensures RenamedIn(code, {}, from, to) == code
  {
  }

  /** The edges when the targets in `moved` have gone from `from` to `to` and those in `rest` have not. */
  function EdgesMoved(succs: map<BlockId, set<BlockId>>, moved: set<BlockId>, rest: set<BlockId>, from: BlockId, to: BlockId):
    map<BlockId, set<BlockId>>
    requires to in succs
  {
    succs[to := succs[to] + moved][from := rest]
  }

  lemma EdgesUnmoved(succs: map<BlockId, set<BlockId>>, from: BlockId, to: BlockId)
    requires to in succs && from in succs
    ensures EdgesMoved(succs, {}, succs[from], from, to) == succs
  {
    assert succs[to] + {} == succs[to];
  }

  lemma EdgeMovedOnce(succs: map<BlockId, set<BlockId>>, moved: set<BlockId>, rest: set<BlockId>, s: BlockId,
                      from: BlockId, to: BlockId)
    requires to in succs && from in succs && from != to && s in rest
    ensures var now := EdgesMoved(succs, moved, rest, from, to);
            now[to := now[to] + {s}][from := now[from] - {s}] == EdgesMoved(succs, moved + {s}, rest - {s}, from, to)
  {
    assert succs[to] + moved + {s} == succs[to] + (moved + {s});
  }

  class MachineFunction {
    var layout: seq<BlockId>
    var code: map<BlockId, Code>
    var succs: map<BlockId, set<BlockId>>
    var nextId: BlockId

    constructor (f: Function)
      ensures View() == f
    {
      layout, code, succs, nextId := f.layout, f.code, f.succs, f.nextId;
    }

    function View(): Function
      reads this
    {
      Function(layout, code, succs, nextId)
    }

    /** The scan loop: finds the last select to gather and the debug values to move. */
    method ScanSelects(b: BlockId, at: nat) returns (last: nat, debugValues: seq<nat>, ghost dests: set<Reg>)
      requires b in code && IsSelectAt(code[b], at)
      ensures last == LastSelect(code[b], at)
      ensures debugValues == Moved(code[b], at)
      ensures dests == DestsOf(code[b], at, last + 1)
    {
      var c := code[b];
      var first := c[at];
      var selectDests := {first.dst};
      last, debugValues := at, [];
      var k := at;
      // Gathered so far: the selects before `k`, the last of them at `last`.
      while k < |c| && !StopsScan(c[k], first, selectDests)
        invariant at <= k <= |c| && at <= last < |c| && c[last].Select?
        invariant k > at ==> last < k && !StopsScan(first, first, {first.dst})
        invariant selectDests == {first.dst} + DestsOf(c, at, k)
        invariant debugValues == DebugOf(c, at, k)
        invariant k == at ==> selectDests == {first.dst} && last == at
        invariant forall j :: last < j < k ==> !c[j].Select?
        invariant ScanFrom(c, first, at, {first.dst}, at) == ScanFrom(c, first, k, selectDests, last)
      {
        if c[k].Select? {
          last := k;
          var collected := CollectDebugValues(c, k);
          debugValues := debugValues + collected;
          selectDests := selectDests + {c[k].dst};
        }
        k := k + 1;
      }
      ScanDone(c, at, k, last);
      DestsDone(c, at, k, last);
      dests := selectDests;
    }

    /** Nor was a destination; in a run of one select that stops at once the first is there all the same. */
    static lemma DestsDone(c: Code, at: nat, k: nat, last: nat)
      requires IsSelectAt(c, at) && at <= k <= |c| && at <= last < |c|
      requires k > at ==> last < k
      requires k == at ==> last == at
      requires forall j :: last < j < k ==> !c[j].Select?
      ensures {c[at].dst} + DestsOf(c, at, k) == DestsOf(c, at, last + 1)
    {
      if k > at {
        DestsOfNoSelects(c, at, last + 1, k);
        DestsOfFirst(c, at, k);
      } else {
        assert DestsOf(c, at, at) == {};
      }
    }

    /** When the loop stops at `k`, no debug value was collected after the last select. */
    static lemma ScanDone(c: Code, at: nat, k: nat, last: nat)
      requires IsSelectAt(c, at) && at <= k <= |c| && at <= last < |c| && last == LastSelect(c, at)
      requires k > at ==> last < k && !StopsScan(c[at], c[at], {c[at].dst})
      requires k == at ==> StopsScan(c[at], c[at], {c[at].dst})
      requires forall j :: last < j < k ==> !c[j].Select?
      ensures DebugOf(c, at, k) == Moved(c, at)
    {
      MovedIs(c, at);
      if k > at {
        DebugOfNoSelects(c, at, last + 1, k);
      }
    }

    /** The debug values of the select at `k`: those of its destination in the row right after it. */
    static method CollectDebugValues(c: Code, k: nat) returns (collected: seq<nat>)
      requires IsSelectAt(c, k)
      ensures collected == TrailingDebug(c, k + 1, c[k].dst)
    {
      collected := [];
      var d := k + 1;
      while d < |c| && c[d].Debug? && c[d].isValue
        invariant k < d <= |c|
        invariant collected + TrailingDebug(c, d, c[k].dst) == TrailingDebug(c, k + 1, c[k].dst)
      {
        TrailingDebugStep(c, d, c[k].dst, collected);
        if c[d].reg == c[k].dst {
          collected := collected + [d];
        }
        d := d + 1;
      }
    }

    static lemma TrailingDebugStep(c: Code, d: nat, reg: Reg, collected: seq<nat>)
      requires d < |c| && c[d].Debug? && c[d].isValue
      ensures collected + TrailingDebug(c, d, reg) ==
              (if c[d].reg == reg then collected + [d] else collected) + TrailingDebug(c, d + 1, reg)
    {
      if c[d].reg == reg {
        assert collected + ([d] + TrailingDebug(c, d + 1, reg)) == (collected + [d]) + TrailingDebug(c, d + 1, reg);
      } else {
        assert [] + TrailingDebug(c, d + 1, reg) == TrailingDebug(c, d + 1, reg);
      }
    }

    method CreateBlock() returns (b: BlockId)
      modifies this
      ensures b == old(nextId) && nextId == old(nextId) + 1
      ensures code == old(code)[b := []] && succs == old(succs)[b := {}] && layout == old(layout)
    {
      b := nextId;
      nextId := nextId + 1;
      code := code[b := []];
      succs := succs[b := {}];
    }

    /** Puts `x` in front of position `p` of the layout. */
    method InsertBlock(p: nat, x: BlockId)
      requires p <= |layout|
      modifies this`layout
      ensures layout == old(layout)[..p] + [x] + old(layout)[p..]
    {
      layout := layout[..p] + [x] + layout[p..];
    }

    method Position(b: BlockId) returns (p: nat)
      requires b in layout
      ensures p < |layout| && layout[p] == b
      ensures forall k :: 0 <= k < p ==> layout[k] != b
    {
      p := 0;
      while layout[p] != b
        invariant p < |layout|
        invariant b in layout[p..]
        invariant forall k :: 0 <= k < p ==> layout[k] != b
        decreases |layout| - p
      {
        assert layout[p..] == [layout[p]] + layout[p + 1..];
        p := p + 1;
      }
    }

    /** Moves every outgoing edge of `from` to `to`, and makes the PHIs at the
        other end of each edge name `to` instead. */
    method TransferSuccessorsAndUpdatePhis(from: BlockId, to: BlockId)
      requires from in succs && to in succs && from != to
      requires succs[from] <= code.Keys
      modifies this`code, this`succs
      ensures succs == old(succs)[to := old(succs[to]) + old(succs[from])][from := {}]
      ensures code == RenamedIn(old(code), old(succs[from]), from, to)
    {
      ghost var edges, succs0, code0 := succs[from], succs, code;
      ghost var moved: set<BlockId> := {};
      RenamedNone(code, from, to);
      EdgesUnmoved(succs, from, to);
      while succs[from] != {}
        invariant from in succs && to in succs && moved !! succs[from] && moved + succs[from] == edges
        invariant succs == EdgesMoved(succs0, moved, succs[from], from, to)
        invariant code == RenamedIn(code0, moved, from, to)
        decreases succs[from]
      {
        var s :| s in succs[from];
        RenamedOnce(code0, moved, s, from, to);
        EdgeMovedOnce(succs0, moved, succs[from], s, from, to);
        succs := succs[to := succs[to] + {s}][from := succs[from] - {s}];
        code := code[s := RenamePhis(code[s], from, to)];
        moved := moved + {s};
      }
      assert moved == edges;
    }

    /** Makes the two new blocks; the position after `b` stays put while both are inserted in front of it. */
    method InsertTriangle(b: BlockId) returns (tail: BlockId, ifFalse: BlockId)
      requires b in layout
      modifies this
      ensures tail == old(nextId) && ifFalse == old(nextId) + 1 && nextId == old(nextId) + 2
      ensures layout == InsertAfter(old(layout), b, [ifFalse, tail])
      ensures code == old(code)[tail := []][ifFalse := []]
      ensures succs == old(succs)[tail := {}][ifFalse := {}]
    {
      var p := Position(b);
      InsertAfterAt(layout, b, [nextId + 1, nextId], p);
      tail := CreateBlock();
      ifFalse := CreateBlock();
      InsertBlock(p + 1, ifFalse);
      InsertBlock(p + 2, tail);
    }

    /** Moves what follows the run to the tail, with the edges out of the block. */
    method SpliceTail(b: BlockId, at: nat, last: nat, debugValues: seq<nat>, tail: BlockId)
      requires b in code && tail in code && code.Keys == succs.Keys && b != tail
      requires succs[b] <= code.Keys - {tail} && succs[tail] == {}
      requires IsSelectAt(code[b], at)
      requires last == LastSelect(code[b], at) && debugValues == Moved(code[b], at)
      modifies this`code, this`succs
      ensures succs == old(succs)[tail := old(succs[b])][b := {}]
      ensures code == RenamedIn(old(code)[b := HeadWithSelects(old(code[b]), at)][tail := TailRest(old(code[b]), at)],
                                old(succs[b]), b, tail)
    {
      assert {} + succs[b] == succs[b];
      var headCode, tailCode := SplitBlock(code[b], at, last, debugValues);
      code := code[b := headCode][tail := tailCode];
      TransferSuccessorsAndUpdatePhis(b, tail);
    }

    method AddSuccessor(b: BlockId, s: BlockId)
      requires b in succs
      modifies this`succs
      ensures succs == old(succs)[b := old(succs[b]) + {s}]
    {
      succs := succs[b := succs[b] + {s}];
    }

    method AddTriangleEdges(b: BlockId, ifFalse: BlockId, tail: BlockId)
      requires b in succs && ifFalse in succs && b != ifFalse && succs[b] == succs[ifFalse] == {}
      modifies this`succs
      ensures succs == old(succs)[b := {ifFalse, tail}][ifFalse := {tail}]
    {
      AddSuccessor(b, ifFalse);
      AddSuccessor(b, tail);
      AddSuccessor(ifFalse, tail);
      assert succs[b] == {ifFalse, tail} && succs[ifFalse] == {tail};
    }

    /** The blocks and edges of the triangle, with the selects still in the head and no branch or PHI yet. */
    method MakeTriangle(b: BlockId, at: nat, last: nat, debugValues: seq<nat>)
      returns (tail: BlockId, ifFalse: BlockId)
      requires b in layout && b in code && b in succs && code.Keys == succs.Keys && succs[b] <= code.Keys
      requires forall x :: x in code ==> x < nextId
      requires IsSelectAt(code[b], at) && last == LastSelect(code[b], at) && debugValues == Moved(code[b], at)
      modifies this
      ensures tail == old(nextId) && ifFalse == old(nextId) + 1 && nextId == old(nextId) + 2
      ensures layout == InsertAfter(old(layout), b, [ifFalse, tail])
      ensures succs == old(succs)[tail := old(succs[b])][ifFalse := {tail}][b := {ifFalse, tail}]
      ensures code == RenamedIn(old(code)[b := HeadWithSelects(old(code[b]), at)][tail := TailRest(old(code[b]), at)][ifFalse := []],
                                old(succs[b]), b, tail)
    {
      ghost var succs0, code0 := succs, code;
      tail, ifFalse := InsertTriangle(b);
      SpliceTail(b, at, last, debugValues, tail);
      TriangleCode(code0, b, HeadWithSelects(code0[b], at), tail, TailRest(code0[b], at), ifFalse);
      AddTriangleEdges(b, ifFalse, tail);
      TriangleEdges(succs0, b, tail, ifFalse);
    }

    static lemma TriangleEdges(succs: map<BlockId, set<BlockId>>, b: BlockId, tail: BlockId, ifFalse: BlockId)
      requires b in succs && b != tail && b != ifFalse && tail != ifFalse
      ensures succs[tail := {}][ifFalse := {}][tail := succs[b]][b := {}][b := {ifFalse, tail}][ifFalse := {tail}] ==
              succs[tail := succs[b]][ifFalse := {tail}][b := {ifFalse, tail}]
    {
    }

    static lemma TriangleCode(code: map<BlockId, Code>, b: BlockId, head: Code, tail: BlockId, rest: Code, ifFalse: BlockId)
      requires b in code && b != tail && b != ifFalse && tail != ifFalse
      ensures code[tail := []][ifFalse := []][b := head][tail := rest] == code[b := head][tail := rest][ifFalse := []]
    {
    }

    /** Branches from the head, erases its selects and gives the tail their PHIs. */
    method ReplaceSelects(b: BlockId, at: nat, first: Instr, tail: BlockId, ifFalse: BlockId)
      requires b in code && tail in code && b != tail && at <= |code[b]| && first.Select?
      modifies this`code
      ensures code == old(code)
                [b := HeadWithBranch(old(code[b]), at, first, tail)]
                [tail := PhisMade(old(code[b]), at, b, ifFalse) + old(code[tail])]
    {
      var kept, phis := CreatePhis(code[b], at, b, ifFalse);
      code := code[b := kept + [CondBr(GetBrCond(first.cc), first.lhs, first.rhs, tail)]];
      code := code[tail := phis + code[tail]];
    }

    /** Expands the run of selects that starts at position `at` of block `b`. */
    method EmitSelectPseudo(b: BlockId, at: nat) returns (tail: BlockId)
      requires CanExpand(View(), b, at)
      modifies this
      ensures View() == Expand(old(View()), b, at)
      ensures tail == old(nextId)
    {
      ghost var f := View();
      var first := code[b][at];
      var last, debugValues, _ := ScanSelects(b, at);
      var ifFalse;
      tail, ifFalse := MakeTriangle(b, at, last, debugValues);
      SuccsAreExpanded(f, b, at, succs);
      ghost var made := code;
      assert f.code == old(code) && f.succs == old(succs) && f.nextId == tail && f.nextId + 1 == ifFalse;
      MadeIs(f, b, at, made, HeadWithSelects(f.code[b], at), TailRest(f.code[b], at));
      HeadRenamed(f.code[b], at, b in f.succs[b], b, tail);
      PhisRenamed(f.code[b], at, b in f.succs[b], b, tail, ifFalse);
      ReplaceSelects(b, at, first, tail, ifFalse);
      CodeIsExpanded(f, b, at, made, code, HeadWithBranch(made[b], at, first, tail), PhisMade(made[b], at, b, ifFalse));
      ExpandParts(f, b, at, View());
    }

    static lemma ExpandParts(f: Function, b: BlockId, at: nat, g: Function)
      requires CanExpand(f, b, at) && g.layout == InsertAfter(f.layout, b, [f.nextId + 1, f.nextId]) && g.nextId == f.nextId + 2
      requires g.code == Expand(f, b, at).code && g.succs == Expand(f, b, at).succs
      ensures g == Expand(f, b, at)
    {
    }

    static lemma CodeIsExpanded(f: Function, b: BlockId, at: nat, made: map<BlockId, Code>, code: map<BlockId, Code>,
                                head: Code, phis: Code)
      requires CanExpand(f, b, at)
      requires made.Keys == f.code.Keys + {f.nextId, f.nextId + 1}
      requires made[f.nextId] == TailRest(f.code[b], at) && made[f.nextId + 1] == []
      requires forall x :: x in f.code && x != b ==> made[x] == MaybeRenamed(f.code[x], x in f.succs[b], b, f.nextId)
      requires head == MaybeRenamed(HeadCode(f.code[b], at, f.nextId), b in f.succs[b], b, f.nextId)
      requires phis == PhisOf(f.code[b], at, LastSelect(f.code[b], at) + 1, b, f.nextId + 1)
      requires code == made[b := head][f.nextId := phis + made[f.nextId]]
      ensures code == Expand(f, b, at).code
    {
      assert b < f.nextId;
      TwoReplaced(made, code, b, head, f.nextId, phis + made[f.nextId]);
      PointwiseExpanded(f, b, at, made, code);
      SameCode(f, b, at, code);
    }

    static lemma TwoReplaced(made: map<BlockId, Code>, code: map<BlockId, Code>, b: BlockId, x: Code, t: BlockId, y: Code)
      requires b in made && t in made && b != t && code == made[b := x][t := y]
      ensures code.Keys == made.Keys && code[b] == x && code[t] == y
      ensures forall k :: k in code && k != b && k != t ==> code[k] == made[k]
    {
    }

    /** The code of the triangle before its selects are replaced, block by block. */
    static lemma MadeIs(f: Function, b: BlockId, at: nat, made: map<BlockId, Code>, head: Code, rest: Code)
      requires CanExpand(f, b, at)
      requires made == RenamedIn(f.code[b := head][f.nextId := rest][f.nextId + 1 := []], f.succs[b], b, f.nextId)
      ensures made.Keys == f.code.Keys + {f.nextId, f.nextId + 1}
      ensures made[f.nextId] == rest && made[f.nextId + 1] == []
      ensures made[b] == MaybeRenamed(head, b in f.succs[b], b, f.nextId)
      ensures forall x :: x in f.code && x != b ==> made[x] == MaybeRenamed(f.code[x], x in f.succs[b], b, f.nextId)
    {
      assert forall x :: x in f.code ==> x < f.nextId;
      assert f.succs[b] <= f.code.Keys;
      ThreeRenamed(f.code, f.succs[b], b, head, f.nextId, rest, f.nextId + 1);
    }

    static lemma ThreeRenamed(code: map<BlockId, Code>, blocks: set<BlockId>, b: BlockId, head: Code, tail: BlockId, rest: Code,
                              ifFalse: BlockId)
      requires b in code && tail !in code && ifFalse !in code && tail != ifFalse && blocks <= code.Keys
      ensures var made := RenamedIn(code[b := head][tail := rest][ifFalse := []], blocks, b, tail);
              && made.Keys == code.Keys + {tail, ifFalse} && made[tail] == rest && made[ifFalse] == []
              && made[b] == MaybeRenamed(head, b in blocks, b, tail)
              && forall x :: x in code && x != b ==> made[x] == MaybeRenamed(code[x], x in blocks, b, tail)
    {
    }

    static lemma PointwiseExpanded(f: Function, b: BlockId, at: nat, made: map<BlockId, Code>, code: map<BlockId, Code>)
      requires CanExpand(f, b, at)
      requires made.Keys == code.Keys == f.code.Keys + {f.nextId, f.nextId + 1} && made[f.nextId + 1] == []
      requires forall x :: x in f.code && x != b ==> made[x] == MaybeRenamed(f.code[x], x in f.succs[b], b, f.nextId)
      requires code[b] == MaybeRenamed(HeadCode(f.code[b], at, f.nextId), b in f.succs[b], b, f.nextId)
      requires code[f.nextId] == TailCode(f.code[b], at, b, f.nextId + 1)
      requires forall x :: x in code && x != b && x != f.nextId ==> code[x] == made[x]
      ensures forall x :: x in code ==> code[x] == ExpandedCode(f, b, at, x)
    {
      forall x | x in code ensures code[x] == ExpandedCode(f, b, at, x) {
        assert x in f.code ==> x < f.nextId;
      }
    }

    static lemma SameCode(f: Function, b: BlockId, at: nat, code: map<BlockId, Code>)
      requires CanExpand(f, b, at)
      requires code.Keys == f.code.Keys + {f.nextId, f.nextId + 1}
      requires forall x :: x in code ==> code[x] == ExpandedCode(f, b, at, x)
      ensures code == Expand(f, b, at).code
    {
    }

    static lemma SuccsAreExpanded(f: Function, b: BlockId, at: nat, succs: map<BlockId, set<BlockId>>)
      requires CanExpand(f, b, at)
      requires succs == f.succs[f.nextId := f.succs[b]][f.nextId + 1 := {f.nextId}][b := {f.nextId + 1, f.nextId}]
      ensures succs == Expand(f, b, at).succs
    {
      assert forall x :: x in f.code ==> x < f.nextId;
      forall x | x in succs ensures succs[x] == ExpandedSuccs(f, b, at, x) {
      }
    }

    /** The instructions up to `last`, and after it, with the debug values moved to the front of the second part. */
    static method SplitBlock(c: Code, at: nat, last: nat, debugValues: seq<nat>)
      returns (headCode: Code, tailCode: Code)
      requires IsSelectAt(c, at) && last == LastSelect(c, at) && debugValues == Moved(c, at)
      ensures headCode == HeadWithSelects(c, at)
      ensures tailCode == TailRest(c, at)
    {
      headCode := CopyWithout(c, 0, last + 1, debugValues);
      HeadSplit(c, at);
      tailCode := CopyAt(c, debugValues);
      var rest := CopyWithout(c, last + 1, |c|, debugValues);
      tailCode := tailCode + rest;
    }

    static method CopyAt(c: Code, positions: seq<nat>) returns (copy: Code)
      requires forall k :: 0 <= k < |positions| ==> positions[k] < |c|
      ensures copy == Pick(c, positions)
    {
      copy := [];
      for k := 0 to |positions|
        invariant |copy| == k && copy == Pick(c, positions)[..k]
      {
        copy := copy + [c[positions[k]]];
      }
    }

    static method CopyWithout(c: Code, lo: nat, hi: nat, moved: seq<nat>) returns (copy: Code)
      requires lo <= hi <= |c|
      ensures copy == Without(c, lo, hi, Positions(moved))
    {
      copy := [];
      var gone := Positions(moved);
      for k := lo to hi
        invariant copy == Without(c, lo, k, gone)
      {
        if k !in gone {
          copy := copy + [c[k]];
        }
      }
    }

    static lemma HeadSplit(c: Code, at: nat)
      requires IsSelectAt(c, at)
      ensures Without(c, 0, LastSelect(c, at) + 1, Positions(Moved(c, at))) == HeadWithSelects(c, at)
    {
      var gone := Positions(Moved(c, at));
      WithoutSplit(c, 0, at, LastSelect(c, at) + 1, gone);
      WithoutNone(c, at, gone);
    }

    /** Erases the selects from position `at` on, and makes a PHI for each of them. */
    static method CreatePhis(headCode: Code, at: nat, head: BlockId, ifFalse: BlockId)
      returns (kept: Code, phis: Code)
      requires at <= |headCode|
      ensures kept == headCode[..at] + SelectsErased(headCode, at)
      ensures phis == PhisMade(headCode, at, head, ifFalse)
    {
      kept, phis := headCode[..at], [];
      for j := at to |headCode|
        invariant kept == headCode[..at] + Kept(headCode, at, j, {})
        invariant phis == PhisOf(headCode, at, j, head, ifFalse)
      {
        if headCode[j].Select? {
          phis := phis + [PhiFor(headCode[j], head, ifFalse)];
        } else {
          kept := kept + [headCode[j]];
        }
      }
    }
  }
}
