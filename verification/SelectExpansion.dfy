/** `emitSelectPseudo`: gathers a run of select pseudo-instructions that share
    one condition and replaces it by a Head / IfFalse / Tail triangle. The
    functions say what the result is; the class does it in place, step by step. */
module SelectExpansion {
  import opened Conditions
  import opened MachineIR

  // ----- The scan -----

  /** Every register operand an instruction reads, PHI sources included. */
  function Operands(x: Instr): set<Reg> {
    if x.Phi? then set inc | inc in x.incoming :: inc.reg else Uses(x)
  }

  predicate IsHarmful(x: Instr) {
    x.Op? && (x.sideEffects || x.mayLoadOrStore)
  }

  /** Does the scan that started at `first` and gathered the destinations `dests` break at `x`? */
  predicate StopsScan(x: Instr, first: Instr, dests: set<Reg>)
    requires first.Select?
  {
    if x.Debug? then false
    else if x.Select? then
      x.lhs != first.lhs || x.rhs != first.rhs || x.cc != first.cc || x.tv in dests || x.fv in dests
    else IsHarmful(x) || exists r :: r in Operands(x) && r in dests
  }

  /** The last select gathered, scanning on from position `k`. */
  function ScanFrom(code: Code, first: Instr, k: nat, dests: set<Reg>, last: nat): nat
    requires first.Select?
    decreases |code| - k
  {
    if k >= |code| || StopsScan(code[k], first, dests) then last
    else if code[k].Select? then ScanFrom(code, first, k + 1, dests + {code[k].dst}, k)
    else ScanFrom(code, first, k + 1, dests, last)
  }

  /** The destinations of the selects from `lo` up to `hi`. */
  function DestsOf(code: Code, lo: nat, hi: nat): set<Reg>
    requires lo <= hi <= |code|
  {
    if lo == hi then {}
    else DestsOf(code, lo, hi - 1) + (if code[hi - 1].Select? then {code[hi - 1].dst} else {})
  }

  predicate IsSelectAt(code: Code, at: nat) {
    at < |code| && code[at].Select?
  }

  function LastSelect(code: Code, at: nat): (last: nat)
    requires IsSelectAt(code, at)
    ensures at <= last < |code| && code[last].Select?
  {
    ScanIsSelect(code, code[at], at, {code[at].dst}, at);
    ScanFrom(code, code[at], at, {code[at].dst}, at)
  }

  lemma {:induction false} ScanIsSelect(code: Code, first: Instr, k: nat, dests: set<Reg>, last: nat)
    requires first.Select? && IsSelectAt(code, last) && last <= k
    ensures last <= ScanFrom(code, first, k, dests, last) < |code|
    ensures code[ScanFrom(code, first, k, dests, last)].Select?
    decreases |code| - k
  {
    if k >= |code| || StopsScan(code[k], first, dests) {
    } else if code[k].Select? {
      ScanIsSelect(code, first, k + 1, dests + {code[k].dst}, k);
    } else {
      ScanIsSelect(code, first, k + 1, dests, last);
    }
  }

  // ----- Debug values -----

  /** The debug values of `reg` in the unbroken row of debug values at `k`. */
  function TrailingDebug(code: Code, k: nat, reg: Reg): seq<nat>
    decreases |code| - k
  {
    if k >= |code| || !code[k].Debug? || !code[k].isValue then []
    else (if code[k].reg == reg then [k] else []) + TrailingDebug(code, k + 1, reg)
  }

  /** The debug values of the selects from `lo` up to `hi`, in the order they are met. */
  function DebugOf(code: Code, lo: nat, hi: nat): seq<nat>
    requires lo <= hi <= |code|
  {
    if lo == hi then []
    else DebugOf(code, lo, hi - 1) +
         (if code[hi - 1].Select? then TrailingDebug(code, hi, code[hi - 1].dst) else [])
  }

  lemma {:induction false} TrailingDebugRange(code: Code, k: nat, reg: Reg)
    ensures forall d :: d in TrailingDebug(code, k, reg) ==> k <= d < |code| && code[d].Debug?
    decreases |code| - k
  {
    if k >= |code| || !code[k].Debug? || !code[k].isValue {
    } else {
      TrailingDebugRange(code, k + 1, reg);
    }
  }

  lemma {:induction false} DebugOfRange(code: Code, lo: nat, hi: nat)
    requires lo <= hi <= |code|
    ensures forall d :: d in DebugOf(code, lo, hi) ==> lo < d < |code| && code[d].Debug?
  {
    if lo < hi {
      DebugOfRange(code, lo, hi - 1);
      TrailingDebugRange(code, hi, if code[hi - 1].Select? then code[hi - 1].dst else 0);
    }
  }

  lemma {:induction false} DebugOfNoSelects(code: Code, lo: nat, mid: nat, hi: nat)
    requires lo <= mid <= hi <= |code|
    requires forall j :: mid <= j < hi ==> !code[j].Select?
    ensures DebugOf(code, lo, hi) == DebugOf(code, lo, mid)
  {
    if mid < hi {
      DebugOfNoSelects(code, lo, mid, hi - 1);
    }
  }

  lemma {:induction false} DestsOfNoSelects(code: Code, lo: nat, mid: nat, hi: nat)
    requires lo <= mid <= hi <= |code|
    requires forall j :: mid <= j < hi ==> !code[j].Select?
    ensures DestsOf(code, lo, hi) == DestsOf(code, lo, mid)
  {
    if mid < hi {
      DestsOfNoSelects(code, lo, mid, hi - 1);
    }
  }

  lemma {:induction false} DestsOfFirst(code: Code, at: nat, hi: nat)
    requires IsSelectAt(code, at) && at < hi <= |code|
    ensures code[at].dst in DestsOf(code, at, hi)
  {
    if at + 1 < hi {
      DestsOfFirst(code, at, hi - 1);
    }
  }

  // ----- The pieces of the two new blocks -----

  function Positions(moved: seq<nat>): set<nat> {
    set d | d in moved
  }

  /** The instructions from `lo` up to `hi`, without those at the positions in `gone`. */
  function Without(code: Code, lo: nat, hi: nat, gone: set<nat>): Code
    requires lo <= hi <= |code|
  {
    if lo == hi then []
    else Without(code, lo, hi - 1, gone) + (if hi - 1 in gone then [] else [code[hi - 1]])
  }

  /** The instructions of a gathered run that stay in the head. */
  function Kept(code: Code, lo: nat, hi: nat, gone: set<nat>): Code
    requires lo <= hi <= |code|
  {
    if lo == hi then []
    else
      var kept := Kept(code, lo, hi - 1, gone);
      if code[hi - 1].Select? || hi - 1 in gone then kept else kept + [code[hi - 1]]
  }

  /** %Result = phi [ %TrueValue, HeadMBB ], [ %FalseValue, IfFalseMBB ] */
  function PhiFor(x: Instr, head: BlockId, ifFalse: BlockId): Instr
    requires x.Select?
  {
    Phi(x.dst, [Incoming(x.tv, head), Incoming(x.fv, ifFalse)])
  }

  function PhisOf(code: Code, lo: nat, hi: nat, head: BlockId, ifFalse: BlockId): (phis: Code)
    requires lo <= hi <= |code|
    ensures forall x :: x in phis ==> x.Phi?
  {
    if lo == hi then []
    else
      var phis := PhisOf(code, lo, hi - 1, head, ifFalse);
      if code[hi - 1].Select? then phis + [PhiFor(code[hi - 1], head, ifFalse)] else phis
  }

  function Pick(code: Code, at: seq<nat>): Code
    requires forall k :: 0 <= k < |at| ==> at[k] < |code|
  {
    seq(|at|, k requires 0 <= k < |at| => code[at[k]])
  }

  /** The debug values that move. A first select that reads its own destination
      breaks the scan before any is collected. */
  function Moved(code: Code, at: nat): (moved: seq<nat>)
    requires IsSelectAt(code, at)
    ensures forall d :: d in moved ==> at < d < |code| && code[d].Debug?
    ensures forall k :: 0 <= k < |moved| ==> moved[k] < |code|
  {
    if StopsScan(code[at], code[at], {code[at].dst}) then []
    else
      DebugOfRange(code, at, LastSelect(code, at) + 1);
      var moved := DebugOf(code, at, LastSelect(code, at) + 1);
      assert forall k :: 0 <= k < |moved| ==> moved[k] in moved;
      DebugOf(code, at, LastSelect(code, at) + 1)
  }

  lemma MovedIs(code: Code, at: nat)
    requires IsSelectAt(code, at)
    ensures Moved(code, at) ==
            if StopsScan(code[at], code[at], {code[at].dst}) then [] else DebugOf(code, at, LastSelect(code, at) + 1)
  {
  }

  /** The head: what stood before the run, the rest of the run, and the branch around IfFalse. */
  function HeadCode(code: Code, at: nat, tail: BlockId): Code
    requires IsSelectAt(code, at)
  {
    code[..at] + Kept(code, at, LastSelect(code, at) + 1, Positions(Moved(code, at))) +
    [CondBr(GetBrCond(code[at].cc), code[at].lhs, code[at].rhs, tail)]
  }

  lemma GoneAreDebug(code: Code, at: nat)
    requires IsSelectAt(code, at)
    ensures forall d :: d in Positions(Moved(code, at)) ==> d < |code| && code[d].Debug?
  {
  }

  function TailRest(code: Code, at: nat): Code
    requires IsSelectAt(code, at)
  {
    Pick(code, Moved(code, at)) + Without(code, LastSelect(code, at) + 1, |code|, Positions(Moved(code, at)))
  }

  function TailCode(code: Code, at: nat, head: BlockId, ifFalse: BlockId): Code
    requires IsSelectAt(code, at)
  {
    PhisOf(code, at, LastSelect(code, at) + 1, head, ifFalse) + TailRest(code, at)
  }

  function RenameIncoming(incoming: seq<Incoming>, from: BlockId, to: BlockId): (r: seq<Incoming>)
    ensures |r| == |incoming|
  {
    seq(|incoming|, k requires 0 <= k < |incoming| =>
      if incoming[k].block == from then incoming[k].(block := to) else incoming[k])
  }

  function RenamePhi(x: Instr, from: BlockId, to: BlockId): Instr {
    if x.Phi? then x.(incoming := RenameIncoming(x.incoming, from, to)) else x
  }

  function RenamePhis(code: Code, from: BlockId, to: BlockId): (r: Code)
    ensures |r| == |code|
    ensures forall k :: 0 <= k < |code| ==> r[k] == RenamePhi(code[k], from, to)
  {
    seq(|code|, k requires 0 <= k < |code| => RenamePhi(code[k], from, to))
  }

  /** The PHIs of a block at the other end of a transferred edge name the new block. */
  function MaybeRenamed(code: Code, renamed: bool, from: BlockId, to: BlockId): Code {
    if renamed then RenamePhis(code, from, to) else code
  }

  function InsertAfter(layout: seq<BlockId>, b: BlockId, xs: seq<BlockId>): seq<BlockId> {
    if layout == [] then []
    else if layout[0] == b then [b] + xs + layout[1..]
    else [layout[0]] + InsertAfter(layout[1..], b, xs)
  }

  // ----- The whole expansion -----

  /** Block numbers are allocated upwards, and edges lead to blocks. */
  predicate Allocated(f: Function) {
    && f.code.Keys == f.succs.Keys
    && (forall x :: x in f.code ==> x < f.nextId && f.succs[x] <= f.code.Keys)
    && (forall x :: x in f.layout ==> x in f.code)
  }

  predicate CanExpand(f: Function, b: BlockId, at: nat) {
    Allocated(f) && b in f.layout && IsSelectAt(f.code[b], at)
  }

  /** The code of block `x` once the run at `at` in `b` is expanded. */
  function ExpandedCode(f: Function, b: BlockId, at: nat, x: BlockId): Code
    requires CanExpand(f, b, at) && (x in f.code || x == f.nextId || x == f.nextId + 1)
  {
    if x == f.nextId + 1 then []
    else if x == f.nextId then TailCode(f.code[b], at, b, f.nextId + 1)
    else
      MaybeRenamed(if x == b then HeadCode(f.code[b], at, f.nextId) else f.code[x], x in f.succs[b], b, f.nextId)
  }

  function ExpandedSuccs(f: Function, b: BlockId, at: nat, x: BlockId): set<BlockId>
    requires CanExpand(f, b, at) && (x in f.code || x == f.nextId || x == f.nextId + 1)
  {
    if x == f.nextId + 1 then {f.nextId}
    else if x == f.nextId then f.succs[b]
    else if x == b then {f.nextId + 1, f.nextId}
    else f.succs[x]
  }

  /** The triangle: the block itself is Head, `nextId` is Tail and `nextId + 1` is IfFalse. */
  function Expand(f: Function, b: BlockId, at: nat): Function
    requires CanExpand(f, b, at)
  {
    Function(
      InsertAfter(f.layout, b, [f.nextId + 1, f.nextId]),
      map x | x in f.code.Keys + {f.nextId, f.nextId + 1} :: ExpandedCode(f, b, at, x),
      map x | x in f.code.Keys + {f.nextId, f.nextId + 1} :: ExpandedSuccs(f, b, at, x),
      f.nextId + 2)
  }

  // ----- Facts the in-place version needs -----

  lemma {:induction false} InsertAfterAt(layout: seq<BlockId>, b: BlockId, xs: seq<BlockId>, p: nat)
    requires p < |layout| && layout[p] == b
    requires forall k :: 0 <= k < p ==> layout[k] != b
    ensures InsertAfter(layout, b, xs) == layout[..p + 1] + xs + layout[p + 1..]
  {
    if p == 0 {
      assert layout[..1] == [b];
    } else {
      InsertAfterAt(layout[1..], b, xs, p - 1);
      assert layout[..p + 1] == [layout[0]] + layout[1..][..p];
      assert layout[1..][p..] == layout[p + 1..];
    }
  }

  lemma {:induction false} WithoutSplit(code: Code, lo: nat, mid: nat, hi: nat, gone: set<nat>)
    requires lo <= mid <= hi <= |code|
    ensures Without(code, lo, hi, gone) == Without(code, lo, mid, gone) + Without(code, mid, hi, gone)
  {
    if mid < hi {
      WithoutSplit(code, lo, mid, hi - 1, gone);
    }
  }

  lemma {:induction false} WithoutNone(code: Code, hi: nat, gone: set<nat>)
    requires hi <= |code| && forall d :: d in gone ==> hi <= d
    ensures Without(code, 0, hi, gone) == code[..hi]
  {
    if hi > 0 {
      WithoutNone(code, hi - 1, gone);
    }
  }
}
