/** Which instructions an expansion gathers and moves, told from the
    instructions' own fields. */
module SelectExtent {
  import opened MachineIR
  import opened SelectExpansion
  import opened SelectSimulation

  // ----- How far the run extends -----

  /** A select from `lo` up to `hi` writes `r`. */
  predicate SelectWrites(code: Code, lo: nat, hi: nat, r: Reg)
    requires lo <= hi <= |code|
  {
    exists i :: lo <= i < hi && code[i].Select? && code[i].dst == r
  }

  /** May the instruction at `j` stand in the run that starts at `at`? A select
      must have the condition of the first, an ordinary instruction no side effect
      and no access to memory, and nothing may read a result of the run. */
  predicate MayJoin(code: Code, at: nat, j: nat)
    requires IsSelectAt(code, at) && at < j < |code|
  {
    match code[j]
    case Debug(_, _) => true
    case Jump(_) => true
    case Select(_, lhs, rhs, cc, tv, fv) =>
      && lhs == code[at].lhs && rhs == code[at].rhs && cc == code[at].cc
      && !SelectWrites(code, at, j, tv) && !SelectWrites(code, at, j, fv)
    case Op(_, _, uses, sideEffects, mayLoadOrStore) =>
      !sideEffects && !mayLoadOrStore && forall r :: r in uses ==> !SelectWrites(code, at, j, r)
    case CondBr(_, lhs, rhs, _) => !SelectWrites(code, at, j, lhs) && !SelectWrites(code, at, j, rhs)
    case Return(uses) => forall r :: r in uses ==> !SelectWrites(code, at, j, r)
    case Phi(_, incoming) => forall inc :: inc in incoming ==> !SelectWrites(code, at, j, inc.reg)
  }

  /** A first select that chooses its own result ends the run at once. */
  predicate ReadsItself(x: Instr)
    requires x.Select?
  {
    x.tv == x.dst || x.fv == x.dst
  }

  lemma {:induction false} DestsOfIs(code: Code, lo: nat, hi: nat, r: Reg)
    requires lo <= hi <= |code|
    ensures r in DestsOf(code, lo, hi) <==> SelectWrites(code, lo, hi, r)
  {
    if lo < hi {
      DestsOfIs(code, lo, hi - 1, r);
      if SelectWrites(code, lo, hi - 1, r) {
        var i :| lo <= i < hi - 1 && code[i].Select? && code[i].dst == r;
        assert SelectWrites(code, lo, hi, r);
      }
    }
  }

  lemma StopsIs(code: Code, at: nat, j: nat)
    requires IsSelectAt(code, at) && at < j < |code|
    ensures NotStopped(code, at, j) <==> MayJoin(code, at, j)
  {
    var dests := DestsOf(code, at, j);
    forall r ensures r in dests <==> SelectWrites(code, at, j, r) {
      DestsOfIs(code, at, j, r);
    }
    match code[j]
    case Phi(_, incoming) =>
      assert forall inc :: inc in incoming ==> inc.reg in Operands(code[j]);
    case Op(_, _, uses, _, _) =>
      assert forall r :: r in uses ==> r in Operands(code[j]);
    case Return(uses) =>
      assert forall r :: r in uses ==> r in Operands(code[j]);
    case CondBr(_, lhs, rhs, _) =>
      assert lhs in Operands(code[j]) && rhs in Operands(code[j]);
    case _ =>
  }

  /** The scan from `k` on reaches the select at `q` exactly when nothing up to it stops the scan. */
  lemma {:induction false} ScanReaches(code: Code, at: nat, k: nat, dests: set<Reg>, last: nat, q: nat)
    requires IsSelectAt(code, at) && at <= last < k <= q < |code| && code[last].Select? && code[q].Select?
    requires dests == DestsOf(code, at, k)
    ensures q <= ScanFrom(code, code[at], k, dests, last) <==>
            forall j {:trigger NotStopped(code, at, j)} :: k <= j <= q ==> NotStopped(code, at, j)
    decreases |code| - k
  {
    if StopsScan(code[k], code[at], dests) {
      assert !NotStopped(code, at, k);
    } else {
      assert NotStopped(code, at, k);
      var dests', last' := DestsOf(code, at, k + 1), if code[k].Select? then k else last;
      assert dests' == if code[k].Select? then dests + {code[k].dst} else dests;
      if q == k {
        ScanIsSelect(code, code[at], k + 1, dests', k);
      } else {
        ScanReaches(code, at, k + 1, dests', last', q);
      }
    }
  }

  lemma SecondScan(code: Code, at: nat)
    requires IsSelectAt(code, at)
    ensures LastSelect(code, at) ==
            if ReadsItself(code[at]) then at else ScanFrom(code, code[at], at + 1, DestsOf(code, at, at + 1), at)
  {
    var first := code[at];
    assert DestsOf(code, at, at) == {};
    assert DestsOf(code, at, at + 1) == {first.dst} == {first.dst} + {first.dst};
  }

  /** The run holds exactly the selects that can be reached from the first over
      instructions that may stand in it, each select itself included. */
  lemma RunExtent(code: Code, at: nat, k: nat)
    requires IsSelectAt(code, at) && at < k < |code| && code[k].Select?
    ensures k <= LastSelect(code, at) <==>
            !ReadsItself(code[at]) && forall j :: at < j <= k ==> MayJoin(code, at, j)
  {
    SecondScan(code, at);
    forall j: nat | at < j <= k ensures NotStopped(code, at, j) <==> MayJoin(code, at, j) {
      StopsIs(code, at, j);
    }
    if !ReadsItself(code[at]) {
      ScanReaches(code, at, at + 1, DestsOf(code, at, at + 1), at, k);
    }
  }

  /** So nothing in the run touches memory or has a side effect, and all its
      selects share the condition. */
  lemma RunIsHarmless(code: Code, at: nat, j: nat)
    requires IsSelectAt(code, at) && at < j <= LastSelect(code, at)
    ensures MayJoin(code, at, j)
    ensures code[j].Op? ==> !code[j].sideEffects && !code[j].mayLoadOrStore
    ensures code[j].Select? ==> code[j].lhs == code[at].lhs && code[j].rhs == code[at].rhs && code[j].cc == code[at].cc
  {
    RunExtent(code, at, LastSelect(code, at));
  }

  // ----- Which debug values move -----

  /** `d` is a debug value of the select at `k`, in the unbroken row of debug values after it. */
  predicate DebugValueOf(code: Code, k: nat, d: nat)
    requires k < |code|
  {
    && k < d < |code| && code[k].Select? && code[d].Debug? && code[d].reg == code[k].dst
    && forall j :: k < j <= d ==> code[j].Debug? && code[j].isValue
  }

  ghost predicate Increasing(m: seq<nat>) {
    forall i, j :: 0 <= i < j < |m| ==> m[i] < m[j]
  }

  /** `d` is a debug value of `reg` in the row of debug values that starts at `k`. */
  predicate InRow(code: Code, k: nat, reg: Reg, d: nat) {
    && k <= d < |code| && code[d].Debug? && code[d].reg == reg
    && forall j :: k <= j <= d ==> code[j].Debug? && code[j].isValue
  }

  lemma InRowStep(code: Code, k: nat, reg: Reg, d: nat)
    requires k < |code| && code[k].Debug? && code[k].isValue
    ensures InRow(code, k, reg, d) <==> (d == k && code[k].reg == reg) || InRow(code, k + 1, reg, d)
  {
  }

  lemma {:induction false} TrailingIs(code: Code, k: nat, reg: Reg)
    ensures Increasing(TrailingDebug(code, k, reg))
    ensures forall d {:trigger d in TrailingDebug(code, k, reg)} :: d in TrailingDebug(code, k, reg) <==> InRow(code, k, reg, d)
    decreases |code| - k
  {
    if k >= |code| || !code[k].Debug? || !code[k].isValue {
    } else {
      var here, rest := if code[k].reg == reg then [k] else [], TrailingDebug(code, k + 1, reg);
      TrailingIs(code, k + 1, reg);
      IncreasingAppend(here, rest);
      forall d: nat ensures d in here + rest <==> InRow(code, k, reg, d) {
        InRowStep(code, k, reg, d);
      }
    }
  }

  lemma IncreasingAppend(a: seq<nat>, b: seq<nat>)
    requires Increasing(a) && Increasing(b) && forall x, y :: x in a && y in b ==> x < y
    ensures Increasing(a + b)
  {
    forall i, j | 0 <= i < j < |a + b| ensures (a + b)[i] < (a + b)[j] {
      if i < |a| <= j {
        assert a[i] in a && b[j - |a|] in b;
      }
    }
  }

  ghost predicate SomeDebugValue(code: Code, lo: nat, hi: nat, d: nat)
    requires hi <= |code|
  {
    exists k :: lo <= k < hi && DebugValueOf(code, k, d)
  }

  lemma {:induction false} DebugOfIs(code: Code, lo: nat, hi: nat)
    requires lo <= hi <= |code|
    ensures Increasing(DebugOf(code, lo, hi))
    ensures forall d {:trigger d in DebugOf(code, lo, hi)} :: d in DebugOf(code, lo, hi) <==> SomeDebugValue(code, lo, hi, d)
  {
    if lo < hi {
      DebugOfIs(code, lo, hi - 1);
      DebugOfStep(code, lo, hi);
    }
  }

  lemma DebugOfStep(code: Code, lo: nat, hi: nat)
    requires lo < hi <= |code| && Increasing(DebugOf(code, lo, hi - 1))
    requires forall d {:trigger d in DebugOf(code, lo, hi - 1)} ::
               d in DebugOf(code, lo, hi - 1) <==> SomeDebugValue(code, lo, hi - 1, d)
    ensures Increasing(DebugOf(code, lo, hi))
    ensures forall d {:trigger d in DebugOf(code, lo, hi)} :: d in DebugOf(code, lo, hi) <==> SomeDebugValue(code, lo, hi, d)
  {
    var before := DebugOf(code, lo, hi - 1);
    if code[hi - 1].Select? {
      var added := TrailingDebug(code, hi, code[hi - 1].dst);
      TrailingIs(code, hi, code[hi - 1].dst);
      forall x, y | x in before && y in added ensures x < y {
        DebugStopsAtSelect(code, lo, hi - 1, x);
      }
      IncreasingAppend(before, added);
      forall d: nat ensures d in added <==> DebugValueOf(code, hi - 1, d) {
      }
    }
    forall d: nat ensures SomeDebugValue(code, lo, hi, d) <==> SomeDebugValue(code, lo, hi - 1, d) || DebugValueOf(code, hi - 1, d) {
    }
  }

  lemma DebugStopsAtSelect(code: Code, lo: nat, hi: nat, d: nat)
    requires hi < |code| && SomeDebugValue(code, lo, hi, d) && code[hi].Select?
    ensures d < hi
  {
  }

  /** The debug values that move are exactly those of the gathered selects, in
      the order in which they stand: none if the first select reads itself. */
  lemma MovedExactly(code: Code, at: nat)
    requires IsSelectAt(code, at)
    ensures Increasing(Moved(code, at))
    ensures forall d {:trigger d in Moved(code, at)} :: d in Moved(code, at) <==>
              !ReadsItself(code[at]) && SomeDebugValue(code, at, LastSelect(code, at) + 1, d)
  {
    MovedIs(code, at);
    DebugOfIs(code, at, LastSelect(code, at) + 1);
  }

  // ----- Where every instruction goes -----

  /** `a` holds the instructions of `code` at the positions `m`. */
  ghost predicate TakenFrom(a: Code, code: Code, m: seq<nat>) {
    |m| == |a| && forall i {:trigger m[i]} :: 0 <= i < |m| ==> m[i] < |code| && a[i] == code[m[i]]
  }

  lemma TakenSnoc(a: Code, code: Code, m: seq<nat>, p: nat)
    requires TakenFrom(a, code, m) && Increasing(m) && p < |code| && forall j :: j in m ==> j < p
    ensures TakenFrom(a + [code[p]], code, m + [p]) && Increasing(m + [p])
    ensures forall j {:trigger j in m + [p]} :: j in m + [p] <==> j in m || j == p
  {
    assert forall i :: 0 <= i < |m| ==> m[i] in m;
  }

  predicate Remains(lo: nat, hi: nat, gone: set<nat>, j: nat) {
    lo <= j < hi && j !in gone
  }

  lemma {:induction false} WithoutPositions(code: Code, lo: nat, hi: nat, gone: set<nat>) returns (m: seq<nat>)
    requires lo <= hi <= |code|
    ensures TakenFrom(Without(code, lo, hi, gone), code, m) && Increasing(m)
    ensures forall j {:trigger j in m} :: j in m <==> Remains(lo, hi, gone, j)
  {
    if lo == hi {
      m := [];
    } else {
      var before := WithoutPositions(code, lo, hi - 1, gone);
      m := before;
      if hi - 1 !in gone {
        m := before + [hi - 1];
        TakenSnoc(Without(code, lo, hi - 1, gone), code, before, hi - 1);
      }
      forall j: nat ensures j in m <==> Remains(lo, hi, gone, j) {
        assert j in before <==> Remains(lo, hi - 1, gone, j);
      }
    }
  }

  predicate Stays(code: Code, lo: nat, hi: nat, gone: set<nat>, j: nat)
    requires hi <= |code|
  {
    lo <= j < hi && !code[j].Select? && j !in gone
  }

  lemma {:induction false} KeptPositions(code: Code, lo: nat, hi: nat, gone: set<nat>) returns (m: seq<nat>)
    requires lo <= hi <= |code|
    ensures TakenFrom(Kept(code, lo, hi, gone), code, m) && Increasing(m)
    ensures forall j {:trigger j in m} :: j in m <==> Stays(code, lo, hi, gone, j)
  {
    if lo == hi {
      m := [];
    } else {
      var before := KeptPositions(code, lo, hi - 1, gone);
      m := before;
      if !code[hi - 1].Select? && hi - 1 !in gone {
        m := before + [hi - 1];
        TakenSnoc(Kept(code, lo, hi - 1, gone), code, before, hi - 1);
      }
      forall j: nat ensures j in m <==> Stays(code, lo, hi, gone, j) {
        assert j in before <==> Stays(code, lo, hi - 1, gone, j);
      }
    }
  }

  /** The head holds, in order, everything before the run and everything in it
      but the selects and the debug values that move; and then its branch. */
  lemma HeadPositions(code: Code, at: nat, tail: BlockId) returns (m: seq<nat>)
    requires IsSelectAt(code, at)
    ensures var h := HeadCode(code, at, tail);
            h != [] && h[|h| - 1].CondBr? && h[|h| - 1].target == tail && TakenFrom(h[..|h| - 1], code, m) && Increasing(m)
    ensures forall j: nat {:trigger j in m} :: j in m <==>
              j < at || (at <= j <= LastSelect(code, at) && !code[j].Select? && j !in Moved(code, at))
  {
    var rest := KeptPositions(code, at, LastSelect(code, at) + 1, Positions(Moved(code, at)));
    var front := seq(at, i => i);
    m := front + rest;
    forall j ensures j in front <==> 0 <= j < at {
      assert 0 <= j < at ==> front[j] in front;
    }
    IncreasingAppend(front, rest);
    HeadTaken(code, at, tail, front, rest);
    forall j: nat
      ensures j in m <==> j < at || (at <= j <= LastSelect(code, at) && !code[j].Select? && j !in Moved(code, at))
    {
      assert j in m <==> j in front || j in rest;
      assert j in rest <==> Stays(code, at, LastSelect(code, at) + 1, Positions(Moved(code, at)), j);
    }
  }

  lemma HeadTaken(code: Code, at: nat, tail: BlockId, front: seq<nat>, rest: seq<nat>)
    requires IsSelectAt(code, at) && |front| == at && forall i :: 0 <= i < at ==> front[i] == i
    requires TakenFrom(Kept(code, at, LastSelect(code, at) + 1, Positions(Moved(code, at))), code, rest)
    ensures var h := HeadCode(code, at, tail);
            h != [] && h[|h| - 1].CondBr? && h[|h| - 1].target == tail && TakenFrom(h[..|h| - 1], code, front + rest)
  {
    var kept := Kept(code, at, LastSelect(code, at) + 1, Positions(Moved(code, at)));
    var h := HeadCode(code, at, tail);
    assert h[..|h| - 1] == code[..at] + kept;
    FrontTaken(code, at, kept, front, rest);
  }

  lemma FrontTaken(code: Code, at: nat, kept: Code, front: seq<nat>, rest: seq<nat>)
    requires at <= |code| && |front| == at && (forall i :: 0 <= i < at ==> front[i] == i) && TakenFrom(kept, code, rest)
    ensures TakenFrom(code[..at] + kept, code, front + rest)
  {
    forall i | 0 <= i < |front + rest|
      ensures (front + rest)[i] < |code| && (code[..at] + kept)[i] == code[(front + rest)[i]]
    {
      if i >= at {
        assert (front + rest)[i] == rest[i - at];
      }
    }
  }

  /** The tail holds, after its PHIs, the debug values that move and then, in
      order, everything after the run but those. */
  lemma TailPositions(code: Code, at: nat) returns (m: seq<nat>)
    requires IsSelectAt(code, at)
    ensures TakenFrom(TailRest(code, at), code, Moved(code, at) + m) && Increasing(m)
    ensures forall j: nat {:trigger j in m} :: j in m <==> LastSelect(code, at) < j < |code| && j !in Moved(code, at)
  {
    var gone := Positions(Moved(code, at));
    m := WithoutPositions(code, LastSelect(code, at) + 1, |code|, gone);
    TailTaken(code, Moved(code, at), Without(code, LastSelect(code, at) + 1, |code|, gone), m);
    forall j: nat ensures j in m <==> LastSelect(code, at) < j < |code| && j !in Moved(code, at) {
      assert j in m <==> Remains(LastSelect(code, at) + 1, |code|, gone, j);
    }
  }

  lemma TailTaken(code: Code, moved: seq<nat>, rest: Code, m: seq<nat>)
    requires (forall i :: 0 <= i < |moved| ==> moved[i] < |code|) && TakenFrom(rest, code, m)
    ensures TakenFrom(Pick(code, moved) + rest, code, moved + m)
  {
    forall i | 0 <= i < |moved + m|
      ensures (moved + m)[i] < |code| && (Pick(code, moved) + rest)[i] == code[(moved + m)[i]]
    {
      if i >= |moved| {
        assert (moved + m)[i] == m[i - |moved|];
      }
    }
  }

  // ----- The other blocks -----

  /** `z` with the block `from` named `to`, if it is a PHI. */
  predicate SameButSources(y: Instr, z: Instr, from: BlockId, to: BlockId) {
    if z.Phi? then
      && y.Phi? && y.dst == z.dst && |y.incoming| == |z.incoming|
      && forall i {:trigger y.incoming[i]} :: 0 <= i < |z.incoming| ==>
           && y.incoming[i].reg == z.incoming[i].reg
           && y.incoming[i].block == if z.incoming[i].block == from then to else z.incoming[i].block
    else y == z
  }

  lemma RenamedExactly(code: Code, from: BlockId, to: BlockId)
    ensures var r := RenamePhis(code, from, to);
            |r| == |code| && forall k {:trigger r[k]} :: 0 <= k < |code| ==> SameButSources(r[k], code[k], from, to)
  {
  }

  /** Another block keeps its instructions, but that PHIs over edges from the
      expanded block now name the tail; and the block between head and tail is empty. */
  lemma OthersExactly(f: Function, b: BlockId, at: nat, x: BlockId)
    requires CanExpand(f, b, at) && x in f.code && x != b
    ensures var r := Expand(f, b, at).code[x];
            if x in f.succs[b] then
              |r| == |f.code[x]| && forall k {:trigger r[k]} :: 0 <= k < |r| ==> SameButSources(r[k], f.code[x][k], b, f.nextId)
            else r == f.code[x]
    ensures Expand(f, b, at).code[f.nextId + 1] == []
    ensures Expand(f, b, at).code.Keys == f.code.Keys + {f.nextId, f.nextId + 1}
  {
    assert x < f.nextId;
    RenamedExactly(f.code[x], b, f.nextId);
  }

  /** And the expanded block and the tail hold the two pieces, under the same renaming of PHIs. */
  lemma PiecesExactly(f: Function, b: BlockId, at: nat)
    requires CanExpand(f, b, at)
    ensures var g, head := Expand(f, b, at), HeadCode(f.code[b], at, f.nextId);
            && (b !in f.succs[b] ==> g.code[b] == head)
            && (b in f.succs[b] ==>
                  |g.code[b]| == |head| && forall k {:trigger g.code[b][k]} :: 0 <= k < |head| ==>
                    SameButSources(g.code[b][k], head[k], b, f.nextId))
            && g.code[f.nextId] == PhisOf(f.code[b], at, LastSelect(f.code[b], at) + 1, b, f.nextId + 1) + TailRest(f.code[b], at)
  {
    assert b < f.nextId;
    RenamedExactly(HeadCode(f.code[b], at, f.nextId), b, f.nextId);
  }
}
