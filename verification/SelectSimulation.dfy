/** Running a gathered run of selects in place, one by one, against running
    everything else first and then all the selects at once. */
module SelectSimulation {
  import opened Wrappers
  import opened Conditions
  import opened MachineIR
  import opened LocalSsa
  import opened SelectExpansion

  // ----- The gathered run: in place, or the selects last and all at once -----

  predicate PassesScan(code: Code, at: nat, j: nat)
    requires IsSelectAt(code, at) && at <= j < |code|
  {
    !IsTerminator(code[j]) && !code[j].Phi? && !StopsScan(code[j], code[at], DestsOf(code, at, j))
  }

  /** From `at` up to `k` the scan that started at `at` meets nothing that stops it. */
  predicate Unstopped(code: Code, at: nat, k: nat)
    requires IsSelectAt(code, at) && at <= k <= |code|
  {
    forall j {:trigger PassesScan(code, at, j)} :: at <= j < k ==> PassesScan(code, at, j)
  }

  /** The state after the instructions from `at` up to `k`, one by one. */
  function InPlace<W>(m: Meaning<W>, code: Code, at: nat, k: nat, st: State<W>): State<W>
    requires at <= k <= |code|
  {
    if k == at then st else ExecOne(m, code[k - 1], InPlace(m, code, at, k - 1, st))
  }

  /** The same without the selects. */
  function Skipping<W>(m: Meaning<W>, code: Code, at: nat, k: nat, st: State<W>): State<W>
    requires at <= k <= |code|
  {
    if k == at then st
    else if code[k - 1].Select? then Skipping(m, code, at, k - 1, st)
    else ExecOne(m, code[k - 1], Skipping(m, code, at, k - 1, st))
  }

  /** What the selects from `at` up to `k` write when they all read from `regs`. */
  function AllAtOnce(code: Code, at: nat, k: nat, holds: bool, regs: Regs): Regs
    requires at <= k <= |code|
  {
    if k == at then regs
    else
      var r := AllAtOnce(code, at, k - 1, holds, regs);
      if code[k - 1].Select? then
        r[code[k - 1].dst := Read(regs, if holds then code[k - 1].tv else code[k - 1].fv)]
      else r
  }

  predicate ConditionAt<W>(m: Meaning<W>, code: Code, at: nat, st: State<W>)
    requires IsSelectAt(code, at)
  {
    Holds(m.cmp, code[at].cc, Read(st.regs, code[at].lhs), Read(st.regs, code[at].rhs))
  }

  lemma {:induction false} DestsOfOrigin(code: Code, lo: nat, hi: nat, r: Reg)
    requires lo <= hi <= |code| && r in DestsOf(code, lo, hi)
    ensures exists j :: lo <= j < hi && code[j].Select? && code[j].dst == r
  {
    if r in DestsOf(code, lo, hi - 1) {
      DestsOfOrigin(code, lo, hi - 1, r);
    } else {
      assert code[hi - 1].Select? && code[hi - 1].dst == r;
    }
  }

  /** Nothing in the run changes the registers its condition compares. */
  lemma ConditionKept(code: Code, at: nat, k: nat)
    requires UsesPrecedeDefs(code) && IsSelectAt(code, at) && at <= k <= |code|
    ensures code[at].lhs !in DestsOf(code, at, k) && code[at].rhs !in DestsOf(code, at, k)
  {
    if r :| r in {code[at].lhs, code[at].rhs} && r in DestsOf(code, at, k) {
      DestsOfOrigin(code, at, k, r);
      var j :| at <= j < k && code[j].Select? && code[j].dst == r;
      assert DoesNotRead(code[at], code[j]);
    }
  }

  /** A register that the selects neither read as a value nor define can be written before or after them. */
  lemma {:induction false} AllAtOnceFrame(code: Code, at: nat, k: nat, holds: bool, regs: Regs, d: Reg, w: Word)
    requires at <= k <= |code|
    requires forall j :: at <= j < k && code[j].Select? ==> code[j].dst != d && code[j].tv != d && code[j].fv != d
    ensures AllAtOnce(code, at, k, holds, regs[d := w]) == AllAtOnce(code, at, k, holds, regs)[d := w]
  {
    if k > at {
      AllAtOnceFrame(code, at, k - 1, holds, regs, d, w);
      var r: Regs, x := AllAtOnce(code, at, k - 1, holds, regs), code[k - 1];
      if x.Select? {
        var v := Read(regs, if holds then x.tv else x.fv);
        assert r[d := w][x.dst := v] == r[x.dst := v][d := w];
      }
    }
  }

  /** Executed in place (`o`), or without the selects (`n`): what is missing is what the selects write all at once. */
  ghost predicate RunMatches<W>(m: Meaning<W>, code: Code, at: nat, k: nat, st: State<W>, o: State<W>, n: State<W>)
    requires IsSelectAt(code, at) && at <= k <= |code|
  {
    && o.world == n.world
    && o.regs == AllAtOnce(code, at, k, ConditionAt(m, code, at, st), n.regs)
    && Read(n.regs, code[at].lhs) == Read(st.regs, code[at].lhs)
    && Read(n.regs, code[at].rhs) == Read(st.regs, code[at].rhs)
    && forall r :: r !in DestsOf(code, at, k) ==> Read(o.regs, r) == Read(n.regs, r)
  }

  /** Running the selects one by one in place, or the other instructions
      first and then all the selects at once, ends in the same state. */
  lemma {:induction false} RunSim<W>(m: Meaning<W>, code: Code, at: nat, k: nat, st: State<W>)
    requires UsesPrecedeDefs(code) && DistinctDefs(code)
    requires IsSelectAt(code, at) && at <= k <= |code| && Unstopped(code, at, k)
    ensures RunMatches(m, code, at, k, st, InPlace(m, code, at, k, st), Skipping(m, code, at, k, st))
  {
    if k > at {
      RunSim(m, code, at, k - 1, st);
      assert PassesScan(code, at, k - 1);
      var o, n := InPlace(m, code, at, k - 1, st), Skipping(m, code, at, k - 1, st);
      if code[k - 1].Select? {
        RunSimSelect(m, code, at, k, st, o, n);
      } else if code[k - 1].Op? {
        RunSimOp(m, code, at, k, st, o, n);
      }
    }
  }

  lemma RunSimSelect<W>(m: Meaning<W>, code: Code, at: nat, k: nat, st: State<W>, o: State<W>, n: State<W>)
    requires UsesPrecedeDefs(code) && IsSelectAt(code, at) && at < k <= |code|
    requires PassesScan(code, at, k - 1) && code[k - 1].Select?
    requires RunMatches(m, code, at, k - 1, st, o, n)
    ensures RunMatches(m, code, at, k, st, ExecOne(m, code[k - 1], o), n)
  {
    ConditionKept(code, at, k - 1);
    var x := code[k - 1];
    assert SelectValue(m.cmp, x, o.regs) == Read(n.regs, if ConditionAt(m, code, at, st) then x.tv else x.fv);
  }

  lemma SameArguments(x: Instr, dests: set<Reg>, o: Regs, n: Regs)
    requires x.Op? && !(exists r :: r in Operands(x) && r in dests)
    requires forall r :: r !in dests ==> Read(o, r) == Read(n, r)
    ensures ReadAll(o, x.uses) == ReadAll(n, x.uses)
  {
    assert forall k :: 0 <= k < |x.uses| ==> x.uses[k] in Operands(x);
  }

  /** What an instruction of the run defines is no register of a select before it, nor of the condition. */
  lemma OpApart(code: Code, at: nat, k: nat, d: Reg)
    requires UsesPrecedeDefs(code) && DistinctDefs(code) && IsSelectAt(code, at) && at < k <= |code|
    requires code[k - 1].Op? && code[k - 1].def == Some(d)
    ensures forall j :: at <= j < k - 1 && code[j].Select? ==> code[j].dst != d && code[j].tv != d && code[j].fv != d
    ensures code[at].lhs != d && code[at].rhs != d
  {
    forall j | at <= j < k - 1 && code[j].Select?
      ensures code[j].dst != d && code[j].tv != d && code[j].fv != d
    {
      assert DoesNotRead(code[j], code[k - 1]) && DefineApart(code[j], code[k - 1]);
    }
    assert DoesNotRead(code[at], code[k - 1]);
  }

  lemma RunSimOp<W>(m: Meaning<W>, code: Code, at: nat, k: nat, st: State<W>, o: State<W>, n: State<W>)
    requires UsesPrecedeDefs(code) && DistinctDefs(code) && IsSelectAt(code, at) && at < k <= |code|
    requires PassesScan(code, at, k - 1) && code[k - 1].Op?
    requires RunMatches(m, code, at, k - 1, st, o, n)
    ensures RunMatches(m, code, at, k, st, ExecOne(m, code[k - 1], o), ExecOne(m, code[k - 1], n))
  {
    if code[k - 1].def.Some? {
      OpApart(code, at, k, code[k - 1].def.value);
    }
    RunSimApart(m, code, at, k, st, o, n);
  }

  lemma RunSimApart<W>(m: Meaning<W>, code: Code, at: nat, k: nat, st: State<W>, o: State<W>, n: State<W>)
    requires IsSelectAt(code, at) && at < k <= |code| && PassesScan(code, at, k - 1) && code[k - 1].Op?
    requires RunMatches(m, code, at, k - 1, st, o, n)
    requires code[k - 1].def.Some? ==>
               var d := code[k - 1].def.value;
               && code[at].lhs != d && code[at].rhs != d
               && forall j :: at <= j < k - 1 && code[j].Select? ==> code[j].dst != d && code[j].tv != d && code[j].fv != d
    ensures RunMatches(m, code, at, k, st, ExecOne(m, code[k - 1], o), ExecOne(m, code[k - 1], n))
  {
    var x := code[k - 1];
    SameArguments(x, DestsOf(code, at, k - 1), o.regs, n.regs);
    if x.def.Some? {
      AllAtOnceFrame(code, at, k - 1, ConditionAt(m, code, at, st), n.regs, x.def.value,
                     m.value(x.opcode, ReadAll(n.regs, x.uses), n.world));
    }
  }

  // ----- The scan finds such a run -----

  predicate NotStopped(code: Code, at: nat, j: nat)
    requires IsSelectAt(code, at) && at <= j < |code|
  {
    !StopsScan(code[j], code[at], DestsOf(code, at, j))
  }

  /** Everything up to the last gathered select was let pass, with exactly the earlier destinations collected. */
  lemma {:induction false} ScanPasses(code: Code, at: nat, k: nat, dests: set<Reg>, last: nat)
    requires IsSelectAt(code, at) && at <= last < k <= |code| && code[last].Select?
    requires dests == DestsOf(code, at, k)
    requires forall j {:trigger NotStopped(code, at, j)} :: at <= j < k ==> NotStopped(code, at, j)
    ensures var end := ScanFrom(code, code[at], k, dests, last);
            end < |code| && forall j {:trigger NotStopped(code, at, j)} :: at <= j <= end ==> NotStopped(code, at, j)
    decreases |code| - k
  {
    if k == |code| || StopsScan(code[k], code[at], dests) {
    } else {
      assert NotStopped(code, at, k);
      if code[k].Select? {
        ScanPasses(code, at, k + 1, dests + {code[k].dst}, k);
      } else {
        ScanPasses(code, at, k + 1, dests, last);
      }
    }
  }

  lemma GatheredUnstopped(code: Code, at: nat)
    requires LocalOk(code) && IsSelectAt(code, at)
    ensures Unstopped(code, at, LastSelect(code, at) + 1)
  {
    var first, last := code[at], LastSelect(code, at);
    if !StopsScan(first, first, {first.dst}) {
      assert DestsOf(code, at, at) == {};
      assert DestsOf(code, at, at + 1) == {first.dst};
      ScanPasses(code, at, at + 1, {first.dst}, at);
      assert ScanFrom(code, first, at + 1, {first.dst} + {first.dst}, at) == last;
      assert {first.dst} + {first.dst} == {first.dst};
    }
    forall j | at <= j < last + 1 ensures PassesScan(code, at, j) {
      assert NotStopped(code, at, j);
      assert j < last ==> !IsTerminator(code[j]);
      assert code[j] in code[PhiCount(code)..] by {
        assert code[j] == code[PhiCount(code)..][j - PhiCount(code)];
      }
    }
  }
}
