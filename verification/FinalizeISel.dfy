/** Expanding selects until none is left, in whatever order they are met. */
module FinalizeISel {
  import opened MachineIR
  import opened SelectExpansion
  import opened WellFormedness
  import opened SelectRuns
  import opened ExpansionWellFormed
  import opened Conservation
  import opened Dominance
  import opened SsaPreserved
  import opened MachineFunctionClass

  /** Where expansions started, one after the other. */
  type Trail = seq<(BlockId, nat)>

  predicate CanExpandAll(f: Function, trail: Trail)
    decreases |trail|
  {
    trail == [] ||
    (CanExpand(f, trail[0].0, trail[0].1) && CanExpandAll(Expand(f, trail[0].0, trail[0].1), trail[1..]))
  }

  function ExpandAll(f: Function, trail: Trail): Function
    requires CanExpandAll(f, trail)
    decreases |trail|
  {
    if trail == [] then f else ExpandAll(Expand(f, trail[0].0, trail[0].1), trail[1..])
  }

  lemma {:induction false} ExpandAllSnoc(f: Function, trail: Trail, b: BlockId, at: nat)
    requires CanExpandAll(f, trail) && CanExpand(ExpandAll(f, trail), b, at)
    ensures CanExpandAll(f, trail + [(b, at)])
    ensures ExpandAll(f, trail + [(b, at)]) == Expand(ExpandAll(f, trail), b, at)
    decreases |trail|
  {
    var longer := trail + [(b, at)];
    if trail == [] {
      assert longer[1..] == [];
    } else {
      assert longer[0] == trail[0] && longer[1..] == trail[1..] + [(b, at)];
      ExpandAllSnoc(Expand(f, trail[0].0, trail[0].1), trail[1..], b, at);
    }
  }

  // ----- Termination -----

  /** No order of expanding runs longer than there are selects at the start. */
  lemma {:induction false} TrailsAreBounded(f: Function, trail: Trail)
    requires CfgOk(f) && CanExpandAll(f, trail)
    ensures Allocated(ExpandAll(f, trail))
    ensures |trail| + FunctionSum(Selects(), ExpandAll(f, trail)) <= FunctionSum(Selects(), f)
    decreases |trail|
  {
    if trail != [] {
      SelectsDecrease(f, trail[0].0, trail[0].1);
      ExpansionKeepsCfg(f, trail[0].0, trail[0].1);
      TrailsAreBounded(Expand(f, trail[0].0, trail[0].1), trail[1..]);
    }
  }

  // ----- Every run -----

  /** Where a configuration of the old function goes on after all the expansions. */
  function RerouteAll<W>(f: Function, trail: Trail, c: Conf<W>): Conf<W>
    requires CanExpandAll(f, trail)
    decreases |trail|
  {
    if trail == [] then c
    else RerouteAll(Expand(f, trail[0].0, trail[0].1), trail[1..], Rerouted(f, trail[0].0, c))
  }

  /** Rerouting changes at most the edge a block is entered by. */
  lemma {:induction false} RerouteAllMovesEdges<W>(f: Function, trail: Trail, c: Conf<W>)
    requires CanExpandAll(f, trail)
    ensures c.At? ==> RerouteAll(f, trail, c).At? && RerouteAll(f, trail, c) == c.(pred := RerouteAll(f, trail, c).pred)
    ensures !c.At? ==> RerouteAll(f, trail, c) == c
    decreases |trail|
  {
    if trail != [] {
      RerouteAllMovesEdges(Expand(f, trail[0].0, trail[0].1), trail[1..], Rerouted(f, trail[0].0, c));
    }
  }

  /** Expanding preserves every run, wherever it starts and whether or not it
      ends: one configuration of the function reaches another exactly when it
      does so after all the expansions. Nothing is asked of registers. */
  lemma {:induction false} ExpandAllPreservesRuns<W>(f: Function, trail: Trail, m: Meaning<W>, c: Conf<W>, d: Conf<W>)
    requires CfgOk(f) && CanExpandAll(f, trail) && OldConf(f, c) && OldConf(f, d)
    ensures Reaches(f, m, c, d) <==>
            Reaches(ExpandAll(f, trail), m, RerouteAll(f, trail, c), RerouteAll(f, trail, d))
    decreases |trail|
  {
    if trail != [] {
      var b, at := trail[0].0, trail[0].1;
      ExpansionPreservesRuns(f, b, at, m, c, d);
      ExpansionKeepsCfg(f, b, at);
      ExpandAllPreservesRuns(Expand(f, b, at), trail[1..], m, Rerouted(f, b, c), Rerouted(f, b, d));
    }
  }

  // ----- Runs from the entry -----

  /** Control cannot return to the entry, so it is entered once, from nowhere. */
  predicate EntryFree(f: Function) {
    f.layout != [] && Preds(f, f.layout[0]) == {}
  }

  lemma EntryStaysFree(f: Function, b: BlockId, at: nat)
    requires CfgOk(f) && CanExpand(f, b, at) && EntryFree(f)
    ensures EntryFree(Expand(f, b, at)) && Expand(f, b, at).layout[0] == f.layout[0]
  {
    EntryKept(f, b, at);
    ExpandIsExpansionOf(f, b, at);
    assert f.layout[0] in f.layout;
    PredsMoved(f, b, at, Expand(f, b, at), f.layout[0]);
  }

  /** A run from the entry in state `st` ends in state `end`. */
  ghost predicate Finishes<W>(f: Function, m: Meaning<W>, st: State<W>, end: State<W>)
    requires f.layout != []
  {
    Reaches(f, m, At(f.layout[0], f.layout[0], st), Done(end))
  }

  lemma SourcelessPhis(phis: Code, p: BlockId, q: BlockId, regs: Regs)
    requires forall x :: x in phis ==> x.Phi? && x.incoming == []
    ensures EnterPhis(phis, p, regs, regs) == EnterPhis(phis, q, regs, regs)
  {
  }

  lemma EntryStep<W>(f: Function, m: Meaning<W>, p: BlockId, q: BlockId, st: State<W>)
    requires CfgOk(f) && EntryFree(f)
    ensures Step(f, m, At(p, f.layout[0], st)) == Step(f, m, At(q, f.layout[0], st))
  {
    var e := f.layout[0];
    assert e in f.layout && PhisOk(f, e);
    var code := f.code[e];
    var phis := code[..PhiCount(code)];
    forall x | x in phis ensures x.incoming == [] {
      assert x in code;
    }
    SourcelessPhis(phis, p, q, st.regs);
  }

  lemma EntryRun<W>(f: Function, m: Meaning<W>, p: BlockId, q: BlockId, st: State<W>, end: State<W>)
    requires CfgOk(f) && EntryFree(f) && Reaches(f, m, At(p, f.layout[0], st), Done(end))
    ensures Reaches(f, m, At(q, f.layout[0], st), Done(end))
  {
    var n: nat :| Run(f, m, At(p, f.layout[0], st), n) == Done(end);
    EntryStep(f, m, p, q, st);
    assert Run(f, m, At(q, f.layout[0], st), n) == Done(end);
  }

  /** Any number of expansions keep SSA form and the entry. */
  lemma {:induction false} ExpandAllKeepsSsa(f: Function, trail: Trail)
    requires SsaOk(f) && EntryFree(f) && CanExpandAll(f, trail)
    ensures SsaOk(ExpandAll(f, trail)) && EntryFree(ExpandAll(f, trail))
    decreases |trail|
  {
    if trail != [] {
      ExpansionKeepsSsa(f, trail[0].0, trail[0].1);
      EntryStaysFree(f, trail[0].0, trail[0].1);
      ExpandAllKeepsSsa(Expand(f, trail[0].0, trail[0].1), trail[1..]);
    }
  }

  lemma {:induction false} EntryStaysAll(f: Function, trail: Trail)
    requires CfgOk(f) && EntryFree(f) && CanExpandAll(f, trail)
    ensures CfgOk(ExpandAll(f, trail)) && EntryFree(ExpandAll(f, trail)) && ExpandAll(f, trail).layout[0] == f.layout[0]
    decreases |trail|
  {
    if trail != [] {
      var b, at := trail[0].0, trail[0].1;
      EntryStaysFree(f, b, at);
      ExpansionKeepsCfg(f, b, at);
      EntryStaysAll(Expand(f, b, at), trail[1..]);
    }
  }

  /** In particular the meaning of the function as a whole is preserved: from every
      state and world it finishes exactly when it did, and in the same state. */
  lemma ExpandAllPreserves<W>(f: Function, trail: Trail, m: Meaning<W>, st: State<W>, end: State<W>)
    requires CfgOk(f) && EntryFree(f) && CanExpandAll(f, trail)
    ensures ExpandAll(f, trail).layout != []
    ensures Finishes(f, m, st, end) <==> Finishes(ExpandAll(f, trail), m, st, end)
  {
    var g, e := ExpandAll(f, trail), f.layout[0];
    EntryStaysAll(f, trail);
    RerouteAllMovesEdges(f, trail, At(e, e, st));
    RerouteAllMovesEdges(f, trail, Done(end));
    var q := RerouteAll(f, trail, At(e, e, st)).pred;
    assert e in f.layout;
    ExpandAllPreservesRuns(f, trail, m, At(e, e, st), Done(end));
    if Finishes(f, m, st, end) {
      EntryRun(g, m, q, e, st, end);
    }
    if Finishes(g, m, st, end) {
      EntryRun(g, m, e, q, st, end);
    }
  }

  // ----- The loop -----

  predicate HasSelect(f: Function) {
    exists b, at :: b in f.layout && b in f.code && 0 <= at < |f.code[b]| && f.code[b][at].Select?
  }

  /** Selects are the only instructions with an inserter. */
  method EmitInstrWithCustomInserter(mf: MachineFunction, b: BlockId, at: nat) returns (tail: BlockId)
    requires CanExpand(mf.View(), b, at)
    modifies mf
    ensures mf.View() == Expand(old(mf.View()), b, at) && tail == old(mf.nextId)
  {
    match mf.code[b][at]
    case Select(_, _, _, _, _, _) => tail := mf.EmitSelectPseudo(b, at);
    case _ => assert false;
  }

  /** Calls the inserter hook on a select, any select, while there is one. */
  method ExpandSelects(mf: MachineFunction) returns (ghost trail: Trail)
    requires SsaOk(mf.View()) && EntryFree(mf.View())
    modifies mf
    ensures CanExpandAll(old(mf.View()), trail)
    ensures mf.View() == ExpandAll(old(mf.View()), trail)
    ensures SsaOk(mf.View()) && EntryFree(mf.View()) && !HasSelect(mf.View())
  {
    ghost var f := mf.View();
    trail := [];
    while HasSelect(mf.View())
      invariant CanExpandAll(f, trail) && mf.View() == ExpandAll(f, trail)
      invariant SsaOk(mf.View()) && EntryFree(mf.View())
      decreases FunctionSum(Selects(), mf.View())
    {
      var b, at: nat :| b in mf.layout && b in mf.code && 0 <= at < |mf.code[b]| && mf.code[b][at].Select?;
      assert CanExpand(mf.View(), b, at);
      ExpandAllSnoc(f, trail, b, at);
      SelectsDecrease(mf.View(), b, at);
      ExpansionKeepsSsa(mf.View(), b, at);
      EntryStaysFree(mf.View(), b, at);
      var tail := EmitInstrWithCustomInserter(mf, b, at);
      trail := trail + [(b, at)];
    }
  }
}
