/** Runs of a function before and after a run of selects in it is expanded. */
module SelectRuns {
  import opened Wrappers
  import opened MachineIR
  import opened LocalSsa
  import opened SelectExpansion
  import opened SelectSimulation
  import opened WellFormedness
  import opened ExpansionPreserves

  /** A configuration of the old function: no block of the triangle has been entered. */
  predicate OldConf<W>(f: Function, c: Conf<W>) {
    c.At? ==> c.pred < f.nextId && c.block < f.nextId
  }

  /** Where control came out of the expanded block, it now comes out of its tail. */
  function Rerouted<W>(f: Function, b: BlockId, c: Conf<W>): Conf<W> {
    if c.At? then At(RenameBlock(c.pred, b, f.nextId), c.block, c.st) else c
  }

  ghost predicate Expandable(f: Function, b: BlockId, at: nat) {
    CfgOk(f) && CanExpand(f, b, at)
  }

  lemma PhiSourcesOld(f: Function, b: BlockId, at: nat, x: BlockId)
    requires Expandable(f, b, at) && x in f.code
    ensures forall y :: y in f.code[x] && y.Phi? ==> f.nextId !in Sources(y.incoming)
    ensures x !in f.succs[b] ==> forall y :: y in f.code[x] && y.Phi? ==> b !in Sources(y.incoming)
  {
    assert PhisOk(f, x);
    forall y | y in f.code[x] && y.Phi?
      ensures f.nextId !in Sources(y.incoming) && (x !in f.succs[b] ==> b !in Sources(y.incoming))
    {
      assert Sources(y.incoming) == Preds(f, x);
    }
  }

  /** How one block ends, given what its code does. */
  function After<W>(layout: seq<BlockId>, x: BlockId, o: Option<Outcome<W>>): Conf<W> {
    match o
    case None => Stuck
    case Some(Fall(st)) =>
      (match NextInLayout(layout, x) case None => Stuck case Some(next) => At(x, next, st))
    case Some(Goto(target, st)) => At(x, target, st)
    case Some(Exit(st)) => Done(st)
  }

  lemma StepIsAfter<W>(f: Function, m: Meaning<W>, c: Conf<W>)
    requires c.At? && c.block in f.code
    ensures Step(f, m, c) == After(f.layout, c.block, RunCode(m, f.code[c.block], c.pred, c.st))
  {
  }

  /** Control only goes to blocks of the function. */
  lemma StepStaysOld<W>(f: Function, m: Meaning<W>, c: Conf<W>)
    requires CfgOk(f) && OldConf(f, c)
    ensures OldConf(f, Step(f, m, c))
  {
    if c.At? && c.block in f.code {
      var x, code := c.block, f.code[c.block];
      var n := PhiCount(code);
      assert EdgesOk(f, x);
      SuffixTargets(code, n);
      match EnterPhis(code[..n], c.pred, c.st.regs, c.st.regs)
      case None =>
      case Some(regs) => ExecTargets(m, code[n..], c.st.(regs := regs));
    }
  }

  lemma SuffixTargets(code: Code, n: nat)
    requires n <= |code| && forall k :: 0 <= k < n ==> code[k].Phi?
    ensures forall t :: t in BranchTargets(code[n..]) ==> t in BranchTargets(code)
    ensures FallsThrough(code[n..]) ==> FallsThrough(code)
  {
    assert forall y :: y in code[n..] ==> y in code;
    assert forall y :: y in code ==> y in code[..n] || y in code[n..];
  }

  /** What the simulation uses about the expanded function `g`. */
  ghost predicate Expansion(f: Function, b: BlockId, at: nat, g: Function)
    requires CanExpand(f, b, at)
  {
    && g.layout == InsertAfter(f.layout, b, [f.nextId + 1, f.nextId])
    && g.code.Keys == f.code.Keys + {f.nextId, f.nextId + 1}
    && forall x {:trigger g.code[x]} :: x in g.code ==> g.code[x] == ExpandedCode(f, b, at, x)
  }

  lemma ExpandIsExpansion(f: Function, b: BlockId, at: nat)
    requires CanExpand(f, b, at)
    ensures Expansion(f, b, at, Expand(f, b, at))
  {
  }

  lemma OtherBlock(f: Function, b: BlockId, at: nat, g: Function, x: BlockId)
    requires Expandable(f, b, at) && Expansion(f, b, at, g) && x in f.code && x != b
    ensures x in g.code && g.code[x] == MaybeRenamed(f.code[x], x in f.succs[b], b, f.nextId)
    ensures NextInLayout(g.layout, x) == NextInLayout(f.layout, x)
    ensures PhisFirst(f.code[x])
  {
    OtherCode(f, b, at, g, x);
    OtherNext(f, b, g, x);
    BlockPhisFirst(f, x);
  }

  lemma OtherNext(f: Function, b: BlockId, g: Function, x: BlockId)
    requires Allocated(f) && NoRepeats(f.layout) && b in f.layout && x in f.layout && x != b
    requires g.layout == InsertAfter(f.layout, b, [f.nextId + 1, f.nextId])
    ensures NextInLayout(g.layout, x) == NextInLayout(f.layout, x)
  {
    NextInserted(f.layout, b, f.nextId + 1, f.nextId, x);
  }

  lemma BlockPhisFirst(f: Function, x: BlockId)
    requires CfgOk(f) && x in f.code
    ensures PhisFirst(f.code[x])
  {
    assert LocalOk(f.code[x]);
  }

  lemma OtherCode(f: Function, b: BlockId, at: nat, g: Function, x: BlockId)
    requires CanExpand(f, b, at) && Expansion(f, b, at, g) && x in f.code && x != b
    ensures x in g.code && g.code[x] == MaybeRenamed(f.code[x], x in f.succs[b], b, f.nextId)
  {
    assert x < f.nextId;
    assert g.code[x] == ExpandedCode(f, b, at, x);
  }

  /** Any other block does what it did; control from the expanded block now reaches it from the tail. */
  lemma StepOther<W>(f: Function, b: BlockId, at: nat, g: Function, m: Meaning<W>, c: Conf<W>)
    requires Expandable(f, b, at) && Expansion(f, b, at, g)
    requires c.At? && c.pred < f.nextId && c.block != b && c.block in f.code
    ensures Step(g, m, Rerouted(f, b, c)) == Rerouted(f, b, Step(f, m, c))
  {
    OtherBlock(f, b, at, g, c.block);
    PhiSourcesOld(f, b, at, c.block);
    SameBlock(m, f.code[c.block], c.block in f.succs[b], c.pred, b, f.nextId, c.st);
    StepAlike(f, b, g, m, c);
  }

  lemma StepAlike<W>(f: Function, b: BlockId, g: Function, m: Meaning<W>, c: Conf<W>)
    requires c.At? && c.block in f.code && c.block in g.code && c.block != b
    requires NextInLayout(g.layout, c.block) == NextInLayout(f.layout, c.block)
    requires RunCode(m, g.code[c.block], RenameBlock(c.pred, b, f.nextId), c.st) ==
             RunCode(m, f.code[c.block], c.pred, c.st)
    ensures Step(g, m, Rerouted(f, b, c)) == Rerouted(f, b, Step(f, m, c))
  {
    StepIsAfter(f, m, c);
    StepIsAfter(g, m, Rerouted(f, b, c));
  }

  lemma SameBlock<W>(m: Meaning<W>, code: Code, renamed: bool, pred: BlockId, from: BlockId, to: BlockId, st: State<W>)
    requires PhisFirst(code) && pred != to
    requires forall y :: y in code && y.Phi? ==> to !in Sources(y.incoming)
    requires !renamed ==> forall y :: y in code && y.Phi? ==> from !in Sources(y.incoming)
    ensures RunCode(m, MaybeRenamed(code, renamed, from, to), RenameBlock(pred, from, to), st) ==
            RunCode(m, code, pred, st)
  {
    var n := PhiCount(code);
    assert code == code[..n] + code[n..];
    RunRenamed(m, code[..n], code[n..], renamed, pred, from, to, st);
  }

  // ----- The expanded block -----

  lemma HeadNoPhi(code: Code, at: nat, tail: BlockId)
    requires LocalOk(code) && IsSelectAt(code, at)
    ensures forall x :: x in HeadCode(code, at, tail)[PhiCount(code)..] ==> !x.Phi?
  {
    var n := PhiCount(code);
    HeadFrom(code, n, at, tail);
    SliceNoPhi(code, at);
    KeptNoPhi(code, at, LastSelect(code, at) + 1, Positions(Moved(code, at)));
  }

  lemma SliceNoPhi(code: Code, hi: nat)
    requires PhisFirst(code) && PhiCount(code) <= hi <= |code|
    ensures forall x :: x in code[PhiCount(code)..hi] ==> !x.Phi?
  {
    forall k | PhiCount(code) <= k < hi ensures !code[k].Phi? {
      NotPhi(code, k);
    }
  }

  lemma {:induction false} KeptNoPhi(code: Code, at: nat, k: nat, gone: set<nat>)
    requires PhisFirst(code) && PhiCount(code) <= at <= k <= |code|
    ensures forall x :: x in Kept(code, at, k, gone) ==> !x.Phi?
  {
    if k > at {
      KeptNoPhi(code, at, k - 1, gone);
      NotPhi(code, k - 1);
    }
  }

  /** The state in which the run of selects is left behind: whether its
      condition holds, and everything but the selects executed. */
  function HeadEnd<W>(m: Meaning<W>, code: Code, at: nat, pred: BlockId, st: State<W>): Option<(bool, State<W>)>
    requires IsSelectAt(code, at) && PhiCount(code) <= at
  {
    match EnterPhis(code[..PhiCount(code)], pred, st.regs, st.regs)
    case None => None
    case Some(regs) =>
      var s1 := InPlace(m, code, PhiCount(code), at, st.(regs := regs));
      Some((ConditionAt(m, code, at, s1), Skipping(m, code, at, LastSelect(code, at) + 1, s1)))
  }

  lemma HeadRuns<W>(m: Meaning<W>, code: Code, at: nat, tail: BlockId, renamed: bool, pred: BlockId, from: BlockId,
                    st: State<W>)
    requires LocalOk(code) && IsSelectAt(code, at) && pred != tail
    requires forall y :: y in code && y.Phi? ==> tail !in Sources(y.incoming)
    requires !renamed ==> forall y :: y in code && y.Phi? ==> from !in Sources(y.incoming)
    ensures PhiCount(code) <= at
    ensures RunCode(m, MaybeRenamed(HeadCode(code, at, tail), renamed, from, tail), RenameBlock(pred, from, tail), st) ==
            match HeadEnd(m, code, at, pred, st)
            case None => None
            case Some(end) => Some(if end.0 then Goto(tail, end.1) else Fall(end.1))
  {
    var n := PhiCount(code);
    var phis, rest := code[..n], HeadCode(code, at, tail)[n..];
    HeadNoPhi(code, at, tail);
    HeadFrom(code, n, at, tail);
    assert HeadCode(code, at, tail) == phis + rest;
    RunRenamed(m, phis, rest, renamed, pred, from, tail, st);
    RunCodeSplit(m, phis, rest, pred, st);
    StraightToSelect(code, at);
    GatheredUnstopped(code, at);
    match EnterPhis(phis, pred, st.regs, st.regs)
    case None =>
    case Some(regs) => HeadBlock(m, code, n, at, tail, st.(regs := regs));
  }

  /** What the block did before, told in the same terms. */
  lemma OldRuns<W>(m: Meaning<W>, code: Code, at: nat, pred: BlockId, st: State<W>)
    requires LocalOk(code) && IsSelectAt(code, at)
    ensures PhiCount(code) <= at
    ensures RunCode(m, code, pred, st) ==
            match HeadEnd(m, code, at, pred, st)
            case None => None
            case Some(end) => Some(RestOfBlock(m, code, at, end))
  {
    var n, last := PhiCount(code), LastSelect(code, at);
    StraightToSelect(code, at);
    GatheredUnstopped(code, at);
    match EnterPhis(code[..n], pred, st.regs, st.regs)
    case None =>
    case Some(regs) => OldRunsFrom(m, code, n, at, st.(regs := regs));
  }

  lemma OldRunsFrom<W>(m: Meaning<W>, code: Code, n: nat, at: nat, s0: State<W>)
    requires IsSelectAt(code, at) && n <= at && StraightUpTo(code, LastSelect(code, at) + 1)
    requires Unstopped(code, at, LastSelect(code, at) + 1) && UsesPrecedeDefs(code) && DistinctDefs(code)
    ensures var s1 := InPlace(m, code, n, at, s0);
            Exec(m, code[n..], s0) ==
            RestOfBlock(m, code, at, (ConditionAt(m, code, at, s1), Skipping(m, code, at, LastSelect(code, at) + 1, s1)))
  {
    var last, s1 := LastSelect(code, at), InPlace(m, code, n, at, s0);
    OldBlock(m, code, n, at, last, s0);
    RunSim(m, code, at, last + 1, s1);
  }

  /** The selects all at once, then what follows the run. */
  function RestOfBlock<W>(m: Meaning<W>, code: Code, at: nat, end: (bool, State<W>)): Outcome<W>
    requires IsSelectAt(code, at)
  {
    var last := LastSelect(code, at);
    Exec(m, code[last + 1..], end.1.(regs := AllAtOnce(code, at, last + 1, end.0, end.1.regs)))
  }

  lemma TailRuns<W>(m: Meaning<W>, code: Code, at: nat, head: BlockId, ifFalse: BlockId, end: (bool, State<W>))
    requires LocalOk(code) && IsSelectAt(code, at) && head != ifFalse
    ensures RunCode(m, TailCode(code, at, head, ifFalse), if end.0 then head else ifFalse, end.1) ==
            Some(RestOfBlock(m, code, at, end))
  {
    TailBlock(m, code, at, head, ifFalse, end.0, end.1);
  }

  lemma TailRunsAs<W>(m: Meaning<W>, c: Code, code: Code, at: nat, head: BlockId, ifFalse: BlockId, end: (bool, State<W>))
    requires LocalOk(code) && IsSelectAt(code, at) && head != ifFalse && c == TailCode(code, at, head, ifFalse)
    ensures RunCode(m, c, if end.0 then head else ifFalse, end.1) == Some(RestOfBlock(m, code, at, end))
  {
    TailRuns(m, code, at, head, ifFalse, end);
  }

  lemma ExpandedBlocks(f: Function, b: BlockId, at: nat, g: Function)
    requires CanExpand(f, b, at) && Expansion(f, b, at, g)
    ensures b in g.code && f.nextId in g.code && f.nextId + 1 in g.code && b < f.nextId
    ensures g.code[b] == MaybeRenamed(HeadCode(f.code[b], at, f.nextId), b in f.succs[b], b, f.nextId)
    ensures g.code[f.nextId] == TailCode(f.code[b], at, b, f.nextId + 1)
    ensures g.code[f.nextId + 1] == []
  {
    assert b in f.code;
    assert g.code[b] == ExpandedCode(f, b, at, b);
    assert g.code[f.nextId] == ExpandedCode(f, b, at, f.nextId);
    assert g.code[f.nextId + 1] == ExpandedCode(f, b, at, f.nextId + 1);
  }

  lemma ExpandedLayout(f: Function, b: BlockId, g: Function)
    requires Allocated(f) && NoRepeats(f.layout) && b in f.layout
    requires g.layout == InsertAfter(f.layout, b, [f.nextId + 1, f.nextId])
    ensures NextInLayout(g.layout, b) == Some(f.nextId + 1)
    ensures NextInLayout(g.layout, f.nextId + 1) == Some(f.nextId)
    ensures NextInLayout(g.layout, f.nextId) == NextInLayout(f.layout, b)
  {
    NextInserted(f.layout, b, f.nextId + 1, f.nextId, b);
  }

  /** The configurations inside the triangle. */
  predicate InTriangle<W>(f: Function, c: Conf<W>) {
    c.At? && c.block >= f.nextId
  }

  /** The expanded block takes one step where it got stuck on a PHI, two where its condition holds, three where not. */
  lemma StepSelf<W>(f: Function, b: BlockId, at: nat, g: Function, m: Meaning<W>, c: Conf<W>) returns (k: nat)
    requires Expandable(f, b, at) && Expansion(f, b, at, g)
    requires c.At? && c.pred < f.nextId && c.block == b
    ensures 1 <= k <= 3 && Run(g, m, Rerouted(f, b, c), k) == Rerouted(f, b, Step(f, m, c))
    ensures forall j :: 0 < j < k ==> InTriangle(f, Run(g, m, Rerouted(f, b, c), j))
  {
    var code, tail, ifFalse := f.code[b], f.nextId, f.nextId + 1;
    assert LocalOk(code);
    ExpandedBlocks(f, b, at, g);
    ExpandedLayout(f, b, g);
    PhiSourcesOld(f, b, at, b);
    k := StepSelfFrom(f, b, at, g, m, c);
  }

  lemma StepSelfFrom<W>(f: Function, b: BlockId, at: nat, g: Function, m: Meaning<W>, c: Conf<W>) returns (k: nat)
    requires b in f.code && b in f.succs && IsSelectAt(f.code[b], at) && LocalOk(f.code[b]) && b < f.nextId
    requires c.At? && c.pred < f.nextId && c.block == b
    requires b in g.code && f.nextId in g.code && f.nextId + 1 in g.code
    requires g.code[b] == MaybeRenamed(HeadCode(f.code[b], at, f.nextId), b in f.succs[b], b, f.nextId)
    requires g.code[f.nextId] == TailCode(f.code[b], at, b, f.nextId + 1)
    requires g.code[f.nextId + 1] == []
    requires NextInLayout(g.layout, b) == Some(f.nextId + 1)
    requires NextInLayout(g.layout, f.nextId + 1) == Some(f.nextId)
    requires NextInLayout(g.layout, f.nextId) == NextInLayout(f.layout, b)
    requires forall y :: y in f.code[b] && y.Phi? ==> f.nextId !in Sources(y.incoming)
    requires b !in f.succs[b] ==> forall y :: y in f.code[b] && y.Phi? ==> b !in Sources(y.incoming)
    ensures 1 <= k <= 3 && Run(g, m, Rerouted(f, b, c), k) == Rerouted(f, b, Step(f, m, c))
    ensures forall j :: 0 < j < k ==> InTriangle(f, Run(g, m, Rerouted(f, b, c), j))
  {
    var code := f.code[b];
    OldStep(f, b, at, m, c);
    HeadStep(f, b, at, g, m, c);
    match HeadEnd(m, code, at, c.pred, c.st)
    case None =>
      RunOnce(g, m, Rerouted(f, b, c));
      k := 1;
    case Some(end) => k := StepSelfEnd(f, b, at, g, m, c, end);
  }

  lemma StepSelfEnd<W>(f: Function, b: BlockId, at: nat, g: Function, m: Meaning<W>, c: Conf<W>, end: (bool, State<W>))
    returns (k: nat)
    requires c.At? && b in f.code && IsSelectAt(f.code[b], at) && LocalOk(f.code[b]) && b < f.nextId
    requires f.nextId in g.code && f.nextId + 1 in g.code
    requires g.code[f.nextId] == TailCode(f.code[b], at, b, f.nextId + 1) && g.code[f.nextId + 1] == []
    requires NextInLayout(g.layout, f.nextId + 1) == Some(f.nextId)
    requires NextInLayout(g.layout, f.nextId) == NextInLayout(f.layout, b)
    requires Step(f, m, c) == After(f.layout, b, Some(RestOfBlock(m, f.code[b], at, end)))
    requires Step(g, m, Rerouted(f, b, c)) == At(b, if end.0 then f.nextId else f.nextId + 1, end.1)
    ensures 1 <= k <= 3 && Run(g, m, Rerouted(f, b, c), k) == Rerouted(f, b, Step(f, m, c))
    ensures forall j :: 0 < j < k ==> InTriangle(f, Run(g, m, Rerouted(f, b, c), j))
  {
    TailRunsAs(m, g.code[f.nextId], f.code[b], at, b, f.nextId + 1, end);
    k := TriangleSteps(f, b, g, m, c, end, RestOfBlock(m, f.code[b], at, end));
  }

  lemma OldStep<W>(f: Function, b: BlockId, at: nat, m: Meaning<W>, c: Conf<W>)
    requires b in f.code && IsSelectAt(f.code[b], at) && LocalOk(f.code[b]) && c.At? && c.block == b
    ensures PhiCount(f.code[b]) <= at
    ensures Step(f, m, c) ==
            match HeadEnd(m, f.code[b], at, c.pred, c.st)
            case None => Stuck
            case Some(end) => After(f.layout, b, Some(RestOfBlock(m, f.code[b], at, end)))
  {
    OldRuns(m, f.code[b], at, c.pred, c.st);
    StepIsAfter(f, m, c);
  }

  lemma HeadStep<W>(f: Function, b: BlockId, at: nat, g: Function, m: Meaning<W>, c: Conf<W>)
    requires b in f.code && b in f.succs && IsSelectAt(f.code[b], at) && LocalOk(f.code[b]) && b < f.nextId
    requires c.At? && c.pred < f.nextId && c.block == b
    requires b in g.code && NextInLayout(g.layout, b) == Some(f.nextId + 1)
    requires g.code[b] == MaybeRenamed(HeadCode(f.code[b], at, f.nextId), b in f.succs[b], b, f.nextId)
    requires forall y :: y in f.code[b] && y.Phi? ==> f.nextId !in Sources(y.incoming)
    requires b !in f.succs[b] ==> forall y :: y in f.code[b] && y.Phi? ==> b !in Sources(y.incoming)
    ensures PhiCount(f.code[b]) <= at
    ensures Step(g, m, Rerouted(f, b, c)) ==
            match HeadEnd(m, f.code[b], at, c.pred, c.st)
            case None => Stuck
            case Some(end) => At(b, if end.0 then f.nextId else f.nextId + 1, end.1)
  {
    HeadRuns(m, f.code[b], at, f.nextId, b in f.succs[b], c.pred, b, c.st);
    StepIsAfter(g, m, Rerouted(f, b, c));
  }

  lemma TriangleSteps<W>(f: Function, b: BlockId, g: Function, m: Meaning<W>, c: Conf<W>, end: (bool, State<W>),
                         o: Outcome<W>)
    returns (k: nat)
    requires c.At? && f.nextId in g.code && f.nextId + 1 in g.code
    requires g.code[f.nextId + 1] == [] && b < f.nextId
    requires NextInLayout(g.layout, f.nextId + 1) == Some(f.nextId)
    requires NextInLayout(g.layout, f.nextId) == NextInLayout(f.layout, b)
    requires Step(f, m, c) == After(f.layout, b, Some(o))
    requires Step(g, m, Rerouted(f, b, c)) == At(b, if end.0 then f.nextId else f.nextId + 1, end.1)
    requires RunCode(m, g.code[f.nextId], if end.0 then b else f.nextId + 1, end.1) == Some(o)
    ensures 1 <= k <= 3 && Run(g, m, Rerouted(f, b, c), k) == Rerouted(f, b, Step(f, m, c))
    ensures forall j :: 0 < j < k ==> InTriangle(f, Run(g, m, Rerouted(f, b, c), j))
  {
    var tail, ifFalse := f.nextId, f.nextId + 1;
    var c0 := Rerouted(f, b, c);
    var c1 := Step(g, m, c0);
    RunOnce(g, m, c0);
    if end.0 {
      RunTwice(g, m, c0);
      StepIsAfter(g, m, c1);
      k := 2;
    } else {
      RunTwice(g, m, c0);
      RunThrice(g, m, c0);
      StepIsAfter(g, m, c1);
      EmptyBlock(m, b, end.1);
      var c2 := At(ifFalse, tail, end.1);
      assert Step(g, m, c1) == c2;
      StepIsAfter(g, m, c2);
      k := 3;
    }
  }

  lemma EmptyBlock<W>(m: Meaning<W>, pred: BlockId, st: State<W>)
    ensures RunCode(m, [], pred, st) == Some(Fall(st))
  {
  }

  lemma RunOnce<W>(f: Function, m: Meaning<W>, c: Conf<W>)
    ensures Run(f, m, c, 1) == Step(f, m, c)
  {
    assert Run(f, m, Step(f, m, c), 0) == Step(f, m, c);
  }

  lemma RunTwice<W>(f: Function, m: Meaning<W>, c: Conf<W>)
    ensures Run(f, m, c, 2) == Step(f, m, Step(f, m, c))
  {
    RunOnce(f, m, Step(f, m, c));
  }

  lemma RunThrice<W>(f: Function, m: Meaning<W>, c: Conf<W>)
    ensures Run(f, m, c, 3) == Step(f, m, Step(f, m, Step(f, m, c)))
  {
    RunTwice(f, m, Step(f, m, c));
  }

  // ----- Whole runs -----

  lemma StepAny<W>(f: Function, b: BlockId, at: nat, g: Function, m: Meaning<W>, c: Conf<W>) returns (k: nat)
    requires Expandable(f, b, at) && Expansion(f, b, at, g) && OldConf(f, c)
    ensures 1 <= k <= 3 && Run(g, m, Rerouted(f, b, c), k) == Rerouted(f, b, Step(f, m, c))
    ensures forall j :: 0 < j < k ==> InTriangle(f, Run(g, m, Rerouted(f, b, c), j))
    ensures OldConf(f, Step(f, m, c))
  {
    StepStaysOld(f, m, c);
    RunOnce(g, m, Rerouted(f, b, c));
    k := 1;
    if c.At? && c.block == b {
      k := StepSelf(f, b, at, g, m, c);
    } else if c.At? && c.block in f.code {
      StepOther(f, b, at, g, m, c);
    }
  }

  /** Every run of the old function is followed by the new one. */
  lemma {:induction false} Forward<W>(f: Function, b: BlockId, at: nat, g: Function, m: Meaning<W>, c: Conf<W>, n: nat)
    returns (k: nat)
    requires Expandable(f, b, at) && Expansion(f, b, at, g) && OldConf(f, c)
    ensures Run(g, m, Rerouted(f, b, c), k) == Rerouted(f, b, Run(f, m, c, n))
    decreases n
  {
    k := 0;
    if n > 0 {
      var first := StepAny(f, b, at, g, m, c);
      var rest := Forward(f, b, at, g, m, Step(f, m, c), n - 1);
      RunAdd(g, m, Rerouted(f, b, c), first, rest);
      k := first + rest;
    }
  }

  /** Every configuration of the new function outside the triangle is one the old function reaches. */
  lemma {:induction false} Backward<W>(f: Function, b: BlockId, at: nat, g: Function, m: Meaning<W>,
                                       c: Conf<W>, d: Conf<W>, k: nat)
    returns (n: nat)
    requires Expandable(f, b, at) && Expansion(f, b, at, g) && OldConf(f, c) && OldConf(f, d)
    requires Run(g, m, Rerouted(f, b, c), k) == Rerouted(f, b, d)
    ensures Run(f, m, c, n) == d
    decreases k
  {
    n := 0;
    if k > 0 {
      var first := StepAny(f, b, at, g, m, c);
      NotWithinStep(f, b, g, m, c, d, k, first);
      RunAdd(g, m, Rerouted(f, b, c), first, k - first);
      var rest := Backward(f, b, at, g, m, Step(f, m, c), d, k - first);
      n := rest + 1;
    }
  }

  /** Within the triangle no configuration of the old function is met. */
  lemma NotWithinStep<W>(f: Function, b: BlockId, g: Function, m: Meaning<W>, c: Conf<W>, d: Conf<W>, k: nat, first: nat)
    requires OldConf(f, d) && k > 0 && Run(g, m, Rerouted(f, b, c), k) == Rerouted(f, b, d)
    requires forall j :: 0 < j < first ==> InTriangle(f, Run(g, m, Rerouted(f, b, c), j))
    ensures first <= k
  {
    assert !InTriangle(f, Run(g, m, Rerouted(f, b, c), k));
  }

  /** Expanding a run of selects preserves every run of the function: from any
      block, registers and world, the old function reaches a configuration
      exactly when the new one reaches it, with the tail in place of the
      expanded block as the origin of an edge. */
  lemma ExpansionPreservesRuns<W>(f: Function, b: BlockId, at: nat, m: Meaning<W>, c: Conf<W>, d: Conf<W>)
    requires CfgOk(f) && CanExpand(f, b, at) && OldConf(f, c) && OldConf(f, d)
    ensures Reaches(f, m, c, d) <==> Reaches(Expand(f, b, at), m, Rerouted(f, b, c), Rerouted(f, b, d))
  {
    var g := Expand(f, b, at);
    ExpandIsExpansion(f, b, at);
    if Reaches(f, m, c, d) {
      var n: nat :| Run(f, m, c, n) == d;
      var k := Forward(f, b, at, g, m, c, n);
    }
    if Reaches(g, m, Rerouted(f, b, c), Rerouted(f, b, d)) {
      var k: nat :| Run(g, m, Rerouted(f, b, c), k) == Rerouted(f, b, d);
      var n := Backward(f, b, at, g, m, c, d, k);
    }
  }
}
