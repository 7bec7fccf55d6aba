/** Well-formed functions in SSA form. */
module WellFormedness {
  import opened MachineIR
  import opened LocalSsa
  import opened SelectExpansion

  // ----- Control flow -----

  function BranchTargets(code: Code): set<BlockId> {
    set x | x in code && (x.CondBr? || x.Jump?) :: x.target
  }

  predicate FallsThrough(code: Code) {
    forall x :: x in code ==> !x.Jump? && !x.Return?
  }

  function FallTargets(layout: seq<BlockId>, b: BlockId, code: Code): set<BlockId> {
    if FallsThrough(code) then
      match NextInLayout(layout, b) { case None => {} case Some(next) => {next} }
    else {}
  }

  /** The recorded edges are where control can go, and control never runs off the end of the layout. */
  predicate EdgesOk(f: Function, x: BlockId)
    requires x in f.code && x in f.succs
  {
    && f.succs[x] == BranchTargets(f.code[x]) + FallTargets(f.layout, x, f.code[x])
    && (FallsThrough(f.code[x]) ==> NextInLayout(f.layout, x).Some?)
  }

  function Preds(f: Function, x: BlockId): set<BlockId> {
    set p | p in f.succs && x in f.succs[p]
  }

  function Sources(incoming: seq<Incoming>): set<BlockId> {
    set inc | inc in incoming :: inc.block
  }

  /** Every PHI has exactly one source for each predecessor. */
  ghost predicate PhisOk(f: Function, x: BlockId)
    requires x in f.code
  {
    forall y :: y in f.code[x] && y.Phi? ==>
      Sources(y.incoming) == Preds(f, x) && |y.incoming| == |Preds(f, x)|
  }

  predicate NoRepeats(layout: seq<BlockId>) {
    forall j, k :: 0 <= j < k < |layout| ==> layout[j] != layout[k]
  }

  ghost predicate CfgOk(f: Function) {
    && Allocated(f)
    && (forall x :: x in f.code ==> x in f.layout)
    && NoRepeats(f.layout)
    && (forall x {:trigger LocalOk(f.code[x])} :: x in f.code ==> LocalOk(f.code[x]))
    && (forall x {:trigger EdgesOk(f, x)} :: x in f.code ==> EdgesOk(f, x))
    && (forall x {:trigger PhisOk(f, x)} :: x in f.code ==> PhisOk(f, x))
  }

  lemma {:induction false} ExecTargets<W>(m: Meaning<W>, code: Code, st: State<W>)
    ensures match Exec(m, code, st)
            case Goto(target, _) => target in BranchTargets(code)
            case Fall(_) => FallsThrough(code)
            case Exit(_) => true
  {
    if code != [] {
      assert forall x :: x in code ==> x == code[0] || x in code[1..];
      assert forall x :: x in code[1..] ==> x in code;
      match code[0]
      case CondBr(_, _, _, _) => ExecTargets(m, code[1..], st);
      case Jump(target) =>
      case Return(_) =>
      case x => ExecTargets(m, code[1..], ExecOne(m, x, st));
    }
  }
}
