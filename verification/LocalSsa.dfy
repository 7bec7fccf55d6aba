/** What the shape of one block in SSA form guarantees: PHIs first,
    terminators last, each register defined once, and no register read where it
    stands and defined at or after that point. */
module LocalSsa {
  import opened MachineIR

  predicate PhisFirst(code: Code) {
    forall x :: x in code[PhiCount(code)..] ==> !x.Phi?
  }

  predicate TerminatorsLast(code: Code) {
    forall j, k :: 0 <= j < k < |code| && IsTerminator(code[j]) ==> IsTerminator(code[k])
  }

  /** `x` reads nothing that `y` defines. */
  ghost predicate DoesNotRead(x: Instr, y: Instr) {
    Uses(x) !! Defs(y)
  }

  ghost predicate DefineApart(x: Instr, y: Instr) {
    Defs(x) !! Defs(y)
  }

  ghost predicate UsesPrecedeDefs(code: Code) {
    forall j, k {:trigger DoesNotRead(code[j], code[k])} ::
      0 <= j <= k < |code| ==> DoesNotRead(code[j], code[k])
  }

  ghost predicate DistinctDefs(code: Code) {
    forall j, k {:trigger DefineApart(code[j], code[k])} ::
      0 <= j < k < |code| ==> DefineApart(code[j], code[k])
  }

  ghost predicate LocalOk(code: Code) {
    PhisFirst(code) && TerminatorsLast(code) && UsesPrecedeDefs(code) && DistinctDefs(code)
  }
}
