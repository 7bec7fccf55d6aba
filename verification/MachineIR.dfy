/** Machine code before register allocation: blocks of instructions over
    virtual registers, laid out in a sequence, with explicit control-flow
    edges; and what running it does. */
module MachineIR {
  import opened Wrappers
  import opened Conditions

  type Reg = nat
  type BlockId = nat

  /** One source of a PHI: the register read when control comes from `block`. */
  datatype Incoming = Incoming(reg: Reg, block: BlockId)

  datatype Instr =
    | Phi(dst: Reg, incoming: seq<Incoming>)
    | Select(dst: Reg, lhs: Reg, rhs: Reg, cc: CondCode, tv: Reg, fv: Reg)
    | Op(opcode: nat, def: Option<Reg>, uses: seq<Reg>, sideEffects: bool, mayLoadOrStore: bool)
    | Debug(isValue: bool, reg: Reg)
    | CondBr(op: BranchOp, lhs: Reg, rhs: Reg, target: BlockId)
    | Jump(target: BlockId)
    | Return(uses: seq<Reg>)

  type Code = seq<Instr>

  predicate IsTerminator(x: Instr) {
    x.CondBr? || x.Jump? || x.Return?
  }

  function Defs(x: Instr): set<Reg> {
    match x
    case Phi(dst, _) => {dst}
    case Select(dst, _, _, _, _, _) => {dst}
    case Op(_, Some(r), _, _, _) => {r}
    case _ => {}
  }

  /** The registers an instruction reads where it stands. A PHI reads on the
      incoming edges instead, and a debug instruction reads nothing. */
  function Uses(x: Instr): set<Reg> {
    match x
    case Select(_, lhs, rhs, _, tv, fv) => {lhs, rhs, tv, fv}
    case Op(_, _, uses, _, _) => set r | r in uses
    case CondBr(_, lhs, rhs, _) => {lhs, rhs}
    case Return(uses) => set r | r in uses
    case _ => {}
  }

  /** A function: `layout` is the order of the blocks in memory (its head is
      the entry), `succs` the recorded control-flow edges, and every block
      number from `nextId` on is unused. */
  datatype Function = Function(layout: seq<BlockId>, code: map<BlockId, Code>,
                               succs: map<BlockId, set<BlockId>>, nextId: BlockId)

  /** The block that follows `b` in memory. */
  function NextInLayout(layout: seq<BlockId>, b: BlockId): Option<BlockId> {
    if |layout| < 2 then None
    else if layout[0] == b then Some(layout[1])
    else NextInLayout(layout[1..], b)
  }

  // ----- Semantics -----

  type Regs = map<Reg, Word>

  /** `world` is whatever else instructions read and write: memory, devices, a trace. */
  datatype State<W> = State(regs: Regs, world: W)

  /** The meaning of ordinary instructions, by opcode, operand values and
      world, and of the comparisons. */
  datatype Meaning<!W> = Meaning(value: (nat, seq<Word>, W) -> Word, effect: (nat, seq<Word>, W) -> W,
                                 cmp: Comparison)

  function Read(regs: Regs, r: Reg): Word {
    if r in regs then regs[r] else 0
  }

  function ReadAll(regs: Regs, rs: seq<Reg>): (ws: seq<Word>)
    ensures |ws| == |rs|
    ensures forall k :: 0 <= k < |rs| ==> ws[k] == Read(regs, rs[k])
  {
    seq(|rs|, k requires 0 <= k < |rs| => Read(regs, rs[k]))
  }

  function SelectValue(cmp: Comparison, x: Instr, regs: Regs): Word
    requires x.Select?
  {
    Read(regs, if Holds(cmp, x.cc, Read(regs, x.lhs), Read(regs, x.rhs)) then x.tv else x.fv)
  }

  /** One instruction that is neither a terminator nor a PHI. */
  function ExecOne<W>(m: Meaning<W>, x: Instr, st: State<W>): State<W> {
    match x
    case Select(dst, _, _, _, _, _) => st.(regs := st.regs[dst := SelectValue(m.cmp, x, st.regs)])
    case Op(opcode, def, uses, _, _) =>
      var args := ReadAll(st.regs, uses);
      State(if def.Some? then st.regs[def.value := m.value(opcode, args, st.world)] else st.regs,
            m.effect(opcode, args, st.world))
    case _ => st
  }

  datatype Outcome<W> = Fall(st: State<W>) | Goto(target: BlockId, st: State<W>) | Exit(st: State<W>)

  /** Straight-line execution up to the first terminator that is taken. */
  function Exec<W>(m: Meaning<W>, code: Code, st: State<W>): Outcome<W> {
    if code == [] then Fall(st)
    else match code[0]
      case CondBr(op, lhs, rhs, target) =>
        if Taken(m.cmp, op, Read(st.regs, lhs), Read(st.regs, rhs)) then Goto(target, st)
        else Exec(m, code[1..], st)
      case Jump(target) => Goto(target, st)
      case Return(_) => Exit(st)
      case x => Exec(m, code[1..], ExecOne(m, x, st))
  }

  function PhiCount(code: Code): (n: nat)
    ensures n <= |code|
    ensures forall k :: 0 <= k < n ==> code[k].Phi?
    ensures n < |code| ==> !code[n].Phi?
  {
    if code == [] || !code[0].Phi? then 0 else 1 + PhiCount(code[1..])
  }

  function IncomingReg(incoming: seq<Incoming>, pred: BlockId): Option<Reg> {
    if incoming == [] then None
    else if incoming[0].block == pred then Some(incoming[0].reg)
    else IncomingReg(incoming[1..], pred)
  }

  /** All PHIs of a block at once: every source is read from `before`, the
      registers at the end of the predecessor, and written to `acc`. */
  function EnterPhis(phis: Code, pred: BlockId, before: Regs, acc: Regs): Option<Regs>
    requires forall x :: x in phis ==> x.Phi?
  {
    if phis == [] then Some(acc)
    else match IncomingReg(phis[0].incoming, pred)
      case None => None
      case Some(r) => EnterPhis(phis[1..], pred, before, acc[phis[0].dst := Read(before, r)])
  }

  /** Where a run is: about to enter `block` from `pred`, or finished, or stuck
      (a missing block, or a PHI without a source for the edge taken). */
  datatype Conf<W> = At(pred: BlockId, block: BlockId, st: State<W>) | Done(st: State<W>) | Stuck

  function RunCode<W>(m: Meaning<W>, code: Code, pred: BlockId, st: State<W>): Option<Outcome<W>> {
    var n := PhiCount(code);
    match EnterPhis(code[..n], pred, st.regs, st.regs)
    case None => None
    case Some(regs) => Some(Exec(m, code[n..], st.(regs := regs)))
  }

  /** One block of a run. */
  function Step<W>(f: Function, m: Meaning<W>, c: Conf<W>): Conf<W> {
    if !c.At? then c
    else if c.block !in f.code then Stuck
    else match RunCode(m, f.code[c.block], c.pred, c.st)
      case None => Stuck
      case Some(Fall(st)) =>
        (match NextInLayout(f.layout, c.block)
         case None => Stuck
         case Some(next) => At(c.block, next, st))
      case Some(Goto(target, st)) => At(c.block, target, st)
      case Some(Exit(st)) => Done(st)
  }

  function Run<W>(f: Function, m: Meaning<W>, c: Conf<W>, n: nat): Conf<W>
    decreases n
  {
    if n == 0 then c else Run(f, m, Step(f, m, c), n - 1)
  }

  ghost predicate Reaches<W>(f: Function, m: Meaning<W>, c: Conf<W>, d: Conf<W>) {
    exists n: nat :: Run(f, m, c, n) == d
  }

  // ----- Executing pieces of a block -----

  predicate Straight(code: Code) {
    forall x :: x in code ==> !IsTerminator(x)
  }

  lemma {:induction false} ExecAppend<W>(m: Meaning<W>, a: Code, b: Code, st: State<W>)
    ensures Exec(m, a + b, st) ==
            (match Exec(m, a, st) case Fall(st') => Exec(m, b, st') case o => o)
  {
    if a == [] {
      assert a + b == b;
    } else {
      assert (a + b)[0] == a[0] && (a + b)[1..] == a[1..] + b;
      match a[0]
      case CondBr(_, _, _, _) => ExecAppend(m, a[1..], b, st);
      case Jump(_) =>
      case Return(_) =>
      case x => ExecAppend(m, a[1..], b, ExecOne(m, x, st));
    }
  }

  lemma {:induction false} ExecStraight<W>(m: Meaning<W>, code: Code, st: State<W>)
    requires Straight(code)
    ensures Exec(m, code, st).Fall?
  {
    if code != [] {
      assert code[0] in code;
      assert Straight(code[1..]);
      ExecStraight(m, code[1..], ExecOne(m, code[0], st));
    }
  }

  lemma {:induction false} RunAdd<W>(f: Function, m: Meaning<W>, c: Conf<W>, a: nat, b: nat)
    ensures Run(f, m, c, a + b) == Run(f, m, Run(f, m, c, a), b)
    decreases a
  {
    if a > 0 {
      RunAdd(f, m, Step(f, m, c), a - 1, b);
    }
  }
}
