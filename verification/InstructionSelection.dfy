/** Selection of RV32I instructions for expression trees by the patterns, and
    what the selected code computes. */
module InstructionSelection {
  import opened Wrappers
  import opened Immediates

  type Word = w: int | 0 <= w < 0x1_0000_0000

  function ToWord(v: int): Word {
    Wrap32(v)
  }

  function Signed(w: Word): int {
    SignExtend32(w)
  }

  /** The bitwise operations. Nodes and instructions mean the same by them, so
      no law is needed but that the order of the operands does not matter. */
  datatype Bitwise = Bitwise(both: (Word, Word) -> Word, either: (Word, Word) -> Word, differ: (Word, Word) -> Word)

  ghost predicate Symmetric(op: (Word, Word) -> Word) {
    forall a: Word, b: Word {:trigger op(a, b)} :: op(a, b) == op(b, a)
  }

  ghost predicate Lawful(bw: Bitwise) {
    Symmetric(bw.both) && Symmetric(bw.either) && Symmetric(bw.differ)
  }

  function RV32Bitwise(): Bitwise {
    Bitwise((a: Word, b: Word) => ((a as bv32) & (b as bv32)) as Word,
            (a: Word, b: Word) => ((a as bv32) | (b as bv32)) as Word,
            (a: Word, b: Word) => ((a as bv32) ^ (b as bv32)) as Word)
  }

  lemma RV32BitwiseIsLawful()
    ensures Lawful(RV32Bitwise())
  {
    var bw := RV32Bitwise();
    assert Symmetric(bw.both) && Symmetric(bw.either) && Symmetric(bw.differ);
  }

  function Bool(b: bool): Word {
    if b then 1 else 0
  }

  function Pow2(n: nat): (p: nat)
    ensures p > 0
  {
    if n == 0 then 1 else 2 * Pow2(n - 1)
  }

  // ----- Expression trees -----

  datatype NodeOp = Add | Sub | And | Or | Xor | Shl | Srl | SetLT | SetULT

  datatype Expr = Leaf(reg: nat) | Constant(value: Word) | Node(op: NodeOp, lhs: Expr, rhs: Expr)

  /** A shift by the width of a word or more has no value. */
  function NodeValue(bw: Bitwise, op: NodeOp, a: Word, b: Word): Option<Word> {
    match op
    case Add => Some(ToWord(a + b))
    case Sub => Some(ToWord(a - b))
    case And => Some(bw.both(a, b))
    case Or => Some(bw.either(a, b))
    case Xor => Some(bw.differ(a, b))
    case Shl => if b < 32 then Some(ToWord(a * Pow2(b))) else None
    case Srl => if b < 32 then Some(ToWord(a / Pow2(b))) else None
    case SetLT => Some(Bool(Signed(a) < Signed(b)))
    case SetULT => Some(Bool(a < b))
  }

  type Regs = map<nat, Word>

  function Read(regs: Regs, r: nat): Word {
    if r in regs then regs[r] else 0
  }

  function Eval(bw: Bitwise, e: Expr, regs: Regs): Option<Word> {
    match e
    case Leaf(r) => Some(Read(regs, r))
    case Constant(c) => Some(c)
    case Node(op, l, r) =>
      (match (Eval(bw, l, regs), Eval(bw, r, regs))
       case (Some(a), Some(b)) => NodeValue(bw, op, a, b)
       case _ => None)
  }

  predicate LeavesBelow(e: Expr, n: nat) {
    match e
    case Leaf(r) => r < n
    case Constant(_) => true
    case Node(_, l, r) => LeavesBelow(l, n) && LeavesBelow(r, n)
  }

  // ----- Instructions -----

  datatype AluOp = ADD | SUB | SLL | SLT | SLTU | XOR | SRL | OR | AND

  datatype ImmOp = ADDI | SLTI | SLTIU | XORI | ORI | ANDI

  /** The register that is always zero, or a virtual register. */
  datatype Operand = ZERO | V(reg: nat)

  datatype Inst =
    | RR(alu: AluOp, rd: nat, rs1: Operand, rs2: Operand)
    | RI(imm: ImmOp, rd: nat, rs1: Operand, imm12: int)
    | LUI(rd: nat, imm20: nat)

  /** Section 2.4 of the RISC-V manual: shifts use the low five bits of their amount. */
  function AluValue(bw: Bitwise, op: AluOp, a: Word, b: Word): Word {
    match op
    case ADD => ToWord(a + b)
    case SUB => ToWord(a - b)
    case SLL => ToWord(a * Pow2(b % 32))
    case SLT => Bool(Signed(a) < Signed(b))
    case SLTU => Bool(a < b)
    case XOR => bw.differ(a, b)
    case SRL => ToWord(a / Pow2(b % 32))
    case OR => bw.either(a, b)
    case AND => bw.both(a, b)
  }

  /** The immediate is sign-extended to a word, for the unsigned comparison too. */
  function ImmValue(bw: Bitwise, op: ImmOp, a: Word, imm12: int): Word {
    match op
    case ADDI => Addi32(a, imm12)
    case SLTI => Bool(Signed(a) < imm12)
    case SLTIU => Bool(a < ToWord(imm12))
    case XORI => bw.differ(a, ToWord(imm12))
    case ORI => bw.either(a, ToWord(imm12))
    case ANDI => bw.both(a, ToWord(imm12))
  }

  function OperandValue(regs: Regs, x: Operand): Word {
    match x
    case ZERO => 0
    case V(r) => Read(regs, r)
  }

  function Exec(bw: Bitwise, x: Inst, regs: Regs): Regs {
    match x
    case RR(op, rd, rs1, rs2) => regs[rd := AluValue(bw, op, OperandValue(regs, rs1), OperandValue(regs, rs2))]
    case RI(op, rd, rs1, imm12) => regs[rd := ImmValue(bw, op, OperandValue(regs, rs1), imm12)]
    case LUI(rd, imm20) => regs[rd := Lui32(imm20)]
  }

  /** The registers after the first `k` instructions. */
  function Run(bw: Bitwise, code: seq<Inst>, k: nat, regs: Regs): Regs
    requires k <= |code|
  {
    if k == 0 then regs else Exec(bw, code[k - 1], Run(bw, code, k - 1, regs))
  }

  function RunAll(bw: Bitwise, code: seq<Inst>, regs: Regs): Regs {
    Run(bw, code, |code|, regs)
  }

  lemma {:induction false} RunPrefix(bw: Bitwise, a: seq<Inst>, b: seq<Inst>, k: nat, regs: Regs)
    requires k <= |a|
    ensures Run(bw, a + b, k, regs) == Run(bw, a, k, regs)
  {
    if k > 0 {
      RunPrefix(bw, a, b, k - 1, regs);
    }
  }

  lemma {:induction false} RunAppend(bw: Bitwise, a: seq<Inst>, b: seq<Inst>, k: nat, regs: Regs)
    requires k <= |b|
    ensures Run(bw, a + b, |a| + k, regs) == Run(bw, b, k, RunAll(bw, a, regs))
  {
    if k > 0 {
      RunAppend(bw, a, b, k - 1, regs);
    } else {
      RunPrefix(bw, a, b, |a|, regs);
    }
  }

  // ----- Patterns -----

  /** The register-register pattern of each node. */
  function PatGprGpr(op: NodeOp): AluOp {
    match op
    case Add => ADD
    case Sub => SUB
    case And => AND
    case Or => OR
    case Xor => XOR
    case Shl => SLL
    case Srl => SRL
    case SetLT => SLT
    case SetULT => SLTU
  }

  /** The register-immediate pattern, for nodes that have one. */
  function PatGprSimm12(op: NodeOp): Option<ImmOp> {
    match op
    case Add => Some(ADDI)
    case And => Some(ANDI)
    case Or => Some(ORI)
    case Xor => Some(XORI)
    case SetLT => Some(SLTI)
    case SetULT => Some(SLTIU)
    case _ => None
  }

  /** The nodes whose operands the pattern generator also matches the other way round. */
  predicate Commutes(op: NodeOp) {
    op.Add? || op.And? || op.Or? || op.Xor?
  }

  predicate IsSimm12(c: Word) {
    -0x800 <= Signed(c) < 0x800
  }

  /** A constant of 12 bits, with this value. */
  predicate IsImmediate(e: Expr, imm12: int) {
    e.Constant? && IsSimm12(e.value) && imm12 == Signed(e.value)
  }

  /** A choice of patterns for an expression tree. */
  datatype Choice =
    | Register(reg: nat)
    | Small(imm12: int)
    | Large(hi: nat, lo: int)
    | RegReg(alu: AluOp, a: Choice, b: Choice)
    | RegImm(imm: ImmOp, a: Choice, imm12: int)

  /** Is this choice of patterns legal for the tree? */
  predicate Matches(e: Expr, s: Choice) {
    match s
    case Register(r) => e == Leaf(r)
    case Small(imm12) => IsImmediate(e, imm12)
    case Large(hi, lo) => e.Constant? && hi == HI20(e.value) && lo == LO12Sext(e.value)
    case RegReg(op, a, b) => e.Node? && op == PatGprGpr(e.op) && Matches(e.lhs, a) && Matches(e.rhs, b)
    case RegImm(op, a, imm12) =>
      && e.Node? && PatGprSimm12(e.op) == Some(op)
      && (|| (Matches(e.lhs, a) && IsImmediate(e.rhs, imm12))
          || (Commutes(e.op) && Matches(e.rhs, a) && IsImmediate(e.lhs, imm12)))
  }

  /** The code of a choice, its result, and the next free register. */
  function Emit(s: Choice, next: nat): (seq<Inst>, Operand, nat) {
    match s
    case Register(r) => ([], V(r), next)
    case Small(imm12) => ([RI(ADDI, next, ZERO, imm12)], V(next), next + 1)
    case Large(hi, lo) => ([LUI(next, hi), RI(ADDI, next + 1, V(next), lo)], V(next + 1), next + 2)
    case RegReg(op, a, b) =>
      var (codeA, x, n1) := Emit(a, next);
      var (codeB, y, n2) := Emit(b, n1);
      (codeA + codeB + [RR(op, n2, x, y)], V(n2), n2 + 1)
    case RegImm(op, a, imm12) =>
      var (code, x, n1) := Emit(a, next);
      (code + [RI(op, n1, x, imm12)], V(n1), n1 + 1)
  }

  // ----- Correctness -----

  lemma SignedWraps(c: Word)
    ensures ToWord(Signed(c)) == c
  {
  }

  /** The register-register instruction computes the node, where the node has a value. */
  lemma RegRegComputes(bw: Bitwise, op: NodeOp, a: Word, b: Word)
    requires NodeValue(bw, op, a, b).Some?
    ensures Some(AluValue(bw, PatGprGpr(op), a, b)) == NodeValue(bw, op, a, b)
  {
    if b < 32 {
      assert b % 32 == b;
    }
  }

  /** So does the register-immediate instruction, under unsigned comparison too. */
  lemma RegImmComputes(bw: Bitwise, op: NodeOp, a: Word, c: Word)
    requires PatGprSimm12(op).Some?
    ensures Some(ImmValue(bw, PatGprSimm12(op).value, a, Signed(c))) == NodeValue(bw, op, a, c)
  {
    SignedWraps(c);
    AddSigned(a, c);
  }

  lemma AddSigned(a: Word, c: Word)
    ensures Addi32(a, Signed(c)) == ToWord(a + c)
  {
    var k := if c < 0x8000_0000 then 0 else 1;
    assert Signed(c) == c - k * 0x1_0000_0000;
    WrapAdds(a + c, -k * 0x1_0000_0000);
  }

  /** No register below `n` differs. */
  ghost predicate Untouched(regs: Regs, after: Regs, n: nat) {
    forall r: nat {:trigger Read(after, r)} :: r < n ==> Read(after, r) == Read(regs, r)
  }

  /** `code` leaves `value` in `x` and every register below `n` alone. */
  ghost predicate Leaves(bw: Bitwise, code: seq<Inst>, regs: Regs, x: Operand, value: Word, n: nat) {
    OperandValue(RunAll(bw, code, regs), x) == value && Untouched(regs, RunAll(bw, code, regs), n)
  }

  predicate Below(x: Operand, n: nat) {
    x.V? ==> x.reg < n
  }

  lemma ExecTouches(bw: Bitwise, x: Inst, regs: Regs, mid: Regs, n: nat)
    requires x.rd >= n && Untouched(regs, mid, n)
    ensures Untouched(regs, Exec(bw, x, mid), n)
  {
    forall r: nat | r < n ensures Read(Exec(bw, x, mid), r) == Read(regs, r) {
      assert Read(mid, r) == Read(regs, r);
    }
  }

  lemma RunSnoc(bw: Bitwise, code: seq<Inst>, x: Inst, regs: Regs)
    ensures RunAll(bw, code + [x], regs) == Exec(bw, x, RunAll(bw, code, regs))
  {
    RunAppend(bw, code, [x], 1, regs);
    assert Run(bw, [x], 0, RunAll(bw, code, regs)) == RunAll(bw, code, regs);
  }

  /** One more immediate instruction, into a register that nothing in use occupies. */
  lemma ThenImmediate(bw: Bitwise, code: seq<Inst>, x: Operand, a: Word, op: ImmOp, imm12: int, rd: nat, regs: Regs, n: nat)
    requires Leaves(bw, code, regs, x, a, n) && n <= rd
    ensures Leaves(bw, code + [RI(op, rd, x, imm12)], regs, V(rd), ImmValue(bw, op, a, imm12), n)
  {
    RunSnoc(bw, code, RI(op, rd, x, imm12), regs);
    ExecTouches(bw, RI(op, rd, x, imm12), regs, RunAll(bw, code, regs), n);
  }

  /** The code of two operands, one after the other, and an instruction on both. */
  lemma ThenBoth(bw: Bitwise, codeA: seq<Inst>, x: Operand, a: Word, codeB: seq<Inst>, y: Operand, b: Word,
                 op: AluOp, rd: nat, regs: Regs, n: nat, n1: nat)
    requires Leaves(bw, codeA, regs, x, a, n) && Below(x, n1) && n <= n1 <= rd
    requires Leaves(bw, codeB, RunAll(bw, codeA, regs), y, b, n1)
    ensures Leaves(bw, codeA + codeB + [RR(op, rd, x, y)], regs, V(rd), AluValue(bw, op, a, b), n)
  {
    var mid := RunAll(bw, codeA, regs);
    var late := RunAll(bw, codeB, mid);
    RunAppend(bw, codeA, codeB, |codeB|, regs);
    assert RunAll(bw, codeA + codeB, regs) == late;
    UntouchedTwice(regs, mid, late, n, n1);
    assert OperandValue(late, x) == a;
    RunSnoc(bw, codeA + codeB, RR(op, rd, x, y), regs);
    ExecTouches(bw, RR(op, rd, x, y), regs, late, n);
  }

  lemma UntouchedTwice(regs: Regs, mid: Regs, late: Regs, n: nat, n1: nat)
    requires Untouched(regs, mid, n) && Untouched(mid, late, n1) && n <= n1
    ensures Untouched(regs, late, n)
  {
    forall r: nat | r < n ensures Read(late, r) == Read(regs, r) {
      assert Read(mid, r) == Read(regs, r);
    }
  }

  lemma LuiAlone(bw: Bitwise, hi: nat, rd: nat, regs: Regs, n: nat)
    requires n <= rd
    ensures Leaves(bw, [LUI(rd, hi)], regs, V(rd), Lui32(hi), n)
  {
    assert [] + [LUI(rd, hi)] == [LUI(rd, hi)];
    RunSnoc(bw, [], LUI(rd, hi), regs);
    ExecTouches(bw, LUI(rd, hi), regs, regs, n);
  }

  lemma NothingLeaves(bw: Bitwise, regs: Regs, n: nat)
    ensures Leaves(bw, [], regs, ZERO, 0, n)
  {
  }

  /** A constant of 12 bits, added to zero. */
  lemma SmallComputes(bw: Bitwise, c: Word, imm12: int, regs: Regs, next: nat)
    requires imm12 == Signed(c)
    ensures Leaves(bw, [RI(ADDI, next, ZERO, imm12)], regs, V(next), c, next)
  {
    SignedWraps(c);
    NothingLeaves(bw, regs, next);
    ThenImmediate(bw, [], ZERO, 0, ADDI, imm12, next, regs, next);
    assert [] + [RI(ADDI, next, ZERO, imm12)] == [RI(ADDI, next, ZERO, imm12)];
  }

  lemma PairComputes(bw: Bitwise, hi: nat, lo: int, a: Word, b: Word, regs: Regs, next: nat)
    requires a == Lui32(hi) && b == Addi32(a, lo)
    ensures Leaves(bw, [LUI(next, hi), RI(ADDI, next + 1, V(next), lo)], regs, V(next + 1), b, next)
  {
    LuiAlone(bw, hi, next, regs, next);
    ThenImmediate(bw, [LUI(next, hi)], V(next), a, ADDI, lo, next + 1, regs, next);
    assert [LUI(next, hi)] + [RI(ADDI, next + 1, V(next), lo)] == [LUI(next, hi), RI(ADDI, next + 1, V(next), lo)];
  }

  /** Any constant, in two parts. */
  lemma LargeComputes(bw: Bitwise, c: Word, hi: nat, lo: int, regs: Regs, next: nat)
    requires hi == HI20(c) && lo == LO12Sext(c)
    ensures Leaves(bw, [LUI(next, hi), RI(ADDI, next + 1, V(next), lo)], regs, V(next + 1), c, next)
  {
    MaterialisesWord(c);
    PairComputes(bw, hi, lo, Lui32(hi), c, regs, next);
  }

  /** What is claimed of the code of a choice `s` whose tree has the value `value`. */
  ghost predicate Correct(bw: Bitwise, s: Choice, regs: Regs, next: nat, value: Word) {
    var (code, x, n) := Emit(s, next);
    n >= next && Below(x, n) && Leaves(bw, code, regs, x, value, next)
  }

  lemma NodeCommutes(bw: Bitwise, op: NodeOp, a: Word, b: Word)
    requires Lawful(bw) && Commutes(op)
    ensures NodeValue(bw, op, a, b) == NodeValue(bw, op, b, a)
  {
  }

  lemma ImmediateCase(bw: Bitwise, op: NodeOp, c: Word, s: Choice, regs: Regs, next: nat, a: Word)
    requires s.RegImm? && PatGprSimm12(op) == Some(s.imm) && s.imm12 == Signed(c) && Correct(bw, s.a, regs, next, a)
    ensures NodeValue(bw, op, a, c).Some? && Correct(bw, s, regs, next, NodeValue(bw, op, a, c).value)
  {
    var (code, x, n) := Emit(s.a, next);
    ThenImmediate(bw, code, x, a, s.imm, s.imm12, n, regs, next);
    RegImmComputes(bw, op, a, c);
  }

  lemma BothCase(bw: Bitwise, e: Expr, s: Choice, regs: Regs, next: nat, left: Word, right: Word)
    requires s.RegReg? && e.Node? && s.alu == PatGprGpr(e.op)
    requires Correct(bw, s.a, regs, next, left)
    requires var (codeA, x, n1) := Emit(s.a, next); Correct(bw, s.b, RunAll(bw, codeA, regs), n1, right)
    requires NodeValue(bw, e.op, left, right).Some?
    ensures Correct(bw, s, regs, next, NodeValue(bw, e.op, left, right).value)
  {
    var (codeA, x, n1) := Emit(s.a, next);
    var (codeB, y, n2) := Emit(s.b, n1);
    ThenBoth(bw, codeA, x, left, codeB, y, right, s.alu, n2, regs, next, n1);
    RegRegComputes(bw, e.op, left, right);
  }

  /** Whatever legal choice of patterns is made for a tree, the code computes
      the tree's value and disturbs no register in use. */
  lemma {:induction false} SelectionComputes(bw: Bitwise, e: Expr, s: Choice, regs: Regs, next: nat)
    requires Lawful(bw) && Matches(e, s) && LeavesBelow(e, next) && Eval(bw, e, regs).Some?
    ensures Correct(bw, s, regs, next, Eval(bw, e, regs).value)
    decreases s
  {
    match s
    case Register(r) =>
    case Small(imm12) => SmallComputes(bw, e.value, imm12, regs, next);
    case Large(hi, lo) => LargeComputes(bw, e.value, hi, lo, regs, next);
    case RegImm(_, a, imm12) =>
      if Matches(e.lhs, a) && IsImmediate(e.rhs, imm12) {
        SelectionComputes(bw, e.lhs, a, regs, next);
        ImmediateCase(bw, e.op, e.rhs.value, s, regs, next, Eval(bw, e.lhs, regs).value);
      } else {
        SelectionComputes(bw, e.rhs, a, regs, next);
        ImmediateCase(bw, e.op, e.lhs.value, s, regs, next, Eval(bw, e.rhs, regs).value);
        NodeCommutes(bw, e.op, e.lhs.value, Eval(bw, e.rhs, regs).value);
      }
    case RegReg(_, a, b) =>
      SelectionComputes(bw, e.lhs, a, regs, next);
      var (codeA, x, n1) := Emit(a, next);
      var mid := RunAll(bw, codeA, regs);
      SameLeaves(bw, e.rhs, regs, mid, next);
      LeavesStayBelow(e.rhs, next, n1);
      SelectionComputes(bw, e.rhs, b, mid, n1);
      BothCase(bw, e, s, regs, next, Eval(bw, e.lhs, regs).value, Eval(bw, e.rhs, regs).value);
  }

  lemma {:induction false} SameLeaves(bw: Bitwise, e: Expr, regs: Regs, regs': Regs, n: nat)
    requires LeavesBelow(e, n) && Untouched(regs, regs', n)
    ensures Eval(bw, e, regs') == Eval(bw, e, regs)
  {
    if e.Node? {
      SameLeaves(bw, e.lhs, regs, regs', n);
      SameLeaves(bw, e.rhs, regs, regs', n);
    }
  }

  lemma {:induction false} LeavesStayBelow(e: Expr, n: nat, n': nat)
    requires LeavesBelow(e, n) && n <= n'
    ensures LeavesBelow(e, n')
  {
    if e.Node? {
      LeavesStayBelow(e.lhs, n, n');
      LeavesStayBelow(e.rhs, n, n');
    }
  }

  // ----- What the patterns offer -----

  /** The register-immediate patterns: one instruction takes in a constant of 12
      bits on the right of six of the operations, and on the left of four. */
  lemma ImmediatePatterns(x: Expr, a: Choice, c: Word, imm12: int)
    requires Matches(x, a) && imm12 == Signed(c) && -2048 <= imm12 < 2048
    ensures Matches(Node(Add, x, Constant(c)), RegImm(ADDI, a, imm12)) && Matches(Node(Add, Constant(c), x), RegImm(ADDI, a, imm12))
    ensures Matches(Node(And, x, Constant(c)), RegImm(ANDI, a, imm12)) && Matches(Node(And, Constant(c), x), RegImm(ANDI, a, imm12))
    ensures Matches(Node(Or, x, Constant(c)), RegImm(ORI, a, imm12)) && Matches(Node(Or, Constant(c), x), RegImm(ORI, a, imm12))
    ensures Matches(Node(Xor, x, Constant(c)), RegImm(XORI, a, imm12)) && Matches(Node(Xor, Constant(c), x), RegImm(XORI, a, imm12))
    ensures Matches(Node(SetLT, x, Constant(c)), RegImm(SLTI, a, imm12))
    ensures Matches(Node(SetULT, x, Constant(c)), RegImm(SLTIU, a, imm12))
  {
  }

  /** Every operation has its register-register pattern. */
  lemma RegisterPatterns(x: Expr, y: Expr, a: Choice, b: Choice)
    requires Matches(x, a) && Matches(y, b)
    ensures Matches(Node(Add, x, y), RegReg(ADD, a, b)) && Matches(Node(Sub, x, y), RegReg(SUB, a, b))
    ensures Matches(Node(And, x, y), RegReg(AND, a, b)) && Matches(Node(Or, x, y), RegReg(OR, a, b))
    ensures Matches(Node(Xor, x, y), RegReg(XOR, a, b))
  {
  }

  lemma ShiftAndComparePatterns(x: Expr, y: Expr, a: Choice, b: Choice)
    requires Matches(x, a) && Matches(y, b)
    ensures Matches(Node(SetLT, x, y), RegReg(SLT, a, b))
    ensures Matches(Node(SetULT, x, y), RegReg(SLTU, a, b))
    ensures Matches(Node(Shl, x, y), RegReg(SLL, a, b)) && Matches(Node(Srl, x, y), RegReg(SRL, a, b))
  {
  }

  /** A constant can be added to zero if it has 12 bits, and be made of two parts in any case. */
  lemma ConstantPatterns(c: Word)
    ensures -2048 <= Signed(c) < 2048 <==> Matches(Constant(c), Small(Signed(c)))
    ensures Matches(Constant(c), Large(HI20(c), LO12Sext(c)))
  {
  }

  /** The operands of an instruction fit its fields. */
  predicate Fits(x: Inst) {
    match x
    case RR(_, _, _, _) => true
    case RI(_, _, _, imm12) => -2048 <= imm12 < 2048
    case LUI(_, imm20) => imm20 < 0x10_0000
  }

  /** Whatever is chosen, only instructions whose operands fit are emitted. */
  lemma {:induction false} EmittedFits(e: Expr, s: Choice, next: nat)
    requires Matches(e, s)
    ensures forall k :: 0 <= k < |Emit(s, next).0| ==> Fits(Emit(s, next).0[k])
    decreases s
  {
    match s
    case Register(_) =>
    case Small(_) =>
    case Large(_, _) => Rebuilds(e.value);
    case RegReg(_, a, b) =>
      EmittedFits(e.lhs, a, next);
      EmittedFits(e.rhs, b, Emit(a, next).2);
    case RegImm(_, a, imm12) =>
      EmittedFits(if Matches(e.lhs, a) && IsImmediate(e.rhs, imm12) then e.lhs else e.rhs, a, next);
  }

  /** Some choice is always legal: the patterns cover every tree. */
  lemma {:induction false} SomeChoiceMatches(e: Expr) returns (s: Choice)
    ensures Matches(e, s)
  {
    match e
    case Leaf(r) => s := Register(r);
    case Constant(c) => s := Large(HI20(c), LO12Sext(c));
    case Node(op, l, r) =>
      var a := SomeChoiceMatches(l);
      var b := SomeChoiceMatches(r);
      s := RegReg(PatGprGpr(op), a, b);
  }
}
