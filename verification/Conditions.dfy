/** The six integer comparisons of the RISC-V branches, on 32-bit words: the
    condition codes carried by select pseudo-instructions and the branch
    instructions that `getBrCond` picks for them. */
module Conditions {
  type Word = bv32

  /** The two orders a machine compares words by, signed and unsigned. */
  datatype Comparison = Comparison(less: (Word, Word) -> bool, below: (Word, Word) -> bool)

  /** Signed order on words: flipping the sign bit turns it into the unsigned order. */
  predicate SignedLess(a: Word, b: Word) {
    (a ^ 0x8000_0000) < (b ^ 0x8000_0000)
  }

  const RV32: Comparison := Comparison((a, b) => SignedLess(a, b), (a, b) => a < b)

  /** TOYRISCVCC::CondCode, without COND_INVALID, which no producer returns. */
  datatype CondCode = COND_EQ | COND_NE | COND_LT | COND_GE | COND_LTU | COND_GEU

  datatype BranchOp = BEQ | BNE | BLT | BGE | BLTU | BGEU

  predicate Holds(cmp: Comparison, cc: CondCode, a: Word, b: Word) {
    match cc
    case COND_EQ => a == b
    case COND_NE => a != b
    case COND_LT => cmp.less(a, b)
    case COND_GE => !cmp.less(a, b)
    case COND_LTU => cmp.below(a, b)
    case COND_GEU => !cmp.below(a, b)
  }

  /** Section 2.5 of the RISC-V manual: when a conditional branch is taken. */
  predicate Taken(cmp: Comparison, op: BranchOp, a: Word, b: Word) {
    match op
    case BEQ => a == b
    case BNE => a != b
    case BLT => cmp.less(a, b)
    case BGE => !cmp.less(a, b)
    case BLTU => cmp.below(a, b)
    case BGEU => !cmp.below(a, b)
  }

  function GetBrCond(cc: CondCode): BranchOp {
    match cc
    case COND_EQ => BEQ
    case COND_NE => BNE
    case COND_LT => BLT
    case COND_GE => BGE
    case COND_LTU => BLTU
    case COND_GEU => BGEU
  }

  /** The branch chosen for a condition code is taken exactly when the condition holds. */
  lemma BrCondTaken(cmp: Comparison, cc: CondCode, a: Word, b: Word)
    ensures Taken(cmp, GetBrCond(cc), a, b) <==> Holds(cmp, cc, a, b)
  {
  }
}
