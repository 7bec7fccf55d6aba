/** Lowering of selects and conditional branches: ten integer condition codes
    become the six that the branches and the select pseudo-instruction have. */
module CondLowering {
  import opened Conditions
  import MachineIR

  // ----- Words -----

  /** What the lowering knows of the machine's arithmetic. */
  datatype Arithmetic = Arithmetic(zero: Word, one: Word, allOnes: Word,
                                   add: (Word, Word) -> Word, sub: (Word, Word) -> Word, cmp: Comparison)

  const RV32_ARITHMETIC: Arithmetic := Arithmetic(0, 1, 0xFFFF_FFFF, (a, b) => a + b, (a, b) => a - b, RV32)

  /** Subtracting one undoes adding it, and no word lies between -1 and 0 or between 0 and 1. */
  ghost predicate Lawful(ar: Arithmetic) {
    && ar.zero != ar.one
    && (forall x {:trigger ar.sub(x, ar.one)} :: ar.add(ar.one, ar.sub(x, ar.one)) == x)
    && (forall x {:trigger ar.add(x, ar.one)} :: ar.sub(ar.add(x, ar.one), ar.one) == x)
    && (forall x {:trigger ar.add(ar.zero, x)} :: ar.add(ar.zero, x) == x)
    && (forall x {:trigger ar.sub(x, ar.zero)} :: ar.sub(x, ar.zero) == x)
    && (forall x {:trigger ar.cmp.less(ar.allOnes, x)} :: ar.cmp.less(ar.allOnes, x) <==> !ar.cmp.less(x, ar.zero))
    && (forall x {:trigger ar.cmp.less(x, ar.one)} :: ar.cmp.less(x, ar.one) <==> !ar.cmp.less(ar.zero, x))
  }

  lemma WrapsAround(x: Word)
    ensures 1 + (x - 1) == x && (x + 1) - 1 == x && 0 + x == x && x - 0 == x
    ensures SignedLess(0xFFFF_FFFF, x) <==> !SignedLess(x, 0)
    ensures SignedLess(x, 1) <==> !SignedLess(0, x)
  {
  }

  lemma RV32Adds()
    ensures var ar := RV32_ARITHMETIC;
            && (forall x {:trigger ar.sub(x, ar.one)} :: ar.add(ar.one, ar.sub(x, ar.one)) == x)
            && (forall x {:trigger ar.add(x, ar.one)} :: ar.sub(ar.add(x, ar.one), ar.one) == x)
  {
    var ar := RV32_ARITHMETIC;
    forall x ensures ar.add(ar.one, ar.sub(x, ar.one)) == x && ar.sub(ar.add(x, ar.one), ar.one) == x { WrapsAround(x); }
  }

  lemma RV32Compares()
    ensures var ar := RV32_ARITHMETIC;
            && (forall x {:trigger ar.cmp.less(ar.allOnes, x)} :: ar.cmp.less(ar.allOnes, x) <==> !ar.cmp.less(x, ar.zero))
            && (forall x {:trigger ar.cmp.less(x, ar.one)} :: ar.cmp.less(x, ar.one) <==> !ar.cmp.less(ar.zero, x))
  {
    var ar := RV32_ARITHMETIC;
    forall x ensures ar.cmp.less(ar.allOnes, x) <==> !ar.cmp.less(x, ar.zero) { WrapsAround(x); }
    forall x ensures ar.cmp.less(x, ar.one) <==> !ar.cmp.less(ar.zero, x) { WrapsAround(x); }
  }

  /** 32-bit words, which wrap around and are compared signed and unsigned, are such an arithmetic. */
  lemma RV32IsLawful()
    ensures Lawful(RV32_ARITHMETIC)
  {
    var ar := RV32_ARITHMETIC;
    RV32Adds();
    RV32Compares();
    forall x ensures ar.add(ar.zero, x) == x && ar.sub(x, ar.zero) == x { WrapsAround(x); }
  }

  // ----- The selection DAG -----

  /** The integer condition codes of the selection DAG. */
  datatype IntCC =
    | SETEQ | SETNE | SETGT | SETGE | SETLT | SETLE
    | SETUGT | SETUGE | SETULT | SETULE

  predicate Compare(cmp: Comparison, cc: IntCC, a: Word, b: Word) {
    match cc
    case SETEQ => a == b
    case SETNE => a != b
    case SETGT => cmp.less(b, a)
    case SETGE => !cmp.less(a, b)
    case SETLT => cmp.less(a, b)
    case SETLE => !cmp.less(b, a)
    case SETUGT => cmp.below(b, a)
    case SETUGE => !cmp.below(a, b)
    case SETULT => cmp.below(a, b)
    case SETULE => !cmp.below(b, a)
  }

  /** Nodes of the selection DAG on words. A comparison is of words (`xlen`) or
      of values of some other type, about which nothing is known. */
  datatype Node =
    | Constant(value: Word)
    | SetCC(lhs: Node, rhs: Node, cc: IntCC, xlen: bool)
    | Select(cond: Node, tv: Node, fv: Node)
    | SelectCC(lhs: Node, rhs: Node, cc: IntCC, tv: Node, fv: Node)
    | Add(lhs: Node, rhs: Node)
    | Sub(lhs: Node, rhs: Node)
    | Leaf(id: nat)

  datatype Env = Env(leaf: nat -> Word, compareOther: (IntCC, Word, Word) -> bool, ar: Arithmetic)

  predicate Truth(env: Env, n: Node)
    requires n.SetCC?
    decreases n, 0
  {
    if n.xlen then Compare(env.ar.cmp, n.cc, Eval(env, n.lhs), Eval(env, n.rhs))
    else env.compareOther(n.cc, Eval(env, n.lhs), Eval(env, n.rhs))
  }

  /** The value of a node. Booleans are 0 or 1 (ZeroOrOneBooleanContent), and a select tests for non-zero. */
  function Eval(env: Env, n: Node): Word
    decreases n, 1
  {
    match n
    case Constant(v) => v
    case SetCC(_, _, _, _) => if Truth(env, n) then env.ar.one else env.ar.zero
    case Select(c, t, f) => if Eval(env, c) != env.ar.zero then Eval(env, t) else Eval(env, f)
    case SelectCC(l, r, cc, t, f) =>
      if Compare(env.ar.cmp, cc, Eval(env, l), Eval(env, r)) then Eval(env, t) else Eval(env, f)
    case Add(l, r) => env.ar.add(Eval(env, l), Eval(env, r))
    case Sub(l, r) => env.ar.sub(Eval(env, l), Eval(env, r))
    case Leaf(id) => env.leaf(id)
  }

  // ----- Codes the hardware has -----

  predicate Branchable(cc: IntCC) {
    cc.SETEQ? || cc.SETNE? || cc.SETLT? || cc.SETGE? || cc.SETULT? || cc.SETUGE?
  }

  /** getRISCVCCForIntCC, which has no case for the other four. */
  function RISCVCC(cc: IntCC): CondCode
    requires Branchable(cc)
  {
    match cc
    case SETEQ => COND_EQ
    case SETNE => COND_NE
    case SETLT => COND_LT
    case SETGE => COND_GE
    case SETULT => COND_LTU
    case SETUGE => COND_GEU
  }

  /** The patterns that turn a BR_CC node into a branch. */
  function BranchPattern(cc: IntCC): BranchOp
    requires Branchable(cc)
  {
    match cc
    case SETEQ => BEQ
    case SETNE => BNE
    case SETLT => BLT
    case SETGE => BGE
    case SETULT => BLTU
    case SETUGE => BGEU
  }

  /** The condition code, the branch it stands for and the branch the patterns
      pick all decide as the DAG's own comparison does. */
  lemma CodesAgree(cmp: Comparison, cc: IntCC, a: Word, b: Word)
    requires Branchable(cc)
    ensures Holds(cmp, RISCVCC(cc), a, b) <==> Compare(cmp, cc, a, b)
    ensures Taken(cmp, BranchPattern(cc), a, b) <==> Compare(cmp, cc, a, b)
    ensures BranchPattern(cc) == GetBrCond(RISCVCC(cc))
  {
  }

  // ----- translateSetCCForBranch -----

  function SwappedOperands(cc: IntCC): IntCC {
    match cc
    case SETEQ => SETEQ
    case SETNE => SETNE
    case SETGT => SETLT
    case SETGE => SETLE
    case SETLT => SETGT
    case SETLE => SETGE
    case SETUGT => SETULT
    case SETUGE => SETULE
    case SETULT => SETUGT
    case SETULE => SETUGE
  }

  predicate NeedsSwap(cc: IntCC) {
    cc.SETGT? || cc.SETLE? || cc.SETUGT? || cc.SETULE?
  }

  lemma SwapHolds(cmp: Comparison, cc: IntCC, a: Word, b: Word)
    ensures Compare(cmp, SwappedOperands(cc), b, a) <==> Compare(cmp, cc, a, b)
    ensures NeedsSwap(cc) ==> Branchable(SwappedOperands(cc))
    ensures !NeedsSwap(cc) ==> Branchable(cc)
  {
  }

  function Translated(ar: Arithmetic, lhs: Node, rhs: Node, cc: IntCC): (Node, Node, IntCC) {
    if cc == SETGT && rhs == Constant(ar.allOnes) then (lhs, Constant(ar.zero), SETGE)
    else if cc == SETLT && rhs == Constant(ar.one) then (Constant(ar.zero), lhs, SETGE)
    else if NeedsSwap(cc) then (rhs, lhs, SwappedOperands(cc))
    else (lhs, rhs, cc)
  }

  /** Rewrites a comparison in place into one a branch can make. */
  method TranslateSetCCForBranch(ar: Arithmetic, lhs0: Node, rhs0: Node, cc0: IntCC)
    returns (lhs: Node, rhs: Node, cc: IntCC)
    ensures (lhs, rhs, cc) == Translated(ar, lhs0, rhs0, cc0)
  {
    lhs, rhs, cc := lhs0, rhs0, cc0;
    if cc == SETGT && rhs == Constant(ar.allOnes) {
      rhs := Constant(ar.zero);
      cc := SETGE;
      return;
    }
    if cc == SETLT && rhs == Constant(ar.one) {
      rhs := lhs;
      lhs := Constant(ar.zero);
      cc := SETGE;
      return;
    }
    match cc
    case SETGT | SETLE | SETUGT | SETULE =>
      cc := SwappedOperands(cc);
      lhs, rhs := rhs, lhs;
    case _ =>
  }

  lemma CompareWithZero(ar: Arithmetic, a: Word)
    requires Lawful(ar)
    ensures Compare(ar.cmp, SETGE, a, ar.zero) <==> Compare(ar.cmp, SETGT, a, ar.allOnes)
    ensures Compare(ar.cmp, SETGE, ar.zero, a) <==> Compare(ar.cmp, SETLT, a, ar.one)
  {
    assert ar.cmp.less(ar.allOnes, a) <==> !ar.cmp.less(a, ar.zero);
    assert ar.cmp.less(a, ar.one) <==> !ar.cmp.less(ar.zero, a);
  }

  lemma TranslationHoldsFor(ar: Arithmetic, value: Node -> Word, lhs: Node, rhs: Node, cc: IntCC)
    requires Lawful(ar)
    requires forall w {:trigger Constant(w)} :: value(Constant(w)) == w
    ensures var t := Translated(ar, lhs, rhs, cc);
            Branchable(t.2) && (Compare(ar.cmp, t.2, value(t.0), value(t.1)) <==> Compare(ar.cmp, cc, value(lhs), value(rhs)))
  {
    CompareWithZero(ar, value(lhs));
    SwapHolds(ar.cmp, cc, value(lhs), value(rhs));
  }

  /** The rewritten comparison decides as the original does, for all ten codes
      and all operands, and it is one the hardware has. */
  lemma TranslationHolds(env: Env, lhs: Node, rhs: Node, cc: IntCC)
    requires Lawful(env.ar)
    ensures var t := Translated(env.ar, lhs, rhs, cc);
            && Branchable(t.2)
            && (Compare(env.ar.cmp, t.2, Eval(env, t.0), Eval(env, t.1)) <==>
                Compare(env.ar.cmp, cc, Eval(env, lhs), Eval(env, rhs)))
  {
    TranslationHoldsFor(env.ar, (n: Node) => Eval(env, n), lhs, rhs, cc);
  }

  /** A comparison that a branch can make stays as it is, but for one with 1; of
      the others, one with -1 is made one with 0, and the rest swap their operands. */
  lemma TranslationIsMinimal(ar: Arithmetic, lhs: Node, rhs: Node, cc: IntCC)
    ensures cc == SETGT && rhs == Constant(ar.allOnes) ==> Translated(ar, lhs, rhs, cc) == (lhs, Constant(ar.zero), SETGE)
    ensures cc == SETLT && rhs == Constant(ar.one) ==> Translated(ar, lhs, rhs, cc) == (Constant(ar.zero), lhs, SETGE)
    ensures Branchable(cc) && !(cc == SETLT && rhs == Constant(ar.one)) ==> Translated(ar, lhs, rhs, cc) == (lhs, rhs, cc)
    ensures !Branchable(cc) && !(cc == SETGT && rhs == Constant(ar.allOnes)) ==>
              Translated(ar, lhs, rhs, cc).0 == rhs && Translated(ar, lhs, rhs, cc).1 == lhs
  {
  }

  // ----- lowerSELECT -----

  function LowerSelect(ar: Arithmetic, n: Node): Node
    requires n.Select?
  {
    if n.cond.SetCC? && n.cond.xlen then
      if BothConstant(n) && n.cond.cc == SETLT && ar.sub(n.tv.value, ar.one) == n.fv.value then Add(n.cond, n.fv)
      else if BothConstant(n) && n.cond.cc == SETLT && ar.add(n.tv.value, ar.one) == n.fv.value then Sub(n.fv, n.cond)
      else
        var t := Translated(ar, n.cond.lhs, n.cond.rhs, n.cond.cc);
        SelectCC(t.0, t.1, t.2, n.tv, n.fv)
    else SelectCC(n.cond, Constant(ar.zero), SETNE, n.tv, n.fv)
  }

  predicate BothConstant(n: Node)
    requires n.Select?
  {
    n.tv.Constant? && n.fv.Constant?
  }

  /** A select on a comparison chooses by its truth. */
  lemma ChosenByTruth(env: Env, n: Node)
    requires n.Select? && n.cond.SetCC? && env.ar.zero != env.ar.one
    ensures Eval(env, n) == if Truth(env, n.cond) then Eval(env, n.tv) else Eval(env, n.fv)
    ensures Eval(env, n.cond) == if Truth(env, n.cond) then env.ar.one else env.ar.zero
  {
  }

  /** Two constants one apart are chosen between by adding or subtracting the condition. */
  lemma ConstantsPreserved(env: Env, n: Node)
    requires Lawful(env.ar) && n.Select? && n.cond.SetCC? && BothConstant(n)
    ensures env.ar.sub(n.tv.value, env.ar.one) == n.fv.value ==> Eval(env, Add(n.cond, n.fv)) == Eval(env, n)
    ensures env.ar.add(n.tv.value, env.ar.one) == n.fv.value ==> Eval(env, Sub(n.fv, n.cond)) == Eval(env, n)
  {
    ChosenByTruth(env, n);
  }

  lemma ComparisonPreserved(env: Env, n: Node)
    requires n.Select? && Lawful(env.ar) && n.cond.SetCC? && n.cond.xlen
    ensures var t := Translated(env.ar, n.cond.lhs, n.cond.rhs, n.cond.cc);
            Branchable(t.2) && Eval(env, SelectCC(t.0, t.1, t.2, n.tv, n.fv)) == Eval(env, n)
  {
    ChosenByTruth(env, n);
    TranslationHolds(env, n.cond.lhs, n.cond.rhs, n.cond.cc);
  }

  /** A select on something else tests it against zero. */
  lemma OtherPreserved(env: Env, n: Node)
    requires n.Select?
    ensures Eval(env, SelectCC(n.cond, Constant(env.ar.zero), SETNE, n.tv, n.fv)) == Eval(env, n)
  {
  }

  /** A lowered select has the value of the select, whatever its operands, and
      compares with one of the six codes or, for two constants one apart, not at all. */
  lemma SelectPreserved(env: Env, n: Node)
    requires n.Select? && Lawful(env.ar)
    ensures Eval(env, LowerSelect(env.ar, n)) == Eval(env, n)
    ensures LowerSelect(env.ar, n).SelectCC? ==> Branchable(LowerSelect(env.ar, n).cc)
    ensures LowerSelect(env.ar, n).SelectCC? || (BothConstant(n) && n.cond.SetCC? && n.cond.cc == SETLT)
  {
    if n.cond.SetCC? && n.cond.xlen {
      if BothConstant(n) {
        ConstantsPreserved(env, n);
      }
      ComparisonPreserved(env, n);
    } else {
      OtherPreserved(env, n);
    }
  }

  /** No comparison is left exactly where a word is compared for less, signed, to
      choose between two constants one apart; a comparison that is left keeps
      what it chooses between, and tests for non-zero if it is not of the select. */
  lemma LoweredShape(ar: Arithmetic, n: Node)
    requires n.Select?
    ensures !LowerSelect(ar, n).SelectCC? <==>
            && n.cond.SetCC? && n.cond.xlen && n.cond.cc == SETLT && n.tv.Constant? && n.fv.Constant?
            && (ar.sub(n.tv.value, ar.one) == n.fv.value || ar.add(n.tv.value, ar.one) == n.fv.value)
    ensures LowerSelect(ar, n).SelectCC? ==> LowerSelect(ar, n).tv == n.tv && LowerSelect(ar, n).fv == n.fv
    ensures !(n.cond.SetCC? && n.cond.xlen) ==> LowerSelect(ar, n) == SelectCC(n.cond, Constant(ar.zero), SETNE, n.tv, n.fv)
  {
  }

  /** The select pseudo-instruction made of a lowered select computes the value
      of the select, in registers that hold the operands. */
  lemma SelectPseudoComputes(env: Env, n: Node, regs: MachineIR.Regs, x: MachineIR.Instr)
    requires Lawful(env.ar) && n.Select? && x.Select?
    requires LowerSelect(env.ar, n).SelectCC? && Branchable(LowerSelect(env.ar, n).cc)
    requires x.cc == RISCVCC(LowerSelect(env.ar, n).cc)
    requires MachineIR.Read(regs, x.lhs) == Eval(env, LowerSelect(env.ar, n).lhs)
    requires MachineIR.Read(regs, x.rhs) == Eval(env, LowerSelect(env.ar, n).rhs)
    requires MachineIR.Read(regs, x.tv) == Eval(env, n.tv)
    requires MachineIR.Read(regs, x.fv) == Eval(env, n.fv)
    ensures MachineIR.SelectValue(env.ar.cmp, x, regs) == Eval(env, n)
  {
    SelectPreserved(env, n);
    CodesAgree(env.ar.cmp, LowerSelect(env.ar, n).cc, MachineIR.Read(regs, x.lhs), MachineIR.Read(regs, x.rhs));
  }

  // ----- lowerBRCOND -----

  /** BR_CC without its chain and target block. */
  datatype BrCC = BrCC(lhs: Node, rhs: Node, cc: IntCC)

  function LowerBrCond(ar: Arithmetic, cond: Node): BrCC {
    if cond.SetCC? && cond.xlen then
      var t := Translated(ar, cond.lhs, cond.rhs, cond.cc);
      BrCC(t.0, t.1, t.2)
    else BrCC(cond, Constant(ar.zero), SETNE)
  }

  /** The branch selected for a lowered conditional branch is taken exactly when the condition is true. */
  lemma BrCondPreserved(env: Env, cond: Node)
    requires Lawful(env.ar)
    ensures var br := LowerBrCond(env.ar, cond);
            && Branchable(br.cc)
            && (Taken(env.ar.cmp, BranchPattern(br.cc), Eval(env, br.lhs), Eval(env, br.rhs)) <==>
                Eval(env, cond) != env.ar.zero)
  {
    var br := LowerBrCond(env.ar, cond);
    if cond.SetCC? && cond.xlen {
      TranslationHolds(env, cond.lhs, cond.rhs, cond.cc);
    }
    CodesAgree(env.ar.cmp, br.cc, Eval(env, br.lhs), Eval(env, br.rhs));
  }
}
