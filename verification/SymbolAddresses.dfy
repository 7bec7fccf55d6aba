/** Addresses of global symbols: the small-code-model sequence, and the lowering
    of its operands to assembler expressions. */
module SymbolAddresses {
  import opened Wrappers
  import opened Immediates

  type Symbol = nat

  /** The target flags `lowerSymbolOperand` has a case for. */
  datatype TargetFlag = MO_None | MO_CALL | MO_LO | MO_HI | MO_PCREL_LO | MO_PCREL_HI

  datatype MachineOperand =
    | Register(reg: nat, implicit: bool)
    | Immediate(value: int)
    | Block(block: nat)
    | GlobalAddress(symbol: Symbol, offset: int, flag: TargetFlag)
    | OtherOperand

  datatype MCExpr =
    | SymbolRef(symbol: Symbol)
    | BlockRef(block: nat)
    | ConstantExpr(value: int)
    | AddExpr(lhs: MCExpr, rhs: MCExpr)
    | TargetExpr(kind: VariantKind, sub: MCExpr)

  datatype MCOperand = MCReg(reg: nat) | MCImm(value: int) | MCExprOperand(expr: MCExpr)

  // ----- Lowering of operands -----

  function KindOf(flag: TargetFlag): VariantKind {
    match flag
    case MO_None => VK_None
    case MO_CALL => VK_CALL
    case MO_LO => VK_LO
    case MO_HI => VK_HI
    case MO_PCREL_LO => VK_PCREL_LO
    case MO_PCREL_HI => VK_PCREL_HI
  }

  function SymbolOperand(symbol: Symbol, offset: int, flag: TargetFlag): MCExpr {
    var e := if offset != 0 then AddExpr(SymbolRef(symbol), ConstantExpr(offset)) else SymbolRef(symbol);
    if KindOf(flag) != VK_None then TargetExpr(KindOf(flag), e) else e
  }

  /** The operand of a global address: symbol, then offset, then modifier. */
  method LowerSymbolOperand(mo: MachineOperand) returns (op: MCOperand)
    requires mo.GlobalAddress?
    ensures op == MCExprOperand(SymbolOperand(mo.symbol, mo.offset, mo.flag))
    ensures LowersTo(mo, op)
  {
    var kind := KindOf(mo.flag);
    var me := SymbolRef(mo.symbol);
    if mo.offset != 0 {
      me := AddExpr(me, ConstantExpr(mo.offset));
    }
    if kind != VK_None {
      me := TargetExpr(kind, me);
    }
    op := MCExprOperand(me);
  }

  predicate IsImplicit(mo: MachineOperand) {
    mo.Register? && mo.implicit
  }

  /** The symbol, and its offset if that is not zero. */
  predicate IsSum(e: MCExpr, symbol: Symbol, offset: int) {
    if offset == 0 then e == SymbolRef(symbol) else e == AddExpr(SymbolRef(symbol), ConstantExpr(offset))
  }

  /** Their sum, under the modifier that the flag names. */
  predicate IsSymbolExpr(e: MCExpr, symbol: Symbol, offset: int, flag: TargetFlag) {
    match flag
    case MO_None => IsSum(e, symbol, offset)
    case MO_CALL => e.TargetExpr? && e.kind == VK_CALL && IsSum(e.sub, symbol, offset)
    case MO_LO => e.TargetExpr? && e.kind == VK_LO && IsSum(e.sub, symbol, offset)
    case MO_HI => e.TargetExpr? && e.kind == VK_HI && IsSum(e.sub, symbol, offset)
    case MO_PCREL_LO => e.TargetExpr? && e.kind == VK_PCREL_LO && IsSum(e.sub, symbol, offset)
    case MO_PCREL_HI => e.TargetExpr? && e.kind == VK_PCREL_HI && IsSum(e.sub, symbol, offset)
  }

  /** A register keeps its number and an immediate its value; a block becomes a
      reference to it, and a global address the expression that names it. */
  predicate LowersTo(mo: MachineOperand, op: MCOperand) {
    match mo
    case Register(reg, _) => op == MCReg(reg)
    case Immediate(value) => op == MCImm(value)
    case Block(block) => op == MCExprOperand(BlockRef(block))
    case GlobalAddress(symbol, offset, flag) => op.MCExprOperand? && IsSymbolExpr(op.expr, symbol, offset, flag)
    case OtherOperand => false
  }

  /** How many of the first `k` operands are explicit. */
  function Explicit(ops: seq<MachineOperand>, k: nat): (n: nat)
    requires k <= |ops|
    ensures n <= k
  {
    if k == 0 then 0 else Explicit(ops, k - 1) + if IsImplicit(ops[k - 1]) then 0 else 1
  }

  /** `out` holds the explicit operands among the first `k`, each lowered, each in its place. */
  ghost predicate Lowers(ops: seq<MachineOperand>, k: nat, out: seq<MCOperand>)
    requires k <= |ops|
  {
    && |out| == Explicit(ops, k)
    && forall j {:trigger InPlace(ops, j, out)} :: 0 <= j < k ==> InPlace(ops, j, out)
  }

  predicate InPlace(ops: seq<MachineOperand>, j: nat, out: seq<MCOperand>)
    requires j < |ops|
  {
    !ops[j].OtherOperand? &&
    (IsImplicit(ops[j]) || (Explicit(ops, j) < |out| && LowersTo(ops[j], out[Explicit(ops, j)])))
  }

  lemma LowersSnoc(ops: seq<MachineOperand>, k: nat, out: seq<MCOperand>, op: MCOperand)
    requires k < |ops| && Lowers(ops, k, out) && !ops[k].OtherOperand? && (!IsImplicit(ops[k]) ==> LowersTo(ops[k], op))
    ensures Lowers(ops, k + 1, if IsImplicit(ops[k]) then out else out + [op])
  {
    var longer := if IsImplicit(ops[k]) then out else out + [op];
    forall j | 0 <= j < k + 1 ensures InPlace(ops, j, longer) {
      assert j < k ==> InPlace(ops, j, out);
    }
  }

  /** Lowers all operands, leaving implicit registers out; an operand of any
      other kind is a fatal error. */
  method LowerOperands(ops: seq<MachineOperand>) returns (res: Option<seq<MCOperand>>)
    ensures res.None? <==> OtherOperand in ops
    ensures res.Some? ==> Lowers(ops, |ops|, res.value)
  {
    var out: seq<MCOperand> := [];
    for k := 0 to |ops|
      invariant Lowers(ops, k, out)
      invariant OtherOperand !in ops[..k]
    {
      var mo, op := ops[k], MCReg(0);
      match mo {
        case OtherOperand => return None;
        case Register(reg, implicit) =>
          if implicit {
            LowersSnoc(ops, k, out, op);
            continue;
          }
          op := MCReg(reg);
        case Immediate(value) => op := MCImm(value);
        case Block(block) => op := MCExprOperand(BlockRef(block));
        case GlobalAddress(_, _, _) => op := LowerSymbolOperand(mo);
      }
      LowersSnoc(ops, k, out, op);
      out := out + [op];
    }
    res := Some(out);
  }

  // ----- Meaning -----

  /** The value of an expression once symbols have addresses. */
  function ExprValue(address: Symbol -> int, e: MCExpr): Evaluation {
    match e
    case SymbolRef(symbol) => Value(address(symbol))
    case BlockRef(_) => NotConstant
    case ConstantExpr(value) => Value(value)
    case AddExpr(l, r) =>
      (match (ExprValue(address, l), ExprValue(address, r))
       case (Value(a), Value(b)) => if IsInt64(a + b) then Value(a + b) else Undefined
       case _ => NotConstant)
    case TargetExpr(kind, sub) =>
      (match ExprValue(address, sub)
       case Value(v) => EvaluateAsInt64(kind, v)
       case other => other)
  }

  /** What a lowered global address means: the address plus the offset, or what the
      modifier makes of that. */
  lemma LoweredValue(address: Symbol -> int, e: MCExpr, symbol: Symbol, offset: int, flag: TargetFlag)
    requires IsSymbolExpr(e, symbol, offset, flag) && IsInt64(address(symbol) + offset)
    ensures ExprValue(address, e) == match flag
            case MO_None => Value(address(symbol) + offset)
            case MO_CALL => EvaluateAsInt64(VK_CALL, address(symbol) + offset)
            case MO_LO => EvaluateAsInt64(VK_LO, address(symbol) + offset)
            case MO_HI => EvaluateAsInt64(VK_HI, address(symbol) + offset)
            case MO_PCREL_LO => EvaluateAsInt64(VK_PCREL_LO, address(symbol) + offset)
            case MO_PCREL_HI => EvaluateAsInt64(VK_PCREL_HI, address(symbol) + offset)
  {
    var sum := if flag == MO_None then e else e.sub;
    SumIs(address, sum, symbol, offset);
  }

  lemma SumIs(address: Symbol -> int, e: MCExpr, symbol: Symbol, offset: int)
    requires IsSum(e, symbol, offset) && IsInt64(address(symbol) + offset)
    ensures ExprValue(address, e) == Value(address(symbol) + offset)
  {
    if offset != 0 {
      assert ExprValue(address, SymbolRef(symbol)) == Value(address(symbol));
      assert ExprValue(address, ConstantExpr(offset)) == Value(offset);
    }
  }

  /** The nodes of an address computation. */
  datatype Address =
    | LUI(operand: MachineOperand)
    | ADDI(base: Address, operand: MachineOperand)
    | ADD(base: Address, value: int)

  /** What the instructions of an address compute on RV32. */
  function AddressValue(address: Symbol -> int, a: Address): Option<nat> {
    match a
    case LUI(op) => (match FieldValue(address, op) case Value(v) => Some(Lui32(v)) case _ => None)
    case ADDI(base, op) =>
      (match (AddressValue(address, base), FieldValue(address, op))
       case (Some(x), Value(v)) => Some(Addi32(x, v))
       case _ => None)
    case ADD(base, value) =>
      (match AddressValue(address, base) case Some(x) => Some(Wrap32(x + Wrap32(value))) case None => None)
  }

  function FieldValue(address: Symbol -> int, op: MachineOperand): Evaluation {
    match op
    case GlobalAddress(symbol, offset, flag) => ExprValue(address, SymbolOperand(symbol, offset, flag))
    case _ => NotConstant
  }

  /** getAddr for the small code model, with `offset` in both symbol operands. */
  function GetAddr(symbol: Symbol, offset: int): Address {
    ADDI(LUI(GlobalAddress(symbol, offset, MO_HI)), GlobalAddress(symbol, offset, MO_LO))
  }

  /** lowerGlobalAddress: the offset is a separate ADD, and none when it is zero. */
  function LowerGlobalAddress(symbol: Symbol, offset: int): Address {
    if offset != 0 then ADD(GetAddr(symbol, 0), offset) else GetAddr(symbol, 0)
  }

  /** Without an offset there is no ADD. */
  lemma AddOnlyForOffset(symbol: Symbol, offset: int)
    ensures LowerGlobalAddress(symbol, offset).ADD? <==> offset != 0
    ensures !LowerGlobalAddress(symbol, offset).ADD? ==> LowerGlobalAddress(symbol, offset) == GetAddr(symbol, 0)
  {
  }

  /** Values for which the symbol arithmetic of the assembler is defined. */
  predicate Addressable(value: int) {
    IsInt64(value) && IsInt64(value + 0x800)
  }

  /** The LUI/ADDI pair computes symbol plus offset, with the offset folded into both operands. */
  lemma FoldedOffset(address: Symbol -> int, symbol: Symbol, offset: int)
    requires Addressable(address(symbol) + offset)
    ensures AddressValue(address, GetAddr(symbol, offset)) == Some(Wrap32(address(symbol) + offset))
  {
    SymbolValue(address, symbol, offset, MO_HI);
    SymbolValue(address, symbol, offset, MO_LO);
    HiLoRecombine(address(symbol) + offset);
  }

  lemma SymbolValue(address: Symbol -> int, symbol: Symbol, offset: int, flag: TargetFlag)
    requires Addressable(address(symbol) + offset) && flag != MO_None
    ensures FieldValue(address, GlobalAddress(symbol, offset, flag)) ==
            EvaluateAsInt64(KindOf(flag), address(symbol) + offset)
  {
    SumValue(address, symbol, offset);
    var e := if offset != 0 then AddExpr(SymbolRef(symbol), ConstantExpr(offset)) else SymbolRef(symbol);
    assert SymbolOperand(symbol, offset, flag) == TargetExpr(KindOf(flag), e);
  }

  lemma SumValue(address: Symbol -> int, symbol: Symbol, offset: int)
    requires Addressable(address(symbol) + offset)
    ensures ExprValue(address, AddExpr(SymbolRef(symbol), ConstantExpr(offset))) == Value(address(symbol) + offset)
  {
    assert ExprValue(address, SymbolRef(symbol)) == Value(address(symbol));
    assert ExprValue(address, ConstantExpr(offset)) == Value(offset);
  }

  lemma AddWraps(a: int, b: int)
    ensures Wrap32(Wrap32(a) + Wrap32(b)) == Wrap32(a + b)
  {
    WrapAdds(b, Wrap32(a));
    WrapAdds(a, b);
  }

  /** The code for a global address computes symbol plus offset, whatever the offset. */
  lemma GlobalAddressValue(address: Symbol -> int, symbol: Symbol, offset: int)
    requires Addressable(address(symbol))
    ensures AddressValue(address, LowerGlobalAddress(symbol, offset)) == Some(Wrap32(address(symbol) + offset))
  {
    FoldedOffset(address, symbol, 0);
    AddWraps(address(symbol), offset);
  }

  /** Folding the offset into the symbol operands makes no difference. */
  lemma FoldingAgrees(address: Symbol -> int, symbol: Symbol, offset: int)
    requires Addressable(address(symbol)) && Addressable(address(symbol) + offset)
    ensures AddressValue(address, GetAddr(symbol, offset)) == AddressValue(address, LowerGlobalAddress(symbol, offset))
  {
    GlobalAddressValue(address, symbol, offset);
    FoldedOffset(address, symbol, offset);
  }
}
