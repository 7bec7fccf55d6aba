/** Splitting a value into the upper 20 bits that LUI takes and the signed
    lower 12 bits that ADDI adds. */
module Immediates {
  import opened Wrappers

  /** The value of the low 12 bits of `v`, read as a signed number. */
  function SignExtend12(v: int): (r: int)
    ensures -0x800 <= r < 0x800 && (v - r) % 0x1000 == 0
  {
    (v + 0x800) % 0x1000 - 0x800
  }

  /** The value of the low 32 bits of `v`, read as a signed number. */
  function SignExtend32(v: int): (r: int)
    ensures -0x8000_0000 <= r < 0x8000_0000 && (v - r) % 0x1_0000_0000 == 0
  {
    (v + 0x8000_0000) % 0x1_0000_0000 - 0x8000_0000
  }

  function SignExtend64(v: int): int {
    (v + 0x8000_0000_0000_0000) % 0x1_0000_0000_0000_0000 - 0x8000_0000_0000_0000
  }

  function Wrap32(v: int): nat {
    v % 0x1_0000_0000
  }

  function Wrap64(v: int): nat {
    v % 0x1_0000_0000_0000_0000
  }

  predicate IsInt32(v: int) {
    -0x8000_0000 <= v < 0x8000_0000
  }

  predicate IsInt64(v: int) {
    -0x8000_0000_0000_0000 <= v < 0x8000_0000_0000_0000
  }

  // ----- The selector's transforms -----

  /** HI20, on the 64-bit value of a constant node. */
  function HI20(v: int): nat {
    Wrap64(Wrap64(v) + 0x800) / 0x1000 % 0x10_0000
  }

  function LO12Sext(v: int): int {
    SignExtend12(Wrap64(v))
  }

  /** Bits from 64 on do not reach the field. */
  lemma FieldOf(w: int, v: int, k: int)
    requires w == v - k * 0x1_0000_0000_0000_0000
    ensures w / 0x1000 % 0x10_0000 == v / 0x1000 % 0x10_0000
  {
    var q := v / 0x1000;
    assert w / 0x1000 == q - k * 0x10_0000_0000_0000;
    assert q % 0x10_0000 == q - q / 0x10_0000 * 0x10_0000;
  }

  lemma WrapIs(v: int) returns (k: int)
    ensures Wrap64(v) == v - k * 0x1_0000_0000_0000_0000
  {
    k := v / 0x1_0000_0000_0000_0000;
  }

  lemma LO12Is(v: int)
    ensures LO12Sext(v) == SignExtend12(v)
  {
    var k := WrapIs(v);
    SameLowBits(v, k);
  }

  lemma SameLowBits(v: int, k: int)
    ensures SignExtend12(v - k * 0x1_0000_0000_0000_0000) == SignExtend12(v)
  {
    var q := (v + 0x800) / 0x1000;
    assert v + 0x800 - k * 0x1_0000_0000_0000_0000 == (q - k * 0x10_0000_0000_0000) * 0x1000 + (v + 0x800) % 0x1000;
  }

  lemma HI20Is(v: int)
    ensures HI20(v) == (v + 0x800) / 0x1000 % 0x10_0000
    ensures LO12Sext(v) == SignExtend12(v)
  {
    LO12Is(v);
    HighFieldIs(v);
  }

  lemma HighFieldIs(v: int)
    ensures HI20(v) == (v + 0x800) / 0x1000 % 0x10_0000
  {
    var j := WrapIs(v);
    var k := WrapIs(Wrap64(v) + 0x800);
    FieldOf(v + 0x800 - (j + k) * 0x1_0000_0000_0000_0000, v + 0x800, j + k);
  }

  /** Both fields are in range, and together they make the value modulo 2^32. */
  lemma Rebuilds(v: int)
    ensures 0 <= HI20(v) < 0x10_0000 && -0x800 <= LO12Sext(v) < 0x800
    ensures Wrap32(HI20(v) * 0x1000 + LO12Sext(v)) == Wrap32(v)
  {
    HI20Is(v);
    SplitModulo(v);
  }

  lemma SplitModulo(v: int)
    ensures Wrap32((v + 0x800) / 0x1000 % 0x10_0000 * 0x1000 + SignExtend12(v)) == Wrap32(v)
  {
    var q := (v + 0x800) / 0x1000;
    assert v == q * 0x1000 + SignExtend12(v);
    assert q % 0x10_0000 == q - q / 0x10_0000 * 0x10_0000;
  }

  // ----- Materialising a constant -----

  /** LUI and ADDI as RV32 executes them (section 2.4 of the RISC-V manual). */
  function Lui32(imm20: int): nat {
    Wrap32(imm20 * 0x1000)
  }

  function Addi32(a: int, imm12: int): nat {
    Wrap32(a + imm12)
  }

  /** On RV64 LUI sign-extends its 32-bit result (section 5.2). */
  function Lui64(imm20: int): int {
    SignExtend32(imm20 * 0x1000)
  }

  function Addi64(a: int, imm12: int): int {
    SignExtend64(a + imm12)
  }

  lemma WrapAdds(a: int, b: int)
    ensures Wrap32(Wrap32(a) + b) == Wrap32(a + b)
  {
    var q := a / 0x1_0000_0000;
    assert Wrap32(a) == a - q * 0x1_0000_0000;
  }

  lemma PairMakes(h: int, l: int, v: int, w: int)
    requires Wrap32(h * 0x1000 + l) == Wrap32(v) && (w == Wrap32(v) || w == v) && 0 <= w < 0x1_0000_0000
    ensures Addi32(Lui32(h), l) == w
  {
    WrapAdds(h * 0x1000, l);
  }

  /** On RV32 the LUI/ADDI pair yields every 32-bit constant exactly. */
  lemma MaterialisesOnRV32(v: int)
    ensures Addi32(Lui32(HI20(v)), LO12Sext(v)) == Wrap32(v)
  {
    Rebuilds(v);
    PairMakes(HI20(v), LO12Sext(v), v, Wrap32(v));
  }

  lemma MaterialisesWord(v: int)
    requires 0 <= v < 0x1_0000_0000
    ensures Addi32(Lui32(HI20(v)), LO12Sext(v)) == v
  {
    Rebuilds(v);
    PairMakes(HI20(v), LO12Sext(v), v, v);
  }

  /** On RV64 the pair yields a constant of the pattern (simm32) exactly when it
      does not lie in the top 2^11 values, where rounding up overflows LUI. */
  lemma MaterialisesOnRV64(v: int)
    requires IsInt32(v)
    ensures Addi64(Lui64(HI20(v)), LO12Sext(v)) == v <==> v <= 0x8000_0000 - 0x800 - 1
  {
    HI20Is(v);
    var q := (v + 0x800) / 0x1000;
    assert v == q * 0x1000 + SignExtend12(v);
    LuiOfRounded(q);
    assert Lui64(HI20(v)) == if q == 0x8_0000 then -0x8000_0000 else q * 0x1000;
  }

  lemma LuiOfRounded(q: int)
    requires -0x8_0000 <= q <= 0x8_0000
    ensures Lui64(q % 0x10_0000) == if q == 0x8_0000 then -0x8000_0000 else q * 0x1000
  {
  }

  // ----- The assembler's %hi and %lo -----

  /** TOYRISCVMCExpr::VariantKind. */
  datatype VariantKind =
    | VK_None | VK_LO | VK_HI | VK_PCREL_LO | VK_PCREL_HI | VK_GOT_HI | VK_TPREL_LO | VK_TPREL_HI | VK_TPREL_ADD
    | VK_TLS_GOT_HI | VK_TLS_GD_HI | VK_CALL | VK_CALL_PLT | VK_32_PCREL | VK_Invalid

  /** What evaluating at assembly time gives: a value, nothing, or (a kind with
      no case, or a sum that overflows) no defined behaviour. */
  datatype Evaluation = Value(value: int) | NotConstant | Undefined

  function EvaluateAsInt64(kind: VariantKind, value: int): Evaluation {
    match kind
    case VK_LO => Value(SignExtend12(value))
    case VK_HI => if IsInt64(value + 0x800) then Value((value + 0x800) / 0x1000 % 0x10_0000) else Undefined
    case _ => Undefined
  }

  predicate NeverConstant(kind: VariantKind) {
    match kind
    case VK_PCREL_HI | VK_PCREL_LO | VK_GOT_HI | VK_TPREL_HI | VK_TPREL_LO | VK_TPREL_ADD => true
    case VK_TLS_GOT_HI | VK_TLS_GD_HI | VK_CALL | VK_CALL_PLT => true
    case _ => false
  }

  /** `sub` is the absolute value of the expression below, if it has one. */
  method EvaluateAsConstant(kind: VariantKind, sub: Option<int>) returns (res: Evaluation)
    requires sub.Some? ==> IsInt64(sub.value)
    ensures res == Undefined <==> sub.Some? && (kind in {VK_None, VK_32_PCREL, VK_Invalid} || (kind == VK_HI && sub.value >= 0x7FFF_FFFF_FFFF_F800))
    ensures res.Value? <==> sub.Some? && (kind == VK_LO || (kind == VK_HI && sub.value < 0x7FFF_FFFF_FFFF_F800))
    ensures res.Value? ==> res == EvaluateAsInt64(kind, sub.value)
  {
    if NeverConstant(kind) {
      return NotConstant;
    }
    match sub
    case None => res := NotConstant;
    case Some(value) => res := EvaluateAsInt64(kind, value);
  }

  /** %hi and %lo agree with HI20 and LO12Sext, and recombine modulo 2^32, for
      every value whose rounding does not overflow. */
  lemma HiLoRecombine(value: int)
    requires IsInt64(value) && IsInt64(value + 0x800)
    ensures EvaluateAsInt64(VK_HI, value) == Value(HI20(value))
    ensures EvaluateAsInt64(VK_LO, value) == Value(LO12Sext(value))
    ensures Addi32(Lui32(EvaluateAsInt64(VK_HI, value).value), EvaluateAsInt64(VK_LO, value).value) == Wrap32(value)
  {
    HI20Is(value);
    MaterialisesOnRV32(value);
  }
}
