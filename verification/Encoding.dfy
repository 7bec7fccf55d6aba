/** The 32-bit encodings of the instructions: the bit layouts of the six
    formats, against the fields and immediates of the RISC-V manual. */
module Encoding {
  import opened Wrappers

  type Word = bv32

  // ----- Instructions -----

  datatype ROp = ADD | SUB | SLL | SLT | SLTU | XOR | SRL | SRA | OR | AND

  datatype IOp = JALR | ADDI | SLTI | SLTIU | XORI | ORI | ANDI | LB | LH | LW | LBU | LHU

  datatype SOp = SB | SH | SW

  datatype BOp = BEQ | BNE | BLT | BGE | BLTU | BGEU

  datatype UOp = LUI | AUIPC

  /** Immediates are signed words; branch and jump offsets count bytes. */
  datatype Instr =
    | R(rop: ROp, rd: Word, rs1: Word, rs2: Word)
    | I(iop: IOp, rd: Word, rs1: Word, imm12: Word)
    | S(sop: SOp, rs2: Word, rs1: Word, imm12: Word)
    | B(bop: BOp, rs1: Word, rs2: Word, offset: Word)
    | U(uop: UOp, rd: Word, imm20: Word)
    | JAL(rd: Word, offset: Word)

  predicate IsReg(r: Word) {
    r < 32
  }

  predicate IsInt12(v: Word) {
    v + 0x800 < 0x1000
  }

  predicate IsUInt20(v: Word) {
    v < 0x10_0000
  }

  /** Even, and a signed number of 13 bits. */
  predicate IsBranchOffset(v: Word) {
    v + 0x1000 < 0x2000 && v & 1 == 0
  }

  /** Even, and a signed number of 21 bits. */
  predicate IsJumpOffset(v: Word) {
    v + 0x10_0000 < 0x20_0000 && v & 1 == 0
  }

  /** Operands in range of their fields. For a 20-bit operand that is what HI20
      and %hi produce; the operand class of LUI and AUIPC itself asks for a 32-bit
      number with twelve zeros below, which is not what their field holds. */
  predicate Valid(x: Instr) {
    match x
    case R(_, rd, rs1, rs2) => IsReg(rd) && IsReg(rs1) && IsReg(rs2)
    case I(_, rd, rs1, imm12) => IsReg(rd) && IsReg(rs1) && IsInt12(imm12)
    case S(_, rs2, rs1, imm12) => IsReg(rs2) && IsReg(rs1) && IsInt12(imm12)
    case B(_, rs1, rs2, offset) => IsReg(rs1) && IsReg(rs2) && IsBranchOffset(offset)
    case U(_, rd, imm20) => IsReg(rd) && IsUInt20(imm20)
    case JAL(rd, offset) => IsReg(rd) && IsJumpOffset(offset)
  }

  // ----- Opcodes and function codes -----

  const OPC_LOAD: Word := 0x03
  const OPC_OP_IMM: Word := 0x13
  const OPC_AUIPC: Word := 0x17
  const OPC_STORE: Word := 0x23
  const OPC_OP: Word := 0x33
  const OPC_LUI: Word := 0x37
  const OPC_BRANCH: Word := 0x63
  const OPC_JALR: Word := 0x67
  const OPC_JAL: Word := 0x6F

  function RFunct3(op: ROp): Word {
    match op
    case ADD | SUB => 0
    case SLL => 1
    case SLT => 2
    case SLTU => 3
    case XOR => 4
    case SRL | SRA => 5
    case OR => 6
    case AND => 7
  }

  function RFunct7(op: ROp): Word {
    if op.SUB? || op.SRA? then 0x20 else 0
  }

  function IOpcode(op: IOp): Word {
    match op
    case JALR => OPC_JALR
    case ADDI | SLTI | SLTIU | XORI | ORI | ANDI => OPC_OP_IMM
    case LB | LH | LW | LBU | LHU => OPC_LOAD
  }

  function IFunct3(op: IOp): Word {
    match op
    case JALR | ADDI | LB => 0
    case LH => 1
    case SLTI | LW => 2
    case SLTIU => 3
    case XORI | LBU => 4
    case LHU => 5
    case ORI => 6
    case ANDI => 7
  }

  function SFunct3(op: SOp): Word {
    match op
    case SB => 0
    case SH => 1
    case SW => 2
  }

  function BFunct3(op: BOp): Word {
    match op
    case BEQ => 0
    case BNE => 1
    case BLT => 4
    case BGE => 5
    case BLTU => 6
    case BGEU => 7
  }

  function UOpcode(op: UOp): Word {
    match op
    case LUI => OPC_LUI
    case AUIPC => OPC_AUIPC
  }

  // ----- Bit layouts -----

  function PackR(funct7: Word, rs2: Word, rs1: Word, funct3: Word, rd: Word, opcode: Word): Word {
    (funct7 << 25) | (rs2 << 20) | (rs1 << 15) | (funct3 << 12) | (rd << 7) | opcode
  }

  function PackI(imm12: Word, rs1: Word, funct3: Word, rd: Word, opcode: Word): Word {
    ((imm12 & 0xFFF) << 20) | (rs1 << 15) | (funct3 << 12) | (rd << 7) | opcode
  }

  function PackS(imm12: Word, rs2: Word, rs1: Word, funct3: Word, opcode: Word): Word {
    (((imm12 >> 5) & 0x7F) << 25) | (rs2 << 20) | (rs1 << 15) | (funct3 << 12) | ((imm12 & 0x1F) << 7) | opcode
  }

  /** The field holds bits 12 down to 1 of the offset (getImmOpValueAsr1). */
  function PackB(offset: Word, rs2: Word, rs1: Word, funct3: Word, opcode: Word): Word {
    ((((offset >> 1) >> 11) & 1) << 31) | ((((offset >> 1) >> 4) & 0x3F) << 25) | (rs2 << 20) | (rs1 << 15) |
    (funct3 << 12) | (((offset >> 1) & 0xF) << 8) | ((((offset >> 1) >> 10) & 1) << 7) | opcode
  }

  function PackU(imm20: Word, rd: Word, opcode: Word): Word {
    ((imm20 & 0xF_FFFF) << 12) | (rd << 7) | opcode
  }

  function PackJ(offset: Word, rd: Word, opcode: Word): Word {
    ((((offset >> 1) >> 19) & 1) << 31) | (((offset >> 1) & 0x3FF) << 21) | ((((offset >> 1) >> 10) & 1) << 20) |
    ((((offset >> 1) >> 11) & 0xFF) << 12) | (rd << 7) | opcode
  }

  function Encode(x: Instr): Word {
    match x
    case R(op, rd, rs1, rs2) => PackR(RFunct7(op), rs2, rs1, RFunct3(op), rd, OPC_OP)
    case I(op, rd, rs1, imm12) => PackI(imm12, rs1, IFunct3(op), rd, IOpcode(op))
    case S(op, rs2, rs1, imm12) => PackS(imm12, rs2, rs1, SFunct3(op), OPC_STORE)
    case B(op, rs1, rs2, offset) => PackB(offset, rs2, rs1, BFunct3(op), OPC_BRANCH)
    case U(op, rd, imm20) => PackU(imm20, rd, UOpcode(op))
    case JAL(rd, offset) => PackJ(offset, rd, OPC_JAL)
  }

  // ----- Decoding, by section 2.3 of the RISC-V manual -----

  datatype Fields = Fields(opcode: Word, rd: Word, funct3: Word, rs1: Word, rs2: Word, funct7: Word)

  function Split(w: Word): Fields {
    Fields(w & 0x7F, (w >> 7) & 0x1F, (w >> 12) & 7, (w >> 15) & 0x1F, (w >> 20) & 0x1F, w >> 25)
  }

  /** The sign bit of every immediate is bit 31 of the instruction. */
  function ImmI(w: Word): Word {
    ((w >> 20) ^ 0x800) - 0x800
  }

  function ImmS(w: Word): Word {
    ((((w >> 25) << 5) | ((w >> 7) & 0x1F)) ^ 0x800) - 0x800
  }

  function ImmB(w: Word): Word {
    ((((w >> 31) << 12) | (((w >> 7) & 1) << 11) | (((w >> 25) & 0x3F) << 5) | (((w >> 8) & 0xF) << 1)) ^ 0x1000) - 0x1000
  }

  function ImmU(w: Word): Word {
    w >> 12
  }

  function ImmJ(w: Word): Word {
    ((((w >> 31) << 20) | (((w >> 12) & 0xFF) << 12) | (((w >> 20) & 1) << 11) | (((w >> 21) & 0x3FF) << 1)) ^ 0x10_0000) -
    0x10_0000
  }

  function ROpOf(funct7: Word, funct3: Word): Option<ROp> {
    if funct7 == 0x20 then (if funct3 == 0 then Some(SUB) else if funct3 == 5 then Some(SRA) else None)
    else if funct7 != 0 then None
    else if funct3 == 0 then Some(ADD)
    else if funct3 == 1 then Some(SLL)
    else if funct3 == 2 then Some(SLT)
    else if funct3 == 3 then Some(SLTU)
    else if funct3 == 4 then Some(XOR)
    else if funct3 == 5 then Some(SRL)
    else if funct3 == 6 then Some(OR)
    else if funct3 == 7 then Some(AND)
    else None
  }

  function OpImmOf(funct3: Word): Option<IOp> {
    if funct3 == 0 then Some(ADDI)
    else if funct3 == 2 then Some(SLTI)
    else if funct3 == 3 then Some(SLTIU)
    else if funct3 == 4 then Some(XORI)
    else if funct3 == 6 then Some(ORI)
    else if funct3 == 7 then Some(ANDI)
    else None
  }

  function LoadOf(funct3: Word): Option<IOp> {
    if funct3 == 0 then Some(LB)
    else if funct3 == 1 then Some(LH)
    else if funct3 == 2 then Some(LW)
    else if funct3 == 4 then Some(LBU)
    else if funct3 == 5 then Some(LHU)
    else None
  }

  function IOpOf(opcode: Word, funct3: Word): Option<IOp> {
    if opcode == OPC_OP_IMM then OpImmOf(funct3)
    else if opcode == OPC_LOAD then LoadOf(funct3)
    else if opcode == OPC_JALR && funct3 == 0 then Some(JALR)
    else None
  }

  function SOpOf(funct3: Word): Option<SOp> {
    if funct3 == 0 then Some(SB) else if funct3 == 1 then Some(SH) else if funct3 == 2 then Some(SW) else None
  }

  function BOpOf(funct3: Word): Option<BOp> {
    if funct3 == 0 then Some(BEQ)
    else if funct3 == 1 then Some(BNE)
    else if funct3 == 4 then Some(BLT)
    else if funct3 == 5 then Some(BGE)
    else if funct3 == 6 then Some(BLTU)
    else if funct3 == 7 then Some(BGEU)
    else None
  }

  function UOpOf(opcode: Word): UOp {
    if opcode == OPC_LUI then LUI else AUIPC
  }

  datatype Format = FormatR | FormatI | FormatS | FormatB | FormatU | FormatJ

  function FormatOf(opcode: Word): Option<Format> {
    if opcode == OPC_OP then Some(FormatR)
    else if opcode == OPC_OP_IMM || opcode == OPC_LOAD || opcode == OPC_JALR then Some(FormatI)
    else if opcode == OPC_STORE then Some(FormatS)
    else if opcode == OPC_BRANCH then Some(FormatB)
    else if opcode == OPC_LUI || opcode == OPC_AUIPC then Some(FormatU)
    else if opcode == OPC_JAL then Some(FormatJ)
    else None
  }

  /** The immediate of each format. */
  datatype Immediates = Immediates(i: Word, s: Word, b: Word, u: Word, j: Word)

  function SplitImmediates(w: Word): Immediates {
    Immediates(ImmI(w), ImmS(w), ImmB(w), ImmU(w), ImmJ(w))
  }

  function DecodeAs(format: Format, f: Fields, imm: Immediates): Option<Instr> {
    match format
    case FormatR => (match ROpOf(f.funct7, f.funct3) case None => None case Some(op) => Some(R(op, f.rd, f.rs1, f.rs2)))
    case FormatI => (match IOpOf(f.opcode, f.funct3) case None => None case Some(op) => Some(I(op, f.rd, f.rs1, imm.i)))
    case FormatS => (match SOpOf(f.funct3) case None => None case Some(op) => Some(S(op, f.rs2, f.rs1, imm.s)))
    case FormatB => (match BOpOf(f.funct3) case None => None case Some(op) => Some(B(op, f.rs1, f.rs2, imm.b)))
    case FormatU => Some(U(UOpOf(f.opcode), f.rd, imm.u))
    case FormatJ => Some(JAL(f.rd, imm.j))
  }

  function DecodeFields(f: Fields, imm: Immediates): Option<Instr> {
    match FormatOf(f.opcode)
    case None => None
    case Some(format) => DecodeAs(format, f, imm)
  }

  function Decode(w: Word): Option<Instr> {
    DecodeFields(Split(w), SplitImmediates(w))
  }

  // ----- Each layout holds its fields -----

  lemma HoldsR(w: Word, funct7: Word, rs2: Word, rs1: Word, funct3: Word, rd: Word, opcode: Word)
    requires funct7 < 128 && rs2 < 32 && rs1 < 32 && funct3 < 8 && rd < 32 && opcode < 128
    requires w == (funct7 << 25) | (rs2 << 20) | (rs1 << 15) | (funct3 << 12) | (rd << 7) | opcode
    ensures w & 0x7F == opcode && (w >> 7) & 0x1F == rd && (w >> 12) & 7 == funct3 && (w >> 15) & 0x1F == rs1
    ensures (w >> 20) & 0x1F == rs2 && w >> 25 == funct7
  {
  }

  lemma HoldsI(w: Word, imm12: Word, rs1: Word, funct3: Word, rd: Word, opcode: Word)
    requires imm12 + 0x800 < 0x1000 && rs1 < 32 && funct3 < 8 && rd < 32 && opcode < 128
    requires w == ((imm12 & 0xFFF) << 20) | (rs1 << 15) | (funct3 << 12) | (rd << 7) | opcode
    ensures w & 0x7F == opcode && (w >> 7) & 0x1F == rd && (w >> 12) & 7 == funct3 && (w >> 15) & 0x1F == rs1
    ensures ((w >> 20) ^ 0x800) - 0x800 == imm12
  {
  }

  lemma HoldsS(w: Word, imm12: Word, rs2: Word, rs1: Word, funct3: Word, opcode: Word)
    requires imm12 + 0x800 < 0x1000 && rs2 < 32 && rs1 < 32 && funct3 < 8 && opcode < 128
    requires w == (((imm12 >> 5) & 0x7F) << 25) | (rs2 << 20) | (rs1 << 15) | (funct3 << 12) | ((imm12 & 0x1F) << 7) | opcode
    ensures w & 0x7F == opcode && (w >> 12) & 7 == funct3 && (w >> 15) & 0x1F == rs1 && (w >> 20) & 0x1F == rs2
    ensures ((((w >> 25) << 5) | ((w >> 7) & 0x1F)) ^ 0x800) - 0x800 == imm12
  {
  }

  lemma HoldsB(w: Word, offset: Word, rs2: Word, rs1: Word, funct3: Word, opcode: Word)
    requires offset + 0x1000 < 0x2000 && offset & 1 == 0 && rs2 < 32 && rs1 < 32 && funct3 < 8 && opcode < 128
    requires w == ((((offset >> 1) >> 11) & 1) << 31) | ((((offset >> 1) >> 4) & 0x3F) << 25) | (rs2 << 20) | (rs1 << 15) |
                  (funct3 << 12) | (((offset >> 1) & 0xF) << 8) | ((((offset >> 1) >> 10) & 1) << 7) | opcode
    ensures w & 0x7F == opcode && (w >> 12) & 7 == funct3 && (w >> 15) & 0x1F == rs1 && (w >> 20) & 0x1F == rs2
    ensures ((((w >> 31) << 12) | (((w >> 7) & 1) << 11) | (((w >> 25) & 0x3F) << 5) | (((w >> 8) & 0xF) << 1)) ^ 0x1000) -
            0x1000 == offset
  {
  }

  lemma HoldsU(w: Word, imm20: Word, rd: Word, opcode: Word)
    requires imm20 < 0x10_0000 && rd < 32 && opcode < 128
    requires w == ((imm20 & 0xF_FFFF) << 12) | (rd << 7) | opcode
    ensures w & 0x7F == opcode && (w >> 7) & 0x1F == rd && w >> 12 == imm20
  {
  }

  lemma HoldsJ(w: Word, offset: Word, rd: Word, opcode: Word)
    requires offset + 0x10_0000 < 0x20_0000 && offset & 1 == 0 && rd < 32 && opcode < 128
    requires w == ((((offset >> 1) >> 19) & 1) << 31) | (((offset >> 1) & 0x3FF) << 21) | ((((offset >> 1) >> 10) & 1) << 20) |
                  ((((offset >> 1) >> 11) & 0xFF) << 12) | (rd << 7) | opcode
    ensures w & 0x7F == opcode && (w >> 7) & 0x1F == rd
    ensures ((((w >> 31) << 20) | (((w >> 12) & 0xFF) << 12) | (((w >> 20) & 1) << 11) | (((w >> 21) & 0x3FF) << 1)) ^ 0x10_0000) -
            0x10_0000 == offset
  {
  }

  // ----- Each word is made of its fields -----

  lemma RepacksR(w: Word)
    ensures ((w >> 25) << 25) | (((w >> 20) & 0x1F) << 20) | (((w >> 15) & 0x1F) << 15) | (((w >> 12) & 7) << 12) |
            (((w >> 7) & 0x1F) << 7) | (w & 0x7F) == w
  {
  }

  lemma RepacksI(w: Word, imm12: Word, rs1: Word, funct3: Word, rd: Word, opcode: Word)
    requires imm12 == ((w >> 20) ^ 0x800) - 0x800
    requires rs1 == (w >> 15) & 0x1F && funct3 == (w >> 12) & 7 && rd == (w >> 7) & 0x1F && opcode == w & 0x7F
    ensures ((imm12 & 0xFFF) << 20) | (rs1 << 15) | (funct3 << 12) | (rd << 7) | opcode == w
  {
  }

  lemma RepacksS(w: Word, imm12: Word, rs2: Word, rs1: Word, funct3: Word, opcode: Word)
    requires imm12 == ((((w >> 25) << 5) | ((w >> 7) & 0x1F)) ^ 0x800) - 0x800
    requires rs2 == (w >> 20) & 0x1F && rs1 == (w >> 15) & 0x1F && funct3 == (w >> 12) & 7 && opcode == w & 0x7F
    ensures (((imm12 >> 5) & 0x7F) << 25) | (rs2 << 20) | (rs1 << 15) | (funct3 << 12) | ((imm12 & 0x1F) << 7) | opcode == w
  {
  }

  lemma RepacksB(w: Word, offset: Word, rs2: Word, rs1: Word, funct3: Word, opcode: Word)
    requires offset == ((((w >> 31) << 12) | (((w >> 7) & 1) << 11) | (((w >> 25) & 0x3F) << 5) | (((w >> 8) & 0xF) << 1)) ^
                        0x1000) - 0x1000
    requires rs2 == (w >> 20) & 0x1F && rs1 == (w >> 15) & 0x1F && funct3 == (w >> 12) & 7 && opcode == w & 0x7F
    ensures ((((offset >> 1) >> 11) & 1) << 31) | ((((offset >> 1) >> 4) & 0x3F) << 25) | (rs2 << 20) | (rs1 << 15) |
            (funct3 << 12) | (((offset >> 1) & 0xF) << 8) | ((((offset >> 1) >> 10) & 1) << 7) | opcode == w
  {
  }

  lemma RepacksU(w: Word, imm20: Word, rd: Word, opcode: Word)
    requires imm20 == w >> 12 && rd == (w >> 7) & 0x1F && opcode == w & 0x7F
    ensures ((imm20 & 0xF_FFFF) << 12) | (rd << 7) | opcode == w
  {
  }

  lemma RepacksJ(w: Word, offset: Word, rd: Word, opcode: Word)
    requires offset == ((((w >> 31) << 20) | (((w >> 12) & 0xFF) << 12) | (((w >> 20) & 1) << 11) | (((w >> 21) & 0x3FF) << 1)) ^
                        0x10_0000) - 0x10_0000
    requires rd == (w >> 7) & 0x1F && opcode == w & 0x7F
    ensures ((((offset >> 1) >> 19) & 1) << 31) | (((offset >> 1) & 0x3FF) << 21) | ((((offset >> 1) >> 10) & 1) << 20) |
            ((((offset >> 1) >> 11) & 0xFF) << 12) | (rd << 7) | opcode == w
  {
  }

  /** Sign-extended fields are in range, and offsets even. */
  lemma Ranges(w: Word)
    ensures IsInt12(ImmI(w))
    ensures IsInt12(ImmS(w))
    ensures IsUInt20(ImmU(w))
  {
  }

  lemma RangeB(w: Word)
    ensures IsBranchOffset(ImmB(w))
  {
  }

  lemma RangeJ(w: Word)
    ensures IsJumpOffset(ImmJ(w))
  {
  }

  // ----- The tables -----

  lemma RTable(op: ROp)
    ensures ROpOf(RFunct7(op), RFunct3(op)) == Some(op)
    ensures RFunct7(op) < 128 && RFunct3(op) < 8
  {
  }

  lemma ITable(op: IOp)
    ensures FormatOf(IOpcode(op)) == Some(FormatI) && IOpOf(IOpcode(op), IFunct3(op)) == Some(op)
    ensures IOpcode(op) < 128 && IFunct3(op) < 8
  {
  }

  lemma STable(op: SOp)
    ensures SOpOf(SFunct3(op)) == Some(op) && SFunct3(op) < 8
  {
  }

  lemma BTable(op: BOp)
    ensures BOpOf(BFunct3(op)) == Some(op) && BFunct3(op) < 8
  {
  }

  lemma RTableBack(funct7: Word, funct3: Word)
    ensures var op := ROpOf(funct7, funct3); op.Some? ==> RFunct7(op.value) == funct7 && RFunct3(op.value) == funct3
  {
  }

  lemma ITableBack(opcode: Word, funct3: Word)
    ensures var op := IOpOf(opcode, funct3); op.Some? ==> IOpcode(op.value) == opcode && IFunct3(op.value) == funct3
  {
  }

  lemma STableBack(funct3: Word)
    ensures var op := SOpOf(funct3); op.Some? ==> SFunct3(op.value) == funct3
  {
  }

  lemma BTableBack(funct3: Word)
    ensures var op := BOpOf(funct3); op.Some? ==> BFunct3(op.value) == funct3
  {
  }

  lemma FormatTable()
    ensures FormatOf(OPC_OP) == Some(FormatR) && FormatOf(OPC_STORE) == Some(FormatS)
    ensures FormatOf(OPC_BRANCH) == Some(FormatB) && FormatOf(OPC_JAL) == Some(FormatJ)
    ensures OPC_OP < 128 && OPC_STORE < 128 && OPC_BRANCH < 128 && OPC_JAL < 128
  {
  }

  lemma UTable(op: UOp)
    ensures FormatOf(UOpcode(op)) == Some(FormatU) && UOpOf(UOpcode(op)) == op && UOpcode(op) < 128
  {
  }

  // ----- Round trips -----

  lemma SplitR(funct7: Word, rs2: Word, rs1: Word, funct3: Word, rd: Word, opcode: Word)
    requires funct7 < 128 && rs2 < 32 && rs1 < 32 && funct3 < 8 && rd < 32 && opcode < 128
    ensures Split(PackR(funct7, rs2, rs1, funct3, rd, opcode)) == Fields(opcode, rd, funct3, rs1, rs2, funct7)
  {
    HoldsR(PackR(funct7, rs2, rs1, funct3, rd, opcode), funct7, rs2, rs1, funct3, rd, opcode);
  }

  lemma SplitI(imm12: Word, rs1: Word, funct3: Word, rd: Word, opcode: Word)
    requires imm12 + 0x800 < 0x1000 && rs1 < 32 && funct3 < 8 && rd < 32 && opcode < 128
    ensures var w := PackI(imm12, rs1, funct3, rd, opcode);
            var f := Split(w);
            f.opcode == opcode && f.rd == rd && f.funct3 == funct3 && f.rs1 == rs1 && ImmI(w) == imm12
  {
    HoldsI(PackI(imm12, rs1, funct3, rd, opcode), imm12, rs1, funct3, rd, opcode);
  }

  lemma SplitS(imm12: Word, rs2: Word, rs1: Word, funct3: Word, opcode: Word)
    requires imm12 + 0x800 < 0x1000 && rs2 < 32 && rs1 < 32 && funct3 < 8 && opcode < 128
    ensures var w := PackS(imm12, rs2, rs1, funct3, opcode);
            var f := Split(w);
            f.opcode == opcode && f.funct3 == funct3 && f.rs1 == rs1 && f.rs2 == rs2 && ImmS(w) == imm12
  {
    HoldsS(PackS(imm12, rs2, rs1, funct3, opcode), imm12, rs2, rs1, funct3, opcode);
  }

  lemma SplitB(offset: Word, rs2: Word, rs1: Word, funct3: Word, opcode: Word)
    requires offset + 0x1000 < 0x2000 && offset & 1 == 0 && rs2 < 32 && rs1 < 32 && funct3 < 8 && opcode < 128
    ensures var w := PackB(offset, rs2, rs1, funct3, opcode);
            var f := Split(w);
            f.opcode == opcode && f.funct3 == funct3 && f.rs1 == rs1 && f.rs2 == rs2 && ImmB(w) == offset
  {
    HoldsB(PackB(offset, rs2, rs1, funct3, opcode), offset, rs2, rs1, funct3, opcode);
  }

  lemma SplitU(imm20: Word, rd: Word, opcode: Word)
    requires imm20 < 0x10_0000 && rd < 32 && opcode < 128
    ensures var w := PackU(imm20, rd, opcode); Split(w).opcode == opcode && Split(w).rd == rd && ImmU(w) == imm20
  {
    HoldsU(PackU(imm20, rd, opcode), imm20, rd, opcode);
  }

  lemma SplitJ(offset: Word, rd: Word, opcode: Word)
    requires offset + 0x10_0000 < 0x20_0000 && offset & 1 == 0 && rd < 32 && opcode < 128
    ensures var w := PackJ(offset, rd, opcode); Split(w).opcode == opcode && Split(w).rd == rd
  {
    HoldsJ(PackJ(offset, rd, opcode), offset, rd, opcode);
  }

  lemma OffsetJ(offset: Word, rd: Word, opcode: Word)
    requires offset + 0x10_0000 < 0x20_0000 && offset & 1 == 0 && rd < 32 && opcode < 128
    ensures ImmJ(PackJ(offset, rd, opcode)) == offset
  {
    HoldsJ(PackJ(offset, rd, opcode), offset, rd, opcode);
  }

  /** Do these fields and immediates belong to the instruction? */
  predicate FieldsOf(x: Instr, f: Fields, imm: Immediates) {
    match x
    case R(op, rd, rs1, rs2) =>
      f.opcode == OPC_OP && f.funct7 == RFunct7(op) && f.funct3 == RFunct3(op) && f.rd == rd && f.rs1 == rs1 && f.rs2 == rs2
    case I(op, rd, rs1, imm12) =>
      f.opcode == IOpcode(op) && f.funct3 == IFunct3(op) && f.rd == rd && f.rs1 == rs1 && imm.i == imm12
    case S(op, rs2, rs1, imm12) =>
      f.opcode == OPC_STORE && f.funct3 == SFunct3(op) && f.rs1 == rs1 && f.rs2 == rs2 && imm.s == imm12
    case B(op, rs1, rs2, offset) =>
      f.opcode == OPC_BRANCH && f.funct3 == BFunct3(op) && f.rs1 == rs1 && f.rs2 == rs2 && imm.b == offset
    case U(op, rd, imm20) => f.opcode == UOpcode(op) && f.rd == rd && imm.u == imm20
    case JAL(rd, offset) => f.opcode == OPC_JAL && f.rd == rd && imm.j == offset
  }

  lemma FieldsDecode(x: Instr, f: Fields, imm: Immediates)
    requires FieldsOf(x, f, imm)
    ensures DecodeFields(f, imm) == Some(x)
  {
    FormatTable();
    match x
    case R(op, _, _, _) => RTable(op);
    case I(op, _, _, _) => ITable(op);
    case S(op, _, _, _) => STable(op);
    case B(op, _, _, _) => BTable(op);
    case U(op, _, _) => UTable(op);
    case JAL(_, _) =>
  }

  lemma EncodingSplits(x: Instr)
    requires Valid(x)
    ensures FieldsOf(x, Split(Encode(x)), SplitImmediates(Encode(x)))
  {
    FormatTable();
    match x
    case R(op, rd, rs1, rs2) =>
      RTable(op);
      SplitR(RFunct7(op), rs2, rs1, RFunct3(op), rd, OPC_OP);
    case I(op, rd, rs1, imm12) =>
      ITable(op);
      SplitI(imm12, rs1, IFunct3(op), rd, IOpcode(op));
    case S(op, rs2, rs1, imm12) =>
      STable(op);
      SplitS(imm12, rs2, rs1, SFunct3(op), OPC_STORE);
    case B(op, rs1, rs2, offset) =>
      BTable(op);
      SplitB(offset, rs2, rs1, BFunct3(op), OPC_BRANCH);
    case U(op, rd, imm20) =>
      UTable(op);
      SplitU(imm20, rd, UOpcode(op));
    case JAL(rd, offset) =>
      SplitJ(offset, rd, OPC_JAL);
      OffsetJ(offset, rd, OPC_JAL);
  }

  /** Decoding an encoded instruction, by the manual's fields and immediates,
      gives the instruction back, for every operation and every valid operand. */
  lemma RoundTrip(x: Instr)
    requires Valid(x)
    ensures Decode(Encode(x)) == Some(x)
  {
    EncodingSplits(x);
    FieldsDecode(x, Split(Encode(x)), SplitImmediates(Encode(x)));
  }

  lemma DecodedArithmetic(format: Format, f: Fields, imm: Immediates)
    requires FormatOf(f.opcode) == Some(format) && (format.FormatR? || format.FormatI?)
    ensures DecodeAs(format, f, imm).Some? ==> FieldsOf(DecodeAs(format, f, imm).value, f, imm)
  {
    if format.FormatR? {
      RTableBack(f.funct7, f.funct3);
    } else {
      ITableBack(f.opcode, f.funct3);
    }
  }

  lemma DecodedControl(format: Format, f: Fields, imm: Immediates)
    requires FormatOf(f.opcode) == Some(format) && (format.FormatB? || format.FormatJ?)
    ensures DecodeAs(format, f, imm).Some? ==> FieldsOf(DecodeAs(format, f, imm).value, f, imm)
  {
    BTableBack(f.funct3);
  }

  lemma DecodedOther(format: Format, f: Fields, imm: Immediates)
    requires FormatOf(f.opcode) == Some(format) && (format.FormatS? || format.FormatU?)
    ensures DecodeAs(format, f, imm).Some? ==> FieldsOf(DecodeAs(format, f, imm).value, f, imm)
  {
    STableBack(f.funct3);
  }

  lemma DecodedFields(f: Fields, imm: Immediates)
    ensures DecodeFields(f, imm).Some? ==> FieldsOf(DecodeFields(f, imm).value, f, imm)
  {
    if f.opcode == OPC_OP || f.opcode == OPC_OP_IMM || f.opcode == OPC_LOAD || f.opcode == OPC_JALR {
      DecodedArithmetic(FormatOf(f.opcode).value, f, imm);
    } else if f.opcode == OPC_BRANCH || f.opcode == OPC_JAL {
      DecodedControl(FormatOf(f.opcode).value, f, imm);
    } else if FormatOf(f.opcode).Some? {
      DecodedOther(FormatOf(f.opcode).value, f, imm);
    }
  }

  lemma PacksBackR(w: Word)
    ensures var f := Split(w); PackR(f.funct7, f.rs2, f.rs1, f.funct3, f.rd, f.opcode) == w
  {
    RepacksR(w);
  }

  lemma PacksBackI(w: Word)
    ensures var f := Split(w); PackI(ImmI(w), f.rs1, f.funct3, f.rd, f.opcode) == w
  {
    var f := Split(w);
    RepacksI(w, ImmI(w), f.rs1, f.funct3, f.rd, f.opcode);
  }

  lemma PacksBackS(w: Word)
    ensures var f := Split(w); PackS(ImmS(w), f.rs2, f.rs1, f.funct3, f.opcode) == w
  {
    var f := Split(w);
    RepacksS(w, ImmS(w), f.rs2, f.rs1, f.funct3, f.opcode);
  }

  lemma PacksBackB(w: Word)
    ensures var f := Split(w); PackB(ImmB(w), f.rs2, f.rs1, f.funct3, f.opcode) == w
  {
    var f := Split(w);
    RepacksB(w, ImmB(w), f.rs2, f.rs1, f.funct3, f.opcode);
  }

  lemma PacksBackU(w: Word)
    ensures PackU(ImmU(w), Split(w).rd, Split(w).opcode) == w
  {
    RepacksU(w, ImmU(w), Split(w).rd, Split(w).opcode);
  }

  lemma PacksBackJ(w: Word)
    ensures PackJ(ImmJ(w), Split(w).rd, Split(w).opcode) == w
  {
    RepacksJ(w, ImmJ(w), Split(w).rd, Split(w).opcode);
  }

  /** Decoding loses nothing: a word that decodes is the encoding of what it
      decodes to, whose operands are valid. */
  lemma DecodeIsExact(w: Word)
    ensures Decode(w).Some? ==> Valid(Decode(w).value) && Encode(Decode(w).value) == w
  {
    if Decode(w).Some? {
      DecodedFields(Split(w), SplitImmediates(w));
      FieldsValid(Decode(w).value, w);
      FieldsEncode(Decode(w).value, w, Split(w), SplitImmediates(w));
    }
  }

  lemma RegisterRanges(w: Word)
    ensures IsReg(Split(w).rd) && IsReg(Split(w).rs1) && IsReg(Split(w).rs2)
  {
  }

  lemma FieldsValid(x: Instr, w: Word)
    requires FieldsOf(x, Split(w), SplitImmediates(w))
    ensures Valid(x)
  {
    RegisterRanges(w);
    Ranges(w);
    RangeB(w);
    RangeJ(w);
  }

  lemma FieldsEncode(x: Instr, w: Word, f: Fields, imm: Immediates)
    requires FieldsOf(x, f, imm) && f == Split(w) && imm == SplitImmediates(w)
    ensures Encode(x) == w
  {
    match x
    case R(_, _, _, _) => PacksBackR(w);
    case I(_, _, _, _) => PacksBackI(w);
    case S(_, _, _, _) => PacksBackS(w);
    case B(_, _, _, _) => PacksBackB(w);
    case U(_, _, _) => PacksBackU(w);
    case JAL(_, _) => PacksBackJ(w);
  }

  /** Different instructions never share a word. */
  lemma NoSharedWord(x: Instr, y: Instr)
    requires Valid(x) && Valid(y) && x != y
    ensures Encode(x) != Encode(y)
  {
    RoundTrip(x);
    RoundTrip(y);
  }

  // ----- The manual's numbers -----

  /** funct3 and funct7 of the register-register instructions (RV32I base instruction set, chapter 24 of the manual). */
  predicate ManualR(op: ROp, funct3: Word, funct7: Word) {
    match op
    case ADD => funct3 == 0 && funct7 == 0
    case SUB => funct3 == 0 && funct7 == 0x20
    case SLL => funct3 == 1 && funct7 == 0
    case SLT => funct3 == 2 && funct7 == 0
    case SLTU => funct3 == 3 && funct7 == 0
    case XOR => funct3 == 4 && funct7 == 0
    case SRL => funct3 == 5 && funct7 == 0
    case SRA => funct3 == 5 && funct7 == 0x20
    case OR => funct3 == 6 && funct7 == 0
    case AND => funct3 == 7 && funct7 == 0
  }

  predicate ManualI(op: IOp, opcode: Word, funct3: Word) {
    match op
    case JALR => opcode == 0x67 && funct3 == 0
    case ADDI => opcode == 0x13 && funct3 == 0
    case SLTI => opcode == 0x13 && funct3 == 2
    case SLTIU => opcode == 0x13 && funct3 == 3
    case XORI => opcode == 0x13 && funct3 == 4
    case ORI => opcode == 0x13 && funct3 == 6
    case ANDI => opcode == 0x13 && funct3 == 7
    case LB => opcode == 0x03 && funct3 == 0
    case LH => opcode == 0x03 && funct3 == 1
    case LW => opcode == 0x03 && funct3 == 2
    case LBU => opcode == 0x03 && funct3 == 4
    case LHU => opcode == 0x03 && funct3 == 5
  }

  predicate ManualS(op: SOp, funct3: Word) {
    match op
    case SB => funct3 == 0
    case SH => funct3 == 1
    case SW => funct3 == 2
  }

  predicate ManualB(op: BOp, funct3: Word) {
    match op
    case BEQ => funct3 == 0
    case BNE => funct3 == 1
    case BLT => funct3 == 4
    case BGE => funct3 == 5
    case BLTU => funct3 == 6
    case BGEU => funct3 == 7
  }

  /** Fields and immediate are those that the manual gives the instruction. */
  predicate ManualOf(x: Instr, f: Fields, imm: Immediates) {
    match x
    case R(op, rd, rs1, rs2) =>
      f.opcode == 0x33 && ManualR(op, f.funct3, f.funct7) && f.rd == rd && f.rs1 == rs1 && f.rs2 == rs2
    case I(op, rd, rs1, imm12) => ManualI(op, f.opcode, f.funct3) && f.rd == rd && f.rs1 == rs1 && imm.i == imm12
    case S(op, rs2, rs1, imm12) =>
      f.opcode == 0x23 && ManualS(op, f.funct3) && f.rs1 == rs1 && f.rs2 == rs2 && imm.s == imm12
    case B(op, rs1, rs2, offset) =>
      f.opcode == 0x63 && ManualB(op, f.funct3) && f.rs1 == rs1 && f.rs2 == rs2 && imm.b == offset
    case U(op, rd, imm20) => f.opcode == (match op case LUI => 0x37 case AUIPC => 0x17) && f.rd == rd && imm.u == imm20
    case JAL(rd, offset) => f.opcode == 0x6F && f.rd == rd && imm.j == offset
  }

  /** The bits of `w` are those of the instruction, field by field, with every number written out. */
  predicate IsWordOf(w: Word, x: Instr) {
    ManualOf(
      x,
      Fields(opcode := w & 0x7F, rd := (w >> 7) & 0x1F, funct3 := (w >> 12) & 7, rs1 := (w >> 15) & 0x1F,
             rs2 := (w >> 20) & 0x1F, funct7 := w >> 25),
      Immediates(
        i := ((w >> 20) ^ 0x800) - 0x800,
        s := ((((w >> 25) << 5) | ((w >> 7) & 0x1F)) ^ 0x800) - 0x800,
        b := ((((w >> 31) << 12) | (((w >> 7) & 1) << 11) | (((w >> 25) & 0x3F) << 5) | (((w >> 8) & 0xF) << 1)) ^ 0x1000) -
             0x1000,
        u := w >> 12,
        j := ((((w >> 31) << 20) | (((w >> 12) & 0xFF) << 12) | (((w >> 20) & 1) << 11) | (((w >> 21) & 0x3FF) << 1)) ^
              0x10_0000) - 0x10_0000))
  }

  lemma ManualTablesR(op: ROp, funct3: Word, funct7: Word)
    ensures ManualR(op, funct3, funct7) <==> funct3 == RFunct3(op) && funct7 == RFunct7(op)
  {
  }

  lemma ManualTablesI(op: IOp, opcode: Word, funct3: Word)
    ensures ManualI(op, opcode, funct3) <==> opcode == IOpcode(op) && funct3 == IFunct3(op)
  {
  }

  lemma ManualTables(sop: SOp, bop: BOp, uop: UOp, funct3: Word)
    ensures ManualS(sop, funct3) <==> funct3 == SFunct3(sop)
    ensures ManualB(bop, funct3) <==> funct3 == BFunct3(bop)
    ensures UOpcode(uop) == match uop case LUI => 0x37 case AUIPC => 0x17
    ensures OPC_OP == 0x33 && OPC_STORE == 0x23 && OPC_BRANCH == 0x63 && OPC_JAL == 0x6F
  {
  }

  lemma ManualArithmetic(x: Instr, f: Fields, imm: Immediates)
    requires x.R? || x.I?
    ensures ManualOf(x, f, imm) <==> FieldsOf(x, f, imm)
  {
    if x.R? {
      ManualTablesR(x.rop, f.funct3, f.funct7);
      ManualTables(SB, BEQ, LUI, 0);
    } else {
      ManualTablesI(x.iop, f.opcode, f.funct3);
    }
  }

  lemma ManualStores(x: Instr, f: Fields, imm: Immediates)
    requires x.S? || x.B?
    ensures ManualOf(x, f, imm) <==> FieldsOf(x, f, imm)
  {
    if x.S? {
      ManualTables(x.sop, BEQ, LUI, f.funct3);
    } else {
      ManualTables(SB, x.bop, LUI, f.funct3);
    }
  }

  lemma ManualIsFields(x: Instr, f: Fields, imm: Immediates)
    ensures ManualOf(x, f, imm) <==> FieldsOf(x, f, imm)
  {
    match x
    case R(_, _, _, _) => ManualArithmetic(x, f, imm);
    case I(_, _, _, _) => ManualArithmetic(x, f, imm);
    case S(_, _, _, _) => ManualStores(x, f, imm);
    case B(_, _, _, _) => ManualStores(x, f, imm);
    case U(op, _, _) => ManualTables(SB, BEQ, op, 0);
    case JAL(_, _) => ManualTables(SB, BEQ, LUI, 0);
  }

  lemma ManualFields(w: Word, x: Instr)
    ensures IsWordOf(w, x) <==> FieldsOf(x, Split(w), SplitImmediates(w))
  {
    ManualIsFields(x, Split(w), SplitImmediates(w));
  }

  /** An instruction is encoded by the word that the manual gives it, and by no other. */
  lemma EncodeIsManual(w: Word, x: Instr)
    requires Valid(x)
    ensures w == Encode(x) <==> IsWordOf(w, x)
  {
    ManualFields(w, x);
    ManualFields(Encode(x), x);
    EncodingSplits(x);
    if IsWordOf(w, x) {
      FieldsEncode(x, w, Split(w), SplitImmediates(w));
    }
  }

  /** A word decodes to the instruction whose word it is by the manual, and to nothing if there is none. */
  lemma DecodeIsManual(w: Word, x: Instr)
    ensures Decode(w) == Some(x) <==> IsWordOf(w, x)
  {
    ManualFields(w, x);
    DecodedFields(Split(w), SplitImmediates(w));
    if IsWordOf(w, x) {
      FieldsDecode(x, Split(w), SplitImmediates(w));
    }
  }
}
