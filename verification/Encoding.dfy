/** The instruction formats of RV32IM: the word of every instruction, laid out from the format tables of the instruction
    set, and that decoding a word gives back the instruction. */
module Encoding {
  import opened Rv32

  // ---------- the formats ----------

  function RType(opcode: int, rd: int, funct3: int, rs1: int, rs2: int, funct7: int): int {
    opcode + 0x80 * rd + 0x1000 * funct3 + 0x8000 * rs1 + 0x10_0000 * rs2 + 0x200_0000 * funct7
  }

  /** imm[11:0] above rs1. */
  function IType(opcode: int, rd: int, funct3: int, rs1: int, imm: int): int {
    opcode + 0x80 * rd + 0x1000 * funct3 + 0x8000 * rs1 + 0x10_0000 * (imm % 0x1000)
  }

  /** imm[4:0] in place of rd, imm[11:5] in place of funct7. */
  function SType(opcode: int, funct3: int, rs1: int, rs2: int, imm: int): int {
    RType(opcode, imm % 0x20, funct3, rs1, rs2, imm / 0x20 % 0x80)
  }

  /** imm[11] and imm[4:1] in place of rd, the first one lowest, and imm[10:5] and imm[12] in place of funct7. */
  function BType(opcode: int, funct3: int, rs1: int, rs2: int, imm: int): int {
    RType(opcode, imm / 0x800 % 2 + 2 * (imm / 2 % 0x10), funct3, rs1, rs2,
          imm / 0x20 % 0x40 + 0x40 * (imm / 0x1000 % 2))
  }

  /** imm[31:12] above rd. */
  function UType(opcode: int, rd: int, imm: int): int {
    opcode + 0x80 * rd + 0x1000 * (imm / 0x1000 % 0x10_0000)
  }

  /** imm[19:12], imm[11], imm[10:1] and imm[20] above rd, from the lowest bit on. */
  function JType(opcode: int, rd: int, imm: int): int {
    opcode + 0x80 * rd + 0x1000 * (imm / 0x1000 % 0x100) + 0x10_0000 * (imm / 0x800 % 2)
    + 0x20_0000 * (imm / 2 % 0x400) + 0x8000_0000 * (imm / 0x10_0000 % 2)
  }

  // ---------- the words of the instructions ----------

  /** funct3 of an ALU operation. */
  function AluFunct3(op: AluOp): int {
    match op
    case Add => 0
    case Sub => 0
    case Mul => 0
    case Sll => 1
    case Mulh => 1
    case Slt => 2
    case Sltu => 3
    case Mulhu => 3
    case Xor => 4
    case Div => 4
    case Srl => 5
    case Sra => 5
    case Divu => 5
    case Or => 6
    case Rem => 6
    case And => 7
    case Remu => 7
  }

  /** funct7 of an ALU operation: 1 for the multiplications and divisions, 0x20 for sub and sra. */
  function AluFunct7(op: AluOp): int {
    match op
    case Mul => 1
    case Mulh => 1
    case Mulhu => 1
    case Div => 1
    case Divu => 1
    case Rem => 1
    case Remu => 1
    case Sub => 0x20
    case Sra => 0x20
    case _ => 0
  }

  function LoadFunct3(width: Width): int {
    match width
    case Byte => 0
    case Half => 1
    case Full => 2
    case ByteU => 4
    case HalfU => 5
  }

  function BranchFunct3(cond: Cond): int {
    match cond
    case Eq => 0
    case Ne => 1
    case Lt => 4
    case Ge => 5
    case Ltu => 6
    case Geu => 7
  }

  predicate ShiftOp(op: AluOp) {
    op == Sll || op == Srl || op == Sra
  }

  /** The word of an instruction. A fence and a system instruction without effect stand for several words. */
  function Encode(i: Insn): int {
    match i
    case AluImm(op, rd, rs1, imm) =>
      if ShiftOp(op) then RType(0x13, rd, AluFunct3(op), rs1, imm, AluFunct7(op))
        else IType(0x13, rd, AluFunct3(op), rs1, imm)
    case Alu(op, rd, rs1, rs2) => RType(0x33, rd, AluFunct3(op), rs1, rs2, AluFunct7(op))
    case Lui(rd, imm) => UType(0x37, rd, imm)
    case Auipc(rd, imm) => UType(0x17, rd, imm)
    case Load(width, rd, rs1, imm) => IType(0x03, rd, LoadFunct3(width), rs1, imm)
    case Store(width, rs1, rs2, imm) => SType(0x23, LoadFunct3(width), rs1, rs2, imm)
    case Branch(cond, rs1, rs2, imm) => BType(0x63, BranchFunct3(cond), rs1, rs2, imm)
    case Jal(rd, imm) => JType(0x6f, rd, imm)
    case Jalr(rd, rs1, imm) => IType(0x67, rd, 0, rs1, imm)
    case Fence => 0x0ff0_000f
    case Monitor => 0x73
    case ReadCycle(rd) => IType(0x73, rd, 2, 0, 0xc00)
    case OtherSystem => 0x3020_0073
  }

  predicate IsReg(r: int) {
    0 <= r < 32
  }

  /** A word that is the two's complement of a number of so many bits. */
  predicate Fits(imm: int, half: int) {
    0 <= imm < half || WORD - half <= imm < WORD
  }

  /** The instructions that have an encoding: five-bit registers, and immediates that their format can hold. */
  predicate Encodable(i: Insn) {
    match i
    case AluImm(op, rd, rs1, imm) =>
      && IsReg(rd) && IsReg(rs1) && op in {Add, Sll, Slt, Sltu, Xor, Srl, Sra, Or, And}
      && if ShiftOp(op) then 0 <= imm < 32 else Fits(imm, 0x800)
    case Alu(_, rd, rs1, rs2) => IsReg(rd) && IsReg(rs1) && IsReg(rs2)
    case Lui(rd, imm) => IsReg(rd) && 0 <= imm < WORD && imm % 0x1000 == 0
    case Auipc(rd, imm) => IsReg(rd) && 0 <= imm < WORD && imm % 0x1000 == 0
    case Load(_, rd, rs1, imm) => IsReg(rd) && IsReg(rs1) && Fits(imm, 0x800)
    case Store(width, rs1, rs2, imm) => IsReg(rs1) && IsReg(rs2) && Fits(imm, 0x800) && width in {Byte, Half, Full}
    case Branch(_, rs1, rs2, imm) => IsReg(rs1) && IsReg(rs2) && Fits(imm, 0x1000) && imm % 2 == 0
    case Jal(rd, imm) => IsReg(rd) && Fits(imm, 0x10_0000) && imm % 2 == 0
    case Jalr(rd, rs1, imm) => IsReg(rd) && IsReg(rs1) && Fits(imm, 0x800)
    case ReadCycle(rd) => IsReg(rd)
    case _ => true
  }

  // ---------- the fields of a word ----------

  /** The powers of two that fields begin and end at. */
  lemma Powers()
    ensures Pow2(0) == 1 && Pow2(1) == 2 && Pow2(2) == 4 && Pow2(3) == 8 && Pow2(4) == 0x10 && Pow2(5) == 0x20
    ensures Pow2(6) == 0x40 && Pow2(7) == 0x80 && Pow2(8) == 0x100 && Pow2(10) == 0x400 && Pow2(11) == 0x800
    ensures Pow2(12) == 0x1000 && Pow2(13) == 0x2000 && Pow2(15) == 0x8000 && Pow2(16) == 0x1_0000
    ensures Pow2(20) == 0x10_0000
    ensures Pow2(21) == 0x20_0000 && Pow2(25) == 0x200_0000 && Pow2(31) == 0x8000_0000
  {
    assert Pow2(3) == 8 && Pow2(5) == 0x20 && Pow2(7) == 0x80;
    assert Pow2(8) == 0x100 && Pow2(10) == 0x400;
    assert Pow2(12) == 0x1000;
    assert Pow2(15) == 0x8000 by { assert Pow2(14) == 0x4000; }
    assert Pow2(18) == 0x4_0000 by { assert Pow2(16) == 0x1_0000; }
    assert Pow2(21) == 0x20_0000;
    assert Pow2(25) == 0x200_0000 by { assert Pow2(23) == 0x80_0000; }
    assert Pow2(31) == 0x8000_0000 by { assert Pow2(28) == 0x1000_0000; }
  }

  /** The field of a word that is put together from what is below, the field, and what is above. */
  lemma Slice(w: int, lo: int, width: int, p: int, q: int, below: int, mid: int, above: int)
    requires Pow2(lo) == p && Pow2(width) == q
    requires w == below + p * (mid + q * above) && 0 <= below < p && 0 <= mid < q
    ensures Field(w, lo, width) == mid
  {
    Quotient(below, p, mid + q * above);
    Quotient(mid, q, above);
    hide Pow2;
  }

  lemma Quotient(r: int, d: int, q: int)
    requires 0 <= r < d
    ensures (r + d * q) / d == q && (r + d * q) % d == r
  {
    var x := r + d * q;
    var k := q - x / d;
    assert d * k == x % d - r;
    Below(d, k);
  }

  lemma Below(d: int, k: int)
    requires d > 0 && -d < d * k < d
    ensures k == 0
  {
    if k > 0 {
      NotNegative(d, k - 1);
    }
    if k < 0 {
      NotNegative(d, -k - 1);
    }
  }

  lemma NotNegative(a: int, b: int)
    requires a >= 0 && b >= 0
    ensures a * b >= 0
  {
  }

  /** The ranges of the fields of a format. */
  predicate InFormat(opcode: int, rd: int, funct3: int, rs1: int, rs2: int, funct7: int) {
    0 <= opcode < 0x80 && IsReg(rd) && 0 <= funct3 < 8 && IsReg(rs1) && IsReg(rs2) && 0 <= funct7 < 0x80
  }

  lemma RFields(w: int, opcode: int, rd: int, funct3: int, rs1: int, rs2: int, funct7: int)
    requires w == RType(opcode, rd, funct3, rs1, rs2, funct7) && InFormat(opcode, rd, funct3, rs1, rs2, funct7)
    ensures Field(w, 0, 7) == opcode && Field(w, 7, 5) == rd && Field(w, 12, 3) == funct3 && Field(w, 15, 5) == rs1
    ensures Field(w, 20, 5) == rs2 && Field(w, 25, 7) == funct7
  {
    Powers();
    hide Field, Pow2;
    Slice(w, 0, 7, 1, 0x80, 0, opcode, rd + 0x20 * funct3 + 0x100 * rs1 + 0x2000 * rs2 + 0x4_0000 * funct7);
    Slice(w, 7, 5, 0x80, 0x20, opcode, rd, funct3 + 8 * rs1 + 0x100 * rs2 + 0x2000 * funct7);
    Slice(w, 12, 3, 0x1000, 8, opcode + 0x80 * rd, funct3, rs1 + 0x20 * rs2 + 0x400 * funct7);
    Slice(w, 15, 5, 0x8000, 0x20, opcode + 0x80 * rd + 0x1000 * funct3, rs1, rs2 + 0x20 * funct7);
    Slice(w, 20, 5, 0x10_0000, 0x20, opcode + 0x80 * rd + 0x1000 * funct3 + 0x8000 * rs1, rs2, funct7);
    Slice(w, 25, 7, 0x200_0000, 0x80, opcode + 0x80 * rd + 0x1000 * funct3 + 0x8000 * rs1 + 0x10_0000 * rs2, funct7, 0);
  }

  /** The fields that cut across those of the register format. */
  lemma SplitFields(w: int, opcode: int, rd: int, funct3: int, rs1: int, rs2: int, funct7: int)
    requires w == RType(opcode, rd, funct3, rs1, rs2, funct7) && InFormat(opcode, rd, funct3, rs1, rs2, funct7)
    ensures Field(w, 20, 12) == rs2 + 0x20 * funct7 && Field(w, 7, 1) == rd % 2 && Field(w, 8, 4) == rd / 2
    ensures Field(w, 25, 6) == funct7 % 0x40 && Field(w, 31, 1) == funct7 / 0x40 && Field(w, 12, 2) == funct3 % 4
  {
    Powers();
    hide Field, Pow2;
    var low := opcode + 0x80 * rd + 0x1000 * funct3 + 0x8000 * rs1;
    var rest := funct3 + 8 * rs1 + 0x100 * rs2 + 0x2000 * funct7;
    Slice(w, 20, 12, 0x10_0000, 0x1000, low, rs2 + 0x20 * funct7, 0);
    Slice(w, 7, 1, 0x80, 2, opcode, rd % 2, rd / 2 + 0x10 * rest);
    Slice(w, 8, 4, 0x100, 0x10, opcode + 0x80 * (rd % 2), rd / 2, rest);
    Slice(w, 25, 6, 0x200_0000, 0x40, low + 0x10_0000 * rs2, funct7 % 0x40, funct7 / 0x40);
    Slice(w, 31, 1, 0x8000_0000, 2, low + 0x10_0000 * rs2 + 0x200_0000 * (funct7 % 0x40), funct7 / 0x40, 0);
    Slice(w, 12, 2, 0x1000, 4, opcode + 0x80 * rd, funct3 % 4, funct3 / 4 + 2 * (rs1 + 0x20 * rs2 + 0x400 * funct7));
  }

  lemma WideFields(w: int, opcode: int, rd: int, funct3: int, rs1: int, rs2: int, funct7: int)
    requires w == RType(opcode, rd, funct3, rs1, rs2, funct7) && InFormat(opcode, rd, funct3, rs1, rs2, funct7)
    ensures Field(w, 12, 20) == funct3 + 8 * rs1 + 0x100 * rs2 + 0x2000 * funct7
    ensures Field(w, 7, 25) == rd + 0x20 * (funct3 + 8 * rs1 + 0x100 * rs2 + 0x2000 * funct7)
    ensures Field(w, 21, 10) == rs2 / 2 + 0x10 * (funct7 % 0x40) && Field(w, 20, 1) == rs2 % 2
    ensures Field(w, 12, 8) == funct3 + 8 * rs1
  {
    Powers();
    hide Field, Pow2;
    var low := opcode + 0x80 * rd;
    var rest := funct3 + 8 * rs1 + 0x100 * rs2 + 0x2000 * funct7;
    var mid := low + 0x1000 * funct3 + 0x8000 * rs1;
    Slice(w, 12, 20, 0x1000, 0x10_0000, low, rest, 0);
    assert Pow2(25) == 0x200_0000;
    Slice(w, 7, 25, 0x80, 0x200_0000, opcode, rd + 0x20 * rest, 0);
    Slice(w, 20, 1, 0x10_0000, 2, mid, rs2 % 2, rs2 / 2 + 0x10 * funct7);
    Slice(w, 21, 10, 0x20_0000, 0x400, mid + 0x10_0000 * (rs2 % 2), rs2 / 2 + 0x10 * (funct7 % 0x40), funct7 / 0x40);
    Slice(w, 12, 8, 0x1000, 0x100, low, funct3 + 8 * rs1, rs2 + 0x20 * funct7);
  }

  // ---------- decoding an encoded instruction ----------

  /** The immediate of a format comes back with its sign. */
  lemma SignBack(imm: int, width: int, half: int)
    requires Pow2(width - 1) == half && Pow2(width) == 2 * half && 0 < half <= 0x8000_0000 && Fits(imm, half)
    requires WORD % (2 * half) == 0
    ensures Extend(imm % (2 * half), width) == imm
  {
    hide Pow2;
    if imm < half {
      Quotient(imm, 2 * half, 0);
    } else {
      var k := WORD / (2 * half);
      assert imm == (imm - WORD + 2 * half) + 2 * half * (k - 1) by {
        assert WORD == 2 * half * k;
        assert 2 * half * (k - 1) == 2 * half * k - 2 * half;
      }
      Quotient(imm - WORD + 2 * half, 2 * half, k - 1);
    }
  }

  lemma ImmBack(imm: int)
    ensures Fits(imm, 0x800) ==> Extend(imm % 0x1000, 12) == imm
    ensures Fits(imm, 0x1000) ==> Extend(imm % 0x2000, 13) == imm
    ensures Fits(imm, 0x10_0000) ==> Extend(imm % 0x20_0000, 21) == imm
  {
    Powers();
    hide Pow2, Extend;
    if Fits(imm, 0x800) {
      SignBack(imm, 12, 0x800);
    }
    if Fits(imm, 0x1000) {
      SignBack(imm, 13, 0x1000);
    }
    if Fits(imm, 0x10_0000) {
      SignBack(imm, 21, 0x10_0000);
    }
  }

  /** The parts that the formats cut an immediate into. */
  lemma BParts(imm: int)
    requires imm % 2 == 0
    ensures imm % 0x2000
      == 2 * (imm / 2 % 0x10) + 0x20 * (imm / 0x20 % 0x40) + 0x800 * (imm / 0x800 % 2) + 0x1000 * (imm / 0x1000 % 2)
  {
    var a, b, c := imm / 2, imm / 0x20, imm / 0x800;
    assert b == a / 0x10 && c == b / 0x40 && imm / 0x1000 == c / 2;
    assert imm / 0x2000 == imm / 0x1000 / 2;
  }

  lemma JParts(imm: int)
    requires imm % 2 == 0
    ensures imm % 0x20_0000
      == 2 * (imm / 2 % 0x400) + 0x800 * (imm / 0x800 % 2) + 0x1000 * (imm / 0x1000 % 0x100)
         + 0x10_0000 * (imm / 0x10_0000 % 2)
  {
    var a, b, c := imm / 2, imm / 0x800, imm / 0x1000;
    assert b == a / 0x400 && c == b / 2 && imm / 0x10_0000 == c / 0x100;
    assert imm / 0x20_0000 == imm / 0x10_0000 / 2;
  }

  lemma SParts(imm: int)
    ensures imm % 0x1000 == imm % 0x20 + 0x20 * (imm / 0x20 % 0x80)
  {
    assert imm / 0x1000 == imm / 0x20 / 0x80;
  }

  /** A field that is put together from two smaller ones. */
  lemma Digits(low: int, radix: int, high: int)
    requires 0 <= low < radix
    ensures (low + radix * high) % radix == low && (low + radix * high) / radix == high
  {
    Quotient(low, radix, high);
  }

  lemma BImmIs(w: int, imm: int)
    requires Fits(imm, 0x1000) && imm % 2 == 0
    requires Field(w, 8, 4) == imm / 2 % 0x10 && Field(w, 25, 6) == imm / 0x20 % 0x40
    requires Field(w, 7, 1) == imm / 0x800 % 2 && Field(w, 31, 1) == imm / 0x1000 % 2
    ensures BImm(w) == imm
  {
    BParts(imm);
    ImmBack(imm);
    hide Field, Pow2, Extend, Fits;
  }

  lemma BFields(funct3: int, rs1: int, rs2: int, imm: int)
    requires 0 <= funct3 < 8 && IsReg(rs1) && IsReg(rs2)
    ensures var w := BType(0x63, funct3, rs1, rs2, imm);
            && Field(w, 0, 7) == 0x63 && Field(w, 12, 3) == funct3 && Field(w, 15, 5) == rs1 && Field(w, 20, 5) == rs2
            && (Fits(imm, 0x1000) && imm % 2 == 0 ==> BImm(w) == imm)
  {
    var w := BType(0x63, funct3, rs1, rs2, imm);
    var a, b, c, d := imm / 0x800 % 2, imm / 2 % 0x10, imm / 0x20 % 0x40, imm / 0x1000 % 2;
    Digits(a, 2, b);
    Digits(c, 0x40, d);
    RFields(w, 0x63, a + 2 * b, funct3, rs1, rs2, c + 0x40 * d);
    SplitFields(w, 0x63, a + 2 * b, funct3, rs1, rs2, c + 0x40 * d);
    hide *;
    if Fits(imm, 0x1000) && imm % 2 == 0 {
      BImmIs(w, imm);
    }
  }

  lemma DecodeBranch(cond: Cond, rs1: int, rs2: int, imm: int)
    requires Encodable(Branch(cond, rs1, rs2, imm))
    ensures Decode(Encode(Branch(cond, rs1, rs2, imm))) == Some(Branch(cond, rs1, rs2, imm))
  {
    BFields(BranchFunct3(cond), rs1, rs2, imm);
    hide Field, BImm, BType;
  }

  lemma SFields(funct3: int, rs1: int, rs2: int, imm: int)
    requires 0 <= funct3 < 8 && IsReg(rs1) && IsReg(rs2)
    ensures var w := SType(0x23, funct3, rs1, rs2, imm);
            && Field(w, 0, 7) == 0x23 && Field(w, 12, 3) == funct3 && Field(w, 15, 5) == rs1 && Field(w, 20, 5) == rs2
            && (Fits(imm, 0x800) ==> SImm(w) == imm)
  {
    RFields(SType(0x23, funct3, rs1, rs2, imm), 0x23, imm % 0x20, funct3, rs1, rs2, imm / 0x20 % 0x80);
    SParts(imm);
    ImmBack(imm);
    hide Field, Pow2, Extend, Fits;
  }

  lemma DecodeStore(width: Width, rs1: int, rs2: int, imm: int)
    requires Encodable(Store(width, rs1, rs2, imm))
    ensures Decode(Encode(Store(width, rs1, rs2, imm))) == Some(Store(width, rs1, rs2, imm))
  {
    SFields(LoadFunct3(width), rs1, rs2, imm);
    hide Field, SImm, SType;
  }

  /** A word of the immediate format. */
  lemma IFields(opcode: int, rd: int, funct3: int, rs1: int, imm: int)
    requires 0 <= opcode < 0x80 && IsReg(rd) && 0 <= funct3 < 8 && IsReg(rs1)
    ensures var w := IType(opcode, rd, funct3, rs1, imm);
            && Field(w, 0, 7) == opcode && Field(w, 7, 5) == rd && Field(w, 12, 3) == funct3 && Field(w, 15, 5) == rs1
            && Field(w, 12, 2) == funct3 % 4 && Field(w, 20, 12) == imm % 0x1000
            && (Fits(imm, 0x800) ==> IImm(w) == imm)
            && Field(w, 7, 25) == rd + 0x20 * funct3 + 0x100 * rs1 + 0x2000 * (imm % 0x1000)
  {
    var rs2, funct7 := imm % 0x1000 % 0x20, imm % 0x1000 / 0x20;
    var w := IType(opcode, rd, funct3, rs1, imm);
    RFields(w, opcode, rd, funct3, rs1, rs2, funct7);
    SplitFields(w, opcode, rd, funct3, rs1, rs2, funct7);
    WideFields(w, opcode, rd, funct3, rs1, rs2, funct7);
    ImmBack(imm);
    hide Field, Pow2, Extend;
  }

  lemma DecodeLoad(width: Width, rd: int, rs1: int, imm: int)
    requires Encodable(Load(width, rd, rs1, imm))
    ensures Decode(Encode(Load(width, rd, rs1, imm))) == Some(Load(width, rd, rs1, imm))
  {
    IFields(0x03, rd, LoadFunct3(width), rs1, imm);
    hide Field, IImm;
  }

  lemma DecodeJalr(rd: int, rs1: int, imm: int)
    requires Encodable(Jalr(rd, rs1, imm))
    ensures Decode(Encode(Jalr(rd, rs1, imm))) == Some(Jalr(rd, rs1, imm))
  {
    IFields(0x67, rd, 0, rs1, imm);
    hide Field, IImm;
  }

  lemma DecodeAluImm(op: AluOp, rd: int, rs1: int, imm: int)
    requires Encodable(AluImm(op, rd, rs1, imm))
    ensures Decode(Encode(AluImm(op, rd, rs1, imm))) == Some(AluImm(op, rd, rs1, imm))
  {
    if ShiftOp(op) {
      RFields(Encode(AluImm(op, rd, rs1, imm)), 0x13, rd, AluFunct3(op), rs1, imm, AluFunct7(op));
    } else {
      IFields(0x13, rd, AluFunct3(op), rs1, imm);
    }
    hide Field, IImm;
  }

  lemma DecodeReg(op: AluOp, rd: int, rs1: int, rs2: int)
    requires Encodable(Alu(op, rd, rs1, rs2))
    ensures Decode(Encode(Alu(op, rd, rs1, rs2))) == Some(Alu(op, rd, rs1, rs2))
  {
    RFields(Encode(Alu(op, rd, rs1, rs2)), 0x33, rd, AluFunct3(op), rs1, rs2, AluFunct7(op));
    hide Field;
    assert DecodeAlu(AluFunct3(op), AluFunct7(op)) == Some(op);
  }

  /** A word with its upper twenty bits apart. */
  lemma UFields(opcode: int, rd: int, top: int)
    requires 0 <= opcode < 0x80 && IsReg(rd) && 0 <= top < 0x10_0000
    ensures var w := opcode + 0x80 * rd + 0x1000 * top;
            Field(w, 0, 7) == opcode && Field(w, 7, 5) == rd && Field(w, 12, 20) == top
  {
    var w := opcode + 0x80 * rd + 0x1000 * top;
    Powers();
    hide Field, Pow2;
    Slice(w, 0, 7, 1, 0x80, 0, opcode, rd + 0x20 * top);
    Slice(w, 7, 5, 0x80, 0x20, opcode, rd, top);
    Slice(w, 12, 20, 0x1000, 0x10_0000, opcode + 0x80 * rd, top, 0);
  }

  lemma DecodeUpper(rd: int, imm: int)
    requires IsReg(rd) && 0 <= imm < WORD && imm % 0x1000 == 0
    ensures Decode(Encode(Lui(rd, imm))) == Some(Lui(rd, imm)) && Decode(Encode(Auipc(rd, imm))) == Some(Auipc(rd, imm))
  {
    hide Field, Decode;
    var top := imm / 0x1000;
    Quotient(top, 0x10_0000, 0);
    UFields(0x37, rd, top);
    UFields(0x17, rd, top);
    UpperIs(0x37 + 0x80 * rd + 0x1000 * top, 0x37, rd, imm);
    UpperIs(0x17 + 0x80 * rd + 0x1000 * top, 0x17, rd, imm);
  }

  lemma UpperIs(w: int, opcode: int, rd: int, imm: int)
    requires Field(w, 0, 7) == opcode && Field(w, 7, 5) == rd && 0x1000 * Field(w, 12, 20) == imm
    requires opcode == 0x37 || opcode == 0x17
    ensures Decode(w) == Some(if opcode == 0x37 then Lui(rd, imm) else Auipc(rd, imm))
  {
    hide Field;
  }

  lemma JImmIs(w: int, imm: int)
    requires Fits(imm, 0x10_0000) && imm % 2 == 0
    requires Field(w, 12, 8) == imm / 0x1000 % 0x100 && Field(w, 20, 1) == imm / 0x800 % 2
    requires Field(w, 21, 10) == imm / 2 % 0x400 && Field(w, 31, 1) == imm / 0x10_0000 % 2
    ensures JImm(w) == imm
  {
    JParts(imm);
    ImmBack(imm);
    hide Field, Pow2, Extend, Fits;
  }

  /** The fields that the upper twenty bits of a jump are cut into. */
  lemma JSlices(w: int, low: int, a: int, b: int, c: int, d: int)
    requires w == low + 0x1000 * a + 0x10_0000 * b + 0x20_0000 * c + 0x8000_0000 * d
    requires 0 <= low < 0x1000 && 0 <= a < 0x100 && 0 <= b < 2 && 0 <= c < 0x400 && 0 <= d < 2
    ensures Field(w, 12, 8) == a && Field(w, 20, 1) == b && Field(w, 21, 10) == c && Field(w, 31, 1) == d
  {
    Powers();
    hide Field, Pow2;
    Slice(w, 12, 8, 0x1000, 0x100, low, a, b + 2 * c + 0x800 * d);
    Slice(w, 20, 1, 0x10_0000, 2, low + 0x1000 * a, b, c + 0x400 * d);
    Slice(w, 21, 10, 0x20_0000, 0x400, low + 0x1000 * a + 0x10_0000 * b, c, d);
    Slice(w, 31, 1, 0x8000_0000, 2, low + 0x1000 * a + 0x10_0000 * b + 0x20_0000 * c, d, 0);
  }

  lemma JFields(rd: int, imm: int)
    requires IsReg(rd)
    ensures var w := JType(0x6f, rd, imm);
            Field(w, 0, 7) == 0x6f && Field(w, 7, 5) == rd && (Fits(imm, 0x10_0000) && imm % 2 == 0 ==> JImm(w) == imm)
  {
    var w := JType(0x6f, rd, imm);
    var a, b, c, d := imm / 0x1000 % 0x100, imm / 0x800 % 2, imm / 2 % 0x400, imm / 0x10_0000 % 2;
    UFields(0x6f, rd, a + 0x100 * b + 0x200 * c + 0x8_0000 * d);
    JSlices(w, 0x6f + 0x80 * rd, a, b, c, d);
    hide *;
    if Fits(imm, 0x10_0000) && imm % 2 == 0 {
      JImmIs(w, imm);
    }
  }

  lemma DecodeJal(rd: int, imm: int)
    requires Encodable(Jal(rd, imm))
    ensures Decode(Encode(Jal(rd, imm))) == Some(Jal(rd, imm))
  {
    JFields(rd, imm);
    hide Field, JImm, JType;
  }

  /** Words of the system opcode, with funct12 for the upper twelve bits. */
  lemma SystemIs(w: int)
    requires Field(w, 0, 7) == 0x73
    ensures Decode(w) == Some(if Field(w, 7, 25) == 0 then Monitor
                              else if Field(w, 12, 2) == 2 && Field(w, 20, 12) == 0xc00 then ReadCycle(Field(w, 7, 5))
                              else OtherSystem)
  {
    hide Field;
  }

  lemma AllZero(a: int, b: int, c: int, d: int)
    requires a >= 0 && b >= 0 && c >= 0 && d >= 0
    ensures a + 0x20 * b + 0x100 * c + 0x2000 * d == 0 <==> a == b == c == d == 0
  {
  }

  lemma SystemWord(rd: int, funct3: int, rs1: int, imm: int)
    requires IsReg(rd) && 0 <= funct3 < 8 && IsReg(rs1) && 0 <= imm < 0x1000
    ensures Decode(IType(0x73, rd, funct3, rs1, imm))
         == Some(if rd == funct3 == rs1 == imm == 0 then Monitor
                 else if funct3 % 4 == 2 && imm == 0xc00 then ReadCycle(rd)
                 else OtherSystem)
  {
    IFields(0x73, rd, funct3, rs1, imm);
    SystemIs(IType(0x73, rd, funct3, rs1, imm));
    AllZero(rd, funct3, rs1, imm);
    Digits(imm, 0x1000, 0);
    hide *;
  }

  lemma FenceWord(rd: int, funct3: int, rs1: int, imm: int)
    requires IsReg(rd) && 0 <= funct3 < 8 && IsReg(rs1) && 0 <= imm < 0x1000
    ensures Decode(IType(0x0f, rd, funct3, rs1, imm)) == Some(Fence)
  {
    IFields(0x0f, rd, funct3, rs1, imm);
    FenceIs(IType(0x0f, rd, funct3, rs1, imm));
    hide Field, IImm, Decode, Extend, Pow2;
  }

  lemma DecodeSystem(rd: int)
    requires IsReg(rd)
    ensures Decode(Encode(ReadCycle(rd))) == Some(ReadCycle(rd)) && Decode(Encode(Monitor)) == Some(Monitor)
    ensures Decode(Encode(Fence)) == Some(Fence) && Decode(Encode(OtherSystem)) == Some(OtherSystem)
  {
    hide Decode;
    SystemWord(rd, 2, 0, 0xc00);
    SystemWord(0, 0, 0, 0);
    FenceWord(0, 0, 0, 0xff);
    SystemWord(0, 0, 0, 0x302);
  }

  lemma FenceIs(w: int)
    requires Field(w, 0, 7) == 0x0f
    ensures Decode(w) == Some(Fence)
  {
    hide Field;
  }

  /** Decoding the word of an instruction gives back the instruction. */
  lemma DecodeEncode(i: Insn)
    requires Encodable(i)
    ensures Decode(Encode(i)) == Some(i)
  {
    hide Decode;
    match i
    case AluImm(op, rd, rs1, imm) => DecodeAluImm(op, rd, rs1, imm);
    case Alu(op, rd, rs1, rs2) => DecodeReg(op, rd, rs1, rs2);
    case Lui(rd, imm) => DecodeUpper(rd, imm);
    case Auipc(rd, imm) => DecodeUpper(rd, imm);
    case Load(width, rd, rs1, imm) => DecodeLoad(width, rd, rs1, imm);
    case Store(width, rs1, rs2, imm) => DecodeStore(width, rs1, rs2, imm);
    case Branch(cond, rs1, rs2, imm) => DecodeBranch(cond, rs1, rs2, imm);
    case Jal(rd, imm) => DecodeJal(rd, imm);
    case Jalr(rd, rs1, imm) => DecodeJalr(rd, rs1, imm);
    case ReadCycle(rd) => DecodeSystem(rd);
    case _ => DecodeSystem(0);
  }

  // ---------- every word ----------

  /** The fields of the register format and the immediates of the others as numbers with a sign, from the bits. */
  function Opcode(w: int): int {
    w % 0x80
  }

  function Rd(w: int): int {
    w / 0x80 % 0x20
  }

  function Funct3(w: int): int {
    w / 0x1000 % 8
  }

  function Rs1(w: int): int {
    w / 0x8000 % 0x20
  }

  function Rs2(w: int): int {
    w / 0x10_0000 % 0x20
  }

  function Funct7(w: int): int {
    w / 0x200_0000 % 0x80
  }

  function IDisp(w: int): int {
    w / 0x10_0000 % 0x800 - 0x800 * (w / 0x8000_0000 % 2)
  }

  function SDisp(w: int): int {
    w / 0x80 % 0x20 + 0x20 * (w / 0x200_0000 % 0x40) - 0x800 * (w / 0x8000_0000 % 2)
  }

  function BDisp(w: int): int {
    2 * (w / 0x100 % 0x10) + 0x20 * (w / 0x200_0000 % 0x40) + 0x800 * (w / 0x80 % 2) - 0x1000 * (w / 0x8000_0000 % 2)
  }

  function JDisp(w: int): int {
    2 * (w / 0x20_0000 % 0x400) + 0x800 * (w / 0x10_0000 % 2) + 0x1000 * (w / 0x1000 % 0x100)
    - 0x10_0000 * (w / 0x8000_0000 % 2)
  }

  lemma Fields(w: int)
    ensures Field(w, 0, 7) == Opcode(w) && Field(w, 7, 5) == Rd(w) && Field(w, 12, 3) == Funct3(w)
    ensures Field(w, 15, 5) == Rs1(w) && Field(w, 20, 5) == Rs2(w) && Field(w, 25, 7) == Funct7(w)
  {
    Powers();
    hide Pow2;
  }

  /** The sign bit counts negatively, whatever the other bits are. */
  lemma SignBit(low: int, sign: int, width: int, half: int)
    requires Pow2(width - 1) == half && Pow2(width) == 2 * half && 0 <= low < half && 0 <= sign < 2
    ensures Extend(low + half * sign, width) == (low - half * sign) % 0x1_0000_0000
  {
    hide Pow2;
  }

  lemma TopBits(w: int)
    ensures w / 0x10_0000 % 0x1000 == w / 0x10_0000 % 0x800 + 0x800 * (w / 0x8000_0000 % 2)
    ensures w / 0x200_0000 % 0x80 == w / 0x200_0000 % 0x40 + 0x40 * (w / 0x8000_0000 % 2)
  {
    var a, b := w / 0x10_0000, w / 0x200_0000;
    assert w / 0x8000_0000 == a / 0x800 && a / 0x1000 == a / 0x800 / 2;
    assert w / 0x8000_0000 == b / 0x40 && b / 0x80 == b / 0x40 / 2;
  }

  lemma IImmIs(w: int)
    ensures IImm(w) == IDisp(w) % 0x1_0000_0000
  {
    Powers();
    TopBits(w);
    SignBit(w / 0x10_0000 % 0x800, w / 0x8000_0000 % 2, 12, 0x800);
    hide Pow2, Extend;
  }

  lemma SImmIs(w: int)
    ensures SImm(w) == SDisp(w) % 0x1_0000_0000
  {
    Powers();
    TopBits(w);
    SignBit(w / 0x80 % 0x20 + 0x20 * (w / 0x200_0000 % 0x40), w / 0x8000_0000 % 2, 12, 0x800);
    hide Pow2, Extend;
  }

  lemma BImmDisp(w: int)
    ensures BImm(w) == BDisp(w) % 0x1_0000_0000
  {
    Powers();
    var low := 2 * (w / 0x100 % 0x10) + 0x20 * (w / 0x200_0000 % 0x40) + 0x800 * (w / 0x80 % 2);
    SignBit(low, w / 0x8000_0000 % 2, 13, 0x1000);
    hide Pow2, Extend;
  }

  lemma JImmDisp(w: int)
    ensures JImm(w) == JDisp(w) % 0x1_0000_0000
  {
    Powers();
    var low := 2 * (w / 0x20_0000 % 0x400) + 0x800 * (w / 0x10_0000 % 2) + 0x1000 * (w / 0x1000 % 0x100);
    SignBit(low, w / 0x8000_0000 % 2, 21, 0x10_0000);
    hide Pow2, Extend;
  }

  /** No ALU operation has these function codes. */
  predicate NoOperation(funct3: int, funct7: int) {
    forall op: AluOp :: AluFunct3(op) != funct3 || AluFunct7(op) != funct7
  }

  /** The words that the interpreter gives up on. A load or an ALU instruction with an unknown function code but without
      a destination is not one of them. */
  predicate Unknown(w: int) {
    || Opcode(w) !in {0x03, 0x0f, 0x13, 0x17, 0x23, 0x33, 0x37, 0x63, 0x67, 0x6f, 0x73}
    || (Opcode(w) == 0x03 && Rd(w) != 0 && (Funct3(w) == 3 || Funct3(w) == 6 || Funct3(w) == 7))
    || (Opcode(w) == 0x13 && Rd(w) != 0 && Funct3(w) == 5 && Funct7(w) != 0 && Funct7(w) != 0x20)
    || (Opcode(w) == 0x23 && Funct3(w) > 2)
    || (Opcode(w) == 0x33 && Rd(w) != 0 && NoOperation(Funct3(w), Funct7(w)))
    || (Opcode(w) == 0x63 && (Funct3(w) == 2 || Funct3(w) == 3))
  }

  lemma AluCodes(funct3: int, funct7: int)
    ensures DecodeAlu(funct3, funct7) == None <==> NoOperation(funct3, funct7)
    ensures forall op :: DecodeAlu(funct3, funct7) == Some(op) <==> AluFunct3(op) == funct3 && AluFunct7(op) == funct7
  {
    match DecodeAlu(funct3, funct7)
    case Some(op) => assert AluFunct3(op) == funct3 && AluFunct7(op) == funct7;
    case None =>
  }

  /** Exactly the unknown words are not decoded. */
  lemma DecodeNone(w: int)
    ensures Decode(w) == None <==> Unknown(w)
  {
    Fields(w);
    AluCodes(Funct3(w), Funct7(w));
    assert 0 <= Funct3(w) < 8;
    hide Field, DecodeAlu, NoOperation, Opcode, Rd, Funct3, Funct7, Rs1, Rs2, IImm, SImm, BImm, JImm;
  }

  // The instruction of a word, class by class, in the terms above.

  lemma BranchWord(w: int)
    requires Opcode(w) == 0x63
    ensures Funct3(w) == 2 || Funct3(w) == 3 ==> Decode(w) == None
    ensures Funct3(w) != 2 && Funct3(w) != 3 ==>
              exists cond :: BranchFunct3(cond) == Funct3(w)
                             && Decode(w) == Some(Branch(cond, Rs1(w), Rs2(w), BDisp(w) % 0x1_0000_0000))
  {
    Fields(w);
    BImmDisp(w);
    assert 0 <= Funct3(w) < 8;
    hide Field, BImm, BDisp, Opcode, Funct3, Rs1, Rs2, Rd, Funct7;
    assert BranchFunct3(Eq) == 0 && BranchFunct3(Ne) == 1 && BranchFunct3(Lt) == 4 && BranchFunct3(Ge) == 5;
    assert BranchFunct3(Ltu) == 6 && BranchFunct3(Geu) == 7;
  }

  lemma JumpWord(w: int)
    ensures Opcode(w) == 0x6f ==> Decode(w) == Some(Jal(Rd(w), JDisp(w) % 0x1_0000_0000))
    ensures Opcode(w) == 0x67 ==> Decode(w) == Some(Jalr(Rd(w), Rs1(w), IDisp(w) % 0x1_0000_0000))
  {
    Fields(w);
    JImmDisp(w);
    IImmIs(w);
    hide Field, IImm, JImm, IDisp, JDisp, Opcode, Funct3, Rs1, Rs2, Rd, Funct7;
  }

  lemma UpperWord(w: int)
    requires 0 <= w < 0x1_0000_0000
    ensures Opcode(w) == 0x37 ==> Decode(w) == Some(Lui(Rd(w), w / 0x1000 * 0x1000))
    ensures Opcode(w) == 0x17 ==> Decode(w) == Some(Auipc(Rd(w), w / 0x1000 * 0x1000))
  {
    Fields(w);
    HighFields(w);
    hide Field, Opcode, Funct3, Rs1, Rs2, Rd, Funct7;
  }

  lemma LoadWord(w: int)
    requires Opcode(w) == 0x03
    ensures Funct3(w) in {0, 1, 2, 4, 5} ==>
              exists width :: LoadFunct3(width) == Funct3(w)
                              && Decode(w) == Some(Load(width, Rd(w), Rs1(w), IDisp(w) % 0x1_0000_0000))
    ensures Funct3(w) !in {0, 1, 2, 4, 5} ==> Decode(w) == if Rd(w) == 0 then Some(Fence) else None
  {
    Fields(w);
    IImmIs(w);
    hide Field, IImm, IDisp, Opcode, Funct3, Rs1, Rs2, Rd, Funct7;
    assert LoadFunct3(Byte) == 0 && LoadFunct3(Half) == 1 && LoadFunct3(Full) == 2;
    assert LoadFunct3(ByteU) == 4 && LoadFunct3(HalfU) == 5;
  }

  lemma StoreWord(w: int)
    requires Opcode(w) == 0x23
    ensures Funct3(w) <= 2 ==>
              exists width :: width in {Byte, Half, Full} && LoadFunct3(width) == Funct3(w)
                              && Decode(w) == Some(Store(width, Rs1(w), Rs2(w), SDisp(w) % 0x1_0000_0000))
    ensures Funct3(w) > 2 ==> Decode(w) == None
  {
    Fields(w);
    SImmIs(w);
    assert 0 <= Funct3(w) < 8;
    hide Field, SImm, SDisp, Opcode, Funct3, Rs1, Rs2, Rd, Funct7;
    assert LoadFunct3(Byte) == 0 && LoadFunct3(Half) == 1 && LoadFunct3(Full) == 2;
  }

  lemma HighFields(w: int)
    requires 0 <= w < 0x1_0000_0000
    ensures Field(w, 7, 25) == w / 0x80 && Field(w, 12, 2) == w / 0x1000 % 4 && Field(w, 20, 12) == w / 0x10_0000
    ensures Field(w, 12, 20) == w / 0x1000
  {
    Powers();
    hide Pow2;
  }

  /** All system words but the one that stops the machine and the reads of the cycle counter have no effect. */
  lemma OtherWord(w: int)
    requires 0 <= w < 0x1_0000_0000
    ensures Opcode(w) == 0x0f ==> Decode(w) == Some(Fence)
    ensures Opcode(w) == 0x73 ==>
              Decode(w) == Some(if w == 0x73 then Monitor
                                else if w / 0x1000 % 4 == 2 && w / 0x10_0000 == 0xc00 then ReadCycle(Rd(w))
                                else OtherSystem)
  {
    Fields(w);
    HighFields(w);
    if Opcode(w) == 0x73 {
      SystemIs(w);
    } else if Opcode(w) == 0x0f {
      FenceIs(w);
    }
    assert w == 0x73 <==> Opcode(w) == 0x73 && w / 0x80 == 0;
    hide Field, Opcode, Rd, Decode;
  }

  /** Shifts by a constant take it from rs2, the left one whatever its function code is. */
  lemma AluImmWord(w: int)
    requires Opcode(w) == 0x13
    ensures Funct3(w) !in {1, 5} ==>
              exists op :: AluFunct3(op) == Funct3(w) && AluFunct7(op) == 0
                           && Decode(w) == Some(AluImm(op, Rd(w), Rs1(w), IDisp(w) % 0x1_0000_0000))
    ensures Funct3(w) == 1 ==> Decode(w) == Some(AluImm(Sll, Rd(w), Rs1(w), Rs2(w)))
    ensures Funct3(w) == 5 && Funct7(w) == 0 ==> Decode(w) == Some(AluImm(Srl, Rd(w), Rs1(w), Rs2(w)))
    ensures Funct3(w) == 5 && Funct7(w) == 0x20 ==> Decode(w) == Some(AluImm(Sra, Rd(w), Rs1(w), Rs2(w)))
    ensures Funct3(w) == 5 && Funct7(w) != 0 && Funct7(w) != 0x20 ==>
              if Rd(w) == 0 then Decode(w) == Some(AluImm(Add, 0, Rs1(w), Rs2(w))) else Decode(w) == None
  {
    Fields(w);
    IImmIs(w);
    assert 0 <= Funct3(w) < 8;
    hide Field, IImm, IDisp, Opcode, Funct3, Rs1, Rs2, Rd, Funct7;
    assert AluFunct3(Add) == 0 && AluFunct3(Slt) == 2 && AluFunct3(Sltu) == 3 && AluFunct3(Xor) == 4;
    assert AluFunct3(Or) == 6 && AluFunct3(And) == 7;
  }

  lemma AluWord(w: int)
    requires Opcode(w) == 0x33
    ensures forall op :: AluFunct3(op) == Funct3(w) && AluFunct7(op) == Funct7(w) ==>
                           Decode(w) == Some(Alu(op, Rd(w), Rs1(w), Rs2(w)))
    ensures NoOperation(Funct3(w), Funct7(w)) ==>
              if Rd(w) == 0 then Decode(w) == Some(Alu(Add, 0, Rs1(w), Rs2(w))) else Decode(w) == None
  {
    Fields(w);
    AluCodes(Funct3(w), Funct7(w));
    hide Field, DecodeAlu, NoOperation, Opcode, Funct3, Rs1, Rs2, Rd, Funct7;
  }
}
