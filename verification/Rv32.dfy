/** RV32IM as execRiscv interprets it: machine state, decoding, and one interpreter step.
    Words are the unsigned numbers below WORD; state_t::gpr holds the same bit patterns as signed ones. */
module Rv32 {
  const WORD: int := 0x1_0000_0000
  const DWORD: int := 0x1_0000_0000_0000_0000

  datatype Option<T> = None | Some(value: T)

  datatype State = State(pc: int, gpr: seq<int>, mem: map<int, int>, icnt: int, brk: bool)

  /** What every reachable state satisfies: 32 registers, words in range. */
  ghost predicate ValidState(s: State) {
    && |s.gpr| == 32
    && 0 <= s.pc < WORD
    && forall r :: 0 <= r < 32 ==> 0 <= s.gpr[r] < WORD
  }

  // ---------- word arithmetic ----------

  function Wrap(x: int): int {
    x % WORD
  }

  /** The signed reading of a word. */
  function Signed(x: int): int {
    if x < 0x8000_0000 then x else x - WORD
  }

  function Pow2(k: int): int
    decreases if k < 0 then 0 else k
  {
    if k <= 0 then 1 else 2 * Pow2(k - 1)
  }

  /** Bitwise operations on n-bit numbers, bit by bit. */
  function AndN(a: int, b: int, n: nat): int
    decreases n
  {
    if n == 0 then 0 else (if a % 2 == 1 && b % 2 == 1 then 1 else 0) + 2 * AndN(a / 2, b / 2, n - 1)
  }

  function OrN(a: int, b: int, n: nat): int
    decreases n
  {
    if n == 0 then 0 else (if a % 2 == 1 || b % 2 == 1 then 1 else 0) + 2 * OrN(a / 2, b / 2, n - 1)
  }

  function XorN(a: int, b: int, n: nat): int
    decreases n
  {
    if n == 0 then 0 else (if a % 2 != b % 2 then 1 else 0) + 2 * XorN(a / 2, b / 2, n - 1)
  }

  function And32(a: int, b: int): int {
    AndN(a, b, 32)
  }

  function Or32(a: int, b: int): int {
    OrN(a, b, 32)
  }

  function Xor32(a: int, b: int): int {
    XorN(a, b, 32)
  }

  function Shl32(a: int, k: int): int {
    Wrap(a * Pow2(k))
  }

  /** Division rounding toward minus infinity, by a positive divisor. */
  function FloorDiv(a: int, d: int): int
    requires d > 0
  {
    a / d
  }

  lemma Pow2Positive(k: int)
    ensures Pow2(k) > 0
  {
  }

  function Lshr32(a: int, k: int): int {
    Pow2Positive(k);
    FloorDiv(a, Pow2(k))
  }

  function Ashr32(a: int, k: int): int {
    Pow2Positive(k);
    Wrap(FloorDiv(Signed(a), Pow2(k)))
  }

  /** The quotient rounded toward zero, as C and LLVM divide. */
  function TruncDiv(a: int, b: int): int
    requires b != 0
  {
    if a >= 0 then (if b > 0 then a / b else -(a / -b))
    else (if b > 0 then -(-a / b) else -a / -b)
  }

  function TruncRem(a: int, b: int): int
    requires b != 0
  {
    a - b * TruncDiv(a, b)
  }

  // ---------- instructions ----------

  datatype AluOp = Add | Sub | Sll | Slt | Sltu | Xor | Srl | Sra | Or | And
                 | Mul | Mulh | Mulhu | Div | Divu | Rem | Remu

  datatype Cond = Eq | Ne | Lt | Ge | Ltu | Geu

  datatype Width = Byte | Half | Full | ByteU | HalfU

  datatype Insn =
    | AluImm(op: AluOp, rd: int, rs1: int, imm: int)
    | Alu(op: AluOp, rd: int, rs1: int, rs2: int)
    | Lui(rd: int, imm: int)
    | Auipc(rd: int, imm: int)
    | Load(width: Width, rd: int, rs1: int, imm: int)
    | Store(width: Width, rs1: int, rs2: int, imm: int)
    | Branch(cond: Cond, rs1: int, rs2: int, imm: int)
    | Jal(rd: int, imm: int)
    | Jalr(rd: int, rs1: int, imm: int)
    | Fence
    | Monitor
    | ReadCycle(rd: int)
    | OtherSystem

  // ---------- decoding ----------

  /** width bits of w from bit lo on. */
  function Field(w: int, lo: int, width: int): int {
    Pow2Positive(lo);
    Pow2Positive(width);
    (w / Pow2(lo)) % Pow2(width)
  }

  /** Sign-extends a number of the given width to a word. */
  function Extend(x: int, width: int): int {
    if x < Pow2(width - 1) then Wrap(x) else Wrap(x - Pow2(width))
  }

  function IImm(w: int): int {
    Extend(Field(w, 20, 12), 12)
  }

  function SImm(w: int): int {
    Extend(Field(w, 7, 5) + 32 * Field(w, 25, 7), 12)
  }

  function BImm(w: int): int {
    Extend(2 * Field(w, 8, 4) + 32 * Field(w, 25, 6) + 2048 * Field(w, 7, 1) + 4096 * Field(w, 31, 1), 13)
  }

  function JImm(w: int): int {
    Extend(2 * Field(w, 21, 10) + 2048 * Field(w, 20, 1) + 4096 * Field(w, 12, 8) + 0x10_0000 * Field(w, 31, 1), 21)
  }

  /** None where execRiscv gives up: assert(0) or exit. An instruction with destination x0 goes on whatever its other
      fields are. */
  function Decode(w: int): Option<Insn> {
    var opcode, rd, sel, rs1, rs2, special :=
      Field(w, 0, 7), Field(w, 7, 5), Field(w, 12, 3), Field(w, 15, 5), Field(w, 20, 5), Field(w, 25, 7);
    match opcode
    case 0x03 =>
      if sel == 0 then Some(Load(Byte, rd, rs1, IImm(w)))
      else if sel == 1 then Some(Load(Half, rd, rs1, IImm(w)))
      else if sel == 2 then Some(Load(Full, rd, rs1, IImm(w)))
      else if sel == 4 then Some(Load(ByteU, rd, rs1, IImm(w)))
      else if sel == 5 then Some(Load(HalfU, rd, rs1, IImm(w)))
      else if rd == 0 then Some(Fence)
      else None
    case 0x0f => Some(Fence)
    case 0x13 =>
      if sel == 0 then Some(AluImm(Add, rd, rs1, IImm(w)))
      else if sel == 1 then Some(AluImm(Sll, rd, rs1, rs2))
      else if sel == 2 then Some(AluImm(Slt, rd, rs1, IImm(w)))
      else if sel == 3 then Some(AluImm(Sltu, rd, rs1, IImm(w)))
      else if sel == 4 then Some(AluImm(Xor, rd, rs1, IImm(w)))
      else if sel == 5 then
        (if special == 0 then Some(AluImm(Srl, rd, rs1, rs2))
         else if special == 0x20 then Some(AluImm(Sra, rd, rs1, rs2))
         else if rd == 0 then Some(AluImm(Add, rd, rs1, rs2))
         else None)
      else if sel == 6 then Some(AluImm(Or, rd, rs1, IImm(w)))
      else Some(AluImm(And, rd, rs1, IImm(w)))
    case 0x23 =>
      if sel == 0 then Some(Store(Byte, rs1, rs2, SImm(w)))
      else if sel == 1 then Some(Store(Half, rs1, rs2, SImm(w)))
      else if sel == 2 then Some(Store(Full, rs1, rs2, SImm(w)))
      else None
    case 0x37 => Some(Lui(rd, 4096 * Field(w, 12, 20)))
    case 0x17 => Some(Auipc(rd, 4096 * Field(w, 12, 20)))
    case 0x67 => Some(Jalr(rd, rs1, IImm(w)))
    case 0x6f => Some(Jal(rd, JImm(w)))
    case 0x33 =>
      (match DecodeAlu(sel, special)
       case Some(op) => Some(Alu(op, rd, rs1, rs2))
       case None => if rd == 0 then Some(Alu(Add, rd, rs1, rs2)) else None)
    case 0x63 =>
      if sel == 0 then Some(Branch(Eq, rs1, rs2, BImm(w)))
      else if sel == 1 then Some(Branch(Ne, rs1, rs2, BImm(w)))
      else if sel == 4 then Some(Branch(Lt, rs1, rs2, BImm(w)))
      else if sel == 5 then Some(Branch(Ge, rs1, rs2, BImm(w)))
      else if sel == 6 then Some(Branch(Ltu, rs1, rs2, BImm(w)))
      else if sel == 7 then Some(Branch(Geu, rs1, rs2, BImm(w)))
      else None
    case 0x73 =>
      if Field(w, 7, 25) == 0 then Some(Monitor)
      else if Field(w, 12, 2) == 2 && Field(w, 20, 12) == 0xc00 then Some(ReadCycle(rd))
      else Some(OtherSystem)
    case _ => None
  }

  function DecodeAlu(sel: int, special: int): Option<AluOp> {
    match (sel, special)
    case (0, 0) => Some(Add)
    case (0, 1) => Some(Mul)
    case (0, 0x20) => Some(Sub)
    case (1, 0) => Some(Sll)
    case (1, 1) => Some(Mulh)
    case (2, 0) => Some(Slt)
    case (3, 0) => Some(Sltu)
    case (3, 1) => Some(Mulhu)
    case (4, 0) => Some(Xor)
    case (4, 1) => Some(Div)
    case (5, 0) => Some(Srl)
    case (5, 1) => Some(Divu)
    case (5, 0x20) => Some(Sra)
    case (6, 0) => Some(Or)
    case (6, 1) => Some(Rem)
    case (7, 0) => Some(And)
    case (7, 1) => Some(Remu)
    case _ => None
  }

  // ---------- memory ----------

  function Byte1(m: map<int, int>, a: int): int {
    if a in m then m[a] % 256 else 0
  }

  /** The little-endian number in the n bytes from a on. */
  function ReadN(m: map<int, int>, a: int, n: nat): int
    decreases n
  {
    if n == 0 then 0 else Byte1(m, a) + 256 * ReadN(m, a + 1, n - 1)
  }

  function WriteN(m: map<int, int>, a: int, n: nat, x: int): map<int, int>
    decreases n
  {
    if n == 0 then m else WriteN(m[a := x % 256], a + 1, n - 1, x / 256)
  }

  function LoadFrom(m: map<int, int>, width: Width, a: int): int {
    match width
    case Byte => Extend(ReadN(m, a, 1), 8)
    case Half => Extend(ReadN(m, a, 2), 16)
    case Full => ReadN(m, a, 4)
    case ByteU => ReadN(m, a, 1)
    case HalfU => ReadN(m, a, 2)
  }

  function StoreTo(m: map<int, int>, width: Width, a: int, x: int): map<int, int> {
    match width
    case Byte => WriteN(m, a, 1, x)
    case ByteU => WriteN(m, a, 1, x)
    case Half => WriteN(m, a, 2, x)
    case HalfU => WriteN(m, a, 2, x)
    case Full => WriteN(m, a, 4, x)
  }

  // ---------- execution ----------

  function Flag(b: bool): int {
    if b then 1 else 0
  }

  /** The result of an ALU instruction; None where the interpreter aborts or C++ leaves the result undefined:
      a zero divisor, and the most negative number divided by -1. */
  function Compute(op: AluOp, a: int, b: int): Option<int> {
    match op
    case Add => Some(Wrap(a + b))
    case Sub => Some(Wrap(a - b))
    case Sll => Some(Shl32(a, b % 32))
    case Slt => Some(Flag(Signed(a) < Signed(b)))
    case Sltu => Some(Flag(a < b))
    case Xor => Some(Xor32(a, b))
    case Srl => Some(Lshr32(a, b % 32))
    case Sra => Some(Ashr32(a, b % 32))
    case Or => Some(Or32(a, b))
    case And => Some(And32(a, b))
    case Mul => Some(Wrap(a * b))
    case Mulh => Some(Wrap(FloorDiv(Signed(a) * Signed(b), WORD)))
    case Mulhu => Some(Wrap(FloorDiv(a * b, WORD)))
    case Div => if Signed(b) == 0 || (a == 0x8000_0000 && b == WORD - 1) then None
      else Some(Wrap(TruncDiv(Signed(a), Signed(b))))
    case Divu => if b == 0 then None else Some(Wrap(TruncDiv(a, b)))
    case Rem => if Signed(b) == 0 || (a == 0x8000_0000 && b == WORD - 1) then None
      else Some(Wrap(TruncRem(Signed(a), Signed(b))))
    case Remu => if b == 0 then None else Some(Wrap(TruncRem(a, b)))
  }

  function Taken(c: Cond, a: int, b: int): bool {
    match c
    case Eq => a == b
    case Ne => a != b
    case Lt => Signed(a) < Signed(b)
    case Ge => Signed(a) >= Signed(b)
    case Ltu => a < b
    case Geu => a >= b
  }

  function Reg(s: State, r: int): int {
    if 0 <= r < |s.gpr| then s.gpr[r] else 0
  }

  /** Writes to x0 are dropped. */
  function SetReg(s: State, r: int, x: int): State {
    if 0 < r < |s.gpr| then s.(gpr := s.gpr[r := x]) else s
  }

  function Advance(s: State): State {
    s.(pc := Wrap(s.pc + 4))
  }

  function JalrTarget(base: int, imm: int): int {
    var t := Wrap(base + imm);
    t - t % 2
  }

  /** One decoded instruction; icnt is advanced by Interpret. */
  function Exec(i: Insn, s: State): Option<State> {
    match i
    case AluImm(op, rd, rs1, imm) =>
      if rd == 0 then Some(Advance(s))
      else (match Compute(op, Reg(s, rs1), imm) case Some(x) => Some(Advance(SetReg(s, rd, x))) case None => None)
    case Alu(op, rd, rs1, rs2) =>
      if rd == 0 then Some(Advance(s))
      else (match Compute(op, Reg(s, rs1), Reg(s, rs2))
            case Some(x) => Some(Advance(SetReg(s, rd, x)))
            case None => None)
    case Lui(rd, imm) => Some(Advance(SetReg(s, rd, imm)))
    case Auipc(rd, imm) => Some(Advance(SetReg(s, rd, Wrap(s.pc + imm))))
    case Load(width, rd, rs1, imm) => Some(Advance(SetReg(s, rd, LoadFrom(s.mem, width, Wrap(Reg(s, rs1) + imm)))))
    case Store(width, rs1, rs2, imm) =>
      Some(Advance(s.(mem := StoreTo(s.mem, width, Wrap(Reg(s, rs1) + imm), Reg(s, rs2)))))
    case Branch(cond, rs1, rs2, imm) =>
      Some(s.(pc := if Taken(cond, Reg(s, rs1), Reg(s, rs2)) then Wrap(s.pc + imm) else Wrap(s.pc + 4)))
    case Jal(rd, imm) => Some(SetReg(s, rd, Wrap(s.pc + 4)).(pc := Wrap(s.pc + imm)))
    case Jalr(rd, rs1, imm) => Some(SetReg(s, rd, Wrap(s.pc + 4)).(pc := JalrTarget(Reg(s, rs1), imm)))
    case Fence => Some(Advance(s))
    case Monitor => Some(s.(brk := true))
    case ReadCycle(rd) =>
      // the cycle counter is written without the test for x0 that every other instruction makes
      if 0 <= rd < |s.gpr| then Some(Advance(s.(gpr := s.gpr[rd := Wrap(s.icnt)]))) else Some(Advance(s))
    case OtherSystem => Some(Advance(s))
  }

  function Fetch(s: State): Option<Insn> {
    Decode(ReadN(s.mem, s.pc, 4))
  }

  /** execRiscv without the host-call poll. */
  function Interpret(s: State): Option<State> {
    match Fetch(s)
    case None => None
    case Some(i) =>
      match Exec(i, s)
      case None => None
      case Some(t) => Some(t.(icnt := (s.icnt + 1) % DWORD))
  }

  /** n steps of the interpreter. */
  function InterpretN(s: State, n: nat): Option<State> {
    if n == 0 then Some(s)
    else match InterpretN(s, n - 1)
      case None => None
      case Some(t) => Interpret(t)
  }

  /** recUses: the registers an instruction reads. */
  predicate Reads(i: Insn, r: int) {
    match i
    case AluImm(_, _, rs1, _) => r == rs1
    case Alu(_, _, rs1, rs2) => r == rs1 || r == rs2
    case Load(_, _, rs1, _) => r == rs1
    case Store(_, rs1, rs2, _) => r == rs1 || r == rs2
    case Branch(_, rs1, rs2, _) => r == rs1 || r == rs2
    case Jalr(_, rs1, _) => r == rs1
    case _ => false
  }

  /** recDefines: the register an instruction writes. None for instructions without a destination, among them jumps that
      link to x0. */
  function Defines(i: Insn): Option<int> {
    match i
    case AluImm(_, rd, _, _) => Some(rd)
    case Alu(_, rd, _, _) => Some(rd)
    case Lui(rd, _) => Some(rd)
    case Auipc(rd, _) => Some(rd)
    case Load(_, rd, _, _) => Some(rd)
    case Jal(rd, _) => if rd == 0 then None else Some(rd)
    case Jalr(rd, _, _) => if rd == 0 then None else Some(rd)
    case ReadCycle(rd) => Some(rd)
    case _ => None
  }

  /** isBranchOrJump. */
  predicate IsControl(i: Insn) {
    i.Branch? || i.Jal? || i.Jalr?
  }

  /** Where control can go from the instruction i at pc. */
  predicate GoesTo(i: Insn, pc: int, next: int) {
    match i
    case Branch(_, _, _, imm) => next == Wrap(pc + imm) || next == Wrap(pc + 4)
    case Jal(_, imm) => next == Wrap(pc + imm)
    case Jalr(_, _, _) => true
    case Monitor => next == pc
    case _ => next == Wrap(pc + 4)
  }

  /** x0 keeps its value through every step except a read of the cycle counter into x0. */
  lemma X0Constant(s: State, t: State)
    requires |s.gpr| == 32 && Interpret(s) == Some(t)
    ensures |t.gpr| == 32
    ensures Fetch(s) != Some(ReadCycle(0)) ==> t.gpr[0] == s.gpr[0]
    ensures Fetch(s) == Some(ReadCycle(0)) ==> t.gpr[0] == Wrap(s.icnt)
  {
    hide Decode, ReadN, Compute, WriteN;
  }
}
