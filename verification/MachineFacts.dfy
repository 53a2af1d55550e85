/** Facts about the interpreter that the refinement needs: words stay words, and runs compose. */
module MachineFacts {
  import opened Rv32
  import opened SsaIr
  import opened SsaForm

  lemma {:induction false} BitwiseRange(a: int, b: int, n: nat)
    ensures 0 <= AndN(a, b, n) < Pow2(n) && 0 <= OrN(a, b, n) < Pow2(n) && 0 <= XorN(a, b, n) < Pow2(n)
    decreases n
  {
    if n > 0 {
      BitwiseRange(a / 2, b / 2, n - 1);
    }
  }

  lemma Pow32()
    ensures Pow2(32) == WORD
  {
    assert Pow2(8) == 256;
    assert Pow2(16) == 65536 by {
      assert Pow2(10) == 4 * Pow2(8) && Pow2(12) == 4 * Pow2(10) && Pow2(14) == 4 * Pow2(12)
        && Pow2(16) == 4 * Pow2(14);
    }
    assert Pow2(18) == 4 * Pow2(16) && Pow2(20) == 4 * Pow2(18) && Pow2(22) == 4 * Pow2(20) && Pow2(24) == 4 * Pow2(22);
    assert Pow2(26) == 4 * Pow2(24) && Pow2(28) == 4 * Pow2(26) && Pow2(30) == 4 * Pow2(28) && Pow2(32) == 4 * Pow2(30);
  }

  /** Dividing by a positive number does not grow a number. */
  lemma QuotientRange(a: int, p: int)
    requires 0 <= a && p > 0
    ensures 0 <= a / p <= a
  {
    var q := a / p;
    assert a == q * p + a % p;
    if q > 0 {
      MulAtLeast(p, q);
      assert p * q == q * p;
    }
    if q < 0 {
      MulAtLeast(-q, p);
    }
  }

  lemma LshrRange(a: int, k: int)
    requires 0 <= a < WORD
    ensures 0 <= Lshr32(a, k) < WORD
  {
    hide Pow2;
    Pow2Positive(k);
    QuotientRange(a, Pow2(k));
  }

  /** Every ALU result is a word. */
  lemma ComputeRange(op: AluOp, a: int, b: int)
    requires 0 <= a < WORD && 0 <= b < WORD && Compute(op, a, b).Some?
    ensures 0 <= Compute(op, a, b).value < WORD
  {
    Pow32();
    BitwiseRange(a, b, 32);
    if op == Srl {
      LshrRange(a, b % 32);
    }
    hide AndN, OrN, XorN, Pow2, Lshr32, TruncDiv, TruncRem;
  }

  lemma {:induction false} ReadRange(m: map<int, int>, a: int, n: nat)
    ensures 0 <= ReadN(m, a, n) < Pow2(8 * n)
    decreases n
  {
    if n > 0 {
      ReadRange(m, a + 1, n - 1);
      assert Pow2(8 * n) == 256 * Pow2(8 * n - 8) by {
        assert Pow2(8 * n) == 4 * Pow2(8 * n - 2) && Pow2(8 * n - 2) == 4 * Pow2(8 * n - 4);
        assert Pow2(8 * n - 4) == 4 * Pow2(8 * n - 6) && Pow2(8 * n - 6) == 4 * Pow2(8 * n - 8);
      }
    }
  }

  lemma LoadRange(m: map<int, int>, width: Width, a: int)
    ensures 0 <= LoadFrom(m, width, a) < WORD
  {
    ReadRange(m, a, 1);
    ReadRange(m, a, 2);
    ReadRange(m, a, 4);
    Pow32();
    assert Pow2(8) == 256 && Pow2(16) == 65536 by {
      assert Pow2(10) == 4 * Pow2(8) && Pow2(12) == 4 * Pow2(10) && Pow2(14) == 4 * Pow2(12)
        && Pow2(16) == 4 * Pow2(14);
    }
    hide ReadN, Pow2;
  }

  /** A translatable instruction keeps the state valid, and leaves brk and, except at its destination, the registers
      alone. */
  lemma ExecKeeps(i: Insn, s: State, t: State)
    requires ValidState(s) && Translatable(i) && Exec(i, s) == Some(t)
    ensures ValidState(t) && t.brk == s.brk && t.icnt == s.icnt
    ensures forall r :: 0 <= r < 32 && Defines(i) != Some(r) ==> t.gpr[r] == s.gpr[r]
    ensures !IsControl(i) ==> t.pc == Wrap(s.pc + 4)
  {
    hide Compute, LoadFrom, StoreTo;
    match i
    case AluImm(op, rd, rs1, imm) => ComputeRange(op, Reg(s, rs1), imm);
    case Alu(op, rd, rs1, rs2) => ComputeRange(op, Reg(s, rs1), Reg(s, rs2));
    case Load(width, rd, rs1, imm) => LoadRange(s.mem, width, Wrap(Reg(s, rs1) + imm));
    case _ =>
  }

  // ---------- every step of the interpreter ----------

  lemma FieldRange(w: int, lo: int, width: int)
    requires width >= 0
    ensures 0 <= Field(w, lo, width) < Pow2(width)
  {
    hide Pow2;
    Pow2Positive(width);
  }

  lemma ExtendRange(x: int, width: int)
    ensures 0 <= Extend(x, width) < WORD
  {
    hide Pow2;
  }

  /** What Decode can return: registers, words, and shift amounts. */
  ghost predicate InRange(i: Insn) {
    match i
    case AluImm(_, rd, rs1, imm) => 0 <= rd < 32 && 0 <= imm < WORD
    case Alu(_, rd, rs1, rs2) => 0 <= rd < 32
    case Lui(rd, imm) => 0 <= rd < 32 && 0 <= imm < WORD
    case Load(_, rd, _, _) => 0 <= rd < 32
    case _ => true
  }

  lemma DecodeInRange(w: int)
    requires 0 <= w < WORD && Decode(w).Some?
    ensures InRange(Decode(w).value)
  {
    FieldRange(w, 7, 5);
    FieldRange(w, 20, 5);
    assert Pow2(5) == 32;
    ExtendRange(Field(w, 20, 12), 12);
    hide Field, Extend, Pow2, DecodeAlu;
  }

  /** The states of a run stay valid: no step but a cycle-counter read writes x0. */
  lemma InterpretKeeps(s: State, t: State)
    requires ValidState(s) && s.gpr[0] == 0 && Interpret(s) == Some(t) && Fetch(s) != Some(ReadCycle(0))
    ensures ValidState(t) && t.gpr[0] == 0
  {
    hide Decode, ReadN, ValidState, Exec, InRange, Pow2;
    ReadRange(s.mem, s.pc, 4);
    Pow32();
    var i := Fetch(s).value;
    DecodeInRange(ReadN(s.mem, s.pc, 4));
    ExecStaysValid(i, s, Exec(i, s).value);
    SameRegisters(Exec(i, s).value, t);
  }

  lemma SameRegisters(s: State, t: State)
    requires ValidState(s) && t.pc == s.pc && t.gpr == s.gpr
    ensures ValidState(t)
  {
  }

  lemma ExecStaysValid(i: Insn, s: State, t: State)
    requires ValidState(s) && s.gpr[0] == 0 && InRange(i) && Exec(i, s) == Some(t) && i != ReadCycle(0)
    ensures ValidState(t) && t.gpr[0] == 0
  {
    hide Compute, LoadFrom, StoreTo;
    match i
    case AluImm(op, rd, rs1, imm) => if rd != 0 { ComputeRange(op, Reg(s, rs1), imm); }
    case Alu(op, rd, rs1, rs2) => if rd != 0 { ComputeRange(op, Reg(s, rs1), Reg(s, rs2)); }
    case Load(width, rd, rs1, imm) => LoadRange(s.mem, width, Wrap(Reg(s, rs1) + imm));
    case _ =>
  }

  lemma {:induction false} RunsCompose(s: State, m: nat, n: nat)
    ensures InterpretN(s, m + n) == match InterpretN(s, m) case None => None case Some(t) => InterpretN(t, n)
    decreases n
  {
    hide Interpret;
    if n > 0 {
      RunsCompose(s, m, n - 1);
      assert m + n - 1 == m + (n - 1);
    }
  }

  lemma AndStep(a: int, b: int, n: nat)
    requires n > 0
    ensures AndN(a, b, n) == (if a % 2 == 1 && b % 2 == 1 then 1 else 0) + 2 * AndN(a / 2, b / 2, n - 1)
  {
  }

  lemma Pow2Step(n: nat)
    requires n > 0
    ensures Pow2(n) == 2 * Pow2(n - 1) && Pow2(n) > 0 && Pow2(n - 1) > 0
  {
    Pow2Positive(n);
    Pow2Positive(n - 1);
  }

  /** Masking with n ones is the remainder modulo the n-th power of two. */
  lemma {:induction false} AndOnes(x: int, n: nat)
    requires 0 <= x
    ensures Pow2(n) > 0 && AndN(x, Pow2(n) - 1, n) == x % Pow2(n)
    decreases n
  {
    if n > 0 {
      Pow2Step(n);
      AndStep(x, Pow2(n) - 1, n);
      AndOnes(x / 2, n - 1);
      hide AndN, Pow2;
      ModDouble(x, Pow2(n - 1));
      assert (Pow2(n) - 1) / 2 == Pow2(n - 1) - 1 && (Pow2(n) - 1) % 2 == 1;
    }
  }

  lemma AndEven(x: int)
    requires 0 <= x < WORD
    ensures AndN(x, WORD - 2, 32) == x - x % 2
  {
    hide AndN, Pow2;
    Pow32();
    AndOnes(x / 2, 31);
    Pow2Step(32);
    AndStep(x, WORD - 2, 32);
    assert (WORD - 2) / 2 == Pow2(31) - 1;
    ModUnique(x / 2, 0, x / 2, Pow2(31));
  }

  /** Masking with ~1 clears the lowest bit. */
  lemma MaskEven(x: int)
    requires 0 <= x < WORD
    ensures And32(x, WORD - 2) == x - x % 2
  {
    AndEven(x);
  }
}
