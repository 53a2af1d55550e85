/** What the ALU computes, in plain arithmetic: a relation between the operands and the result for every operation,
    which fixes the result, and the steps of the interpreter that compute it. */
module AluLaws {
  import opened Rv32
  import opened Encoding
  import opened StepLaws
  import MachineFacts

  predicate IsWord(x: int) {
    0 <= x < 0x1_0000_0000
  }

  predicate Bit(x: int, k: int) {
    Pow2Positive(k);
    x / Pow2(k) % 2 == 1
  }

  /** x and y differ by a multiple of the word size. */
  predicate Same(x: int, y: int) {
    (x - y) % 0x1_0000_0000 == 0
  }

  /** q is the quotient of a and b without a fraction: the remainder is shorter than b and has the sign of a. */
  predicate Quotients(a: int, b: int, q: int, r: int) {
    && a == b * q + r
    && -Size(b) < r < Size(b)
    && (a >= 0 ==> r >= 0) && (a <= 0 ==> r <= 0)
  }

  function Size(x: int): int {
    if x < 0 then -x else x
  }

  /** x is a / d rounded down. */
  predicate Floor(a: int, d: int, x: int) {
    d * x <= a < d * x + d
  }

  /** The operations that have no result. */
  predicate Undefined(op: AluOp, a: int, b: int) {
    || (op in {Div, Divu, Rem, Remu} && b == 0)
    || (op in {Div, Rem} && Value(a) == -0x8000_0000 && Value(b) == -1)
  }

  /** The word x is the result of the operation on the words a and b. */
  ghost predicate Result(op: AluOp, a: int, b: int, x: int) {
    match op
    case Add => Same(x, a + b)
    case Sub => Same(x, a - b)
    case Mul => Same(x, a * b)
    case Slt => x == if Value(a) < Value(b) then 1 else 0
    case Sltu => x == if a < b then 1 else 0
    case And => forall k :: 0 <= k < 32 ==> (Bit(x, k) <==> Bit(a, k) && Bit(b, k))
    case Or => forall k :: 0 <= k < 32 ==> (Bit(x, k) <==> Bit(a, k) || Bit(b, k))
    case Xor => forall k :: 0 <= k < 32 ==> (Bit(x, k) <==> Bit(a, k) != Bit(b, k))
    case Sll => Same(x, a * Pow2(b % 0x20))
    case Srl => Floor(a, Pow2(b % 0x20), x)
    case Sra => Floor(Value(a), Pow2(b % 0x20), Value(x))
    case Mulh => Floor(Value(a) * Value(b), 0x1_0000_0000, Value(x))
    case Mulhu => Floor(a * b, 0x1_0000_0000, x)
    case Div => exists r :: Quotients(Value(a), Value(b), Value(x), r)
    case Rem => exists q :: Quotients(Value(a), Value(b), q, Value(x))
    case Divu => exists r :: Quotients(a, b, x, r)
    case Remu => exists q :: Quotients(a, b, q, x)
  }

  // ---------- bits ----------

  lemma Halving(x: int, p: int)
    requires p > 0
    ensures x / (2 * p) == x / 2 / p
  {
    var q, r := x / (2 * p), x % (2 * p);
    assert x == r + 2 * (p * q);
    Quotient(r / 2, p, q);
  }

  /** The bits of a number: the lowest one, and those of its half. */
  lemma BitHalf(x: int, k: int)
    ensures Bit(x, 0) <==> x % 2 == 1
    ensures k > 0 ==> (Bit(x, k) <==> Bit(x / 2, k - 1))
  {
    if k > 0 {
      Pow2Positive(k - 1);
      Halving(x, Pow2(k - 1));
    }
  }

  /** Bit k of the three operations is that of the operands' bits. */
  predicate BitsAt(a: int, b: int, n: nat, k: int) {
    && (Bit(AndN(a, b, n), k) <==> Bit(a, k) && Bit(b, k))
    && (Bit(OrN(a, b, n), k) <==> Bit(a, k) || Bit(b, k))
    && (Bit(XorN(a, b, n), k) <==> Bit(a, k) != Bit(b, k))
  }

  lemma {:induction false} BitByBit(a: int, b: int, n: nat, k: int)
    requires 0 <= k < n
    ensures BitsAt(a, b, n, k)
    decreases n
  {
    BitHalf(a, k);
    BitHalf(b, k);
    BitHalf(AndN(a, b, n), k);
    BitHalf(OrN(a, b, n), k);
    BitHalf(XorN(a, b, n), k);
    if k > 0 {
      BitByBit(a / 2, b / 2, n - 1, k - 1);
    }
    hide Bit;
    if k > 0 {
      HalfOps(a, b, n);
    }
  }

  lemma HalfOps(a: int, b: int, n: nat)
    requires n > 0
    ensures AndN(a, b, n) / 2 == AndN(a / 2, b / 2, n - 1) && OrN(a, b, n) / 2 == OrN(a / 2, b / 2, n - 1)
    ensures XorN(a, b, n) / 2 == XorN(a / 2, b / 2, n - 1)
  {
  }

  /** Two numbers of n bits with the same bits are equal. */
  lemma {:induction false} SameBits(x: int, y: int, n: nat)
    requires 0 <= x < Pow2(n) && 0 <= y < Pow2(n)
    requires forall k :: 0 <= k < n ==> (Bit(x, k) <==> Bit(y, k))
    ensures x == y
    decreases n
  {
    if n > 0 {
      forall k | 0 <= k < n - 1 ensures Bit(x / 2, k) <==> Bit(y / 2, k) {
        BitHalf(x, k + 1);
        BitHalf(y, k + 1);
        assert Bit(x, k + 1) <==> Bit(y, k + 1);
      }
      SameBits(x / 2, y / 2, n - 1);
      BitHalf(x, 0);
      BitHalf(y, 0);
      assert Bit(x, 0) <==> Bit(y, 0);
    }
  }

  // ---------- division ----------

  /** Rounding toward zero leaves a remainder with the sign of the dividend. */
  lemma Truncates(a: int, b: int)
    requires b != 0
    ensures Quotients(a, b, TruncDiv(a, b), TruncRem(a, b))
  {
    var m, d := Size(a), Size(b);
    var q, r := m / d, m % d;
    assert m == d * q + r;
    Signs(d, q);
    Rounded(a, b);
    hide TruncDiv;
  }

  lemma Rounded(a: int, b: int)
    requires b != 0
    ensures TruncDiv(a, b) == if (a >= 0) == (b > 0) then Size(a) / Size(b) else -(Size(a) / Size(b))
  {
  }

  lemma Signs(d: int, q: int)
    ensures d * -q == -(d * q) && -d * q == -(d * q) && -d * -q == d * q
  {
  }

  /** There is one quotient and one remainder. */
  lemma OneQuotient(a: int, b: int, q: int, r: int, p: int, t: int)
    requires b != 0 && Quotients(a, b, q, r) && Quotients(a, b, p, t)
    ensures q == p && r == t
  {
    assert b * (q - p) == t - r;
    Signs(b, q - p);
    Below(Size(b), if b > 0 then q - p else p - q);
  }

  lemma OneFloor(a: int, d: int, x: int, y: int)
    requires d > 0 && Floor(a, d, x) && Floor(a, d, y)
    ensures x == y
  {
    assert d * (x - y) == d * x - d * y;
    Below(d, x - y);
  }

  lemma IsFloor(a: int, d: int)
    requires d > 0
    ensures Floor(a, d, a / d)
  {
    assert a == d * (a / d) + a % d;
  }

  // ---------- the result of every operation ----------

  /** A number between the bounds of a signed word is the value of its word. */
  lemma ValueOfWrap(x: int)
    ensures -0x8000_0000 <= x < 0x8000_0000 ==> Value(x % 0x1_0000_0000) == x
    ensures IsWord(x) ==> -0x8000_0000 <= Value(x) < 0x8000_0000 && Value(x) % 0x1_0000_0000 == x
  {
  }

  lemma OneValue(x: int, y: int)
    requires IsWord(x) && IsWord(y) && Value(x) == Value(y)
    ensures x == y
  {
  }

  /** Rounding down a / p leaves the sign of a, and does not grow a number. */
  lemma FloorNear(a: int, p: int, q: int)
    requires p > 0 && Floor(a, p, q)
    ensures a >= 0 ==> 0 <= q <= a
    ensures a < 0 ==> a <= q < 0
  {
    if q >= 0 {
      Grows(p, q);
    } else {
      var n := -1 - q;
      Grows(p, n);
      assert p * q + p == -(p * n) by {
        assert q == -1 - n;
        assert p * (-1 - n) == -p - p * n;
      }
    }
  }

  lemma Grows(p: int, n: int)
    requires p > 0 && n >= 0
    ensures p * n >= n
  {
    NotNegative(p - 1, n);
  }

  lemma BitsResult(op: AluOp, a: int, b: int)
    requires op in {And, Or, Xor}
    ensures Compute(op, a, b).Some? && Result(op, a, b, Compute(op, a, b).value)
  {
    hide Bit, AndN, OrN, XorN;
    var x := Compute(op, a, b).value;
    forall k | 0 <= k < 32
      ensures Bit(x, k) <==> if op == And then Bit(a, k) && Bit(b, k)
                             else if op == Or then Bit(a, k) || Bit(b, k) else Bit(a, k) != Bit(b, k)
    {
      BitByBit(a, b, 32, k);
    }
  }

  lemma ShiftResult(a: int, b: int)
    requires IsWord(a)
    ensures Compute(Sll, a, b).Some? && Result(Sll, a, b, Compute(Sll, a, b).value)
    ensures Compute(Srl, a, b).Some? && Result(Srl, a, b, Compute(Srl, a, b).value)
  {
    hide Pow2, Floor, Same, Wrap;
    var p := Pow2(b % 0x20);
    Pow2Positive(b % 0x20);
    IsFloor(a, p);
    WrapSame(a * p);
  }

  lemma SraResult(a: int, b: int)
    requires IsWord(a)
    ensures Compute(Sra, a, b).Some? && Result(Sra, a, b, Compute(Sra, a, b).value)
  {
    hide Pow2, Value, Signed, Floor;
    var k := b % 0x20;
    Pow2Positive(k);
    SignedIsValue(a);
    ValueOfWrap(a);
    IsFloor(Value(a), Pow2(k));
    var q := FloorDiv(Value(a), Pow2(k));
    FloorNear(Value(a), Pow2(k), q);
    ValueOfWrap(q);
  }

  lemma HighResult(op: AluOp, a: int, b: int)
    requires op in {Mulh, Mulhu} && IsWord(a) && IsWord(b)
    ensures Compute(op, a, b).Some? && Result(op, a, b, Compute(op, a, b).value)
  {
    SignedIsValue(a);
    SignedIsValue(b);
    HighWord(a, b);
    IsFloor(a * b, 0x1_0000_0000);
    IsFloor(Value(a) * Value(b), 0x1_0000_0000);
    ValueOfWrap(Value(a) * Value(b) / 0x1_0000_0000);
    hide Value, Signed, Floor;
  }

  /** The high word of a product is a word. */
  lemma HighWord(a: int, b: int)
    requires IsWord(a) && IsWord(b)
    ensures 0 <= a * b / 0x1_0000_0000 < 0x1_0000_0000
    ensures -0x8000_0000 <= Value(a) * Value(b) / 0x1_0000_0000 < 0x8000_0000
  {
    Product(a, b, 0x1_0000_0000);
    NotNegative(a, b);
    ValueOfWrap(a);
    ValueOfWrap(b);
    Product(Size(Value(a)), Size(Value(b)), 0x8000_0001);
    Signs(Size(Value(a)), Size(Value(b)));
    hide Value;
  }

  lemma Product(a: int, b: int, n: int)
    requires 0 <= a < n && 0 <= b < n
    ensures 0 <= a * b < n * n
  {
    NotNegative(a, b);
    NotNegative(n - a, n);
    NotNegative(a, n - b);
    assert n * n - a * b == (n - a) * n + a * (n - b);
    NotNegative(n - a - 1, n);
    assert (n - a) * n == (n - a - 1) * n + n;
  }

  lemma DivResult(op: AluOp, a: int, b: int)
    requires op in {Div, Rem} && IsWord(a) && IsWord(b) && !Undefined(op, a, b)
    ensures Compute(op, a, b).Some? && Result(op, a, b, Compute(op, a, b).value)
  {
    SignedIsValue(a);
    SignedIsValue(b);
    var u, v := Value(a), Value(b);
    assert v == 0 <==> b == 0;
    assert u == -0x8000_0000 <==> a == 0x8000_0000;
    assert v == -1 <==> b == 0xffff_ffff;
    ValueOfWrap(a);
    hide Value, Signed, TruncDiv, TruncRem, Quotients;
    Truncates(u, v);
    QuotientNear(u, v);
    ValueOfWrap(TruncDiv(u, v));
    ValueOfWrap(TruncRem(u, v));
  }

  lemma UnsignedDivResult(op: AluOp, a: int, b: int)
    requires op in {Divu, Remu} && IsWord(a) && IsWord(b) && !Undefined(op, a, b)
    ensures Compute(op, a, b).Some? && Result(op, a, b, Compute(op, a, b).value)
  {
    hide TruncDiv, TruncRem;
    Truncates(a, b);
    QuotientNear(a, b);
    hide Quotients;
  }

  /** A quotient is no longer than the dividend, and as long only for a divisor of size 1. */
  lemma QuotientNear(a: int, b: int)
    requires b != 0
    ensures Size(TruncDiv(a, b)) <= Size(a) && Size(TruncRem(a, b)) <= Size(a)
    ensures a >= 0 && b > 0 ==> TruncDiv(a, b) >= 0
    ensures TruncDiv(a, b) == -a && a != 0 ==> b == -1
  {
    var m, d := Size(a), Size(b);
    var q := m / d;
    IsFloor(m, d);
    FloorNear(m, d, q);
    Rounded(a, b);
    Truncates(a, b);
    Signs(d, q);
    Grows(d, q);
    if d > 1 {
      Grows(d - 1, q);
      assert (d - 1) * q == d * q - q;
    }
  }

  /** The interpreter has a result for an operation exactly if it is defined, and it is the one that the operation
      stands for. */
  lemma ComputeResult(op: AluOp, a: int, b: int)
    requires IsWord(a) && IsWord(b)
    ensures Compute(op, a, b) == None <==> Undefined(op, a, b)
    ensures Compute(op, a, b).Some? ==>
              IsWord(Compute(op, a, b).value) && Result(op, a, b, Compute(op, a, b).value)
  {
    ComputeNone(op, a, b);
    if Compute(op, a, b).Some? {
      MachineFacts.ComputeRange(op, a, b);
      match op {
        case And => BitsResult(op, a, b);
        case Or => BitsResult(op, a, b);
        case Xor => BitsResult(op, a, b);
        case Sll => ShiftResult(a, b);
        case Srl => ShiftResult(a, b);
        case Sra => SraResult(a, b);
        case Mulh => HighResult(op, a, b);
        case Mulhu => HighResult(op, a, b);
        case Div => DivResult(op, a, b);
        case Divu => UnsignedDivResult(op, a, b);
        case Rem => DivResult(op, a, b);
        case Remu => UnsignedDivResult(op, a, b);
        case _ => PlainResult(op, a, b);
      }
    }
  }

  lemma ComputeNone(op: AluOp, a: int, b: int)
    requires IsWord(a) && IsWord(b)
    ensures Compute(op, a, b) == None <==> Undefined(op, a, b)
  {
    hide And32, Or32, Xor32, Shl32, Lshr32, Ashr32, Wrap, FloorDiv, TruncDiv, TruncRem;
  }

  lemma PlainResult(op: AluOp, a: int, b: int)
    requires op in {Add, Sub, Mul, Slt, Sltu} && IsWord(a) && IsWord(b)
    ensures Compute(op, a, b).Some? && Result(op, a, b, Compute(op, a, b).value)
  {
    SignedIsValue(a);
    SignedIsValue(b);
    WrapSame(a + b);
    WrapSame(a - b);
    WrapSame(a * b);
    hide Signed, Value, Same, Wrap;
  }

  lemma WrapSame(x: int)
    ensures Same(Wrap(x), x)
  {
  }

  /** An operation has one result. */
  lemma OneResult(op: AluOp, a: int, b: int, x: int, y: int)
    requires IsWord(a) && IsWord(b) && !Undefined(op, a, b)
    requires IsWord(x) && IsWord(y) && Result(op, a, b, x) && Result(op, a, b, y)
    ensures x == y
  {
    if op in {Div, Rem} {
      assert Value(b) != 0;
      OneSigned(Value(a), Value(b), x, y, op);
    } else if op in {Divu, Remu} {
      OneUnsigned(a, b, x, y, op);
    } else if op in {And, Or, Xor} {
      hide Bit;
      SameWord(x, y);
    } else {
      OneNumber(op, a, b, x, y);
    }
  }

  lemma OneNumber(op: AluOp, a: int, b: int, x: int, y: int)
    requires op in {Add, Sub, Mul, Slt, Sltu, Sll, Srl, Sra, Mulh, Mulhu}
    requires IsWord(x) && IsWord(y) && Result(op, a, b, x) && Result(op, a, b, y)
    ensures x == y
  {
    var p := Pow2(b % 0x20);
    Pow2Positive(b % 0x20);
    hide Floor, Value, Same, Pow2;
    match op {
      case Srl => OneFloor(a, p, x, y);
      case Sra => OneFloor(Value(a), p, Value(x), Value(y));
      case Mulh => OneFloor(Value(a) * Value(b), 0x1_0000_0000, Value(x), Value(y));
      case Mulhu => OneFloor(a * b, 0x1_0000_0000, x, y);
      case Add => OneSame(x, y, a + b);
      case Sub => OneSame(x, y, a - b);
      case Mul => OneSame(x, y, a * b);
      case Sll => OneSame(x, y, a * p);
      case _ =>
    }
    if op in {Sra, Mulh} {
      OneValue(x, y);
    }
  }

  lemma OneSame(x: int, y: int, z: int)
    requires IsWord(x) && IsWord(y) && Same(x, z) && Same(y, z)
    ensures x == y
  {
  }

  lemma OneSigned(u: int, v: int, x: int, y: int, op: AluOp)
    requires v != 0 && IsWord(x) && IsWord(y) && op in {Div, Rem}
    requires op == Div ==> (exists r :: Quotients(u, v, Value(x), r)) && exists r :: Quotients(u, v, Value(y), r)
    requires op == Rem ==> (exists q :: Quotients(u, v, q, Value(x))) && exists q :: Quotients(u, v, q, Value(y))
    ensures x == y
  {
    hide Quotients, Value;
    if op == Div {
      var r :| Quotients(u, v, Value(x), r);
      var t :| Quotients(u, v, Value(y), t);
      OneQuotient(u, v, Value(x), r, Value(y), t);
    } else {
      var q :| Quotients(u, v, q, Value(x));
      var p :| Quotients(u, v, p, Value(y));
      OneQuotient(u, v, q, Value(x), p, Value(y));
    }
    OneValue(x, y);
  }

  lemma OneUnsigned(a: int, b: int, x: int, y: int, op: AluOp)
    requires b != 0 && op in {Divu, Remu}
    requires op == Divu ==> (exists r :: Quotients(a, b, x, r)) && exists r :: Quotients(a, b, y, r)
    requires op == Remu ==> (exists q :: Quotients(a, b, q, x)) && exists q :: Quotients(a, b, q, y)
    ensures x == y
  {
    hide Quotients;
    if op == Divu {
      var r :| Quotients(a, b, x, r);
      var t :| Quotients(a, b, y, t);
      OneQuotient(a, b, x, r, y, t);
    } else {
      var q :| Quotients(a, b, q, x);
      var p :| Quotients(a, b, p, y);
      OneQuotient(a, b, q, x, p, y);
    }
  }

  lemma SameWord(x: int, y: int)
    requires IsWord(x) && IsWord(y) && forall k :: 0 <= k < 32 ==> (Bit(x, k) <==> Bit(y, k))
    ensures x == y
  {
    MachineFacts.Pow32();
    hide Bit, Pow2;
    SameBits(x, y, 32);
  }

  // ---------- the steps that compute ----------

  /** The state after an ALU instruction: None exactly if the operation is undefined and has a destination. */
  ghost predicate Computes(s: State, op: AluOp, rd: int, a: int, b: int, t: Option<State>)
    requires |s.gpr| == 32 && IsReg(rd)
  {
    if rd == 0 then t == Some(Moved(s, s.pc + 4))
    else if Undefined(op, a, b) then t == None
    else exists x :: IsWord(x) && Result(op, a, b, x) && t == Some(Put(Moved(s, s.pc + 4), rd, x))
  }

  /** A step of a word with the register opcode: the operation that its two function codes stand for, on the registers
      that it names. Other codes do nothing without a destination, and are no instruction with one. */
  lemma AluLaw(s: State, w: int)
    requires ValidState(s) && At(s, w) && Opcode(w) == 0x33
    ensures IsReg(Rd(w)) && IsReg(Rs1(w)) && IsReg(Rs2(w))
    ensures forall op :: AluFunct3(op) == Funct3(w) && AluFunct7(op) == Funct7(w) ==>
                           Computes(s, op, Rd(w), s.gpr[Rs1(w)], s.gpr[Rs2(w)], Interpret(s))
    ensures NoOperation(Funct3(w), Funct7(w)) ==>
              Interpret(s) == if Rd(w) == 0 then Some(Moved(s, s.pc + 4)) else None
  {
    hide Decode, At, Interpret, Exec, Opcode, Rd, Rs1, Rs2, Funct3, Funct7, AluFunct3, AluFunct7, Computes, NoOperation;
    Registers(w);
    Steps(s, w);
    AluWord(w);
    forall op | AluFunct3(op) == Funct3(w) && AluFunct7(op) == Funct7(w)
      ensures Computes(s, op, Rd(w), s.gpr[Rs1(w)], s.gpr[Rs2(w)], Interpret(s))
    {
      AluEffect(s, op, Rd(w), Rs1(w), Rs2(w));
    }
    NoEffect(s, Rs1(w), Rs2(w));
  }

  /** A step with a constant for its second operand. */
  lemma AluImmLaw(s: State, w: int)
    requires ValidState(s) && At(s, w) && Opcode(w) == 0x13
    ensures IsReg(Rd(w)) && IsReg(Rs1(w))
    ensures Funct3(w) !in {1, 5} ==>
              exists op :: AluFunct3(op) == Funct3(w) && AluFunct7(op) == 0
                           && Computes(s, op, Rd(w), s.gpr[Rs1(w)], IDisp(w) % 0x1_0000_0000, Interpret(s))
    ensures Funct3(w) == 1 ==> Computes(s, Sll, Rd(w), s.gpr[Rs1(w)], Rs2(w), Interpret(s))
    ensures Funct3(w) == 5 && Funct7(w) == 0 ==> Computes(s, Srl, Rd(w), s.gpr[Rs1(w)], Rs2(w), Interpret(s))
    ensures Funct3(w) == 5 && Funct7(w) == 0x20 ==> Computes(s, Sra, Rd(w), s.gpr[Rs1(w)], Rs2(w), Interpret(s))
    ensures Funct3(w) == 5 && Funct7(w) != 0 && Funct7(w) != 0x20 ==>
              Interpret(s) == if Rd(w) == 0 then Some(Moved(s, s.pc + 4)) else None
  {
    hide Decode, At, Interpret, Exec, Opcode, Rd, Rs1, Rs2, Funct3, Funct7, IDisp, AluFunct3, AluFunct7, Computes;
    Registers(w);
    Steps(s, w);
    AluImmWord(w);
    if Funct3(w) !in {1, 5} {
      var op :| AluFunct3(op) == Funct3(w) && AluFunct7(op) == 0
                && Decode(w) == Some(AluImm(op, Rd(w), Rs1(w), IDisp(w) % 0x1_0000_0000));
      AluImmEffect(s, op, Rd(w), Rs1(w), IDisp(w) % 0x1_0000_0000);
    } else {
      AluImmEffect(s, Sll, Rd(w), Rs1(w), Rs2(w));
      AluImmEffect(s, Srl, Rd(w), Rs1(w), Rs2(w));
      AluImmEffect(s, Sra, Rd(w), Rs1(w), Rs2(w));
      NoEffect(s, Rs1(w), Rs2(w));
    }
  }

  /** Without a multiplication and with the codes of a constant operand, funct3 names the operation. */
  lemma OneOperation(op: AluOp, other: AluOp)
    requires AluFunct3(op) == AluFunct3(other) && AluFunct7(op) == AluFunct7(other)
    ensures op == other
  {
  }

  lemma AluImmEffect(s: State, op: AluOp, rd: int, rs1: int, imm: int)
    requires ValidState(s) && IsReg(rd) && IsReg(rs1) && IsWord(imm)
    ensures forall t :: Counted(s, Exec(AluImm(op, rd, rs1, imm), s), t) ==> Computes(s, op, rd, s.gpr[rs1], imm, t)
  {
    hide Compute, Result, Undefined;
    ComputeResult(op, s.gpr[rs1], imm);
  }

  predicate Counted(s: State, e: Option<State>, t: Option<State>) {
    if e.None? then t.None? else t == Some(e.value.(icnt := (s.icnt + 1) % 0x1_0000_0000_0000_0000))
  }

  lemma AluEffect(s: State, op: AluOp, rd: int, rs1: int, rs2: int)
    requires ValidState(s) && IsReg(rd) && IsReg(rs1) && IsReg(rs2)
    ensures forall t :: Counted(s, Exec(Alu(op, rd, rs1, rs2), s), t) ==> Computes(s, op, rd, s.gpr[rs1], s.gpr[rs2], t)
  {
    hide Compute, Result, Undefined;
    ComputeResult(op, s.gpr[rs1], s.gpr[rs2]);
  }

  lemma NoEffect(s: State, rs1: int, rs2: int)
    ensures Exec(Alu(Add, 0, rs1, rs2), s) == Some(Moved(s, s.pc + 4).(icnt := s.icnt))
    ensures Exec(AluImm(Add, 0, rs1, rs2), s) == Some(Moved(s, s.pc + 4).(icnt := s.icnt))
  {
  }
}
