/** The SSA intermediate form: values, expressions, blocks of code, and what they compute. */
module SsaIr {
  import opened Graphs
  import opened Rv32
  import opened Vars

  /** An SSA value, identified by where it is created: a constant, the load of a variable in the entry block, the one
      phi of a variable in a block, the result of a block's i-th instruction, or a block's advanced instruction count.
      Null is a missing table entry. */
  datatype Value =
    | Const(n: int)
    | EntryLoad(v: Var)
    | Phi(b: Block, v: Var)
    | Def(b: Block, i: int)
    | Count(b: Block)
    | Null

  datatype BinOp = IAdd | ISub | IMul | IAnd | IOr | IXor | IShl | ILshr | IAshr
                 | ISdiv | IUdiv | ISrem | IUrem | IAdd64 | IMul64 | ILshr64 | IAshr64

  datatype Cmp = CmpEq | CmpNe | CmpSlt | CmpSge | CmpUlt | CmpUge

  datatype Expr =
    | Use(val: Value)
    | Num(n: int)
    | Bin(op: BinOp, a: Expr, b: Expr)
    | Select(cmp: Cmp, a: Expr, b: Expr, yes: Expr, no: Expr)
    | Sext(e: Expr)
    | Zext(e: Expr)
    | Trunc(e: Expr)

  datatype Stmt =
    | Let(dst: Value, e: Expr)
    | LoadMem(dst: Value, width: Width, addr: Expr)
    | StoreMem(width: Width, addr: Expr, val: Expr)

  /** Where a terminator goes: another block, or an abort block that stores a pc and the values of variables. */
  datatype Target = Goto(b: Block) | Abort(pc: Expr, saves: map<Var, Value>)

  /** Chain compares pc with the entry addresses of the successors, one after the other. */
  datatype Term =
    | Br(t: Target)
    | CondBr(cmp: Cmp, a: Expr, b: Expr, yes: Target, no: Target)
    | Chain(pc: Expr, cases: seq<(int, Block)>, otherwise: Target)

  datatype Code = Code(body: seq<Stmt>, term: Term)

  // ---------- evaluation ----------

  type Env = map<Value, int>

  function Signed64(x: int): int {
    if x < 0x8000_0000_0000_0000 then x else x - DWORD
  }

  /** None where LLVM leaves the result undefined. */
  function EvalBin(op: BinOp, a: int, b: int): Option<int> {
    match op
    case IAdd => Some(Wrap(a + b))
    case ISub => Some(Wrap(a - b))
    case IMul => Some(Wrap(a * b))
    case IAnd => Some(And32(a, b))
    case IOr => Some(Or32(a, b))
    case IXor => Some(Xor32(a, b))
    case IShl => if 0 <= b < 32 then Some(Shl32(a, b)) else None
    case ILshr => if 0 <= b < 32 then Some(Lshr32(a, b)) else None
    case IAshr => if 0 <= b < 32 then Some(Ashr32(a, b)) else None
    case ISdiv => if Signed(b) == 0 || (a == 0x8000_0000 && b == WORD - 1) then None
      else Some(Wrap(TruncDiv(Signed(a), Signed(b))))
    case IUdiv => if b == 0 then None else Some(Wrap(TruncDiv(a, b)))
    case ISrem => if Signed(b) == 0 || (a == 0x8000_0000 && b == WORD - 1) then None
      else Some(Wrap(TruncRem(Signed(a), Signed(b))))
    case IUrem => if b == 0 then None else Some(Wrap(TruncRem(a, b)))
    case IAdd64 => Some((a + b) % DWORD)
    case IMul64 => Some((a * b) % DWORD)
    case ILshr64 => if b == 32 then Some(FloorDiv(a, WORD)) else None
    case IAshr64 => if b == 32 then Some(FloorDiv(Signed64(a), WORD) % DWORD) else None
  }

  function EvalCmp(c: Cmp, a: int, b: int): bool {
    match c
    case CmpEq => a == b
    case CmpNe => a != b
    case CmpSlt => Signed(a) < Signed(b)
    case CmpSge => Signed(a) >= Signed(b)
    case CmpUlt => a < b
    case CmpUge => a >= b
  }

  function EvalValue(env: Env, v: Value): Option<int> {
    if v.Const? then Some(v.n) else if v in env && v != Null then Some(env[v]) else None
  }

  function Eval(env: Env, e: Expr): Option<int> {
    match e
    case Use(v) => EvalValue(env, v)
    case Num(n) => Some(n)
    case Bin(op, a, b) =>
      (match (Eval(env, a), Eval(env, b))
       case (Some(x), Some(y)) => EvalBin(op, x, y)
       case _ => None)
    case Select(c, a, b, yes, no) =>
      (match (Eval(env, a), Eval(env, b))
       case (Some(x), Some(y)) => if EvalCmp(c, x, y) then Eval(env, yes) else Eval(env, no)
       case _ => None)
    case Sext(a) => (match Eval(env, a) case Some(x) => Some(Signed(x) % DWORD) case None => None)
    case Zext(a) => (match Eval(env, a) case Some(x) => Some(x % DWORD) case None => None)
    case Trunc(a) => (match Eval(env, a) case Some(x) => Some(Wrap(x)) case None => None)
  }

  function ExecStmt(st: Stmt, env: Env, mem: map<int, int>): Option<(Env, map<int, int>)> {
    match st
    case Let(dst, e) =>
      (match Eval(env, e) case Some(x) => Some((env[dst := x], mem)) case None => None)
    case LoadMem(dst, width, addr) =>
      (match Eval(env, addr) case Some(a) => Some((env[dst := LoadFrom(mem, width, a)], mem)) case None => None)
    case StoreMem(width, addr, val) =>
      (match (Eval(env, addr), Eval(env, val))
       case (Some(a), Some(x)) => Some((env, StoreTo(mem, width, a, x)))
       case _ => None)
  }

  /** The statements of a block in order. */
  function ExecBody(body: seq<Stmt>, env: Env, mem: map<int, int>): Option<(Env, map<int, int>)> {
    if body == [] then Some((env, mem))
    else match ExecBody(body[..|body| - 1], env, mem)
      case None => None
      case Some(p) => ExecStmt(body[|body| - 1], p.0, p.1)
  }

  lemma {:induction false} ExecBodyAppend(b: seq<Stmt>, c: seq<Stmt>, env: Env, mem: map<int, int>)
    ensures ExecBody(b + c, env, mem) ==
            match ExecBody(b, env, mem) case None => None case Some(p) => ExecBody(c, p.0, p.1)
    decreases |c|
  {
    if c == [] {
      assert b + c == b;
    } else {
      var n := |c| - 1;
      ExecBodyAppend(b, c[..n], env, mem);
      assert (b + c)[..|b + c| - 1] == b + c[..n];
    }
  }

  /** First matching case of a compare chain. */
  function Pick(pc: int, cases: seq<(int, Block)>): Option<Block> {
    if cases == [] then None
    else if cases[0].0 == pc then Some(cases[0].1)
    else Pick(pc, cases[1..])
  }

  // ---------- code for the ALU instructions ----------

  /** The expression that rTypeInsn::generateIR builds. */
  function AluExpr(op: AluOp, a: Expr, b: Expr): Expr {
    match op
    case Add => Bin(IAdd, a, b)
    case Sub => Bin(ISub, a, b)
    case Mul => Bin(IMul, a, b)
    case Sll => Bin(IShl, a, Bin(IAnd, b, Num(31)))
    case Mulh => Trunc(Bin(IAshr64, Bin(IMul64, Sext(a), Sext(b)), Num(32)))
    case Slt => Select(CmpSlt, a, b, Num(1), Num(0))
    case Sltu => Select(CmpUlt, a, b, Num(1), Num(0))
    case Mulhu => Trunc(Bin(ILshr64, Bin(IMul64, Zext(a), Zext(b)), Num(32)))
    case Xor => Bin(IXor, a, b)
    case Div => Bin(ISdiv, a, Select(CmpEq, b, Num(0), Num(1), b))
    case Srl => Bin(ILshr, a, Bin(IAnd, b, Num(31)))
    case Divu => Bin(IUdiv, a, Select(CmpEq, b, Num(0), Num(1), b))
    case Sra => Bin(IAshr, a, Bin(IAnd, b, Num(31)))
    case Or => Bin(IOr, a, b)
    case Rem => Bin(ISrem, a, Select(CmpEq, b, Num(0), Num(1), b))
    case And => Bin(IAnd, a, b)
    case Remu => Bin(IUrem, a, Select(CmpEq, b, Num(0), Num(1), b))
  }

  /** The expression that iTypeInsn::generateIR builds; shifts take their amount as a constant. */
  function AluImmExpr(op: AluOp, a: Expr, imm: int): Expr {
    match op
    case Sll => Bin(IShl, a, Num(imm))
    case Srl => Bin(ILshr, a, Num(imm))
    case Sra => Bin(IAshr, a, Num(imm))
    case _ => AluExpr(op, a, Num(imm))
  }

  lemma {:induction false} AndZero(a: int, n: nat)
    ensures AndN(a, 0, n) == 0
    decreases n
  {
    if n > 0 {
      AndZero(a / 2, n - 1);
    }
  }

  /** A product with a factor of at least one is no smaller. */
  lemma MulAtLeast(d: int, m: int)
    requires d >= 1 && m > 0
    ensures d * m >= m
  {
    assert (d - 1) * m >= 0;
    assert d * m == (d - 1) * m + m;
  }

  lemma ModUnique(x: int, q: int, r: int, m: int)
    requires m > 0 && 0 <= r < m && x == q * m + r
    ensures x % m == r && x / m == q
  {
    var q', r' := x / m, x % m;
    assert x == q' * m + r';
    var d := q - q';
    assert d * m == q * m - q' * m;
    if d >= 1 {
      MulAtLeast(d, m);
    } else if d <= -1 {
      MulAtLeast(-d, m);
    }
  }

  lemma ModPlus(x: int, k: int, m: int)
    requires m > 0
    ensures (x + m * k) % m == x % m
  {
    var q := x / m;
    assert x == q * m + x % m;
    assert (q + k) * m == q * m + m * k;
    ModUnique(x + m * k, q + k, x % m, m);
  }

  /** Reducing the factors first does not change a product modulo m. */
  lemma MulMod(x: int, y: int, m: int)
    requires m > 0
    ensures ((x % m) * (y % m)) % m == (x * y) % m
  {
    var p, q := x / m, y / m;
    var a, b := x % m, y % m;
    assert x == p * m + a && y == q * m + b;
    Expand(p, a, q, b, m);
    ModPlus(a * b, p * q * m + p * b + q * a, m);
  }

  lemma Expand(p: int, a: int, q: int, b: int, m: int)
    ensures (p * m + a) * (q * m + b) == a * b + m * (p * q * m + p * b + q * a)
  {
  }

  lemma ModDouble(b: int, m: int)
    requires 0 <= b && m > 0
    ensures b % (2 * m) == b % 2 + 2 * ((b / 2) % m)
  {
    var h := b / 2;
    var q, r := h / m, h % m;
    assert h == q * m + r;
    assert b == q * (2 * m) + (2 * r + b % 2);
    ModUnique(b, q, 2 * r + b % 2, 2 * m);
  }

  /** Masking with 31 is the remainder modulo 32. */
  lemma Mask31(b: int)
    requires 0 <= b
    ensures And32(b, 31) == b % 32
  {
    var b1, b2, b3, b4 := b / 2, b / 2 / 2, b / 2 / 2 / 2, b / 2 / 2 / 2 / 2;
    AndZero(b4 / 2, 27);
    assert AndN(b4, 1, 28) == b4 % 2;
    ModDouble(b3, 2);
    assert AndN(b3, 3, 29) == b3 % 4;
    ModDouble(b2, 4);
    assert AndN(b2, 7, 30) == b2 % 8;
    ModDouble(b1, 8);
    assert AndN(b1, 15, 31) == b1 % 16;
    ModDouble(b, 16);
  }

  lemma MulMono(x: int, y: int, z: int)
    requires 0 <= x <= y && 0 <= z
    ensures 0 <= x * z <= y * z
  {
    assert (y - x) * z >= 0;
    assert y * z == x * z + (y - x) * z;
  }

  /** The product of two numbers of magnitude at most m. */
  lemma ProductBound(x: int, y: int, m: int)
    requires -m <= x <= m && -m <= y <= m
    ensures -(m * m) <= x * y <= m * m
  {
    var u, v := if x < 0 then -x else x, if y < 0 then -y else y;
    MulMono(u, m, v);
    MulMono(v, m, m);
    assert u * v <= m * m by {
      assert m * v == v * m;
    }
    assert x * y == u * v || x * y == -(u * v);
  }

  /** The high word of the signed 64-bit product. */
  lemma MulhCorrect(a: int, b: int)
    requires 0 <= a < WORD && 0 <= b < WORD
    ensures var p := ((Signed(a) % DWORD) * (Signed(b) % DWORD)) % DWORD;
            Wrap(FloorDiv(Signed64(p), WORD) % DWORD) == Wrap(FloorDiv(Signed(a) * Signed(b), WORD))
  {
    var x, y := Signed(a), Signed(b);
    MulMod(x, y, DWORD);
    ProductBound(x, y, 0x8000_0000);
    assert Signed64((x * y) % DWORD) == x * y;
    var q := FloorDiv(x * y, WORD);
    ModPlus(q % DWORD, WORD * (q / DWORD), WORD);
    assert q == q % DWORD + WORD * (WORD * (q / DWORD));
  }

  lemma MulhuCorrect(a: int, b: int)
    requires 0 <= a < WORD && 0 <= b < WORD
    ensures FloorDiv(((a % DWORD) * (b % DWORD)) % DWORD, WORD) == FloorDiv(a * b, WORD)
  {
    MulMod(a, b, DWORD);
    MulMono(a, WORD - 1, b);
    MulMono(b, WORD - 1, WORD - 1);
  }

  lemma MulhExpr(env: Env, ea: Expr, eb: Expr, a: int, b: int)
    requires 0 <= a < WORD && 0 <= b < WORD && Eval(env, ea) == Some(a) && Eval(env, eb) == Some(b)
    ensures Eval(env, AluExpr(Mulh, ea, eb)) == Compute(Mulh, a, b)
  {
    hide Signed64, Pow2;
    MulhCorrect(a, b);
    var p := Bin(IMul64, Sext(ea), Sext(eb));
    assert Eval(env, Sext(ea)) == Some(Signed(a) % DWORD) && Eval(env, Sext(eb)) == Some(Signed(b) % DWORD);
    assert Eval(env, p) == Some(((Signed(a) % DWORD) * (Signed(b) % DWORD)) % DWORD);
    assert Eval(env, Num(32)) == Some(32);
    assert Eval(env, Bin(IAshr64, p, Num(32))).Some?;
  }

  lemma MulhuExpr(env: Env, ea: Expr, eb: Expr, a: int, b: int)
    requires 0 <= a < WORD && 0 <= b < WORD && Eval(env, ea) == Some(a) && Eval(env, eb) == Some(b)
    ensures Eval(env, AluExpr(Mulhu, ea, eb)) == Compute(Mulhu, a, b)
  {
    hide Signed64, Pow2;
    MulhuCorrect(a, b);
    var p := Bin(IMul64, Zext(ea), Zext(eb));
    assert Eval(env, Zext(ea)) == Some(a % DWORD) && Eval(env, Zext(eb)) == Some(b % DWORD);
    assert Eval(env, p) == Some(((a % DWORD) * (b % DWORD)) % DWORD);
    assert Eval(env, Num(32)) == Some(32);
    assert Eval(env, Bin(ILshr64, p, Num(32))).Some?;
  }

  predicate IsShift(op: AluOp) {
    op == Sll || op == Srl || op == Sra
  }

  predicate IsDivision(op: AluOp) {
    op == Div || op == Divu || op == Rem || op == Remu
  }

  /** Shifts mask their amount. */
  lemma ShiftExpr(op: AluOp, env: Env, ea: Expr, eb: Expr, a: int, b: int)
    requires 0 <= b && IsShift(op) && Eval(env, ea) == Some(a) && Eval(env, eb) == Some(b)
    ensures Eval(env, AluExpr(op, ea, eb)) == Compute(op, a, b)
  {
    hide And32, Shl32, Lshr32, Ashr32;
    Mask31(b);
    var m := Bin(IAnd, eb, Num(31));
    assert Eval(env, m) == Some(b % 32);
  }

  /** The guard against a zero divisor is neutral when the interpreter has a result. */
  lemma DivisionExpr(op: AluOp, env: Env, ea: Expr, eb: Expr, a: int, b: int)
    requires IsDivision(op) && Eval(env, ea) == Some(a) && Eval(env, eb) == Some(b) && Compute(op, a, b).Some?
    ensures Eval(env, AluExpr(op, ea, eb)) == Compute(op, a, b)
  {
    hide TruncDiv, TruncRem;
    var m := Select(CmpEq, eb, Num(0), Num(1), eb);
    assert Eval(env, m) == Some(b);
  }

  lemma PlainExpr(op: AluOp, env: Env, ea: Expr, eb: Expr, a: int, b: int)
    requires !IsDivision(op) && !IsShift(op) && op != Mulh && op != Mulhu
    requires Eval(env, ea) == Some(a) && Eval(env, eb) == Some(b)
    ensures Eval(env, AluExpr(op, ea, eb)) == Compute(op, a, b)
  {
    hide And32, Or32, Xor32, Shl32, Lshr32, Ashr32, TruncDiv, TruncRem, Signed64;
  }

  /** What the interpreter computes for a register-register instruction is what the generated expression evaluates
      to. */
  lemma AluExprCorrect(op: AluOp, env: Env, ea: Expr, eb: Expr, a: int, b: int)
    requires 0 <= a < WORD && 0 <= b < WORD
    requires Eval(env, ea) == Some(a) && Eval(env, eb) == Some(b) && Compute(op, a, b).Some?
    ensures Eval(env, AluExpr(op, ea, eb)) == Compute(op, a, b)
  {
    hide Eval, AluExpr, Compute;
    if op == Mulh {
      MulhExpr(env, ea, eb, a, b);
    } else if op == Mulhu {
      MulhuExpr(env, ea, eb, a, b);
    } else if IsShift(op) {
      ShiftExpr(op, env, ea, eb, a, b);
    } else if IsDivision(op) {
      DivisionExpr(op, env, ea, eb, a, b);
    } else {
      PlainExpr(op, env, ea, eb, a, b);
    }
  }

  lemma AluImmExprCorrect(op: AluOp, env: Env, ea: Expr, a: int, imm: int)
    requires 0 <= a < WORD && 0 <= imm < WORD && (op == Sll || op == Srl || op == Sra ==> imm < 32)
    requires Eval(env, ea) == Some(a) && Compute(op, a, imm).Some?
    ensures Eval(env, AluImmExpr(op, ea, imm)) == Compute(op, a, imm)
  {
    hide And32, Or32, Xor32, Shl32, Lshr32, Ashr32, TruncDiv, TruncRem, Signed64, Pow2;
    if op == Sll || op == Srl || op == Sra {
    } else {
      AluExprCorrect(op, env, ea, Num(imm), a, imm);
    }
  }
}
