/** The generated code of a region computes what the interpreter computes. */
module Refinement {
  import opened Graphs
  import opened Rv32
  import opened SsaIr
  import opened CodeGen
  import opened SsaForm
  import opened SsaRun
  import opened MachineFacts
  import opened Vars

  // ---------- one instruction ----------

  /** Under env the table names the register values of s. */
  ghost predicate RegsAgree(tbl: Table, env: Env, s: State) {
    forall r: int :: Gpr(r) in tbl ==> EvalValue(env, tbl[Gpr(r)]) == Some(Reg(s, r))
  }

  ghost predicate Agree(tbl: Table, env: Env, s: State) {
    forall v :: v in tbl ==> EvalValue(env, tbl[v]) == Some(VarVal(s, v))
  }

  /** The table knows every register that the instruction reads. */
  ghost predicate KnowsReads(tbl: Table, i: Insn) {
    forall r: int :: Reads(i, r) ==> Gpr(r) in tbl
  }

  /** No entry is the result of an instruction of b from the k-th on. */
  ghost predicate Past(b: Block, k: int, tbl: Table) {
    forall v :: v in tbl && tbl[v].Def? && tbl[v].b == b ==> tbl[v].i < k
  }

  /** Only the results of instructions of b differ. */
  ghost predicate SameBut(b: Block, env: Env, env': Env) {
    forall val: Value :: val in env && !(val.Def? && val.b == b) ==> val in env' && env'[val] == env[val]
  }

  lemma RegAgrees(tbl: Table, env: Env, s: State, r: int)
    requires RegsAgree(tbl, env, s) && Gpr(r) in tbl && 0 <= r
    ensures Eval(env, RegVal(tbl, r)) == Some(Reg(s, r))
  {
  }

  /** The statement of an instruction that computes x into its destination. */
  ghost predicate Computes(st: Stmt, dst: Value, env: Env, mem: map<int, int>, x: int) {
    ExecBody([st], env, mem) == Some((env[dst := x], mem))
  }

  lemma LetRuns(dst: Value, e: Expr, env: Env, mem: map<int, int>)
    requires Eval(env, e).Some?
    ensures Computes(Let(dst, e), dst, env, mem, Eval(env, e).value)
  {
    assert [Let(dst, e)][..0] == [];
  }

  /** Writing a fresh value keeps the agreement of the other registers. */
  lemma WriteAgrees(tbl: Table, env: Env, s: State, t: State, b: Block, k: int, rd: int, x: int)
    requires RegsAgree(tbl, env, s) && Past(b, k, tbl) && 0 < rd < 32 && |s.gpr| == 32 && t.gpr == s.gpr[rd := x]
    ensures RegsAgree(tbl[Gpr(rd) := Def(b, k)], env[Def(b, k) := x], t)
    ensures Past(b, k + 1, tbl[Gpr(rd) := Def(b, k)])
    ensures SameBut(b, env, env[Def(b, k) := x])
  {
  }

  lemma ConstAgrees(tbl: Table, env: Env, s: State, t: State, b: Block, k: int, rd: int, x: int)
    requires RegsAgree(tbl, env, s) && Past(b, k, tbl) && 0 < rd < 32 && |s.gpr| == 32 && t.gpr == s.gpr[rd := x]
    ensures RegsAgree(tbl[Gpr(rd) := Const(x)], env, t)
    ensures Past(b, k + 1, tbl[Gpr(rd) := Const(x)])
  {
  }

  lemma AddrRuns(tbl: Table, env: Env, s: State, rs1: int, imm: int)
    requires RegsAgree(tbl, env, s) && Gpr(rs1) in tbl && 0 <= rs1
    ensures Eval(env, Bin(IAdd, RegVal(tbl, rs1), Num(imm))) == Some(Wrap(Reg(s, rs1) + imm))
  {
    RegAgrees(tbl, env, s, rs1);
    assert Eval(env, Num(imm)) == Some(imm);
  }

  lemma ImmSim(i: Insn, b: Block, k: int, tbl: Table, env: Env, s: State, t: State)
    requires ValidState(s) && Translatable(i) && i.AluImm? && KnowsReads(tbl, i) && RegsAgree(tbl, env, s)
    requires Past(b, k, tbl)
    requires Exec(i, s) == Some(t)
    ensures ExecBody(GenStmts(i, b, k, tbl), env, s.mem) == Some((env[Def(b, k) := Reg(t, i.rd)], t.mem))
    ensures t.gpr == s.gpr[i.rd := Reg(t, i.rd)]
  {
    hide Compute, AluImmExpr, Eval, EvalBin, EvalCmp;
    assert Reads(i, i.rs1);
    RegAgrees(tbl, env, s, i.rs1);
    AluImmExprCorrect(i.op, env, RegVal(tbl, i.rs1), Reg(s, i.rs1), i.imm);
    LetRuns(Def(b, k), AluImmExpr(i.op, RegVal(tbl, i.rs1), i.imm), env, s.mem);
  }

  lemma AluSim(i: Insn, b: Block, k: int, tbl: Table, env: Env, s: State, t: State)
    requires ValidState(s) && Translatable(i) && i.Alu? && KnowsReads(tbl, i) && RegsAgree(tbl, env, s)
    requires Past(b, k, tbl)
    requires Exec(i, s) == Some(t)
    ensures ExecBody(GenStmts(i, b, k, tbl), env, s.mem) == Some((env[Def(b, k) := Reg(t, i.rd)], t.mem))
    ensures t.gpr == s.gpr[i.rd := Reg(t, i.rd)]
  {
    hide Compute, AluExpr, Eval, EvalBin, EvalCmp;
    assert Reads(i, i.rs1) && Reads(i, i.rs2);
    RegAgrees(tbl, env, s, i.rs1);
    RegAgrees(tbl, env, s, i.rs2);
    AluExprCorrect(i.op, env, RegVal(tbl, i.rs1), RegVal(tbl, i.rs2), Reg(s, i.rs1), Reg(s, i.rs2));
    LetRuns(Def(b, k), AluExpr(i.op, RegVal(tbl, i.rs1), RegVal(tbl, i.rs2)), env, s.mem);
  }

  lemma MemSim(i: Insn, b: Block, k: int, tbl: Table, env: Env, s: State, t: State)
    requires ValidState(s) && Translatable(i) && KnowsReads(tbl, i) && RegsAgree(tbl, env, s) && Exec(i, s) == Some(t)
    requires i.Load? || i.Store?
    ensures i.Load? ==> ExecBody(GenStmts(i, b, k, tbl), env, s.mem) == Some((env[Def(b, k) := Reg(t, i.rd)], t.mem))
    ensures i.Load? ==> t.gpr == s.gpr[i.rd := Reg(t, i.rd)]
    ensures i.Store? ==> ExecBody(GenStmts(i, b, k, tbl), env, s.mem) == Some((env, t.mem)) && t.gpr == s.gpr
  {
    hide Eval, LoadFrom, StoreTo;
    assert Reads(i, i.rs1);
    AddrRuns(tbl, env, s, i.rs1, i.imm);
    if i.Store? {
      assert Reads(i, i.rs2);
      RegAgrees(tbl, env, s, i.rs2);
    }
    var st := GenStmts(i, b, k, tbl);
    assert st[..0] == [];
  }

  /** The statements of one instruction do what the interpreter does, and the new table names the new registers. */
  lemma InsnSim(i: Insn, b: Block, k: int, tbl: Table, env: Env, s: State, t: State) returns (env': Env)
    requires ValidState(s) && Translatable(i) && KnowsReads(tbl, i) && RegsAgree(tbl, env, s) && Past(b, k, tbl)
    requires Exec(i, s) == Some(t)
    ensures ExecBody(GenStmts(i, b, k, tbl), env, s.mem) == Some((env', t.mem))
    ensures RegsAgree(GenTable(i, b, k, s.pc, tbl), env', t) && Past(b, k + 1, GenTable(i, b, k, s.pc, tbl))
    ensures SameBut(b, env, env')
  {
    env' := env;
    match i
    case AluImm(op, rd, rs1, imm) =>
      hide *;
      InsnSimWrite(i, b, k, tbl, env, s, t);
      env' := env[Def(b, k) := Reg(t, rd)];
    case Alu(op, rd, rs1, rs2) =>
      hide *;
      InsnSimWrite(i, b, k, tbl, env, s, t);
      env' := env[Def(b, k) := Reg(t, rd)];
    case Load(width, rd, rs1, imm) =>
      hide *;
      InsnSimWrite(i, b, k, tbl, env, s, t);
      env' := env[Def(b, k) := Reg(t, rd)];
    case Store(width, rs1, rs2, imm) =>
      MemSim(i, b, k, tbl, env, s, t);
    case _ =>
      InsnSimConst(i, b, k, tbl, env, s, t);
  }

  lemma InsnSimWrite(i: Insn, b: Block, k: int, tbl: Table, env: Env, s: State, t: State)
    requires ValidState(s) && Translatable(i) && KnowsReads(tbl, i) && RegsAgree(tbl, env, s) && Past(b, k, tbl)
    requires Exec(i, s) == Some(t) && (i.AluImm? || i.Alu? || i.Load?)
    ensures ExecBody(GenStmts(i, b, k, tbl), env, s.mem) == Some((env[Def(b, k) := Reg(t, i.rd)], t.mem))
    ensures RegsAgree(GenTable(i, b, k, s.pc, tbl), env[Def(b, k) := Reg(t, i.rd)], t)
    ensures Past(b, k + 1, GenTable(i, b, k, s.pc, tbl))
    ensures SameBut(b, env, env[Def(b, k) := Reg(t, i.rd)])
  {
    hide ExecBody, Exec, GenStmts, Reads, RegsAgree, Past, KnowsReads, SameBut;
    match i {
      case AluImm(_, _, _, _) => ImmSim(i, b, k, tbl, env, s, t);
      case Alu(_, _, _, _) => AluSim(i, b, k, tbl, env, s, t);
      case _ => MemSim(i, b, k, tbl, env, s, t);
    }
    WriteAgrees(tbl, env, s, t, b, k, i.rd, Reg(t, i.rd));
  }

  /** Instructions without a statement: constants, branches and jumps. */
  lemma InsnSimConst(i: Insn, b: Block, k: int, tbl: Table, env: Env, s: State, t: State)
    requires ValidState(s) && Translatable(i) && RegsAgree(tbl, env, s) && Past(b, k, tbl)
    requires Exec(i, s) == Some(t) && !i.AluImm? && !i.Alu? && !i.Load? && !i.Store?
    ensures GenStmts(i, b, k, tbl) == [] && t.mem == s.mem
    ensures RegsAgree(GenTable(i, b, k, s.pc, tbl), env, t) && Past(b, k + 1, GenTable(i, b, k, s.pc, tbl))
  {
    match i
    case Lui(rd, imm) => ConstAgrees(tbl, env, s, t, b, k, rd, imm);
    case Auipc(rd, imm) => ConstAgrees(tbl, env, s, t, b, k, rd, Wrap(s.pc + imm));
    case Jal(rd, imm) => if rd != 0 { ConstAgrees(tbl, env, s, t, b, k, rd, Wrap(s.pc + 4)); }
    case Jalr(rd, rs1, imm) => if rd != 0 { ConstAgrees(tbl, env, s, t, b, k, rd, Wrap(s.pc + 4)); }
    case _ =>
  }

  // ---------- one block ----------

  /** If the pc is at an instruction of the region, the interpreter fetches that instruction. */
  ghost predicate CodeIntact(R: Region, s: State) {
    forall b, i :: b in R.g.nodes && 0 <= i < |Insns(R, b)| && s.pc == InsnAddr(R, b, i) ==>
      Fetch(s) == Some(Insns(R, b)[i])
  }

  /** When the compare chain of a linking jalr, which tests rs1 as it is after the link is written, tests the right
      address. */
  predicate LinkOk(i: Insn, s: State) {
    i.Jalr? && i.rd != 0 ==>
      if i.rd == i.rs1 then JalrTarget(Reg(s, i.rs1), i.imm) == Wrap(s.pc + 4)
      else Reg(s, i.rs1) % 2 == 0 && (i.imm == 0 || i.imm == 1)
  }

  /** The step that the interpreter takes next is not that of a linking jump that compiled code gets wrong. */
  ghost predicate LinkStep(s: State) {
    forall i :: Fetch(s) == Some(i) ==> LinkOk(i, s)
  }

  /** Some instruction of the region is at the address pc. */
  ghost predicate HasInsnAt(R: Region, pc: int) {
    exists b, i :: b in R.g.nodes && 0 <= i < |Insns(R, b)| && pc == InsnAddr(R, b, i)
  }

  /** The interpreter's next step is defined, and, if it is in the region, one that the generated code imitates. */
  ghost predicate OkStep(R: Region, s: State) {
    CodeIntact(R, s) && Interpret(s).Some? && (HasInsnAt(R, s.pc) ==> LinkStep(s))
  }

  /** The next n steps of the interpreter are such steps. */
  ghost predicate Guarded(R: Region, s: State, n: nat) {
    forall j :: 0 <= j < n ==> InterpretN(s, j).Some? && OkStep(R, InterpretN(s, j).value)
  }

  lemma GuardedSome(R: Region, s: State, n: nat, j: nat)
    requires Guarded(R, s, n) && j <= n
    ensures InterpretN(s, j).Some?
  {
    hide Interpret, CodeIntact, LinkOk;
    if j > 0 {
      assert OkStep(R, InterpretN(s, j - 1).value);
    }
  }

  lemma GuardedTail(R: Region, s: State, m: nat, n: nat)
    requires Guarded(R, s, m + n)
    ensures InterpretN(s, m).Some? && Guarded(R, InterpretN(s, m).value, n)
  {
    hide OkStep, InterpretN;
    GuardedSome(R, s, m + n, m);
    var t := InterpretN(s, m).value;
    forall j | 0 <= j < n
      ensures InterpretN(t, j).Some? && OkStep(R, InterpretN(t, j).value)
    {
      RunsCompose(s, m, j);
      assert InterpretN(s, m + j).Some?;
    }
  }

  /** At the i-th instruction of b the interpreter executes that instruction. */
  lemma StepAt(R: Region, b: Block, i: int, s: State) returns (t: State)
    requires OkStep(R, s) && b in R.g.nodes && 0 <= i < |Insns(R, b)| && s.pc == InsnAddr(R, b, i)
    ensures Fetch(s) == Some(Insns(R, b)[i]) && LinkOk(Insns(R, b)[i], s)
    ensures Exec(Insns(R, b)[i], s) == Some(t)
    ensures Interpret(s) == Some(t.(icnt := (s.icnt + 1) % DWORD))
  {
    hide Exec, Decode, ReadN, LinkOk;
    assert HasInsnAt(R, s.pc);
    t := Exec(Insns(R, b)[i], s).value;
  }

  lemma NextAddr(R: Region, b: Block, i: int)
    ensures Wrap(InsnAddr(R, b, i) + 4) == InsnAddr(R, b, i + 1)
  {
  }

  ghost predicate Untouched(R: Region, s: State, t: State) {
    forall r :: 0 <= r < 32 && Defs(R, Gpr(r)) == {} ==> Reg(t, r) == Reg(s, r)
  }

  /** After the first k instructions of b: the interpreter is in t, the generated code in env and with t's memory. */
  ghost predicate InBody(R: Region, b: Block, tbl: Table, env: Env, s: State, k: nat, env': Env, t: State) {
    && k <= |Insns(R, b)|
    && InterpretN(s, k) == Some(t)
    && ExecBody(BodyStmts(R, b, tbl, k), env, s.mem) == Some((env', t.mem))
    && RegsAgree(BodyTable(R, b, tbl, k), env', t) && Past(b, k, BodyTable(R, b, tbl, k))
    && SameBut(b, env, env')
    && ValidState(t) && t.brk == s.brk && Untouched(R, s, t)
    && (k == 0 || !IsControl(Insns(R, b)[k - 1]) ==> t.pc == InsnAddr(R, b, k))
  }

  lemma SameButTrans(b: Block, e0: Env, e1: Env, e2: Env)
    requires SameBut(b, e0, e1) && SameBut(b, e1, e2)
    ensures SameBut(b, e0, e2)
  {
  }

  lemma UntouchedStep(R: Region, b: Block, i: int, s: State, t: State, u: State)
    requires b in R.g.nodes && 0 <= i < |Insns(R, b)| && Translatable(Insns(R, b)[i])
    requires Untouched(R, s, t)
    requires forall r :: 0 <= r < 32 && Defines(Insns(R, b)[i]) != Some(r) ==> Reg(u, r) == Reg(t, r)
    ensures Untouched(R, s, u)
  {
    hide Translatable;
    forall r | 0 <= r < 32 && Defs(R, Gpr(r)) == {}
      ensures Reg(u, r) == Reg(s, r)
    {
      if Defines(Insns(R, b)[i]) == Some(r) {
        DefinedIsTracked(R, b, i, r);
      }
    }
  }

  /** The reads of an instruction are in every table of its block. */
  lemma BodyKnows(R: Region, b: Block, tbl: Table, k: nat)
    requires WellFormed(R.g) && b in R.g.nodes && BlockOk(R, b) && k < |Insns(R, b)|
    requires FullTable(R, BodyTable(R, b, tbl, k))
    ensures KnowsReads(BodyTable(R, b, tbl, k), Insns(R, b)[k])
  {
    hide BodyTable, Tracked;
    var i := Insns(R, b)[k];
    assert Translatable(i);
    forall r: int | Reads(i, r)
      ensures Gpr(r) in BodyTable(R, b, tbl, k)
    {
      ReadIsTracked(R, b, k, r);
    }
  }

  lemma InsnOk(R: Region, b: Block, i: int)
    requires BlockOk(R, b) && 0 <= i < |Insns(R, b)|
    ensures Translatable(Insns(R, b)[i]) && (i < |Insns(R, b)| - 1 ==> !IsControl(Insns(R, b)[i]))
  {
    hide Translatable, IsControl;
  }

  lemma {:induction false} BodySim(R: Region, b: Block, tbl: Table, env: Env, s: State, k: nat)
    returns (env': Env, t: State)
    requires WellFormed(R.g) && b in R.g.nodes && BlockOk(R, b) && GoodTable(R, b, tbl) && k <= |Insns(R, b)|
    requires Past(b, 0, tbl) && RegsAgree(tbl, env, s) && ValidState(s) && s.pc == Addr(R, b) && Guarded(R, s, k)
    ensures InBody(R, b, tbl, env, s, k, env', t)
  {
    hide *;
    if k == 0 {
      env', t := env, s;
      BodyStart(R, b, tbl, env, s);
    } else {
      GuardedLess(R, s, k);
      env', t := BodySim(R, b, tbl, env, s, k - 1);
      BodyTableGood(R, b, tbl, k - 1);
      BodyKnows(R, b, tbl, k - 1);
      OkInBody(R, b, tbl, env, s, k, env', t);
      InsnOk(R, b, k - 1);
      env', t := BodyStep(R, b, tbl, env, s, k, env', t);
    }
  }

  lemma BodyStart(R: Region, b: Block, tbl: Table, env: Env, s: State)
    requires Past(b, 0, tbl) && RegsAgree(tbl, env, s) && ValidState(s) && s.pc == Addr(R, b)
    ensures InBody(R, b, tbl, env, s, 0, env, s)
  {
    hide Past, RegsAgree, Insns;
  }

  lemma GuardedLess(R: Region, s: State, k: nat)
    requires Guarded(R, s, k) && k > 0
    ensures Guarded(R, s, k - 1)
  {
    hide OkStep, InterpretN;
  }

  lemma OkInBody(R: Region, b: Block, tbl: Table, env: Env, s: State, k: nat, env1: Env, t1: State)
    requires BlockOk(R, b) && 0 < k <= |Insns(R, b)| && Guarded(R, s, k) && InBody(R, b, tbl, env, s, k - 1, env1, t1)
    ensures OkStep(R, t1) && t1.pc == InsnAddr(R, b, k - 1)
  {
    hide OkStep, IsControl, Translatable, RegsAgree, Past, ExecBody, SameBut, Untouched, ValidState, Insns, BodyStmts,
         BodyTable;
    if k > 1 {
      InsnOk(R, b, k - 2);
    }
  }

  /** The k-th instruction of b in the interpreter and in the generated code. */
  ghost predicate InStep(R: Region, b: Block, k: int, tbl: Table, env: Env, t: State, env': Env, u: State)
    requires 0 <= k < |Insns(R, b)|
  {
    var i := Insns(R, b)[k];
    && Interpret(t) == Some(u)
    && ExecBody(GenStmts(i, b, k, tbl), env, t.mem) == Some((env', u.mem))
    && RegsAgree(GenTable(i, b, k, t.pc, tbl), env', u) && Past(b, k + 1, GenTable(i, b, k, t.pc, tbl))
    && SameBut(b, env, env') && ValidState(u) && u.brk == t.brk
    && (forall r :: 0 <= r < 32 && Defines(i) != Some(r) ==> Reg(u, r) == Reg(t, r))
    && (!IsControl(i) ==> u.pc == Wrap(t.pc + 4))
  }

  lemma InsnStep(R: Region, b: Block, k: int, tbl: Table, env: Env, t: State) returns (env': Env, u: State)
    requires b in R.g.nodes && 0 <= k < |Insns(R, b)| && Translatable(Insns(R, b)[k])
    requires OkStep(R, t) && t.pc == InsnAddr(R, b, k) && KnowsReads(tbl, Insns(R, b)[k])
    requires RegsAgree(tbl, env, t) && Past(b, k, tbl) && ValidState(t)
    ensures InStep(R, b, k, tbl, env, t, env', u)
  {
    hide KnowsReads, Past, ExecBody, SameBut, OkStep, Interpret, GenTable, GenStmts, Exec, LinkOk, IsControl,
         Translatable, Defines, InsnAddr, RegsAgree;
    var i := Insns(R, b)[k];
    var u0 := StepAt(R, b, k, t);
    env' := InsnSim(i, b, k, tbl, env, t, u0);
    ExecKeeps(i, t, u0);
    u := u0.(icnt := (t.icnt + 1) % DWORD);
    SameRegs(GenTable(i, b, k, t.pc, tbl), env', u0, u);
  }

  lemma SameRegs(tbl: Table, env: Env, t: State, u: State)
    requires RegsAgree(tbl, env, t) && u.gpr == t.gpr
    ensures RegsAgree(tbl, env, u)
  {
  }

  lemma BodyStep(R: Region, b: Block, tbl: Table, env: Env, s: State, k: nat, env1: Env, t1: State)
    returns (env': Env, t: State)
    requires b in R.g.nodes && 0 < k <= |Insns(R, b)| && Translatable(Insns(R, b)[k - 1])
    requires InBody(R, b, tbl, env, s, k - 1, env1, t1) && OkStep(R, t1) && t1.pc == InsnAddr(R, b, k - 1)
    requires KnowsReads(BodyTable(R, b, tbl, k - 1), Insns(R, b)[k - 1])
    ensures InBody(R, b, tbl, env, s, k, env', t)
  {
    hide *;
    BodyNow(R, b, tbl, env, s, k - 1, env1, t1);
    env', t := InsnStep(R, b, k - 1, BodyTable(R, b, tbl, k - 1), env1, t1);
    BodyNext(R, b, tbl, env, s, k, env1, t1, env', t);
  }

  lemma BodyNow(R: Region, b: Block, tbl: Table, env: Env, s: State, k: nat, env1: Env, t1: State)
    requires InBody(R, b, tbl, env, s, k, env1, t1)
    ensures k <= |Insns(R, b)| && RegsAgree(BodyTable(R, b, tbl, k), env1, t1) && Past(b, k, BodyTable(R, b, tbl, k))
    ensures ValidState(t1)
  {
    hide BodyTable, BodyStmts, Insns, RegsAgree, Past, ValidState, ExecBody, InterpretN;
  }

  lemma BodyNext(R: Region, b: Block, tbl: Table, env: Env, s: State, k: nat, env1: Env, t1: State, env': Env, t: State)
    requires b in R.g.nodes && 0 < k <= |Insns(R, b)| && Translatable(Insns(R, b)[k - 1])
    requires InBody(R, b, tbl, env, s, k - 1, env1, t1) && t1.pc == InsnAddr(R, b, k - 1)
    requires InStep(R, b, k - 1, BodyTable(R, b, tbl, k - 1), env1, t1, env', t)
    ensures InBody(R, b, tbl, env, s, k, env', t)
  {
    hide RegsAgree, Past, ExecBody, SameBut, Untouched, ValidState, Interpret, GenTable, GenStmts, IsControl,
         Translatable, Defines, InsnAddr, Reg;
    ExecBodyAppend(BodyStmts(R, b, tbl, k - 1), GenStmts(Insns(R, b)[k - 1], b, k - 1, BodyTable(R, b, tbl, k - 1)),
      env, s.mem);
    SameButTrans(b, env, env1, env');
    NextAddr(R, b, k - 1);
    UntouchedStep(R, b, k - 1, s, t1, t);
  }
}
