/** Translation preserves meaning: every run of a region's generated code is a run of the interpreter. */
module Meaning {
  import opened Graphs
  import opened Rv32
  import opened SsaIr
  import opened CodeGen
  import opened SsaForm
  import opened SsaRun
  import opened Refinement
  import opened MachineFacts
  import opened Vars

  // ---------- entering a block ----------

  /** Nothing that b creates reaches b through the table of its immediate dominator. */
  lemma AboveElsewhere(R: Region, d: Block, b: Block, above: Table)
    requires WellFormed(R.g) && b in R.g.nodes && IsIdom(R.g, d, b) && DominatedTable(R, d, above)
    ensures forall v :: v in above ==> Home(R, above[v]) != b
  {
    forall v | v in above
      ensures Home(R, above[v]) != b
    {
      if Home(R, above[v]) == b {
        DomAntisym(R.g, d, b);
      }
    }
  }

  /** The phis of a block take the values their variables have on the edge. */
  lemma EnterEffect(T: Translation, from: Block, to: Block, env: Env, s: State)
    requires forall v :: v in PhisOf(T, to) ==> EvalValue(env, Incoming(T, to, v, from)) == Some(VarVal(s, v))
    ensures PhisReady(T, from, to, env)
    ensures forall v :: v in PhisOf(T, to) ==> EvalValue(EnterPhis(T, from, to, env), Phi(to, v)) == Some(VarVal(s, v))
    ensures forall val: Value :: (val.Phi? ==> val.b != to) ==>
      EvalValue(EnterPhis(T, from, to, env), val) == EvalValue(env, val)
  {
    hide Incoming, PhisOf;
  }

  lemma OperandAgrees(R: Region, T: Translation, from: Block, to: Block, env: Env, s: State, v: Var)
    requires Patched(R, T, to) && v in PhisOf(T, to) && from in Preds(R.g, to)
    requires from in T.tables && FullTable(R, T.tables[from]) && Tracked(R, v) && Agree(T.tables[from], env, s)
    ensures EvalValue(env, Incoming(T, to, v, from)) == Some(VarVal(s, v))
  {
    hide Tracked, EvalValue;
    assert v in T.tables[from];
  }

  /** Whether or not a variable has a phi in b, the table at the start of b names its value on the edge. */
  lemma PhiTableAgrees(R: Region, T: Translation, from: Block, b: Block, above: Table, last: Table, env: Env, s: State)
    requires b in T.phis && FullTable(R, above) && FullTable(R, last) && Agree(last, env, s)
    requires forall v :: v in above ==> Home(R, above[v]) != b
    requires forall v :: v !in T.phis[b] ==> Lookup(last, v) == Lookup(above, v)
    requires forall v :: v in T.phis[b] ==>
      Tracked(R, v) && EvalValue(env, Incoming(T, b, v, from)) == Some(VarVal(s, v))
    ensures PhisReady(T, from, b, env)
    ensures Agree(WithPhiValues(b, above, T.phis[b]), EnterPhis(T, from, b, env), s)
  {
    EnterEffect(T, from, b, env, s);
    var env1 := EnterPhis(T, from, b, env);
    var tbl := WithPhiValues(b, above, T.phis[b]);
    hide EnterPhis, Incoming, EvalValue, Tracked, PhisReady;
    forall v | v in tbl
      ensures EvalValue(env1, tbl[v]) == Some(VarVal(s, v))
    {
      if v in T.phis[b] {
        assert v in PhisOf(T, b);
      } else {
        assert v in above && v in last && last[v] == above[v];
        assert Home(R, above[v]) != b;
      }
    }
  }

  /** Entering a block: its phis are defined, and its starting table names the values of the variables. */
  lemma EnterSim(R: Region, idom: map<Block, Block>, T: Translation, from: Block, b: Block, env: Env, s: State)
    requires WellFormedRegion(R) && IsTranslation(R, idom, T) && b in R.g.nodes && b != R.g.entry
    requires from in Preds(R.g, b)
    requires from in T.tables && Agree(T.tables[from], env, s)
    ensures b in idom && idom[b] in T.tables && b in T.phis && PhisReady(T, from, b, env)
    ensures Agree(WithPhiValues(b, T.tables[idom[b]], T.phis[b]), EnterPhis(T, from, b, env), s)
    ensures forall v :: v in T.tables[idom[b]] ==> Home(R, T.tables[idom[b]][v]) != b
  {
    hide *;
    TranslationAt(R, idom, T, b);
    EdgeEnds(R.g, from, b);
    var d := idom[b];
    TablesGood(R, idom, T, d);
    TablesGood(R, idom, T, from);
    GoodParts(R, d, T.tables[d]);
    GoodParts(R, from, T.tables[from]);
    AboveElsewhere(R, d, b, T.tables[d]);
    IdomPred(R.g, d, b, from);
    DomRefl(R.g, from);
    forall v | v in T.phis[b]
      ensures Tracked(R, v) && EvalValue(env, Incoming(T, b, v, from)) == Some(VarVal(s, v))
    {
      PhisOfIs(T, b);
      OperandAgrees(R, T, from, b, env, s, v);
    }
    forall v | v !in T.phis[b]
      ensures Lookup(T.tables[from], v) == Lookup(T.tables[d], v)
    {
      NoPhiSame(R, idom, T, b, from, from, v);
    }
    PhiTableAgrees(R, T, from, b, T.tables[d], T.tables[from], env, s);
  }

  lemma PhisOfIs(T: Translation, b: Block)
    requires b in T.phis
    ensures PhisOf(T, b) == T.phis[b]
  {
  }

  lemma EdgeEnds(g: Graph, x: Block, y: Block)
    requires WellFormed(g) && x in Preds(g, y)
    ensures x in g.nodes && y in g.nodes && y in Succs(g, x)
  {
  }

  lemma GoodParts(R: Region, b: Block, tbl: Table)
    requires GoodTable(R, b, tbl)
    ensures FullTable(R, tbl) && DominatedTable(R, b, tbl)
  {
  }

  // ---------- through a block ----------

  /** env once b has advanced the instruction count by n. */
  ghost function Counted(env: Env, b: Block, s: State, n: int): Env {
    env[Count(b) := (s.icnt + n) % DWORD]
  }

  /** The block's count is added up before its instructions run. */
  lemma CountSim(R: Region, b: Block, above: Table, vs: set<Var>, env: Env, s: State, n: int, mem: map<int, int>)
    requires Agree(WithPhiValues(b, above, vs), env, s) && Icnt in WithPhiValues(b, above, vs)
    requires forall v :: v in above ==> Home(R, above[v]) != b
    ensures var e := Counted(env, b, s, n);
            && ExecBody([CountStmt(b, WithPhiValues(b, above, vs), n)], env, mem) == Some((e, mem))
            && RegsAgree(StartTable(b, above, vs), e, s)
            && Past(b, 0, StartTable(b, above, vs))
  {
    var tbl := WithPhiValues(b, above, vs);
    var st := CountStmt(b, tbl, n);
    assert [st][..0] == [];
    assert Eval(env, Use(Lookup(tbl, Icnt))) == Some(s.icnt);
    assert Eval(env, Num(n)) == Some(n);
    assert Eval(env, st.e) == Some((s.icnt + n) % DWORD);
    hide Eval, EvalBin;
    assert ExecBody([st], env, mem) == Some((env[Count(b) := (s.icnt + n) % DWORD], mem));
    hide ExecBody, ExecStmt;
    var start := StartTable(b, above, vs);
    forall r: int | Gpr(r) in start
      ensures start[Gpr(r)] == tbl[Gpr(r)] && tbl[Gpr(r)] != Count(b) && (tbl[Gpr(r)].Def? ==> tbl[Gpr(r)].b != b)
    {
      assert Gpr(r) in tbl && start[Gpr(r)] == tbl[Gpr(r)];
    }
  }

  /** The instruction count after n steps. */
  lemma {:induction false} CountAfter(s: State, n: nat)
    requires InterpretN(s, n).Some? && n > 0
    ensures InterpretN(s, n).value.icnt == (s.icnt + n) % DWORD
    decreases n
  {
    hide Fetch, Exec;
    if n > 1 {
      CountAfter(s, n - 1);
      var x := InterpretN(s, n - 1).value.icnt;
      assert Interpret(InterpretN(s, n - 1).value).Some?;
      NextCount(s.icnt + n - 1);
    } else {
      assert InterpretN(s, 0) == Some(s);
    }
  }

  lemma NextCount(x: int)
    ensures (x % DWORD + 1) % DWORD == (x + 1) % DWORD
  {
  }

  /** The table at the end of b holds b's count. */
  lemma {:induction false} BodyKeepsCount(R: Region, b: Block, tbl: Table, n: nat)
    requires n <= |Insns(R, b)| && BlockOk(R, b) && Icnt in tbl
    ensures Icnt in BodyTable(R, b, tbl, n) && BodyTable(R, b, tbl, n)[Icnt] == tbl[Icnt]
  {
    if n > 0 {
      BodyKeepsCount(R, b, tbl, n - 1);
      GenTableEffect(R, b, n - 1, BodyTable(R, b, tbl, n - 1));
      hide GenTable, Translatable;
    }
  }

  /** The last instruction of b has taken the machine from u to the registers and the pc of t. */
  ghost predicate LastStep(R: Region, b: Block, u: State, t: State) {
    var n := |Insns(R, b)|;
    && n > 0
    && u.pc == InsnAddr(R, b, n - 1) && ValidState(u)
    && exists w :: Exec(Insns(R, b)[n - 1], u) == Some(w) && w.gpr == t.gpr && w.pc == t.pc
  }

  /** The same, with a step that was sound for a linking jump. */
  ghost predicate Ended(R: Region, b: Block, u: State, t: State) {
    LastStep(R, b, u, t) && LinkOk(Insns(R, b)[|Insns(R, b)| - 1], u)
  }

  /** u is the interpreter's state before the last instruction of b, where s is the one at its start. */
  ghost predicate JustBefore(R: Region, b: Block, s: State, u: State) {
    |Insns(R, b)| > 0 && InterpretN(s, |Insns(R, b)| - 1) == Some(u)
  }

  /** Through the instructions of a block: memory, registers and count are the interpreter's. */
  lemma BlockSim(R: Region, idom: map<Block, Block>, T: Translation, from: Block, b: Block, env: Env, s: State)
    returns (env': Env, u: State, t: State)
    requires WellFormedRegion(R) && IsTranslation(R, idom, T) && b in R.g.nodes && b != R.g.entry
    requires from in Preds(R.g, b)
    requires from in T.tables && Agree(T.tables[from], env, s) && ValidState(s) && s.pc == Addr(R, b)
    requires Guarded(R, s, |Insns(R, b)|)
    ensures b in T.code && b in T.tables && PhisReady(T, from, b, env)
    ensures ExecBody(T.code[b].body, EnterPhis(T, from, b, env), s.mem) == Some((env', t.mem))
    ensures InterpretN(s, |Insns(R, b)|) == Some(t) && Ended(R, b, u, t) && JustBefore(R, b, s, u)
    ensures Agree(T.tables[b], env', t) && ValidState(t) && t.brk == s.brk && Untouched(R, s, t)
  {
    hide *;
    var n := |Insns(R, b)|;
    TranslationAt(R, idom, T, b);
    EnterSim(R, idom, T, from, b, env, s);
    var d := idom[b];
    TablesGood(R, idom, T, d);
    var phiTable := WithPhiValues(b, T.tables[d], T.phis[b]);
    var tbl := StartTable(b, T.tables[d], T.phis[b]);
    RenamedTable(R, idom, T, b);
    RenamedParts(R, idom, T, b);
    var env1 := EnterPhis(T, from, b, env);
    HasCount(R, b, phiTable);
    CountSim(R, b, T.tables[d], T.phis[b], env1, s, n, s.mem);
    var env2 := Counted(env1, b, s, n);
    ExecBodyAppend([CountStmt(b, phiTable, n)], BodyStmts(R, b, tbl, n), env1, s.mem);
    StartHasCount(b, T.tables[d], T.phis[b]);
    env', u, t := BodyEnd(R, b, tbl, env2, s);
    BodyKeepsCount(R, b, tbl, n);
    AgreeAtEnd(R, b, tbl, env2, s, env', t);
  }

  lemma HasCount(R: Region, b: Block, tbl: Table)
    requires GoodTable(R, b, tbl)
    ensures Icnt in tbl
  {
  }

  lemma StartHasCount(b: Block, above: Table, vs: set<Var>)
    ensures Icnt in StartTable(b, above, vs) && StartTable(b, above, vs)[Icnt] == Count(b)
  {
  }

  lemma RenamedParts(R: Region, idom: map<Block, Block>, T: Translation, b: Block)
    requires Renamed(R, idom, T, b) && BlockOk(R, b)
    ensures |Insns(R, b)| > 0 && b in T.code && b in T.tables
    ensures T.tables[b] == BodyTable(R, b, StartTable(b, T.tables[idom[b]], T.phis[b]), |Insns(R, b)|)
    ensures T.code[b].body == [CountStmt(b, WithPhiValues(b, T.tables[idom[b]], T.phis[b]), |Insns(R, b)|)]
                              + BodyStmts(R, b, StartTable(b, T.tables[idom[b]], T.phis[b]), |Insns(R, b)|)
    ensures IsTerm(R, b, T.tables[b], T.code[b].term)
  {
    hide IsTerm, BodyTable, StartTable, BodyStmts, CountStmt, WithPhiValues;
  }

  /** The body of a block with its last step set apart. */
  lemma BodyEnd(R: Region, b: Block, tbl: Table, env: Env, s: State) returns (env': Env, u: State, t: State)
    requires WellFormed(R.g) && b in R.g.nodes && BlockOk(R, b) && GoodTable(R, b, tbl) && |Insns(R, b)| > 0
    requires Past(b, 0, tbl) && RegsAgree(tbl, env, s) && ValidState(s) && s.pc == Addr(R, b)
    requires Guarded(R, s, |Insns(R, b)|)
    ensures InBody(R, b, tbl, env, s, |Insns(R, b)|, env', t) && Ended(R, b, u, t) && JustBefore(R, b, s, u)
  {
    hide *;
    var n := |Insns(R, b)|;
    GuardedLess(R, s, n);
    var env1, t1 := BodySim(R, b, tbl, env, s, n - 1);
    OkInBody(R, b, tbl, env, s, n, env1, t1);
    var w := StepAt(R, b, n - 1, t1);
    BodyNow(R, b, tbl, env, s, n - 1, env1, t1);
    env', t := BodySim(R, b, tbl, env, s, n);
    u := t1;
    EndedAt(R, b, tbl, env, s, env1, u, w, env', t);
  }

  lemma EndedAt(R: Region, b: Block, tbl: Table, env: Env, s: State, env1: Env, u: State, w: State, env': Env, t: State)
    requires |Insns(R, b)| > 0 && InBody(R, b, tbl, env, s, |Insns(R, b)| - 1, env1, u)
    requires InBody(R, b, tbl, env, s, |Insns(R, b)|, env', t)
    requires u.pc == InsnAddr(R, b, |Insns(R, b)| - 1) && ValidState(u)
    requires LinkOk(Insns(R, b)[|Insns(R, b)| - 1], u) && Exec(Insns(R, b)[|Insns(R, b)| - 1], u) == Some(w)
    requires Interpret(u) == Some(w.(icnt := (u.icnt + 1) % DWORD))
    ensures Ended(R, b, u, t) && JustBefore(R, b, s, u)
  {
    hide BodyTable, BodyStmts, RegsAgree, Past, ValidState, ExecBody, Exec, LinkOk, Insns, Interpret, SameBut,
         Untouched, IsControl, InsnAddr;
  }

  lemma AgreeAtEnd(R: Region, b: Block, tbl: Table, env: Env, s: State, env': Env, t: State)
    requires InBody(R, b, tbl, env, s, |Insns(R, b)|, env', t) && |Insns(R, b)| > 0
    requires exists e :: env == Counted(e, b, s, |Insns(R, b)|)
    requires var e := BodyTable(R, b, tbl, |Insns(R, b)|); Icnt in e && e[Icnt] == Count(b)
    ensures Agree(BodyTable(R, b, tbl, |Insns(R, b)|), env', t) && ValidState(t) && t.brk == s.brk && Untouched(R, s, t)
    ensures InterpretN(s, |Insns(R, b)|) == Some(t)
    ensures ExecBody(BodyStmts(R, b, tbl, |Insns(R, b)|), env, s.mem) == Some((env', t.mem))
  {
    hide BodyTable, BodyStmts, Past, ValidState, ExecBody, Insns, Untouched, IsControl, InsnAddr, InterpretN;
    CountAfter(s, |Insns(R, b)|);
    assert Count(b) in env' && env'[Count(b)] == env[Count(b)];
  }

  // ---------- leaving a block ----------

  /** The state t after a block, as its terminator finds it. */
  ghost predicate AtEnd(R: Region, s0: State, tbl: Table, env: Env, t: State) {
    FullTable(R, tbl) && Agree(tbl, env, t) && ValidState(t) && t.brk == s0.brk && Untouched(R, s0, t)
  }

  /** b has no successor at the address pc. */
  ghost predicate NoSuccAt(R: Region, b: Block, pc: int) {
    forall s :: !SuccAt(R, b, pc, s)
  }

  /** Either the code goes on along an edge to the block at t's pc, or there is none and it has returned t. */
  ghost predicate Leaves(R: Region, b: Block, env: Env, t: State, steps: nat, c: Config) {
    || (c.Running? && c.from == b && c.to in Succs(R.g, b) && Addr(R, c.to) == t.pc && c.env == env && c.mem == t.mem
       && c.steps == steps)
    || (c == Exited(t, b, steps) && NoSuccAt(R, b, t.pc))
  }

  /** An abort block restores exactly the interpreter's state. */
  lemma AbortSim(R: Region, s0: State, b: Block, tbl: Table, env: Env, t: State, pc: Expr, steps: nat)
    requires b in R.g.nodes && R.g.entry in R.g.nodes && AtEnd(R, s0, tbl, env, t) && Eval(env, pc) == Some(t.pc)
    ensures RunTarget(s0, b, Abort(pc, Saves(R, tbl)), env, t.mem, steps) == Exited(t, b, steps)
  {
    var saves := Saves(R, tbl);
    hide IsRead, DefinesVar, EvalValue, Eval;
    CountDefined(R, b);
    forall v | v in saves
      ensures EvalValue(env, saves[v]) == Some(VarVal(t, v))
    {
      assert v in tbl;
    }
    assert Icnt in saves;
    var u := Stored(s0, t.pc, env, saves, t.mem);
    forall r | 0 <= r < 32
      ensures u.gpr[r] == t.gpr[r]
    {
      SavedOrUntouched(R, s0, tbl, t, r);
    }
    assert u.gpr == t.gpr;
  }

  lemma CountDefined(R: Region, b: Block)
    requires b in R.g.nodes
    ensures Defs(R, Icnt) != {}
  {
    var d := set c | c in R.g.nodes && DefinesVar(R, c, Icnt);
    assert b in d;
  }

  lemma SavedOrUntouched(R: Region, s0: State, tbl: Table, t: State, r: int)
    requires FullTable(R, tbl) && Untouched(R, s0, t) && 0 <= r < 32
    ensures Gpr(r) in Saves(R, tbl) || Reg(s0, r) == Reg(t, r)
  {
    hide IsRead;
    if Defs(R, Gpr(r)) != {} {
      assert Tracked(R, Gpr(r));
    }
  }

  /** A direct exit to pc. */
  lemma TargetSim(R: Region, s0: State, b: Block, tbl: Table, u: Target, env: Env, t: State, steps: nat)
    requires b in R.g.nodes && R.g.entry in R.g.nodes && AtEnd(R, s0, tbl, env, t) && IsTarget(R, b, t.pc, tbl, u)
    ensures Leaves(R, b, env, t, steps, RunTarget(s0, b, u, env, t.mem, steps))
  {
    hide AtEnd, Saves, Stored, SavesReady;
    if u.Abort? {
      assert Eval(env, u.pc) == Some(t.pc);
      AbortSim(R, s0, b, tbl, env, t, u.pc, steps);
    }
  }

  /** The compare chain finds a successor at pc whenever it finds one at all. */
  lemma {:induction false} PickAt(pc: int, cases: seq<(int, Block)>)
    ensures Pick(pc, cases).Some? ==> (pc, Pick(pc, cases).value) in cases
    ensures Pick(pc, cases).None? ==> forall c :: c in cases ==> c.0 != pc
  {
    if cases != [] && cases[0].0 != pc {
      PickAt(pc, cases[1..]);
      assert forall c :: c in cases ==> c == cases[0] || c in cases[1..];
    } else if cases != [] {
      assert (pc, cases[0].1) == cases[0];
    }
  }

  lemma ChainSim(R: Region, s0: State, b: Block, tbl: Table, term: Term, env: Env, t: State, steps: nat)
    requires b in R.g.nodes && R.g.entry in R.g.nodes && AtEnd(R, s0, tbl, env, t)
    requires term.Chain? && IsChain(R, b, term.cases) && term.otherwise == Abort(term.pc, Saves(R, tbl))
    requires Eval(env, term.pc) == Some(t.pc)
    ensures Leaves(R, b, env, t, steps, RunTerm(s0, b, term, env, t.mem, steps))
  {
    hide AtEnd, Saves, Stored, SavesReady, Eval, Pick, RunTarget;
    PickAt(t.pc, term.cases);
    AbortSim(R, s0, b, tbl, env, t, term.pc, steps);
  }

  /** The address that the compare chain of a linking jalr tests is the interpreter's target exactly when LinkOk says
      so. */
  lemma LinkExact(i: Insn, tbl: Table, env: Env, u: State, w: State)
    requires Translatable(i) && i.Jalr? && i.rd != 0 && ValidState(u) && Exec(i, u) == Some(w)
    requires RegsAgree(tbl, env, w) && Gpr(i.rs1) in tbl
    ensures Eval(env, RegVal(tbl, i.rs1)) == Some(w.pc) <==> LinkOk(i, u)
  {
    RegAgrees(tbl, env, w, i.rs1);
    hide RegsAgree, Eval;
    var x := Reg(u, i.rs1);
    if i.rd != i.rs1 {
      assert Reg(w, i.rs1) == x;
      EvenTarget(x, i.imm);
    }
  }

  /** The chain of a linking jalr leaves the block as the interpreter does if and only if LinkOk says so. */
  lemma LinkLeaves(R: Region, s0: State, b: Block, tbl: Table, term: Term, env: Env, u: State, t: State, steps: nat)
    requires b in R.g.nodes && R.g.entry in R.g.nodes && BlockOk(R, b) && AtEnd(R, s0, tbl, env, t)
    requires LastStep(R, b, u, t)
    requires IsTerm(R, b, tbl, term) && KnowsReads(tbl, Insns(R, b)[|Insns(R, b)| - 1])
    requires Insns(R, b)[|Insns(R, b)| - 1].Jalr? && Insns(R, b)[|Insns(R, b)| - 1].rd != 0
    ensures Leaves(R, b, env, t, steps, RunTerm(s0, b, term, env, t.mem, steps)) <==>
      LinkOk(Insns(R, b)[|Insns(R, b)| - 1], u)
  {
    var i := Insns(R, b)[|Insns(R, b)| - 1];
    hide Leaves, RunTerm, IsTarget, LinkOk, InsnAddr, RegVal, Eval, RegsAgree, Untouched, FullTable, JalrTarget,
         IsChain,
         Saves;
    InsnOk(R, b, |Insns(R, b)| - 1);
    assert Reads(i, i.rs1);
    AgreeRegs(tbl, env, t);
    var w := Exec(i, u).value;
    SameRegs(tbl, env, t, w);
    LinkExact(i, tbl, env, u, w);
    if LinkOk(i, u) {
      JalrSim(R, s0, b, tbl, term, env, u, t, steps);
    } else {
      ChainStrays(R, s0, b, term, env, t, steps);
    }
  }

  /** A chain that tests another address than the interpreter's goes somewhere else. */
  lemma ChainStrays(R: Region, s0: State, b: Block, term: Term, env: Env, t: State, steps: nat)
    requires term.Chain? && IsChain(R, b, term.cases) && term.otherwise.Abort? && term.otherwise.pc == term.pc
    requires Eval(env, term.pc) != Some(t.pc)
    ensures !Leaves(R, b, env, t, steps, RunTerm(s0, b, term, env, t.mem, steps))
  {
    hide Eval, SavesReady, Pick;
    if Eval(env, term.pc).Some? {
      PickAt(Eval(env, term.pc).value, term.cases);
    }
  }

  /** The immediates that leave an address alone. */
  lemma EvenTarget(x: int, imm: int)
    requires 0 <= x < WORD && 0 <= imm < WORD
    ensures JalrTarget(x, imm) == x <==> x % 2 == 0 && (imm == 0 || imm == 1)
  {
  }

  lemma MaskedTarget(x: int, imm: int)
    ensures EvalBin(IAnd, Wrap(x + imm), WORD - 2) == Some(JalrTarget(x, imm))
  {
    hide And32, Or32, Xor32, Shl32, Lshr32, Ashr32, TruncDiv, TruncRem, Signed, Signed64;
    MaskEven(Wrap(x + imm));
  }

  /** The computed target of a jr. */
  lemma JrTarget(i: Insn, tbl: Table, env: Env, s: State)
    requires Translatable(i) && i.Jalr? && RegsAgree(tbl, env, s) && Gpr(i.rs1) in tbl
    ensures Eval(env, Bin(IAnd, Bin(IAdd, RegVal(tbl, i.rs1), Num(i.imm)), Num(WORD - 2))) ==
            Some(JalrTarget(Reg(s, i.rs1), i.imm))
  {
    hide RegsAgree, EvalBin, RegVal, JalrTarget, Wrap, Reg, Translatable;
    RegisterOf(i);
    AddrRuns(tbl, env, s, i.rs1, i.imm);
    MaskedTarget(Reg(s, i.rs1), i.imm);
    assert Eval(env, Num(WORD - 2)) == Some(WORD - 2);
  }

  lemma RegisterOf(i: Insn)
    requires Translatable(i) && i.Jalr?
    ensures 0 <= i.rs1 < 32
  {
  }

  lemma CmpTaken(c: Cond, x: int, y: int)
    ensures EvalCmp(CmpOf(c), x, y) == Taken(c, x, y)
  {
  }

  lemma AgreeRegs(tbl: Table, env: Env, s: State)
    requires Agree(tbl, env, s)
    ensures RegsAgree(tbl, env, s)
  {
  }

  lemma FallSim(R: Region, s0: State, b: Block, tbl: Table, term: Term, env: Env, u: State, t: State, steps: nat)
    requires b in R.g.nodes && R.g.entry in R.g.nodes && BlockOk(R, b) && AtEnd(R, s0, tbl, env, t) && Ended(R, b, u, t)
    requires IsTerm(R, b, tbl, term) && !IsControl(Insns(R, b)[|Insns(R, b)| - 1])
    ensures Leaves(R, b, env, t, steps, RunTerm(s0, b, term, env, t.mem, steps))
  {
    var n := |Insns(R, b)|;
    hide AtEnd, Leaves, RunTarget, IsTarget, Exec, LinkOk, InsnAddr;
    InsnOk(R, b, n - 1);
    var w := Exec(Insns(R, b)[n - 1], u).value;
    ExecKeeps(Insns(R, b)[n - 1], u, w);
    NextAddr(R, b, n - 1);
    TargetSim(R, s0, b, tbl, term.t, env, t, steps);
  }

  lemma BranchSim(R: Region, s0: State, b: Block, tbl: Table, term: Term, env: Env, u: State, t: State, steps: nat)
    requires b in R.g.nodes && R.g.entry in R.g.nodes && BlockOk(R, b) && AtEnd(R, s0, tbl, env, t) && Ended(R, b, u, t)
    requires IsTerm(R, b, tbl, term) && Insns(R, b)[|Insns(R, b)| - 1].Branch?
    requires KnowsReads(tbl, Insns(R, b)[|Insns(R, b)| - 1])
    ensures Leaves(R, b, env, t, steps, RunTerm(s0, b, term, env, t.mem, steps))
  {
    var i := Insns(R, b)[|Insns(R, b)| - 1];
    hide Leaves, RunTarget, IsTarget, LinkOk, InsnAddr, CmpOf, EvalCmp, Taken, RegVal, Eval, RegsAgree, Untouched,
         FullTable;
    InsnOk(R, b, |Insns(R, b)| - 1);
    assert Reads(i, i.rs1) && Reads(i, i.rs2);
    AgreeRegs(tbl, env, t);
    RegAgrees(tbl, env, t, i.rs1);
    RegAgrees(tbl, env, t, i.rs2);
    CmpTaken(i.cond, Reg(u, i.rs1), Reg(u, i.rs2));
    var taken := Taken(i.cond, Reg(u, i.rs1), Reg(u, i.rs2));
    if term.Br? {
      TargetSim(R, s0, b, tbl, term.t, env, t, steps);
    } else if taken {
      TargetSim(R, s0, b, tbl, term.yes, env, t, steps);
    } else {
      TargetSim(R, s0, b, tbl, term.no, env, t, steps);
    }
  }

  lemma JalSim(R: Region, s0: State, b: Block, tbl: Table, term: Term, env: Env, u: State, t: State, steps: nat)
    requires b in R.g.nodes && BlockOk(R, b) && JumpOk(R, b) && Ended(R, b, u, t)
    requires IsTerm(R, b, tbl, term) && Insns(R, b)[|Insns(R, b)| - 1].Jal?
    ensures Leaves(R, b, env, t, steps, RunTerm(s0, b, term, env, t.mem, steps))
  {
    hide InsnAddr, LinkOk, BlockOk;
  }

  lemma JalrSim(R: Region, s0: State, b: Block, tbl: Table, term: Term, env: Env, u: State, t: State, steps: nat)
    requires b in R.g.nodes && R.g.entry in R.g.nodes && BlockOk(R, b) && AtEnd(R, s0, tbl, env, t) && Ended(R, b, u, t)
    requires IsTerm(R, b, tbl, term) && Insns(R, b)[|Insns(R, b)| - 1].Jalr?
    requires KnowsReads(tbl, Insns(R, b)[|Insns(R, b)| - 1])
    ensures Leaves(R, b, env, t, steps, RunTerm(s0, b, term, env, t.mem, steps))
  {
    var i := Insns(R, b)[|Insns(R, b)| - 1];
    hide Leaves, RunTerm, IsTarget, LinkOk, InsnAddr, RegVal, Eval, RegsAgree, Untouched, FullTable, JalrTarget,
         IsChain, Saves;
    InsnOk(R, b, |Insns(R, b)| - 1);
    assert Reads(i, i.rs1);
    AgreeRegs(tbl, env, t);
    if i.rd == 0 {
      JrTarget(i, tbl, env, t);
    } else {
      var w := Exec(i, u).value;
      SameRegs(tbl, env, t, w);
      LinkExact(i, tbl, env, u, w);
    }
    ChainSim(R, s0, b, tbl, term, env, t, steps);
  }

  /** The terminator takes the edge to the block at the interpreter's pc, or returns its state. */
  lemma TermSim(R: Region, s0: State, b: Block, tbl: Table, term: Term, env: Env, u: State, t: State, steps: nat)
    requires b in R.g.nodes && R.g.entry in R.g.nodes && BlockOk(R, b) && JumpOk(R, b) && AtEnd(R, s0, tbl, env, t)
    requires Ended(R, b, u, t)
    requires IsTerm(R, b, tbl, term) && KnowsReads(tbl, Insns(R, b)[|Insns(R, b)| - 1])
    ensures Leaves(R, b, env, t, steps, RunTerm(s0, b, term, env, t.mem, steps))
  {
    hide BlockOk, JumpOk, AtEnd, Ended, IsTerm, KnowsReads, Leaves, RunTerm;
    NonEmpty(R, b);
    match Insns(R, b)[|Insns(R, b)| - 1]
    case Branch(_, _, _, _) => BranchSim(R, s0, b, tbl, term, env, u, t, steps);
    case Jal(_, _) => JalSim(R, s0, b, tbl, term, env, u, t, steps);
    case Jalr(_, _, _) => JalrSim(R, s0, b, tbl, term, env, u, t, steps);
    case _ => FallSim(R, s0, b, tbl, term, env, u, t, steps);
  }

  lemma NonEmpty(R: Region, b: Block)
    requires BlockOk(R, b)
    ensures |Insns(R, b)| > 0
  {
  }

  // ---------- whole runs ----------

  /** The code is on an edge, and the interpreter, in state s, at the block it leads to. */
  ghost predicate Sim(R: Region, T: Translation, s0: State, c: Config, s: State) {
    && c.Running? && c.to in R.g.nodes && c.to != R.g.entry && c.from in Preds(R.g, c.to)
    && c.from in T.tables && Agree(T.tables[c.from], c.env, s)
    && s.pc == Addr(R, c.to) && s.mem == c.mem
    && ValidState(s) && s.brk == s0.brk && Untouched(R, s0, s)
  }

  /** Control can go from the last instruction of b to the address pc. */
  ghost predicate EndGoes(R: Region, b: Block, pc: int) {
    var n := |Insns(R, b)|;
    n > 0 && GoesTo(Insns(R, b)[n - 1], InsnAddr(R, b, n - 1), pc)
  }

  lemma EndedGoes(R: Region, b: Block, u: State, t: State)
    requires Ended(R, b, u, t)
    ensures EndGoes(R, b, t.pc) && |Insns(R, b)| > 0
  {
    hide Compute, LoadFrom, StoreTo, InsnAddr, LinkOk, ValidState;
  }

  /** The code has returned the state t from a block of the region for where control can go from there, and where the
      block has no successor. */
  ghost predicate Returned(R: Region, s0: State, c: Config, t: State) {
    && c.Exited? && c.state == t && c.steps > 0 && ValidState(t) && t.brk == s0.brk
    && c.from in R.g.nodes && c.from != R.g.entry && EndGoes(R, c.from, t.pc) && NoSuccAt(R, c.from, t.pc)
  }

  /** The last instruction that the interpreter has executed, after n of them, is the last one of b. */
  ghost predicate Ending(R: Region, b: Block, s: State, n: nat) {
    && n > 0 && InterpretN(s, n - 1).Some?
    && InterpretN(s, n - 1).value.pc == InsnAddr(R, b, |Insns(R, b)| - 1)
  }

  lemma EndedBefore(R: Region, b: Block, s: State, u: State, t: State)
    requires JustBefore(R, b, s, u) && Ended(R, b, u, t)
    ensures Ending(R, b, s, |Insns(R, b)|)
  {
    hide InterpretN, InsnAddr, LinkOk, Exec, ValidState;
  }

  lemma EndingLater(R: Region, b: Block, s: State, m: nat, n: nat)
    requires InterpretN(s, m).Some? && Ending(R, b, InterpretN(s, m).value, n)
    ensures Ending(R, b, s, m + n)
  {
    hide InterpretN, InsnAddr;
    RunsCompose(s, m, n - 1);
    assert m + n - 1 == m + (n - 1);
  }

  lemma UntouchedTrans(R: Region, s: State, t: State, u: State)
    requires Untouched(R, s, t) && Untouched(R, t, u)
    ensures Untouched(R, s, u)
  {
    hide Defs;
  }

  /** The last instruction of a block reads registers that its terminal table knows. */
  lemma EndKnows(R: Region, b: Block, tbl: Table)
    requires WellFormed(R.g) && b in R.g.nodes && BlockOk(R, b) && FullTable(R, tbl)
    ensures |Insns(R, b)| > 0 && KnowsReads(tbl, Insns(R, b)[|Insns(R, b)| - 1])
  {
    hide Tracked, WellFormed;
    var n := |Insns(R, b)|;
    InsnOk(R, b, n - 1);
    forall r: int | Reads(Insns(R, b)[n - 1], r)
      ensures Gpr(r) in tbl
    {
      ReadIsTracked(R, b, n - 1, r);
    }
  }

  lemma RegionParts(R: Region)
    requires WellFormedRegion(R)
    ensures WellFormed(R.g) && R.g.entry in R.g.nodes && R.head in R.g.nodes && R.head != R.g.entry
    ensures R.g.entry in Preds(R.g, R.head)
  {
    hide BlockOk, JumpOk;
    assert R.head in Succs(R.g, R.g.entry);
  }

  lemma StepParts(R: Region, T: Translation, s0: State, c: Config, env: Env, mem: map<int, int>)
    requires c.Running? && c.to in T.code && PhisReady(T, c.from, c.to, c.env)
    requires ExecBody(T.code[c.to].body, EnterPhis(T, c.from, c.to, c.env), c.mem) == Some((env, mem))
    ensures StepBlock(R, T, s0, c) == RunTerm(s0, c.to, T.code[c.to].term, env, mem, c.steps + |Insns(R, c.to)|)
  {
    hide PhisReady, EnterPhis, ExecBody, RunTerm;
  }

  /** A block's terminator takes over the state that its instructions left. */
  lemma EndSim(R: Region, idom: map<Block, Block>, T: Translation, s0: State, b: Block, env: Env, u: State, t: State,
               steps: nat)
    requires WellFormedRegion(R) && IsTranslation(R, idom, T) && b in R.g.nodes && b != R.g.entry
    requires b in T.tables && Agree(T.tables[b], env, t) && Ended(R, b, u, t)
    requires ValidState(t) && t.brk == s0.brk && Untouched(R, s0, t)
    ensures b in T.code && AtEnd(R, s0, T.tables[b], env, t)
    ensures Leaves(R, b, env, t, steps, RunTerm(s0, b, T.code[b].term, env, t.mem, steps))
  {
    hide *;
    RegionParts(R);
    TranslationAt(R, idom, T, b);
    TablesGood(R, idom, T, b);
    GoodParts(R, b, T.tables[b]);
    EndKnows(R, b, T.tables[b]);
    RenamedParts(R, idom, T, b);
    MakeAtEnd(R, s0, T.tables[b], env, t);
    TermSim(R, s0, b, T.tables[b], T.code[b].term, env, u, t, steps);
  }

  /** One block of the generated code is the interpreter's run through that block. */
  lemma StepSim(R: Region, idom: map<Block, Block>, T: Translation, s0: State, c: Config, s: State) returns (t: State)
    requires WellFormedRegion(R) && IsTranslation(R, idom, T) && Sim(R, T, s0, c, s)
    requires Guarded(R, s, |Insns(R, c.to)|)
    ensures InterpretN(s, |Insns(R, c.to)|) == Some(t)
    ensures StepBlock(R, T, s0, c).steps == c.steps + |Insns(R, c.to)|
    ensures Sim(R, T, s0, StepBlock(R, T, s0, c), t) || Returned(R, s0, StepBlock(R, T, s0, c), t)
    ensures Ending(R, c.to, s, |Insns(R, c.to)|)
    ensures StepBlock(R, T, s0, c).Exited? ==> StepBlock(R, T, s0, c).from == c.to
  {
    hide *;
    SimParts(R, T, s0, c, s);
    var b := c.to;
    var steps := c.steps + |Insns(R, b)|;
    RegionParts(R);
    var env, u;
    env, u, t := BlockSim(R, idom, T, c.from, b, c.env, s);
    UntouchedTrans(R, s0, s, t);
    EndSim(R, idom, T, s0, b, env, u, t, steps);
    StepParts(R, T, s0, c, env, t.mem);
    EndedGoes(R, b, u, t);
    EndedBefore(R, b, s, u, t);
    LeavesSim(R, T, s0, b, env, t, steps, StepBlock(R, T, s0, c));
  }

  lemma SimParts(R: Region, T: Translation, s0: State, c: Config, s: State)
    requires Sim(R, T, s0, c, s)
    ensures c.Running? && c.to in R.g.nodes && c.to != R.g.entry && c.from in Preds(R.g, c.to)
    ensures c.from in T.tables && Agree(T.tables[c.from], c.env, s) && s.pc == Addr(R, c.to) && s.mem == c.mem
    ensures ValidState(s) && s.brk == s0.brk && Untouched(R, s0, s)
  {
  }

  lemma MakeAtEnd(R: Region, s0: State, tbl: Table, env: Env, t: State)
    requires FullTable(R, tbl) && Agree(tbl, env, t) && ValidState(t) && t.brk == s0.brk && Untouched(R, s0, t)
    ensures AtEnd(R, s0, tbl, env, t)
  {
  }

  lemma LeavesSim(R: Region, T: Translation, s0: State, b: Block, env: Env, t: State, steps: nat, c: Config)
    requires WellFormed(R.g) && b in R.g.nodes && b != R.g.entry && b in T.tables && AtEnd(R, s0, T.tables[b], env, t)
    requires Leaves(R, b, env, t, steps, c)
    requires steps > 0 && EndGoes(R, b, t.pc)
    ensures c.steps == steps && (Sim(R, T, s0, c, t) || Returned(R, s0, c, t)) && (c.Exited? ==> c.from == b)
  {
    hide Agree, Untouched, FullTable, EndGoes, NoSuccAt;
    if c.Running? {
      NotEntry(R.g, b, c.to);
    }
  }

  /** A state in which execution of the region may begin. */
  ghost predicate MayStart(R: Region, s0: State) {
    ValidState(s0) && s0.pc == Addr(R, R.head) && s0.gpr[0] == 0
  }

  lemma EntryAgrees(R: Region, T: Translation, s0: State)
    requires R.g.entry in T.tables && IsEntryTable(R, T.tables[R.g.entry]) && |s0.gpr| == 32 && s0.gpr[0] == 0
    ensures Start(R, T, s0).Running? && Agree(T.tables[R.g.entry], Start(R, T, s0).env, s0)
  {
    var tbl := T.tables[R.g.entry];
    var env := Start(R, T, s0).env;
    hide Tracked;
    forall v | v in tbl
      ensures EvalValue(env, tbl[v]) == Some(VarVal(s0, v))
    {
      if v != Gpr(0) {
        assert tbl[v] == EntryLoad(v) && EntryLoad(v) in env;
      }
    }
  }

  lemma EntryTableIs(R: Region, idom: map<Block, Block>, T: Translation)
    requires IsTranslation(R, idom, T)
    ensures R.g.entry in T.tables && IsEntryTable(R, T.tables[R.g.entry])
  {
    hide IsIdomMap, PhisClosed, Renamed, Patched, IsEntryTable;
  }

  lemma StartSim(R: Region, idom: map<Block, Block>, T: Translation, s0: State)
    requires WellFormedRegion(R) && IsTranslation(R, idom, T) && MayStart(R, s0)
    ensures Sim(R, T, s0, Start(R, T, s0), s0)
  {
    hide WellFormedRegion, IsTranslation, WellFormed, IsEntryTable, Agree, Defs;
    RegionParts(R);
    EntryTableIs(R, idom, T);
    EntryAgrees(R, T, s0);
  }

  /** After k blocks: the generated code has not gone wrong, and the interpreter, run for as many instructions, is
      either at the same edge with the same values, or in exactly the state that the code returned. */
  lemma {:induction false} TranslationPreservesMeaning(R: Region, idom: map<Block, Block>, T: Translation, s0: State,
                                                       k: nat)
    requires WellFormedRegion(R) && IsTranslation(R, idom, T) && MayStart(R, s0)
    requires Guarded(R, s0, RunBlocks(R, T, s0, k).steps)
    ensures !RunBlocks(R, T, s0, k).Stuck?
    ensures RunBlocks(R, T, s0, k).Exited? ==>
      InterpretN(s0, RunBlocks(R, T, s0, k).steps) == Some(RunBlocks(R, T, s0, k).state)
    ensures RunBlocks(R, T, s0, k).Exited? ==> Returned(R, s0, RunBlocks(R, T, s0, k), RunBlocks(R, T, s0, k).state)
    ensures RunBlocks(R, T, s0, k).Exited? ==> Ending(R, RunBlocks(R, T, s0, k).from, s0, RunBlocks(R, T, s0, k).steps)
    ensures RunBlocks(R, T, s0, k).Running? ==>
      InterpretN(s0, RunBlocks(R, T, s0, k).steps).Some?
        && Sim(R, T, s0, RunBlocks(R, T, s0, k), InterpretN(s0, RunBlocks(R, T, s0, k).steps).value)
    decreases k
  {
    hide WellFormedRegion, IsTranslation, MayStart, Guarded, Sim, Start, StepBlock, Interpret, Returned, Ending;
    if k == 0 {
      StartSim(R, idom, T, s0);
      StartSteps(R, T, s0);
    } else {
      var c := RunBlocks(R, T, s0, k - 1);
      StepSteps(R, T, s0, c);
      GuardedMono(R, s0, c.steps, StepBlock(R, T, s0, c).steps);
      TranslationPreservesMeaning(R, idom, T, s0, k - 1);
      if c.Running? {
        var s := InterpretN(s0, c.steps).value;
        var n := |Insns(R, c.to)|;
        hide *;
        GuardedTail(R, s0, c.steps, n);
        var t := StepSim(R, idom, T, s0, c, s);
        RunsCompose(s0, c.steps, n);
        EndingLater(R, c.to, s0, c.steps, n);
        StepIs(R, T, s0, k);
        SimRunning(R, T, s0, StepBlock(R, T, s0, c), t);
      }
    }
  }

  lemma StartSteps(R: Region, T: Translation, s0: State)
    ensures Start(R, T, s0).Running? && Start(R, T, s0).steps == 0
  {
  }

  lemma StepSteps(R: Region, T: Translation, s0: State, c: Config)
    ensures !c.Running? ==> StepBlock(R, T, s0, c) == c
    ensures c.Running? ==> StepBlock(R, T, s0, c).steps == c.steps + |Insns(R, c.to)|
  {
    hide EnterPhis, PhisReady, ExecBody, Insns, SavesReady, Stored, Pick, Eval;
  }

  lemma StepIs(R: Region, T: Translation, s0: State, k: nat)
    requires k > 0
    ensures RunBlocks(R, T, s0, k) == StepBlock(R, T, s0, RunBlocks(R, T, s0, k - 1))
  {
    hide StepBlock;
  }

  lemma SimRunning(R: Region, T: Translation, s0: State, c: Config, t: State)
    requires Sim(R, T, s0, c, t) || Returned(R, s0, c, t)
    ensures !c.Stuck? && (c.Running? ==> Sim(R, T, s0, c, t)) && (c.Exited? ==> c.state == t && Returned(R, s0, c, t))
  {
  }

  lemma GuardedMono(R: Region, s: State, m: nat, n: nat)
    requires Guarded(R, s, n) && m <= n
    ensures Guarded(R, s, m)
  {
    hide OkStep, InterpretN;
  }

  /** The generated code makes progress: k blocks are at least k instructions. */
  lemma {:induction false} Progress(R: Region, idom: map<Block, Block>, T: Translation, s0: State, k: nat)
    requires WellFormedRegion(R) && IsTranslation(R, idom, T) && MayStart(R, s0)
    requires Guarded(R, s0, RunBlocks(R, T, s0, k).steps)
    ensures RunBlocks(R, T, s0, k).Running? ==> RunBlocks(R, T, s0, k).steps >= k
    decreases k
  {
    hide WellFormedRegion, IsTranslation, MayStart, Guarded, Sim, Start, StepBlock;
    if k == 0 {
      StartSteps(R, T, s0);
    } else {
      var c := RunBlocks(R, T, s0, k - 1);
      StepSteps(R, T, s0, c);
      GuardedMono(R, s0, c.steps, StepBlock(R, T, s0, c).steps);
      Progress(R, idom, T, s0, k - 1);
      TranslationPreservesMeaning(R, idom, T, s0, k - 1);
      if c.Running? {
        SimParts(R, T, s0, c, InterpretN(s0, c.steps).value);
        TranslationAt(R, idom, T, c.to);
        NonEmpty(R, c.to);
      }
    }
  }

  /** Every run of the generated code, from every state at the region's head, for as long as the interpreter meets no
      step that the translation excludes: it never goes wrong, and it returns the interpreter's state, from the end of a
      block that has no successor there. */
  ghost predicate PreservesMeaning(R: Region, T: Translation) {
    forall s0, k: nat :: MayStart(R, s0) && Guarded(R, s0, RunBlocks(R, T, s0, k).steps) ==>
      Faithful(R, s0, RunBlocks(R, T, s0, k)) && (RunBlocks(R, T, s0, k).Running? ==> RunBlocks(R, T, s0, k).steps >= k)
  }

  ghost predicate Faithful(R: Region, s0: State, c: Config) {
    && !c.Stuck?
    && InterpretN(s0, c.steps).Some?
    && (c.Exited? ==>
          && InterpretN(s0, c.steps) == Some(c.state) && Returned(R, s0, c, c.state) && Ending(R, c.from, s0, c.steps))
    && (c.Running? ==>
          && c.to in R.g.nodes && c.to != R.g.entry && InterpretN(s0, c.steps).value.pc == Addr(R, c.to)
          && InterpretN(s0, c.steps).value.mem == c.mem && InterpretN(s0, c.steps).value.brk == s0.brk)
  }

  lemma TranslationIsFaithful(R: Region, idom: map<Block, Block>, T: Translation)
    requires WellFormedRegion(R) && IsTranslation(R, idom, T)
    ensures PreservesMeaning(R, T)
  {
    hide WellFormedRegion, IsTranslation, MayStart, Guarded, RunBlocks, InterpretN, Agree, ValidState, Untouched,
         Returned, Ending;
    forall s0, k: nat | MayStart(R, s0) && Guarded(R, s0, RunBlocks(R, T, s0, k).steps)
      ensures Faithful(R, s0, RunBlocks(R, T, s0, k))
      ensures (RunBlocks(R, T, s0, k).Running? ==> RunBlocks(R, T, s0, k).steps >= k)
    {
      TranslationPreservesMeaning(R, idom, T, s0, k);
      Progress(R, idom, T, s0, k);
    }
  }
}
