/** What the code generated for a region does when it runs: from block to block until an abort block returns. */
module SsaRun {
  import opened Graphs
  import opened Rv32
  import opened SsaIr
  import opened CodeGen
  import opened SsaForm
  import opened Vars

  /** Control is on the edge between two blocks, or the code has returned from a block, or has hit something undefined.
      steps counts the guest instructions of the blocks entered so far. */
  datatype Config =
    | Running(from: Block, to: Block, env: Env, mem: map<int, int>, steps: nat)
    | Exited(state: State, from: Block, steps: nat)
    | Stuck(steps: nat)

  function VarVal(s: State, v: Var): int {
    match v
    case Gpr(r) => Reg(s, r)
    case Icnt => s.icnt
  }

  function PhisOf(T: Translation, b: Block): set<Var> {
    if b in T.phis then T.phis[b] else {}
  }

  /** The operand of the phi of v in b for the edge from p. */
  function Incoming(T: Translation, b: Block, v: Var, p: Block): Value {
    if b in T.incoming && v in T.incoming[b] && p in T.incoming[b][v] then T.incoming[b][v][p] else Null
  }

  /** Every phi has a defined operand. */
  predicate PhisReady(T: Translation, from: Block, to: Block, env: Env) {
    forall v :: v in PhisOf(T, to) ==> EvalValue(env, Incoming(T, to, v, from)).Some?
  }

  /** All phis of a block take their operands at the same time. */
  function EnterPhis(T: Translation, from: Block, to: Block, env: Env): Env
    requires PhisReady(T, from, to, env)
  {
    var made := set v | v in PhisOf(T, to) :: Phi(to, v);
    map val | val in env.Keys + made ::
      if val in made then EvalValue(env, Incoming(T, to, val.v, from)).value else env[val]
  }

  predicate SavesReady(env: Env, saves: map<Var, Value>) {
    forall v :: v in saves ==> EvalValue(env, saves[v]).Some?
  }

  /** An abort block stores pc and the saved variables; what it does not save keeps the value it had on entry to the
      code. */
  function Stored(s0: State, pc: int, env: Env, saves: map<Var, Value>, mem: map<int, int>): State
    requires SavesReady(env, saves)
  {
    State(pc,
          seq(32, r requires 0 <= r < 32 => if Gpr(r) in saves then EvalValue(env, saves[Gpr(r)]).value
            else Reg(s0, r)),
          mem,
          if Icnt in saves then EvalValue(env, saves[Icnt]).value else s0.icnt,
          s0.brk)
  }

  function RunTarget(s0: State, b: Block, t: Target, env: Env, mem: map<int, int>, steps: nat): Config {
    match t
    case Goto(s) => Running(b, s, env, mem, steps)
    case Abort(pc, saves) =>
      if Eval(env, pc).Some? && SavesReady(env, saves) then
        Exited(Stored(s0, Eval(env, pc).value, env, saves, mem), b, steps)
      else Stuck(steps)
  }

  function RunTerm(s0: State, b: Block, t: Term, env: Env, mem: map<int, int>, steps: nat): Config {
    match t
    case Br(u) => RunTarget(s0, b, u, env, mem, steps)
    case CondBr(cmp, x, y, yes, no) =>
      (match (Eval(env, x), Eval(env, y))
       case (Some(m), Some(n)) => RunTarget(s0, b, if EvalCmp(cmp, m, n) then yes else no, env, mem, steps)
       case _ => Stuck(steps))
    case Chain(pc, cases, otherwise) =>
      (match Eval(env, pc)
       case None => Stuck(steps)
       case Some(a) =>
         match Pick(a, cases)
         case Some(s) => Running(b, s, env, mem, steps)
         case None => RunTarget(s0, b, otherwise, env, mem, steps))
  }

  /** Enters the block at the end of the current edge and runs it. */
  function StepBlock(R: Region, T: Translation, s0: State, c: Config): Config {
    if !c.Running? then c
    else
      var steps := c.steps + |Insns(R, c.to)|;
      if c.to !in T.code || !PhisReady(T, c.from, c.to, c.env) then Stuck(steps)
      else match ExecBody(T.code[c.to].body, EnterPhis(T, c.from, c.to, c.env), c.mem)
        case None => Stuck(steps)
        case Some(p) => RunTerm(s0, c.to, T.code[c.to].term, p.0, p.1, steps)
  }

  /** The entry block loads its variables and branches to its only child in the dominator tree. */
  function Start(R: Region, T: Translation, s0: State): Config {
    var loads := if R.g.entry in T.tables then
      (set v | v in T.tables[R.g.entry] && T.tables[R.g.entry][v].EntryLoad? :: T.tables[R.g.entry][v]) else {};
    Running(R.g.entry, R.head, map val | val in loads :: VarVal(s0, val.v), s0.mem, 0)
  }

  /** The code after k blocks. */
  function RunBlocks(R: Region, T: Translation, s0: State, k: nat): Config {
    if k == 0 then Start(R, T, s0) else StepBlock(R, T, s0, RunBlocks(R, T, s0, k - 1))
  }
}
