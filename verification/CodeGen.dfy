/** Code generation for the instructions of one block: what generateIR does to the register table. */
module CodeGen {
  import opened Graphs
  import opened Rv32
  import opened SsaIr
  import opened Vars

  /** A region: its graph with the added entry block, the region head, and the address and instructions of each
      block. */
  datatype Region = Region(g: Graph, head: Block, addr: map<Block, int>, code: map<Block, seq<Insn>>)

  /** gprTbl and iCnt: the current value of each variable. An absent entry is a null pointer. */
  type Table = map<Var, Value>

  function Insns(R: Region, b: Block): seq<Insn> {
    if b in R.code then R.code[b] else []
  }

  function Addr(R: Region, b: Block): int {
    if b in R.addr then R.addr[b] else WORD - 1
  }

  function InsnAddr(R: Region, b: Block, i: int): int {
    Wrap(Addr(R, b) + 4 * i)
  }

  /** getSuccLLVMBasicBlock: the successor of b at address pc. */
  ghost predicate SuccAt(R: Region, b: Block, pc: int, s: Block) {
    s in Succs(R.g, b) && Addr(R, s) == pc
  }

  // ---------- definitions and uses ----------

  ghost predicate DefinesVar(R: Region, b: Block, v: Var) {
    if v.Icnt? then b in R.g.nodes
    else exists i :: 0 <= i < |Insns(R, b)| && Defines(Insns(R, b)[i]) == Some(v.r)
  }

  /** gprDefinitionBlocks after insertPhis has added the entry, and all blocks for the instruction count. */
  ghost function Defs(R: Region, v: Var): set<Block> {
    var d := set b | b in R.g.nodes && DefinesVar(R, b, v);
    if d == {} then {} else d + {R.g.entry}
  }

  ghost predicate IsRead(R: Region, v: Var) {
    v.Gpr? && exists b, i :: b in R.g.nodes && 0 <= i < |Insns(R, b)| && Reads(Insns(R, b)[i], v.r)
  }

  /** The variables the entry block loads: those read or written in the region, and the instruction count. */
  ghost predicate Tracked(R: Region, v: Var) {
    v.Icnt? || (0 <= v.r < 32 && (IsRead(R, v) || Defs(R, v) != {}))
  }

  // ---------- the register table ----------

  function Lookup(tbl: Table, v: Var): Value {
    if v in tbl then tbl[v] else Null
  }

  function RegVal(tbl: Table, r: int): Expr {
    Use(if r < 0 then Null else Lookup(tbl, Gpr(r)))
  }

  function SetGpr(tbl: Table, r: int, val: Value): Table {
    if r < 0 then tbl else tbl[Gpr(r) := val]
  }

  /** The statement an instruction becomes, if any; constants need none. */
  function GenStmts(i: Insn, b: Block, k: int, tbl: Table): seq<Stmt> {
    match i
    case AluImm(op, rd, rs1, imm) => [Let(Def(b, k), AluImmExpr(op, RegVal(tbl, rs1), imm))]
    case Alu(op, rd, rs1, rs2) => [Let(Def(b, k), AluExpr(op, RegVal(tbl, rs1), RegVal(tbl, rs2)))]
    case Load(width, rd, rs1, imm) => [LoadMem(Def(b, k), width, Bin(IAdd, RegVal(tbl, rs1), Num(imm)))]
    case Store(width, rs1, rs2, imm) => [StoreMem(width, Bin(IAdd, RegVal(tbl, rs1), Num(imm)), RegVal(tbl, rs2))]
    case _ => []
  }

  /** The table after an instruction at address pc; jumps that link write before their target is read. */
  function GenTable(i: Insn, b: Block, k: int, pc: int, tbl: Table): Table {
    match i
    case AluImm(_, rd, _, _) => SetGpr(tbl, rd, Def(b, k))
    case Alu(_, rd, _, _) => SetGpr(tbl, rd, Def(b, k))
    case Load(_, rd, _, _) => SetGpr(tbl, rd, Def(b, k))
    case Lui(rd, imm) => SetGpr(tbl, rd, Const(imm))
    case Auipc(rd, imm) => SetGpr(tbl, rd, Const(Wrap(pc + imm)))
    case Jal(rd, _) => if rd == 0 then tbl else SetGpr(tbl, rd, Const(Wrap(pc + 4)))
    case Jalr(rd, _, _) => if rd == 0 then tbl else SetGpr(tbl, rd, Const(Wrap(pc + 4)))
    case _ => tbl
  }

  /** Statements and table after the first n instructions of b. */
  function BodyStmts(R: Region, b: Block, tbl: Table, n: nat): seq<Stmt>
    requires n <= |Insns(R, b)|
  {
    if n == 0 then []
      else BodyStmts(R, b, tbl, n - 1) + GenStmts(Insns(R, b)[n - 1], b, n - 1, BodyTable(R, b, tbl, n - 1))
  }

  function BodyTable(R: Region, b: Block, tbl: Table, n: nat): Table
    requires n <= |Insns(R, b)|
  {
    if n == 0 then tbl else GenTable(Insns(R, b)[n - 1], b, n - 1, InsnAddr(R, b, n - 1), BodyTable(R, b, tbl, n - 1))
  }

  /** incrIcnt: the count is advanced by the whole block before its first instruction. */
  function CountStmt(b: Block, tbl: Table, n: int): Stmt {
    Let(Count(b), Bin(IAdd64, Use(Lookup(tbl, Icnt)), Num(n)))
  }

  /** makeLLVMPhi for every phi of the block. */
  function WithPhiValues(b: Block, tbl: Table, vs: set<Var>): Table {
    map v | v in tbl.Keys + vs :: if v in vs then Phi(b, v) else tbl[v]
  }

  function StartTable(b: Block, above: Table, vs: set<Var>): Table {
    WithPhiValues(b, above, vs)[Icnt := Count(b)]
  }

  /** The register table at the end of b, given the one at the end of its immediate dominator. */
  function EndTable(R: Region, b: Block, above: Table, vs: set<Var>): Table {
    BodyTable(R, b, StartTable(b, above, vs), |Insns(R, b)|)
  }

  /** The registers an abort block stores back. */
  ghost function Saves(R: Region, tbl: Table): map<Var, Value> {
    map v | v in tbl && Defs(R, v) != {} :: tbl[v]
  }

  // ---------- terminators ----------

  /** generateAbortBasicBlock when the region has no successor at pc. */
  ghost predicate IsTarget(R: Region, b: Block, pc: int, tbl: Table, t: Target) {
    match t
    case Goto(s) => SuccAt(R, b, pc, s)
    case Abort(e, saves) => e == Num(pc) && saves == Saves(R, tbl) && forall s :: !SuccAt(R, b, pc, s)
  }

  function CmpOf(c: Cond): Cmp {
    match c
    case Eq => CmpEq
    case Ne => CmpNe
    case Lt => CmpSlt
    case Ge => CmpSge
    case Ltu => CmpUlt
    case Geu => CmpUge
  }

  /** The compare chain of jr and jalr tries every successor, in some order. */
  ghost predicate IsChain(R: Region, b: Block, cases: seq<(int, Block)>) {
    && (forall c :: c in cases ==> c.1 in Succs(R.g, b) && c.0 == Addr(R, c.1))
    && forall s :: s in Succs(R.g, b) ==> (Addr(R, s), s) in cases
  }

  /** What code generation may emit at the end of b, where the table is tbl. */
  ghost predicate IsTerm(R: Region, b: Block, tbl: Table, term: Term) {
    var n := |Insns(R, b)|;
    if n == 0 || !IsControl(Insns(R, b)[n - 1]) then
      term.Br? && IsTarget(R, b, InsnAddr(R, b, n), tbl, term.t)
    else
      var pc := InsnAddr(R, b, n - 1);
      match Insns(R, b)[n - 1]
      case Branch(cond, rs1, rs2, imm) =>
        if Wrap(pc + imm) == Wrap(pc + 4) then
          term.Br? && IsTarget(R, b, Wrap(pc + imm), tbl, term.t)
        else
          && term.CondBr? && term.cmp == CmpOf(cond) && term.a == RegVal(tbl, rs1) && term.b == RegVal(tbl, rs2)
          && IsTarget(R, b, Wrap(pc + imm), tbl, term.yes) && IsTarget(R, b, Wrap(pc + 4), tbl, term.no)
      case Jal(rd, imm) =>
        // insn_j looks its target up; insn_jal takes the block's first successor
        term.Br? && term.t.Goto? && if rd == 0 then SuccAt(R, b, Wrap(pc + imm), term.t.b)
          else term.t.b in Succs(R.g, b)
      case Jalr(rd, rs1, imm) =>
        && term.Chain? && IsChain(R, b, term.cases)
        && term.otherwise == Abort(term.pc, Saves(R, tbl))
        && term.pc == if rd == 0 then Bin(IAnd, Bin(IAdd, RegVal(tbl, rs1), Num(imm)), Num(WORD - 2))
           else RegVal(tbl, rs1)
      case _ => false
  }
}
