/** The SSA form of a region: what renaming along the dominator tree produces, and why it is right. */
module SsaForm {
  import opened Graphs
  import opened Frontiers
  import opened Rv32
  import opened SsaIr
  import opened CodeGen
  import opened Vars

  predicate IsRegister(r: int) {
    0 <= r < 32
  }

  /** Instructions that getInsn translates and insertPhis accepts: no fence, no system instruction, no write to x0. */
  predicate Translatable(i: Insn) {
    match i
    case AluImm(op, rd, rs1, imm) => 0 < rd < 32 && IsRegister(rs1) && 0 <= imm < WORD && (IsShift(op) ==> imm < 32)
    case Alu(op, rd, rs1, rs2) => 0 < rd < 32 && IsRegister(rs1) && IsRegister(rs2)
    case Lui(rd, imm) => 0 < rd < 32 && 0 <= imm < WORD
    case Auipc(rd, imm) => 0 < rd < 32 && 0 <= imm < WORD
    case Load(_, rd, rs1, imm) => 0 < rd < 32 && IsRegister(rs1) && 0 <= imm < WORD
    case Store(_, rs1, rs2, imm) => IsRegister(rs1) && IsRegister(rs2) && 0 <= imm < WORD
    case Branch(_, rs1, rs2, imm) => IsRegister(rs1) && IsRegister(rs2) && 0 <= imm < WORD
    case Jal(rd, imm) => IsRegister(rd) && 0 <= imm < WORD
    case Jalr(rd, rs1, imm) => IsRegister(rd) && IsRegister(rs1) && 0 <= imm < WORD
    case _ => false
  }

  /** Instructions that getInsn has a class for. */
  predicate CanBind(i: Insn) {
    !(i.Fence? || i.Monitor? || i.ReadCycle? || i.OtherSystem?)
  }

  /** The blocks of a region: every one but the entry has instructions, of which only the last may transfer control. */
  ghost predicate BlockOk(R: Region, b: Block) {
    && b in R.addr && 0 <= R.addr[b] < WORD
    && |Insns(R, b)| > 0
    && (forall i :: 0 <= i < |Insns(R, b)| ==> Translatable(Insns(R, b)[i]))
    && (forall i :: 0 <= i < |Insns(R, b)| - 1 ==> !IsControl(Insns(R, b)[i]))
  }

  /** A direct jump has its target as successor, and no other. */
  ghost predicate JumpOk(R: Region, b: Block) {
    var n := |Insns(R, b)|;
    n > 0 && Insns(R, b)[n - 1].Jal? ==>
      && Succs(R.g, b) != {}
      && forall s :: s in Succs(R.g, b) ==> Addr(R, s) == Wrap(InsnAddr(R, b, n - 1) + Insns(R, b)[n - 1].imm)
  }

  /** A block that falls through has what follows it as successor. */
  ghost predicate FallOk(R: Region, b: Block) {
    var n := |Insns(R, b)|;
    n > 0 && !IsControl(Insns(R, b)[n - 1]) ==> exists s :: SuccAt(R, b, InsnAddr(R, b, n), s)
  }

  ghost predicate FallsInside(R: Region, blocks: set<Block>) {
    forall b :: b in blocks ==> FallOk(R, b)
  }

  ghost predicate WellFormedRegion(R: Region) {
    && WellFormed(R.g)
    && R.head in R.g.nodes && R.head != R.g.entry && Succs(R.g, R.g.entry) == {R.head}
    && Insns(R, R.g.entry) == []
    && (forall b :: b in R.g.nodes && b != R.g.entry ==> BlockOk(R, b) && JumpOk(R, b))
    && forall b, c ::
       b in R.g.nodes && c in R.g.nodes && b != R.g.entry && c != R.g.entry && Addr(R, b) == Addr(R, c) ==> b == c
  }

  // ---------- the translation ----------

  /** The fields that renaming fills in: phis, terminal register tables, code, and the incoming values of phis. */
  datatype Translation = Translation(phis: map<Block, set<Var>>, tables: map<Block, Table>, code: map<Block, Code>,
                                     incoming: map<Block, map<Var, map<Block, Value>>>)

  /** Phis are closed under dominance frontiers, and are placed only for variables that the region writes. */
  ghost predicate PhisClosed(R: Region, phis: map<Block, set<Var>>) {
    && phis.Keys == R.g.nodes
    && (forall x, y, v :: x in phis && InFrontier(R.g, x, y) && (x in Defs(R, v) || v in phis[x]) ==>
       y in phis && v in phis[y])
    && forall b, v :: b in phis && v in phis[b] ==> Tracked(R, v) && Defs(R, v) != {}
  }

  /** The table of the entry block: x0 is the constant zero, every other tracked variable is loaded. */
  ghost predicate IsEntryTable(R: Region, tbl: Table) {
    && (forall v :: v in tbl <==> Tracked(R, v))
    && forall v :: v in tbl ==> tbl[v] == if v == Gpr(0) then Const(0) else EntryLoad(v)
  }

  /** b was renamed starting from the table of its immediate dominator. */
  ghost predicate Renamed(R: Region, idom: map<Block, Block>, T: Translation, b: Block) {
    && b in idom && idom[b] in T.tables && b in T.phis && b in T.tables && b in T.code
    && T.tables[b] == EndTable(R, b, T.tables[idom[b]], T.phis[b])
    && T.code[b].body == [CountStmt(b, WithPhiValues(b, T.tables[idom[b]], T.phis[b]), |Insns(R, b)|)]
                         + BodyStmts(R, b, StartTable(b, T.tables[idom[b]], T.phis[b]), |Insns(R, b)|)
    && IsTerm(R, b, T.tables[b], T.code[b].term)
  }

  /** Every phi of b has, for each predecessor, that block's terminal value. */
  ghost predicate Patched(R: Region, T: Translation, b: Block) {
    && b in T.phis && b in T.incoming
    && forall v, p :: v in T.phis[b] && p in Preds(R.g, b) ==>
         && v in T.incoming[b] && p in T.incoming[b][v] && p in T.tables
            && T.incoming[b][v][p] == Lookup(T.tables[p], v)
  }

  ghost predicate IsTranslation(R: Region, idom: map<Block, Block>, T: Translation) {
    && IsIdomMap(R.g, idom)
    && PhisClosed(R, T.phis)
    && R.g.entry in T.tables && IsEntryTable(R, T.tables[R.g.entry])
    && (forall b :: b in R.g.nodes && b != R.g.entry ==> Renamed(R, idom, T, b))
    && (forall b :: b in R.g.nodes ==> Patched(R, T, b))
  }

  // ---------- tables ----------

  /** The variables of a table are exactly the tracked ones. */
  ghost predicate FullTable(R: Region, tbl: Table) {
    forall v :: v in tbl <==> Tracked(R, v)
  }

  /** A value that can stand for v: nothing made for another variable. */
  ghost predicate Names(R: Region, v: Var, val: Value) {
    match val
    case Const(_) => v.Gpr?
    case EntryLoad(u) => u == v
    case Phi(b, u) => u == v
    case Def(b, i) => v.Gpr? && 0 <= i < |Insns(R, b)| && Defines(Insns(R, b)[i]) == Some(v.r)
    case Count(_) => v.Icnt?
    case Null => false
  }

  ghost predicate NamedTable(R: Region, tbl: Table) {
    forall v :: v in tbl ==> Names(R, v, tbl[v])
  }

  /** Where a value is created. */
  function Home(R: Region, val: Value): Block {
    match val
    case Phi(b, _) => b
    case Def(b, _) => b
    case Count(b) => b
    case _ => R.g.entry
  }

  /** Every value of the table is created in a block that dominates b. */
  ghost predicate DominatedTable(R: Region, b: Block, tbl: Table) {
    forall v :: v in tbl ==> Dominates(R.g, Home(R, tbl[v]), b)
  }

  ghost predicate GoodTable(R: Region, b: Block, tbl: Table) {
    FullTable(R, tbl) && NamedTable(R, tbl) && DominatedTable(R, b, tbl)
  }

  lemma DefinedIsTracked(R: Region, b: Block, i: int, r: int)
    requires b in R.g.nodes && 0 <= i < |Insns(R, b)| && Defines(Insns(R, b)[i]) == Some(r) && 0 <= r < 32
    ensures Tracked(R, Gpr(r)) && b in Defs(R, Gpr(r))
  {
    assert DefinesVar(R, b, Gpr(r));
    var d := set c | c in R.g.nodes && DefinesVar(R, c, Gpr(r));
    assert b in d;
    assert Defs(R, Gpr(r)) == d + {R.g.entry};
  }

  lemma ReadIsTracked(R: Region, b: Block, i: int, r: int)
    requires b in R.g.nodes && 0 <= i < |Insns(R, b)| && Reads(Insns(R, b)[i], r) && 0 <= r < 32
    ensures Tracked(R, Gpr(r))
  {
    assert IsRead(R, Gpr(r));
  }

  /** An instruction changes the table at its destination only, to a value of its own or a constant. */
  lemma GenTableEffect(R: Region, b: Block, k: int, tbl: Table)
    requires 0 <= k < |Insns(R, b)| && Translatable(Insns(R, b)[k])
    ensures var t := GenTable(Insns(R, b)[k], b, k, InsnAddr(R, b, k), tbl);
            forall v: Var ::
              Defines(Insns(R, b)[k]) != (if v.Gpr? then Some(v.r) else None) || Defines(Insns(R, b)[k]) == None
              || v.Icnt? ==>
              (v in t <==> v in tbl) && (v in tbl ==> t[v] == tbl[v])
    ensures var t := GenTable(Insns(R, b)[k], b, k, InsnAddr(R, b, k), tbl);
            forall r: int :: Defines(Insns(R, b)[k]) == Some(r) ==>
              0 < r < 32 && Gpr(r) in t && (t[Gpr(r)] == Def(b, k) || t[Gpr(r)].Const?)
  {
  }

  lemma GenTableGood(R: Region, b: Block, k: int, tbl: Table)
    requires WellFormed(R.g) && b in R.g.nodes && 0 <= k < |Insns(R, b)| && Translatable(Insns(R, b)[k])
    requires GoodTable(R, b, tbl)
    ensures GoodTable(R, b, GenTable(Insns(R, b)[k], b, k, InsnAddr(R, b, k), tbl))
  {
    hide GenTable, Dominates, WellFormed, Tracked, Translatable, Names, Defines, InsnAddr, Insns, Home;
    var t := GenTable(Insns(R, b)[k], b, k, InsnAddr(R, b, k), tbl);
    GenTableEffect(R, b, k, tbl);
    DomRefl(R.g, b);
    forall v
      ensures v in t <==> Tracked(R, v)
      ensures v in t ==> Names(R, v, t[v]) && Dominates(R.g, Home(R, t[v]), b)
    {
      if v.Gpr? && Defines(Insns(R, b)[k]) == Some(v.r) {
        NewNames(R, b, k, v, t[v]);
      } else {
        assert v in t <==> v in tbl;
      }
    }
  }

  /** What an instruction puts at its destination is a value for that register. */
  lemma NewNames(R: Region, b: Block, k: int, v: Var, val: Value)
    requires b in R.g.nodes && 0 <= k < |Insns(R, b)| && Translatable(Insns(R, b)[k])
    requires v.Gpr? && Defines(Insns(R, b)[k]) == Some(v.r) && (val == Def(b, k) || val.Const?)
    ensures 0 <= v.r && Tracked(R, v) && Names(R, v, val) && (Home(R, val) == b || Home(R, val) == R.g.entry)
  {
    hide Tracked;
    DefinedIsTracked(R, b, k, v.r);
  }

  lemma {:induction false} BodyTableGood(R: Region, b: Block, tbl: Table, n: nat)
    requires WellFormed(R.g) && b in R.g.nodes && n <= |Insns(R, b)| && BlockOk(R, b) && GoodTable(R, b, tbl)
    ensures GoodTable(R, b, BodyTable(R, b, tbl, n))
  {
    if n > 0 {
      BodyTableGood(R, b, tbl, n - 1);
      GenTableGood(R, b, n - 1, BodyTable(R, b, tbl, n - 1));
    }
  }

  /** The table at the start of b, from a good one at the end of its immediate dominator. */
  lemma StartTableGood(R: Region, d: Block, b: Block, above: Table, vs: set<Var>)
    requires WellFormed(R.g) && b in R.g.nodes && IsIdom(R.g, d, b) && GoodTable(R, d, above)
    requires forall v :: v in vs ==> Tracked(R, v)
    ensures GoodTable(R, b, WithPhiValues(b, above, vs)) && GoodTable(R, b, StartTable(b, above, vs))
  {
    DomRefl(R.g, b);
    forall v | v in above
      ensures Dominates(R.g, Home(R, above[v]), b)
    {
      DomTrans(R.g, Home(R, above[v]), d, b);
    }
    hide WellFormed, Dominates, IsIdom, Tracked;
    var t := WithPhiValues(b, above, vs);
    PhiTableGood(R, b, above, vs);
  }

  lemma PhiTableGood(R: Region, b: Block, above: Table, vs: set<Var>)
    requires FullTable(R, above) && NamedTable(R, above) && DominatedTable(R, b, above)
    requires Dominates(R.g, b, b) && Tracked(R, Icnt) && forall v :: v in vs ==> Tracked(R, v)
    ensures GoodTable(R, b, WithPhiValues(b, above, vs)) && GoodTable(R, b, StartTable(b, above, vs))
  {
    hide Dominates, Tracked;
  }

  lemma EntryTableGood(R: Region, tbl: Table)
    requires WellFormed(R.g) && IsEntryTable(R, tbl)
    ensures GoodTable(R, R.g.entry, tbl)
  {
    DomRefl(R.g, R.g.entry);
    hide WellFormed, Dominates, Tracked;
  }

  /** What the translation says about one block other than the entry. */
  lemma TranslationAt(R: Region, idom: map<Block, Block>, T: Translation, b: Block)
    requires WellFormedRegion(R) && IsTranslation(R, idom, T) && b in R.g.nodes && b != R.g.entry
    ensures WellFormed(R.g) && BlockOk(R, b) && JumpOk(R, b) && Renamed(R, idom, T, b) && Patched(R, T, b)
    ensures b in idom && IsIdom(R.g, idom[b], b) && idom[b] in R.g.nodes && b in T.phis
    ensures forall v :: v in T.phis[b] ==> Tracked(R, v)
  {
    hide WellFormed, BlockOk, JumpOk, Tracked, Defs, Patched, InFrontier, Renamed, IsEntryTable, StrictlyDominates;
  }

  lemma RenamedTable(R: Region, idom: map<Block, Block>, T: Translation, b: Block)
    requires WellFormed(R.g) && b in R.g.nodes && BlockOk(R, b) && Renamed(R, idom, T, b) && IsIdom(R.g, idom[b], b)
    requires GoodTable(R, idom[b], T.tables[idom[b]])
    requires forall v :: v in T.phis[b] ==> Tracked(R, v)
    ensures GoodTable(R, b, StartTable(b, T.tables[idom[b]], T.phis[b]))
    ensures GoodTable(R, b, WithPhiValues(b, T.tables[idom[b]], T.phis[b]))
    ensures GoodTable(R, b, T.tables[b])
  {
    hide WellFormed, IsIdom, GoodTable, Tracked, BlockOk, IsTerm, StartTable, WithPhiValues;
    StartTableGood(R, idom[b], b, T.tables[idom[b]], T.phis[b]);
    BodyTableGood(R, b, StartTable(b, T.tables[idom[b]], T.phis[b]), |Insns(R, b)|);
  }

  /** Every terminal table is good: complete, free of null, and made of values whose creation dominates the block. */
  lemma {:induction false} TablesGood(R: Region, idom: map<Block, Block>, T: Translation, b: Block)
    requires WellFormedRegion(R) && IsTranslation(R, idom, T) && b in R.g.nodes
    ensures b in T.tables && GoodTable(R, b, T.tables[b])
    decreases Doms(R.g, b)
  {
    if b == R.g.entry {
      EntryTableGood(R, T.tables[b]);
    } else {
      hide WellFormed, WellFormedRegion, IsTranslation, IsIdom, GoodTable, Tracked, BlockOk, JumpOk, Patched;
      TranslationAt(R, idom, T, b);
      DomsOfIdom(R.g, idom[b], b);
      TablesGood(R, idom, T, idom[b]);
      RenamedTable(R, idom, T, b);
    }
  }

  // ---------- what has no phi has not changed ----------

  /** A block that neither writes v nor has a phi for it hands on the value of its immediate dominator. */
  lemma {:induction false} BodyKeeps(R: Region, b: Block, tbl: Table, n: nat, v: Var)
    requires n <= |Insns(R, b)| && BlockOk(R, b) && v.Gpr? && b in R.g.nodes && !DefinesVar(R, b, v)
    ensures Lookup(BodyTable(R, b, tbl, n), v) == Lookup(tbl, v)
  {
    if n > 0 {
      BodyKeeps(R, b, tbl, n - 1, v);
      GenTableEffect(R, b, n - 1, BodyTable(R, b, tbl, n - 1));
      hide GenTable, Translatable;
      assert Defines(Insns(R, b)[n - 1]) != Some(v.r);
    }
  }

  lemma BlockKeeps(R: Region, idom: map<Block, Block>, T: Translation, b: Block, v: Var)
    requires BlockOk(R, b) && b in R.g.nodes && Renamed(R, idom, T, b) && v.Gpr?
    requires !DefinesVar(R, b, v) && v !in T.phis[b]
    ensures Lookup(T.tables[b], v) == Lookup(T.tables[idom[b]], v)
  {
    hide BlockOk, DefinesVar, IsTerm, BodyTable;
    BodyKeeps(R, b, StartTable(b, T.tables[idom[b]], T.phis[b]), |Insns(R, b)|, v);
  }

  /** If b has no phi for v, then all the way up from a predecessor of b to b's immediate dominator v keeps its
      value. */
  lemma {:induction false} NoPhiSame(R: Region, idom: map<Block, Block>, T: Translation, b: Block, p: Block, x: Block,
                                     v: Var)
    requires WellFormedRegion(R) && IsTranslation(R, idom, T) && b in R.g.nodes && b != R.g.entry
    requires p in Preds(R.g, b) && x in R.g.nodes && Dominates(R.g, x, p) && Dominates(R.g, idom[b], x)
    requires v !in T.phis[b]
    ensures x in T.tables && idom[b] in T.tables && Lookup(T.tables[x], v) == Lookup(T.tables[idom[b]], v)
    decreases Doms(R.g, x)
  {
    TranslationAt(R, idom, T, b);
    TablesGood(R, idom, T, x);
    TablesGood(R, idom, T, idom[b]);
    if x != idom[b] {
      NoPhiStep(R, idom, T, b, p, x, v);
      hide *;
      NoPhiSame(R, idom, T, b, p, idom[x], v);
    }
  }

  /** One block on the way up. */
  lemma NoPhiStep(R: Region, idom: map<Block, Block>, T: Translation, b: Block, p: Block, x: Block, v: Var)
    requires WellFormedRegion(R) && IsTranslation(R, idom, T) && b in R.g.nodes && b != R.g.entry
    requires p in Preds(R.g, b) && x in R.g.nodes && Dominates(R.g, x, p) && Dominates(R.g, idom[b], x) && x != idom[b]
    requires v !in T.phis[b]
    ensures x in idom && idom[x] in R.g.nodes && Doms(R.g, idom[x]) < Doms(R.g, x)
    ensures Dominates(R.g, idom[x], p) && Dominates(R.g, idom[b], idom[x])
    ensures x in T.tables && idom[x] in T.tables && Lookup(T.tables[x], v) == Lookup(T.tables[idom[x]], v)
  {
    hide Dominates, IsTerm;
    TranslationAt(R, idom, T, b);
    if x == R.g.entry {
      DomEntry(R.g, idom[b]);
    }
    TranslationAt(R, idom, T, x);
    DomsOfIdom(R.g, idom[x], x);
    DomTrans(R.g, idom[x], x, p);
    StrictViaIdom(R.g, idom[x], idom[b], x);
    InItsFrontier(R.g, idom[b], b, p, x);
    assert x !in Defs(R, v) && v !in T.phis[x];
    NotDefining(R, x, v);
    BlockKeeps(R, idom, T, x, v);
  }

  /** A block between the immediate dominator of b and a predecessor of b has b in its frontier. */
  lemma InItsFrontier(g: Graph, d: Block, b: Block, p: Block, x: Block)
    requires WellFormed(g) && b in g.nodes && x in g.nodes && IsIdom(g, d, b) && p in Preds(g, b)
    requires Dominates(g, x, p) && Dominates(g, d, x) && x != d
    ensures InFrontier(g, x, b)
  {
    if StrictlyDominates(g, x, b) {
      DomAntisym(g, x, d);
    }
  }

  lemma NotDefining(R: Region, b: Block, v: Var)
    requires b in R.g.nodes && b !in Defs(R, v)
    ensures v.Gpr? && !DefinesVar(R, b, v)
  {
    var d := set c | c in R.g.nodes && DefinesVar(R, c, v);
    assert DefinesVar(R, b, v) ==> b in d;
  }
}
