/** Renaming along the dominator tree: the recursive traversals of cfgBasicBlock that generate the SSA code. */
module Renaming {
  import opened Graphs
  import opened Frontiers
  import opened RegionCfgs
  import opened Rv32
  import opened SsaIr
  import opened CodeGen
  import opened SsaForm
  import opened Refinement
  import opened Meaning
  import opened DefUse
  import opened Vars

  // ---------- what the traversals keep ----------

  /** m and n agree outside S. */
  ghost predicate Kept<V(!new)>(S: set<Block>, m: map<Block, V>, n: map<Block, V>) {
    forall x :: x !in S ==> (x in n <==> x in m) && (x in m ==> n[x] == m[x])
  }

  /** The blocks of S have their tables and code. */
  ghost predicate RenamedIn(R: Region, idom: map<Block, Block>, phis: map<Block, set<Var>>, tables: map<Block, Table>,
                            code: map<Block, Code>, S: set<Block>) {
    forall x :: x in S ==> Renamed(R, idom, Translation(phis, tables, code, map[]), x) && GoodTable(R, x, tables[x])
  }

  /** The phis of the blocks of S have their operands. */
  ghost predicate PatchedIn(R: Region, phis: map<Block, set<Var>>, tables: map<Block, Table>,
                            incoming: map<Block, map<Var, map<Block, Value>>>, S: set<Block>) {
    forall x :: x in S ==> Patched(R, Translation(phis, tables, map[], incoming), x)
  }

  /** Every block has a complete terminal table. */
  ghost predicate Traversed(R: Region, tables: map<Block, Table>) {
    forall x :: x in R.g.nodes ==> x in tables && GoodTable(R, x, tables[x])
  }

  lemma KeptRefl<V(!new)>(S: set<Block>, m: map<Block, V>)
    ensures Kept(S, m, m)
  {
  }

  lemma KeptTrans<V(!new)>(S: set<Block>, T: set<Block>, U: set<Block>, m: map<Block, V>, n: map<Block, V>,
                    o: map<Block, V>)
    requires Kept(S, m, n) && Kept(T, n, o) && S + T <= U
    ensures Kept(U, m, o)
  {
  }

  lemma KeptOne<V(!new)>(m: map<Block, V>, b: Block, v: V)
    ensures Kept({b}, m, m[b := v])
  {
  }

  /** Renamed blocks stay renamed while other blocks are. */
  lemma RenamedFrame(R: Region, idom: map<Block, Block>, phis: map<Block, set<Var>>, tables: map<Block, Table>,
                     code: map<Block, Code>, S: set<Block>,
                     tables': map<Block, Table>, code': map<Block, Code>, T: set<Block>)
    requires RenamedIn(R, idom, phis, tables, code, S) && S !! T
    requires Kept(T, tables, tables') && Kept(T, code, code')
    requires tables' == tables || forall x :: x in S && x in idom ==> idom[x] !in T
    ensures RenamedIn(R, idom, phis, tables', code', S)
  {
    hide GoodTable, IsTerm, EndTable, BodyStmts, StartTable, WithPhiValues, CountStmt;
  }

  lemma RenamedUnion(R: Region, idom: map<Block, Block>, phis: map<Block, set<Var>>, tables: map<Block, Table>,
                     code: map<Block, Code>, S: set<Block>, T: set<Block>)
    requires RenamedIn(R, idom, phis, tables, code, S) && RenamedIn(R, idom, phis, tables, code, T)
    ensures RenamedIn(R, idom, phis, tables, code, S + T)
  {
    hide Renamed, GoodTable;
  }

  lemma PatchedFrame(R: Region, phis: map<Block, set<Var>>, tables: map<Block, Table>,
                     incoming: map<Block, map<Var, map<Block, Value>>>, S: set<Block>,
                     incoming': map<Block, map<Var, map<Block, Value>>>, T: set<Block>)
    requires PatchedIn(R, phis, tables, incoming, S) && Kept(T, incoming, incoming') && S !! T
    ensures PatchedIn(R, phis, tables, incoming', S)
  {
    hide Lookup;
  }

  /** The subtrees of the children done so far do not hang below a block of the next child's subtree. */
  lemma IdomOutside(g: Graph, idom: map<Block, Block>, cs: set<Block>, c: Block)
    requires WellFormed(g) && IsIdomMap(g, idom) && Below(g, cs) !! Subtree(g, c)
    ensures forall x :: x in Below(g, cs) && x in idom ==> idom[x] !in Subtree(g, c)
  {
    forall x | x in Below(g, cs) && x in idom
      ensures idom[x] !in Subtree(g, c)
    {
      if idom[x] in Subtree(g, c) {
        DomTrans(g, c, idom[x], x);
      }
    }
  }

  lemma RegionShape(R: Region)
    requires WellFormedRegion(R)
    ensures WellFormed(R.g) && R.head in R.g.nodes && R.head != R.g.entry && Succs(R.g, R.g.entry) == {R.head}
  {
    hide BlockOk, JumpOk, WellFormed;
  }

  /** Every path out of the entry goes through the region head. */
  lemma HeadDominates(R: Region, x: Block)
    requires WellFormed(R.g) && Succs(R.g, R.g.entry) == {R.head} && x in R.g.nodes && x != R.g.entry
    ensures Dominates(R.g, R.head, x)
  {
    forall q | Leads(R.g, R.g.entry, q, x)
      ensures R.head in q
    {
      assert q[1] in Succs(R.g, q[0]);
    }
  }

  lemma HeadUnderEntry(R: Region, d: Block)
    requires WellFormed(R.g) && Succs(R.g, R.g.entry) == {R.head} && R.head in R.g.nodes && R.head != R.g.entry
    requires IsIdom(R.g, d, R.head)
    ensures d == R.g.entry && !Dominates(R.g, R.head, R.g.entry)
  {
    var p := [R.g.entry, R.head];
    assert Leads(R.g, R.g.entry, p, R.head);
    assert d in p;
    if Dominates(R.g, R.head, R.g.entry) {
      DomEntry(R.g, R.head);
    }
  }

  /** The entry's only child in the dominator tree is the region head, and everything else hangs below it. */
  lemma OnlyChild(R: Region, idom: map<Block, Block>, dtree: map<Block, set<Block>>)
    requires WellFormedRegion(R) && IsIdomMap(R.g, idom) && IsDTree(R.g, idom, dtree)
    ensures R.g.entry in dtree && R.head in R.g.nodes && dtree[R.g.entry] == {R.head}
    ensures Subtree(R.g, R.head) == R.g.nodes - {R.g.entry}
    ensures R.head in idom && idom[R.head] == R.g.entry
  {
    hide WellFormedRegion, WellFormed, Dominates;
    RegionShape(R);
    HeadUnderEntry(R, idom[R.head]);
    forall x | x in R.g.nodes && x != R.g.entry
      ensures Dominates(R.g, R.head, x)
    {
      HeadDominates(R, x);
    }
    forall b | b in dtree[R.g.entry]
      ensures b == R.head
    {
      assert b in idom && StrictlyDominates(R.g, R.head, b) ==> Dominates(R.g, R.head, R.g.entry);
    }
  }

  lemma JumpHasTarget(R: Region, b: Block)
    requires BlockOk(R, b) && JumpOk(R, b)
    ensures |Insns(R, b)| > 0
    ensures var n := |Insns(R, b)|; var i := Insns(R, b)[n - 1];
            i.Jal? ==> Succs(R.g, b) != {} && !forall s :: s in Succs(R.g, b) ==>
              Addr(R, s) != Wrap(InsnAddr(R, b, n - 1) + i.imm)
  {
    hide Translatable, InsnAddr;
  }

  lemma StartIs(b: Block, above: Table, vs: set<Var>)
    ensures WithPhiValues(b, above, vs)[Icnt := Count(b)] == StartTable(b, above, vs)
  {
  }

  lemma EndIs(R: Region, b: Block, above: Table, vs: set<Var>)
    ensures EndTable(R, b, above, vs) == BodyTable(R, b, StartTable(b, above, vs), |Insns(R, b)|)
  {
  }

  lemma NothingBelow(g: Graph)
    ensures Below(g, {}) == {}
  {
  }

  /** The subtree of the head leaves the entry out. */
  lemma HeadApart(R: Region)
    requires WellFormedRegion(R) && Subtree(R.g, R.head) == R.g.nodes - {R.g.entry}
    ensures R.g.entry !in Subtree(R.g, R.head) && R.head != R.g.entry
  {
    RegionShape(R);
  }

  lemma StillThere<V(!new)>(S: set<Block>, m: map<Block, V>, n: map<Block, V>, x: Block)
    requires Kept(S, m, n) && x in m && x !in S
    ensures x in n && n[x] == m[x]
  {
  }

  lemma NeverNull(R: Region, b: Block, tbl: Table, v: Var)
    requires GoodTable(R, b, tbl) && Tracked(R, v)
    ensures v in tbl && Lookup(tbl, v) != Null
  {
    hide Tracked, DominatedTable;
    assert v in tbl;
  }

  lemma PhisTracked(R: Region, phis: map<Block, set<Var>>, b: Block)
    requires PhisClosed(R, phis) && b in R.g.nodes
    ensures b in phis && forall v :: v in phis[b] ==> Tracked(R, v)
  {
    hide Tracked, Defs, InFrontier;
  }

  lemma LinkedOf(g: Graph)
    requires WellFormed(g)
    ensures Linked(g)
  {
  }

  lemma MakePatched(R: Region, phis: map<Block, set<Var>>, tables: map<Block, Table>,
                    incoming: map<Block, map<Var, map<Block, Value>>>, b: Block)
    requires b in phis && b in incoming
    requires forall v :: v in phis[b] ==> v in incoming[b]
    requires forall v, p :: v in phis[b] && p in Preds(R.g, b) ==>
      p in incoming[b][v] && p in tables && incoming[b][v][p] == Lookup(tables[p], v)
    ensures PatchedIn(R, phis, tables, incoming, {b})
  {
    hide Lookup;
    var T := Translation(phis, tables, map[], incoming);
    assert Patched(R, T, b);
  }

  lemma PatchedUnion(R: Region, phis: map<Block, set<Var>>, tables: map<Block, Table>,
                     incoming: map<Block, map<Var, map<Block, Value>>>, S: set<Block>, T: set<Block>)
    requires PatchedIn(R, phis, tables, incoming, S) && PatchedIn(R, phis, tables, incoming, T)
    ensures PatchedIn(R, phis, tables, incoming, S + T)
  {
    hide Patched;
  }

  lemma NothingRenamed(R: Region, idom: map<Block, Block>, phis: map<Block, set<Var>>, tables: map<Block, Table>,
                       code: map<Block, Code>)
    ensures RenamedIn(R, idom, phis, tables, code, Below(R.g, {}))
    ensures Below(R.g, {}) == {}
  {
  }

  /** A child c of b, of whose siblings those in done have been renamed, finds its parent's table. */
  lemma ChildReady(R: Region, idom: map<Block, Block>, dtree: map<Block, set<Block>>, b: Block, done: set<Block>,
                   c: Block,
                   tables0: map<Block, Table>, tables: map<Block, Table>)
    requires WellFormed(R.g) && IsIdomMap(R.g, idom) && IsDTree(R.g, idom, dtree) && b in R.g.nodes && b in dtree
    requires done <= dtree[b] && c in dtree[b] && b in tables0 && Kept(Below(R.g, done), tables0, tables)
    ensures c in R.g.nodes && c != R.g.entry && c in idom && idom[c] == b && Subtree(R.g, c) < Subtree(R.g, b)
    ensures b in tables && tables[b] == tables0[b]
  {
    SubtreeSplit(R.g, idom, dtree, b);
    hide WellFormed, Dominates, IsIdom;
    assert c in idom;
    assert b !in Below(R.g, done) by {
      assert b !in Below(R.g, dtree[b]);
    }
  }

  /** One more child and everything below it. */
  lemma ChildRenamed(R: Region, idom: map<Block, Block>, dtree: map<Block, set<Block>>, phis: map<Block, set<Var>>,
                     b: Block, done: set<Block>, c: Block,
                     tables0: map<Block, Table>, code0: map<Block, Code>, tables1: map<Block, Table>,
                       code1: map<Block, Code>,
                     tables: map<Block, Table>, code: map<Block, Code>)
    requires WellFormed(R.g) && IsIdomMap(R.g, idom) && IsDTree(R.g, idom, dtree) && b in R.g.nodes && b in dtree
    requires done <= dtree[b] && c in dtree[b] && c !in done
    requires Kept(Below(R.g, done), tables0, tables1) && Kept(Below(R.g, done), code0, code1)
    requires RenamedIn(R, idom, phis, tables1, code1, Below(R.g, done))
    requires Kept(Subtree(R.g, c), tables1, tables) && Kept(Subtree(R.g, c), code1, code)
    requires RenamedIn(R, idom, phis, tables, code, Subtree(R.g, c))
    ensures Kept(Below(R.g, done + {c}), tables0, tables) && Kept(Below(R.g, done + {c}), code0, code)
    ensures RenamedIn(R, idom, phis, tables, code, Below(R.g, done + {c}))
  {
    hide *;
    ChildApart(R.g, idom, dtree, b, done, c);
    BelowAdd(R.g, done, c);
    IdomOutside(R.g, idom, done, c);
    var S, T := Below(R.g, done), Subtree(R.g, c);
    RenamedFrame(R, idom, phis, tables1, code1, S, tables, code, T);
    RenamedUnion(R, idom, phis, tables, code, S, T);
    KeptTrans(S, T, S + T, tables0, tables1, tables);
    KeptTrans(S, T, S + T, code0, code1, code);
  }

  /** The root of a subtree joins the blocks below it. */
  lemma RenamedRoot(R: Region, idom: map<Block, Block>, dtree: map<Block, set<Block>>, phis: map<Block, set<Var>>,
                    b: Block, prev: Table, regTbl: Table, c: Code,
                    tables0: map<Block, Table>, code0: map<Block, Code>, tables: map<Block, Table>,
                      code1: map<Block, Code>)
    requires WellFormed(R.g) && IsIdomMap(R.g, idom) && IsDTree(R.g, idom, dtree) && b in R.g.nodes && b in dtree
    requires b in idom && b in phis
    requires idom[b] in tables0 && tables0[idom[b]] == prev && GoodTable(R, b, regTbl)
    requires regTbl == EndTable(R, b, prev, phis[b])
    requires c.body == [CountStmt(b, WithPhiValues(b, prev, phis[b]), |Insns(R, b)|)]
                        + BodyStmts(R, b, StartTable(b, prev, phis[b]), |Insns(R, b)|)
    requires IsTerm(R, b, regTbl, c.term)
    requires Kept(Below(R.g, dtree[b]), tables0[b := regTbl], tables) && Kept(Below(R.g, dtree[b]), code0, code1)
    requires RenamedIn(R, idom, phis, tables, code1, Below(R.g, dtree[b]))
    ensures Kept(Subtree(R.g, b), tables0, tables) && Kept(Subtree(R.g, b), code0, code1[b := c])
    ensures RenamedIn(R, idom, phis, tables, code1[b := c], Subtree(R.g, b))
  {
    hide *;
    SubtreeSplit(R.g, idom, dtree, b);
    NotBelow(R.g, idom, b);
    var S, code := Below(R.g, dtree[b]), code1[b := c];
    KeptOne(tables0, b, regTbl);
    KeptTrans({b}, S, Subtree(R.g, b), tables0, tables0[b := regTbl], tables);
    KeptOne(code1, b, c);
    KeptTrans(S, {b}, Subtree(R.g, b), code0, code1, code);
    KeptRefl({b}, tables);
    RenamedFrame(R, idom, phis, tables, code1, S, tables, code, {b});
    RootRenamed(R, idom, phis, b, prev, regTbl, c, S, tables0, tables, code);
    RenamedUnion(R, idom, phis, tables, code, {b}, S);
  }

  lemma NotBelow(g: Graph, idom: map<Block, Block>, b: Block)
    requires WellFormed(g) && IsIdomMap(g, idom) && b in g.nodes && b in idom
    ensures idom[b] != b && idom[b] !in Subtree(g, b)
  {
    assert IsIdom(g, idom[b], b);
    IdomNotBack(g, idom[b], b);
  }

  lemma RootRenamed(R: Region, idom: map<Block, Block>, phis: map<Block, set<Var>>, b: Block, prev: Table,
                    regTbl: Table, c: Code, S: set<Block>,
                    tables0: map<Block, Table>, tables: map<Block, Table>, code: map<Block, Code>)
    requires b in idom && b in phis && b !in S && idom[b] !in S && idom[b] != b
    requires idom[b] in tables0 && tables0[idom[b]] == prev && GoodTable(R, b, regTbl)
    requires regTbl == EndTable(R, b, prev, phis[b])
    requires c.body == [CountStmt(b, WithPhiValues(b, prev, phis[b]), |Insns(R, b)|)]
                        + BodyStmts(R, b, StartTable(b, prev, phis[b]), |Insns(R, b)|)
    requires IsTerm(R, b, regTbl, c.term) && b in code && code[b] == c
    requires Kept(S, tables0[b := regTbl], tables)
    ensures RenamedIn(R, idom, phis, tables, code, {b})
  {
    hide GoodTable, EndTable, CountStmt, WithPhiValues, BodyStmts, StartTable, IsTerm, Insns;
    var t1 := tables0[b := regTbl];
    assert b in tables && tables[b] == t1[b];
    assert idom[b] in tables && tables[idom[b]] == t1[idom[b]];
  }

  // ---------- the traversals ----------

  class SsaBuilder {
    const R: Region
    const idom: map<Block, Block>
    const dtreeSuccs: map<Block, set<Block>>
    const phis: map<Block, set<Var>>
    const allGprRead: seq<bool>
    const gprDefinitionBlocks: seq<set<Block>>
    var termRegTbl: map<Block, Table>
    var code: map<Block, Code>
    var incoming: map<Block, map<Var, map<Block, Value>>>

    constructor (R: Region, idom: map<Block, Block>, dtreeSuccs: map<Block, set<Block>>, phis: map<Block, set<Var>>,
                 allGprRead: seq<bool>, gprDefinitionBlocks: seq<set<Block>>)
      ensures this.R == R && this.idom == idom && this.dtreeSuccs == dtreeSuccs && this.phis == phis
      ensures this.allGprRead == allGprRead && this.gprDefinitionBlocks == gprDefinitionBlocks
      ensures termRegTbl == map[] && code == map[] && incoming == map[]
    {
      this.R, this.idom, this.dtreeSuccs, this.phis := R, idom, dtreeSuccs, phis;
      this.allGprRead, this.gprDefinitionBlocks := allGprRead, gprDefinitionBlocks;
      termRegTbl, code, incoming := map[], map[], map[];
    }

    /** The analyses have been run on a well-formed region. */
    ghost predicate Ready() {
      && WellFormedRegion(R) && IsIdomMap(R.g, idom) && IsDTree(R.g, idom, dtreeSuccs) && PhisClosed(R, phis)
      && DefBlocks(R, gprDefinitionBlocks)
      && |allGprRead| == 32 && forall r :: 0 <= r < 32 ==> (allGprRead[r] <==> IsRead(R, Gpr(r)))
    }

    lemma ReadyParts()
      requires Ready()
      ensures WellFormedRegion(R) && WellFormed(R.g) && R.g.entry in R.g.nodes && DefBlocks(R, gprDefinitionBlocks)
      ensures IsIdomMap(R.g, idom) && IsDTree(R.g, idom, dtreeSuccs) && PhisClosed(R, phis)
    {
      hide WellFormed, IsIdomMap, IsDTree, PhisClosed, DefBlocks, BlockOk, JumpOk;
      RegionParts(R);
    }

    lemma ReadyAt(b: Block)
      requires Ready() && b in R.g.nodes && b != R.g.entry
      ensures BlockOk(R, b) && JumpOk(R, b)
      ensures b in phis && b in dtreeSuccs && b in idom && IsIdom(R.g, idom[b], b)
      ensures forall v :: v in phis[b] ==> Tracked(R, v)
    {
      hide WellFormed, DefBlocks, BlockOk, JumpOk, InFrontier, IsIdom, Tracked, Defs;
    }

    /** getSuccLLVMBasicBlock. */
    method GetSucc(b: Block, pc: int) returns (s: Option<Block>)
      ensures s.Some? ==> SuccAt(R, b, pc, s.value)
      ensures s.None? ==> forall t :: t in Succs(R.g, b) ==> Addr(R, t) != pc
    {
      var todo := Succs(R.g, b);
      while todo != {}
        invariant todo <= Succs(R.g, b) && forall t :: t in Succs(R.g, b) && Addr(R, t) == pc ==> t in todo
        decreases todo
      {
        var cbb;
        cbb, todo := Next(todo);
        if Addr(R, cbb) == pc {
          return Some(cbb);
        }
      }
      return None;
    }

    /** The stores of an abort block: every register that the region defines, and the instruction count. */
    method StoreAll(tbl: Table) returns (saves: map<Var, Value>)
      requires DefBlocks(R, gprDefinitionBlocks) && FullTable(R, tbl) && R.g.entry in R.g.nodes
      ensures saves == Saves(R, tbl)
    {
      hide IsRead, DefinesVar, Defs;
      saves := map[];
      for i := 0 to 32
        invariant forall v :: v in saves <==> v.Gpr? && 0 <= v.r < i && Defs(R, v) != {}
        invariant forall v :: v in saves ==> v in tbl && saves[v] == tbl[v]
      {
        if gprDefinitionBlocks[i] != {} {
          assert Tracked(R, Gpr(i));
          saves := saves[Gpr(i) := Lookup(tbl, Gpr(i))];
        }
      }
      saves := saves[Icnt := Lookup(tbl, Icnt)];
      CountDefs(R);
      forall v
        ensures v in tbl && Defs(R, v) != {} <==> v in saves
      {
        assert v in tbl ==> Tracked(R, v);
      }
    }

    /** generateAbortBasicBlock: the successor if there is one, else a block that returns to the interpreter at pc. */
    method GenerateAbort(b: Block, pc: int, tbl: Table, lBB: Option<Block>) returns (t: Target)
      requires DefBlocks(R, gprDefinitionBlocks) && FullTable(R, tbl) && R.g.entry in R.g.nodes
      requires match lBB
               case Some(s) => SuccAt(R, b, pc, s)
               case None => forall s :: s in Succs(R.g, b) ==> Addr(R, s) != pc
      ensures IsTarget(R, b, pc, tbl, t)
    {
      hide FullTable, DefBlocks, Saves;
      match lBB
      case Some(s) => t := Goto(s);
      case None =>
        var saves := StoreAll(tbl);
        t := Abort(Num(pc), saves);
    }

    /** handleBranch. */
    method HandleBranch(b: Block, i: Insn, pc: int, tbl: Table) returns (term: Term)
      requires i.Branch? && DefBlocks(R, gprDefinitionBlocks) && FullTable(R, tbl) && R.g.entry in R.g.nodes
      ensures if Wrap(pc + i.imm) == Wrap(pc + 4) then term.Br? && IsTarget(R, b, Wrap(pc + i.imm), tbl, term.t)
              else
                && term.CondBr? && term.cmp == CmpOf(i.cond) && term.a == RegVal(tbl, i.rs1)
                   && term.b == RegVal(tbl, i.rs2)
                && IsTarget(R, b, Wrap(pc + i.imm), tbl, term.yes) && IsTarget(R, b, Wrap(pc + 4), tbl, term.no)
    {
      hide IsTarget, SuccAt, FullTable, DefBlocks;
      var tAddr, ntAddr := Wrap(pc + i.imm), Wrap(pc + 4);
      var tBB := GetSucc(b, tAddr);
      var ntBB := GetSucc(b, ntAddr);
      if tAddr != ntAddr {
        var t0 := GenerateAbort(b, tAddr, tbl, tBB);
        var t1 := GenerateAbort(b, ntAddr, tbl, ntBB);
        term := CondBr(CmpOf(i.cond), RegVal(tbl, i.rs1), RegVal(tbl, i.rs2), t0, t1);
      } else {
        var t0 := GenerateAbort(b, tAddr, tbl, tBB);
        term := Br(t0);
      }
    }

    /** The compare chain of jr and jalr. */
    method CompareChain(b: Block, vNPC: Expr, tbl: Table) returns (term: Term)
      requires DefBlocks(R, gprDefinitionBlocks) && FullTable(R, tbl) && R.g.entry in R.g.nodes
      ensures term.Chain? && IsChain(R, b, term.cases) && term.otherwise == Abort(vNPC, Saves(R, tbl))
      ensures term.pc == vNPC
    {
      hide FullTable, DefBlocks, Saves;
      var cases: seq<(int, Block)> := [];
      var todo := Succs(R.g, b);
      while todo != {}
        invariant todo <= Succs(R.g, b)
        invariant forall c :: c in cases ==> c.1 in Succs(R.g, b) && c.0 == Addr(R, c.1)
        invariant forall s :: s in Succs(R.g, b) && s !in todo ==> (Addr(R, s), s) in cases
        decreases todo
      {
        var next, rest := Next(todo);
        assert cases + [(Addr(R, next), next)] == cases + [(Addr(R, next), next)];
        cases := cases + [(Addr(R, next), next)];
        assert cases[|cases| - 1] == (Addr(R, next), next);
        todo := rest;
      }
      var saves := StoreAll(tbl);
      term := Chain(vNPC, cases, Abort(vNPC, saves));
    }

    /** generateIR of a branch or jump; None where insn_j does not find its target and dies. */
    method GenerateJump(b: Block, i: Insn, pc: int, tbl: Table) returns (term: Option<Term>)
      requires IsControl(i) && DefBlocks(R, gprDefinitionBlocks) && FullTable(R, tbl) && R.g.entry in R.g.nodes
      requires i.Jal? ==> Succs(R.g, b) != {}
      requires |Insns(R, b)| > 0 && i == Insns(R, b)[|Insns(R, b)| - 1] && pc == InsnAddr(R, b, |Insns(R, b)| - 1)
      ensures term.Some? ==> IsTerm(R, b, tbl, term.value)
      ensures term.None? <==> i.Jal? && i.rd == 0 && forall s :: s in Succs(R.g, b) ==> Addr(R, s) != Wrap(pc + i.imm)
    {
      hide FullTable, DefBlocks, IsTarget, IsChain, Saves, RegVal, CmpOf, InsnAddr, Insns;
      match i
      case Branch(_, _, _, _) =>
        var t := HandleBranch(b, i, pc, tbl);
        term := Some(t);
      case Jal(rd, imm) =>
        if rd == 0 {
          var s := GetSucc(b, Wrap(pc + imm));
          term := match s case Some(t) => Some(Br(Goto(t))) case None => None;
        } else {
          var nBB, _ := Next(Succs(R.g, b));
          term := Some(Br(Goto(nBB)));
        }
      case Jalr(rd, rs1, imm) =>
        var vNPC := RegVal(tbl, rs1);
        if rd == 0 {
          vNPC := Bin(IAnd, Bin(IAdd, vNPC, Num(imm)), Num(WORD - 2));
        }
        var t := CompareChain(b, vNPC, tbl);
        term := Some(t);
    }

    /** The instructions of b in order: their statements, the register table, and the terminator if the last one
        transfers control. */
    method GenerateBody(b: Block, start: Table) returns (body: seq<Stmt>, regTbl: Table, term: Option<Term>)
      requires WellFormed(R.g) && DefBlocks(R, gprDefinitionBlocks) && b in R.g.nodes && BlockOk(R, b) && JumpOk(R, b)
      requires GoodTable(R, b, start)
      ensures body == BodyStmts(R, b, start, |Insns(R, b)|) && regTbl == BodyTable(R, b, start, |Insns(R, b)|)
      ensures |Insns(R, b)| > 0 && (term.Some? <==> IsControl(Insns(R, b)[|Insns(R, b)| - 1]))
      ensures term.Some? ==> IsTerm(R, b, regTbl, term.value)
      ensures GoodTable(R, b, regTbl)
    {
      hide WellFormed, DefBlocks, BlockOk, JumpOk, GoodTable, FullTable, Translatable, IsControl, GenStmts, GenTable,
           InsnAddr, IsTerm;
      NonEmpty(R, b);
      EntryIn(R.g);
      var n := |Insns(R, b)|;
      body, regTbl, term := [], start, None;
      for k := 0 to n
        invariant body == BodyStmts(R, b, start, k) && regTbl == BodyTable(R, b, start, k)
        invariant term.Some? <==> k == n && IsControl(Insns(R, b)[n - 1])
        invariant term.Some? ==> IsTerm(R, b, regTbl, term.value)
      {
        var i, pc := Insns(R, b)[k], InsnAddr(R, b, k);
        InsnOk(R, b, k);
        BodyTableGood(R, b, start, k + 1);
        GoodParts(R, b, BodyTable(R, b, start, k + 1));
        body := body + GenStmts(i, b, k, regTbl);
        regTbl := GenTable(i, b, k, pc, regTbl);
        if IsControl(i) {
          JumpHasTarget(R, b);
          term := GenerateJump(b, i, pc, regTbl);
        }
      }
      BodyTableGood(R, b, start, n);
    }

    /** makeLLVMPhi for every phi of b. */
    method MakePhis(b: Block, prev: Table) returns (regTbl: Table)
      requires b in phis
      ensures regTbl == WithPhiValues(b, prev, phis[b])
    {
      regTbl := prev;
      var todo := phis[b];
      assert WithPhiValues(b, prev, {}) == prev;
      while todo != {}
        invariant todo <= phis[b] && regTbl == WithPhiValues(b, prev, phis[b] - todo)
        decreases todo
      {
        var p, rest := Next(todo);
        assert phis[b] - rest == (phis[b] - todo) + {p};
        regTbl := regTbl[p := Phi(b, p)];
        todo := rest;
      }
      assert phis[b] - todo == phis[b];
    }

    /** Where control goes after a block whose last instruction does not transfer it. */
    method FallThrough(b: Block, regTbl: Table) returns (term: Term)
      requires DefBlocks(R, gprDefinitionBlocks) && GoodTable(R, b, regTbl) && R.g.entry in R.g.nodes
      requires |Insns(R, b)| > 0 && !IsControl(Insns(R, b)[|Insns(R, b)| - 1])
      ensures IsTerm(R, b, regTbl, term)
    {
      hide DefBlocks, FullTable, IsControl, InsnAddr, NamedTable, DominatedTable, IsTarget;
      var npc := InsnAddr(R, b, |Insns(R, b)|);
      var nBB := GetSucc(b, npc);
      var t := GenerateAbort(b, npc, regTbl, nBB);
      term := Br(t);
    }

    /** traverseAndRename: code for b, then for everything below b in the dominator tree. */
    method TraverseAndRename(b: Block, prev: Table)
      requires Ready() && b in R.g.nodes && b != R.g.entry
      requires b in idom && idom[b] in termRegTbl && termRegTbl[idom[b]] == prev && GoodTable(R, idom[b], prev)
      modifies this`termRegTbl, this`code
      ensures Kept(Subtree(R.g, b), old(termRegTbl), termRegTbl) && Kept(Subtree(R.g, b), old(code), code)
      ensures RenamedIn(R, idom, phis, termRegTbl, code, Subtree(R.g, b))
      decreases Subtree(R.g, b)
    {
      hide *;
      ReadyParts();
      ReadyAt(b);
      var regTbl := MakePhis(b, prev);
      var count := CountStmt(b, regTbl, |Insns(R, b)|);
      regTbl := regTbl[Icnt := Count(b)];
      StartTableGood(R, idom[b], b, prev, phis[b]);
      StartIs(b, prev, phis[b]);
      var body, term;
      body, regTbl, term := GenerateBody(b, regTbl);
      termRegTbl := termRegTbl[b := regTbl];
      RenameChildren(b, old(termRegTbl), regTbl);
      var t: Term;
      if term.Some? {
        t := term.value;
      } else {
        t := FallThrough(b, regTbl);
      }
      ghost var code1 := code;
      code := code[b := Code([count] + body, t)];
      EndIs(R, b, prev, phis[b]);
      RenamedRoot(R, idom, dtreeSuccs, phis, b, prev, regTbl, code[b], old(termRegTbl), old(code), termRegTbl, code1);
    }

    /** The children of b in the dominator tree. */
    method RenameChildren(b: Block, ghost tables0: map<Block, Table>, regTbl: Table)
      requires Ready() && b in R.g.nodes && b != R.g.entry && b in dtreeSuccs
      requires b in termRegTbl && termRegTbl == tables0[b := regTbl] && GoodTable(R, b, regTbl)
      modifies this`termRegTbl, this`code
      ensures Kept(Below(R.g, dtreeSuccs[b]), old(termRegTbl), termRegTbl)
      ensures Kept(Below(R.g, dtreeSuccs[b]), old(code), code)
      ensures RenamedIn(R, idom, phis, termRegTbl, code, Below(R.g, dtreeSuccs[b]))
      decreases Subtree(R.g, b), 0
    {
      hide *;
      ReadyParts();
      SubtreeSplit(R.g, idom, dtreeSuccs, b);
      var todo := dtreeSuccs[b];
      ghost var done: set<Block> := {};
      NothingRenamed(R, idom, phis, termRegTbl, code);
      KeptRefl(Below(R.g, done), termRegTbl);
      KeptRefl(Below(R.g, done), code);
      while todo != {}
        invariant todo <= dtreeSuccs[b] && done == dtreeSuccs[b] - todo
        invariant Kept(Below(R.g, done), old(termRegTbl), termRegTbl) && Kept(Below(R.g, done), old(code), code)
        invariant RenamedIn(R, idom, phis, termRegTbl, code, Below(R.g, done))
        decreases todo
      {
        var cbb, rest := Next(todo);
        ghost var tables, code0 := termRegTbl, code;
        ChildReady(R, idom, dtreeSuccs, b, done, cbb, old(termRegTbl), termRegTbl);
        TraverseAndRename(cbb, regTbl);
        ChildRenamed(R, idom, dtreeSuccs, phis, b, done, cbb, old(termRegTbl), old(code), tables, code0, termRegTbl,
          code);
        todo := rest;
        done := done + {cbb};
      }
      assert done == dtreeSuccs[b];
    }

    /** traverseAndRename of the entry block: the loads, then the code of the whole region. */
    method TraverseEntry()
      requires Ready()
      modifies this`termRegTbl, this`code
      ensures R.g.entry in termRegTbl && IsEntryTable(R, termRegTbl[R.g.entry])
      ensures R.g.entry in code && code[R.g.entry] == Code([], Br(Goto(R.head)))
      ensures RenamedIn(R, idom, phis, termRegTbl, code, R.g.nodes - {R.g.entry})
    {
      hide *;
      ReadyParts();
      OnlyChild(R, idom, dtreeSuccs);
      var regTbl := LoadAll();
      EntryTableGood(R, regTbl);
      termRegTbl := termRegTbl[R.g.entry := regTbl];
      // the loop over the children stops after the first; there is only one
      var nBlock, _ := Next(dtreeSuccs[R.g.entry]);
      code := code[R.g.entry := Code([], Br(Goto(nBlock)))];
      HeadApart(R);
      ghost var tables0, code0 := termRegTbl, code;
      TraverseAndRename(nBlock, regTbl);
      StillThere(Subtree(R.g, R.head), tables0, termRegTbl, R.g.entry);
      StillThere(Subtree(R.g, R.head), code0, code, R.g.entry);
    }

    /** The loads of the entry block. */
    method LoadAll() returns (regTbl: Table)
      requires Ready()
      ensures IsEntryTable(R, regTbl)
    {
      hide WellFormedRegion, IsIdomMap, IsDTree, PhisClosed, IsRead, Defs;
      regTbl := map[];
      for i := 0 to 32
        invariant forall v :: v in regTbl <==> v.Gpr? && 0 <= v.r < i && Tracked(R, v)
        invariant forall v :: v in regTbl ==> regTbl[v] == if v == Gpr(0) then Const(0) else EntryLoad(v)
      {
        if allGprRead[i] || gprDefinitionBlocks[i] != {} {
          regTbl := regTbl[Gpr(i) := if i == 0 then Const(0) else EntryLoad(Gpr(i))];
        }
      }
      regTbl := regTbl[Icnt := EntryLoad(Icnt)];
    }

    /** addIncomingEdge of phi v for every predecessor of b. */
    method AddIncomingEdges(b: Block, v: Var) returns (edges: map<Block, Value>)
      requires Traversed(R, termRegTbl) && Linked(R.g) && b in R.g.nodes && Tracked(R, v)
      ensures forall p :: p in Preds(R.g, b) ==> p in edges && p in termRegTbl && edges[p] == Lookup(termRegTbl[p], v)
    {
      hide GoodTable, Tracked;
      edges := map[];
      var todo := Preds(R.g, b);
      while todo != {}
        invariant todo <= Preds(R.g, b)
        invariant forall p :: p in Preds(R.g, b) && p !in todo ==>
          p in edges && p in termRegTbl && edges[p] == Lookup(termRegTbl[p], v)
        decreases todo
      {
        var bb;
        bb, todo := Next(todo);
        NeverNull(R, bb, termRegTbl[bb], v);
        var val := Lookup(termRegTbl[bb], v);
        assert val != Null;
        edges := edges[bb := val];
      }
    }

    /** The operands of all phis of b. */
    method PatchBlock(b: Block)
      requires Traversed(R, termRegTbl) && Linked(R.g) && b in R.g.nodes && b in phis && forall v :: v in phis[b] ==>
        Tracked(R, v)
      modifies this`incoming
      ensures Kept({b}, old(incoming), incoming) && PatchedIn(R, phis, termRegTbl, incoming, {b})
    {
      hide GoodTable, Tracked, Linked;
      var operands: map<Var, map<Block, Value>> := map[];
      var todo := phis[b];
      while todo != {}
        invariant todo <= phis[b]
        invariant forall v :: v in phis[b] && v !in todo ==> v in operands
        invariant forall v, p :: v in phis[b] && v !in todo && p in Preds(R.g, b) ==>
          p in operands[v] && p in termRegTbl && operands[v][p] == Lookup(termRegTbl[p], v)
        decreases todo
        modifies {}
      {
        var v;
        v, todo := Next(todo);
        var edges := AddIncomingEdges(b, v);
        operands := operands[v := edges];
      }
      incoming := incoming[b := operands];
      KeptOne(old(incoming), b, operands);
      MakePatched(R, phis, termRegTbl, incoming, b);
    }

    /** patchUpPhiNodes: b and everything below it in the dominator tree. */
    method PatchUpPhiNodes(b: Block)
      requires Ready() && Traversed(R, termRegTbl) && b in R.g.nodes
      modifies this`incoming
      ensures Kept(Subtree(R.g, b), old(incoming), incoming)
      ensures PatchedIn(R, phis, termRegTbl, incoming, Subtree(R.g, b))
      decreases Subtree(R.g, b)
    {
      hide *;
      ReadyParts();
      PhisTracked(R, phis, b);
      LinkedOf(R.g);
      SubtreeSplit(R.g, idom, dtreeSuccs, b);
      PatchBlock(b);
      ghost var incoming1 := incoming;
      var todo := dtreeSuccs[b];
      ghost var done: set<Block> := {};
      ghost var S := {b} + Below(R.g, done);
      NothingBelow(R.g);
      assert S == {b};
      while todo != {}
        invariant todo <= dtreeSuccs[b] && done == dtreeSuccs[b] - todo && S == {b} + Below(R.g, done)
        invariant Kept(S, old(incoming), incoming) && PatchedIn(R, phis, termRegTbl, incoming, S)
        decreases todo
      {
        var bb, rest := Next(todo);
        ghost var before := incoming;
        ChildApart(R.g, idom, dtreeSuccs, b, done, bb);
        BelowAdd(R.g, done, bb);
        PatchUpPhiNodes(bb);
        PatchedFrame(R, phis, termRegTbl, before, S, incoming, Subtree(R.g, bb));
        PatchedUnion(R, phis, termRegTbl, incoming, S, Subtree(R.g, bb));
        KeptTrans(S, Subtree(R.g, bb), S + Subtree(R.g, bb), old(incoming), before, incoming);
        todo := rest;
        done := done + {bb};
        S := S + Subtree(R.g, bb);
      }
      assert done == dtreeSuccs[b];
    }
  }
}
