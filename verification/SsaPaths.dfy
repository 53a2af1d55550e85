/** SSA renaming is exact on every path through the region, feasible or not: the value that the register table names at
    any point is the one that the last write on the path produced. */
module SsaPaths {
  import opened Graphs
  import opened Frontiers
  import opened PhiPlacement
  import opened Rv32
  import opened SsaIr
  import opened CodeGen
  import opened SsaForm
  import opened SsaRun
  import opened Meaning
  import opened Vars

  /** Where a register's content comes from: loaded on entry, computed by the i-th instruction of the block at
      position at of the path, or a number known to the translator. */
  datatype Origin = Loaded(r: int) | Computed(at: int, i: int) | Number(n: int) | Nowhere

  // ---------- the reference: the last write on a path ----------

  /** The last of the first n instructions of b that writes register r, or -1. */
  function WriteIn(R: Region, b: Block, r: int, n: nat): int
    requires n <= |Insns(R, b)|
    ensures -1 <= WriteIn(R, b, r, n) < n
  {
    if n == 0 then -1 else if Defines(Insns(R, b)[n - 1]) == Some(r) then n - 1 else WriteIn(R, b, r, n - 1)
  }

  /** What the i-th instruction of b, at position k of a path, writes. */
  function Written(R: Region, b: Block, i: int, k: int): Origin
    requires 0 <= i < |Insns(R, b)|
  {
    match Insns(R, b)[i]
    case Lui(_, imm) => Number(imm)
    case Auipc(_, imm) => Number(Wrap(InsnAddr(R, b, i) + imm))
    case Jal(_, _) => Number(Wrap(InsnAddr(R, b, i) + 4))
    case Jalr(_, _, _) => Number(Wrap(InsnAddr(R, b, i) + 4))
    case _ => Computed(k, i)
  }

  /** The last write of r on the path p, of whose last block n instructions have been executed. */
  function LastWrite(R: Region, p: seq<Block>, n: nat, r: int): Origin
    decreases |p|
  {
    if p == [] || n > |Insns(R, Last(p))| then (if r == 0 then Number(0) else Loaded(r))
    else
      var i := WriteIn(R, Last(p), r, n);
      if i >= 0 then Written(R, Last(p), i, |p| - 1)
      else
        var q := p[..|p| - 1];
        LastWrite(R, q, if q == [] then 0 else |Insns(R, Last(q))|, r)
  }

  // ---------- what an SSA value stands for on a path ----------

  /** The last position of b in p, or -1. */
  function LastAt(p: seq<Block>, b: Block): int
    ensures -1 <= LastAt(p, b) < |p|
    ensures LastAt(p, b) >= 0 ==> p[LastAt(p, b)] == b
  {
    if p == [] then -1 else if Last(p) == b then |p| - 1 else LastAt(p[..|p| - 1], b)
  }

  /** A value is what its most recent creation on the path produced; a phi is its operand for the edge taken then. */
  function Resolve(T: Translation, p: seq<Block>, val: Value): Origin
    decreases |p|
  {
    match val
    case Const(n) => Number(n)
    case EntryLoad(v) => if v.Gpr? then Loaded(v.r) else Nowhere
    case Def(b, i) => if LastAt(p, b) < 0 then Nowhere else Computed(LastAt(p, b), i)
    case Phi(b, v) =>
      var k := LastAt(p, b);
      if k <= 0 then Nowhere else Resolve(T, p[..k], Incoming(T, b, v, p[k - 1]))
    case Count(_) => Nowhere
    case Null => Nowhere
  }

  // ---------- the two agree ----------

  /** A value created elsewhere stands for the same thing after one more block. */
  lemma ResolveKeeps(R: Region, T: Translation, p: seq<Block>, val: Value)
    requires |p| > 0 && Home(R, val) != Last(p)
    ensures Resolve(T, p, val) == Resolve(T, p[..|p| - 1], val)
  {
    var q := p[..|p| - 1];
    if val.Phi? {
      var k := LastAt(q, val.b);
      assert LastAt(p, val.b) == k;
      if k > 0 {
        assert p[..k] == q[..k];
      }
    }
  }

  /** The table within b names the last write in b, and without one what it named at the start of b. */
  lemma {:induction false} TableWithin(R: Region, b: Block, tbl: Table, n: nat, r: int)
    requires n <= |Insns(R, b)| && BlockOk(R, b) && 0 <= r < 32
    ensures var i := WriteIn(R, b, r, n);
            var val := Lookup(BodyTable(R, b, tbl, n), Gpr(r));
            if i < 0 then val == Lookup(tbl, Gpr(r))
            else forall k :: val == match Written(R, b, i, k) case Number(x) => Const(x) case _ => Def(b, i)
  {
    if n > 0 {
      TableWithin(R, b, tbl, n - 1, r);
      InsnWrites(R, b, n - 1, BodyTable(R, b, tbl, n - 1), r);
      hide GenTable, Defines, Written, BlockOk;
    }
  }

  lemma InsnWrites(R: Region, b: Block, j: int, tbl: Table, r: int)
    requires 0 <= j < |Insns(R, b)| && BlockOk(R, b) && 0 <= r < 32
    ensures var val := Lookup(GenTable(Insns(R, b)[j], b, j, InsnAddr(R, b, j), tbl), Gpr(r));
            if Defines(Insns(R, b)[j]) != Some(r) then val == Lookup(tbl, Gpr(r))
            else forall k :: val == match Written(R, b, j, k) case Number(x) => Const(x) case _ => Def(b, j)
  {
    assert Translatable(Insns(R, b)[j]);
    hide InsnAddr;
  }

  /** The table while b, the last block of a path, is executed. */
  ghost function TableIn(R: Region, idom: map<Block, Block>, T: Translation, b: Block, n: nat): Table {
    if b == R.g.entry then (if b in T.tables then T.tables[b] else map[])
    else if b in idom && idom[b] in T.tables && n <= |Insns(R, b)| then
      BodyTable(R, b, StartTable(b, T.tables[idom[b]], PhisOf(T, b)), n)
    else map[]
  }

  /** At the start of a block: phi or not, the table names what the path brought. */
  lemma StartExact(R: Region, idom: map<Block, Block>, T: Translation, p: seq<Block>, r: int)
    requires WellFormedRegion(R) && IsTranslation(R, idom, T) && IsPath(R.g, p) && |p| > 1 && Tracked(R, Gpr(r))
    requires p[|p| - 1] != R.g.entry
    ensures var a, b := p[|p| - 2], p[|p| - 1];
            && a in T.tables && b in idom && idom[b] in T.tables
            && Resolve(T, p, Lookup(StartTable(b, T.tables[idom[b]], PhisOf(T, b)), Gpr(r))) ==
               Resolve(T, p[..|p| - 1], Lookup(T.tables[a], Gpr(r)))
  {
    var q := p[..|p| - 1];
    var a, b := p[|p| - 2], p[|p| - 1];
    var v := Gpr(r);
    assert b in Succs(R.g, a);
    hide *;
    EdgeOf(R, a, b);
    TranslationAt(R, idom, T, b);
    var d := idom[b];
    TablesGood(R, idom, T, d);
    TablesGood(R, idom, T, a);
    GoodParts(R, d, T.tables[d]);
    GoodParts(R, a, T.tables[a]);
    PhisOfIs(T, b);
    StartOf(R, b, T.tables[d], PhisOf(T, b), v);
    if v in T.phis[b] {
      OperandIs(R, T, a, b, v);
      ResolvePhi(T, p, v);
    } else {
      IdomPred(R.g, d, b, a);
      DomRefl(R.g, a);
      NoPhiSame(R, idom, T, b, a, a, v);
      AboveElsewhere(R, d, b, T.tables[d]);
      InTable(R, T.tables[d], v);
      LastIs(p);
      ResolveKeeps(R, T, p, T.tables[d][v]);
    }
  }

  lemma EdgeOf(R: Region, a: Block, b: Block)
    requires WellFormedRegion(R) && b in Succs(R.g, a)
    ensures WellFormed(R.g) && a in R.g.nodes && b in R.g.nodes && a in Preds(R.g, b)
  {
    hide BlockOk, JumpOk;
    NotEntry(R.g, a, b);
  }

  lemma StartOf(R: Region, b: Block, above: Table, vs: set<Var>, v: Var)
    requires v.Gpr? && FullTable(R, above) && Tracked(R, v)
    ensures Lookup(StartTable(b, above, vs), v) == if v in vs then Phi(b, v) else Lookup(above, v)
  {
    hide Tracked;
  }

  lemma OperandIs(R: Region, T: Translation, a: Block, b: Block, v: Var)
    requires Patched(R, T, b) && v in PhisOf(T, b) && a in Preds(R.g, b)
    ensures a in T.tables && Incoming(T, b, v, a) == Lookup(T.tables[a], v)
  {
  }

  lemma ResolvePhi(T: Translation, p: seq<Block>, v: Var)
    requires |p| > 1
    ensures Resolve(T, p, Phi(p[|p| - 1], v)) == Resolve(T, p[..|p| - 1], Incoming(T, p[|p| - 1], v, p[|p| - 2]))
  {
    assert LastAt(p, p[|p| - 1]) == |p| - 1;
  }

  lemma InTable(R: Region, tbl: Table, v: Var)
    requires FullTable(R, tbl) && Tracked(R, v)
    ensures v in tbl && Lookup(tbl, v) == tbl[v]
  {
    hide Tracked;
  }

  lemma LastIs(p: seq<Block>)
    requires |p| > 0
    ensures Last(p) == p[|p| - 1]
  {
  }

  /** Taking the last block off a path. */
  lemma Shorter(g: Graph, p: seq<Block>)
    requires IsPath(g, p) && |p| > 1
    ensures var q := p[..|p| - 1];
            IsPath(g, q) && q[0] == p[0] && Last(q) == p[|p| - 2] && Last(p) == p[|p| - 1]
              && Last(p) in Succs(g, Last(q))
  {
    hide Succs;
    var q := p[..|p| - 1];
    assert forall i, j :: 0 <= i < j < |q| && j == i + 1 ==> q[i] == p[i] && q[j] == p[j];
  }

  lemma TrackedRange(R: Region, r: int)
    requires Tracked(R, Gpr(r))
    ensures 0 <= r < 32
  {
  }

  /** On every path from the entry, of any length, the table at any point of the last block names the last write. */
  lemma {:induction false} RenamingExact(R: Region, idom: map<Block, Block>, T: Translation, p: seq<Block>, n: nat,
                                         r: int)
    requires WellFormedRegion(R) && IsTranslation(R, idom, T) && Tracked(R, Gpr(r))
    requires |p| > 0 && IsPath(R.g, p) && p[0] == R.g.entry && n <= |Insns(R, Last(p))|
    ensures Resolve(T, p, Lookup(TableIn(R, idom, T, Last(p), n), Gpr(r))) == LastWrite(R, p, n, r)
    decreases |p|
  {
    hide *;
    LastIs(p);
    if |p| == 1 {
      EntryExact(R, idom, T, p, n, r);
    } else {
      var q := p[..|p| - 1];
      Shorter(R.g, p);
      TrackedRange(R, r);
      RenamingStep(R, idom, T, p, n, r);
      var a := Last(q);
      RenamingExact(R, idom, T, q, |Insns(R, a)|, r);
      WithinExact(R, idom, T, p, n, r);
    }
  }

  lemma RenamingStep(R: Region, idom: map<Block, Block>, T: Translation, p: seq<Block>, n: nat, r: int)
    requires WellFormedRegion(R) && IsTranslation(R, idom, T) && Tracked(R, Gpr(r)) && 0 <= r < 32
    requires |p| > 1 && IsPath(R.g, p) && n <= |Insns(R, Last(p))| && Last(p) in Succs(R.g, p[|p| - 2])
    ensures var a, b := p[|p| - 2], Last(p);
            && b != R.g.entry && b in idom && idom[b] in T.tables && BlockOk(R, b) && a in T.tables
            && TableIn(R, idom, T, a, |Insns(R, a)|) == T.tables[a]
            && Resolve(T, p, Lookup(StartTable(b, T.tables[idom[b]], PhisOf(T, b)), Gpr(r))) ==
               Resolve(T, p[..|p| - 1], Lookup(T.tables[a], Gpr(r)))
  {
    hide *;
    LastIs(p);
    var a, b := p[|p| - 2], Last(p);
    EdgeOf(R, a, b);
    NotEntry(R.g, a, b);
    TableAtEnd(R, idom, T, a);
    StartExact(R, idom, T, p, r);
    TranslationAt(R, idom, T, b);
  }

  lemma EntryExact(R: Region, idom: map<Block, Block>, T: Translation, p: seq<Block>, n: nat, r: int)
    requires WellFormedRegion(R) && IsTranslation(R, idom, T) && Tracked(R, Gpr(r))
    requires p == [R.g.entry] && n <= |Insns(R, R.g.entry)|
    ensures Resolve(T, p, Lookup(TableIn(R, idom, T, R.g.entry, n), Gpr(r))) == LastWrite(R, p, n, r)
  {
    hide WellFormed, IsIdomMap, PhisClosed, Renamed, Patched, Tracked, BlockOk, JumpOk;
    assert n == 0 && WriteIn(R, R.g.entry, r, 0) == -1;
    assert p[..0] == [];
  }

  lemma TableAtEnd(R: Region, idom: map<Block, Block>, T: Translation, b: Block)
    requires WellFormedRegion(R) && IsTranslation(R, idom, T) && b in R.g.nodes
    ensures b in T.tables && TableIn(R, idom, T, b, |Insns(R, b)|) == T.tables[b]
  {
    hide *;
    TablesGood(R, idom, T, b);
    if b != R.g.entry {
      TranslationAt(R, idom, T, b);
      RenamedParts(R, idom, T, b);
      TablesGood(R, idom, T, idom[b]);
      PhisOfIs(T, b);
      TableInIs(R, idom, T, b, |Insns(R, b)|);
    } else {
      TableInEntry(R, idom, T);
    }
  }

  lemma TableInIs(R: Region, idom: map<Block, Block>, T: Translation, b: Block, n: nat)
    requires b != R.g.entry && b in idom && idom[b] in T.tables && n <= |Insns(R, b)|
    ensures TableIn(R, idom, T, b, n) == BodyTable(R, b, StartTable(b, T.tables[idom[b]], PhisOf(T, b)), n)
  {
  }

  lemma TableInEntry(R: Region, idom: map<Block, Block>, T: Translation)
    requires R.g.entry in T.tables
    ensures forall n: nat :: TableIn(R, idom, T, R.g.entry, n) == T.tables[R.g.entry]
  {
  }

  lemma WithinExact(R: Region, idom: map<Block, Block>, T: Translation, p: seq<Block>, n: nat, r: int)
    requires |p| > 1 && n <= |Insns(R, Last(p))| && Last(p) != R.g.entry && Last(p) in idom && idom[Last(p)] in T.tables
    requires BlockOk(R, Last(p)) && 0 <= r < 32
    requires var tbl := StartTable(Last(p), T.tables[idom[Last(p)]], PhisOf(T, Last(p)));
             Resolve(T, p, Lookup(tbl, Gpr(r))) == LastWrite(R, p[..|p| - 1], |Insns(R, Last(p[..|p| - 1]))|, r)
    ensures Resolve(T, p, Lookup(TableIn(R, idom, T, Last(p), n), Gpr(r))) == LastWrite(R, p, n, r)
  {
    hide StartTable, BodyTable, PhisOf, Insns, InsnAddr, BlockOk, TableIn, Written;
    var b := Last(p);
    TableInIs(R, idom, T, b, n);
    TableWithin(R, b, StartTable(b, T.tables[idom[b]], PhisOf(T, b)), n, r);
    var i := WriteIn(R, b, r, n);
    if i >= 0 {
      assert LastAt(p, b) == |p| - 1;
      WrittenIs(R, b, i, |p| - 1);
    }
  }

  lemma WrittenIs(R: Region, b: Block, i: int, k: int)
    requires 0 <= i < |Insns(R, b)|
    ensures Written(R, b, i, k).Number? || Written(R, b, i, k) == Computed(k, i)
  {
  }

  // ---------- blocks without a phi ----------

  /** The blocks with a phi for v. */
  ghost function PhiBlocks(phis: map<Block, set<Var>>, v: Var): set<Block> {
    set x | x in phis && v in phis[x]
  }

  lemma PhiBlocksClosed(R: Region, phis: map<Block, set<Var>>, v: Var)
    requires PhisClosed(R, phis)
    ensures ClosedOver(R.g, Defs(R, v), PhiBlocks(phis, v))
  {
    hide InFrontier, Defs, Tracked;
  }

  lemma NoPhiIn(T: Translation, b: Block, v: Var)
    requires v !in PhisOf(T, b)
    ensures b !in PhiBlocks(T.phis, v)
  {
  }

  lemma OnPath(g: Graph, a: Block, p: seq<Block>, b: Block, k: nat)
    requires Leads(g, a, p, b) && k < |p|
    ensures p[k] in g.nodes
  {
  }

  /** If b has no phi for v, no block strictly between b's immediate dominator and b, on any path that does not come
      back to that dominator, writes v. */
  lemma NoPhiNoWriteBetween(R: Region, idom: map<Block, Block>, T: Translation, b: Block, v: Var, p: seq<Block>, k: nat)
    requires WellFormedRegion(R) && IsTranslation(R, idom, T) && b in R.g.nodes && b != R.g.entry && v !in PhisOf(T, b)
    requires b in idom && Leads(R.g, idom[b], p, b) && idom[b] !in p[1..] && 0 < k < |p| - 1
    ensures !DefinesVar(R, p[k], v)
  {
    hide *;
    TranslationAt(R, idom, T, b);
    NoPhiIn(T, b, v);
    PhisAreClosed(R, idom, T);
    PhiBlocksClosed(R, T.phis, v);
    NoPhiNoWrite(R.g, Defs(R, v), PhiBlocks(T.phis, v), idom[b], b, p, k);
    OnPath(R.g, idom[b], p, b, k);
    if DefinesVar(R, p[k], v) {
      DefinesIn(R, p[k], v);
    }
  }

  lemma PhisAreClosed(R: Region, idom: map<Block, Block>, T: Translation)
    requires IsTranslation(R, idom, T)
    ensures PhisClosed(R, T.phis)
  {
    hide IsIdomMap, PhisClosed, IsEntryTable, Renamed, Patched;
  }

  lemma DefinesIn(R: Region, b: Block, v: Var)
    requires b in R.g.nodes && DefinesVar(R, b, v)
    ensures b in Defs(R, v)
  {
    var d := set c | c in R.g.nodes && DefinesVar(R, c, v);
    assert b in d;
  }
}
