/** analyzeGraph: dominators, frontiers, phis, renaming and phi patch-up, one after the other. */
module Translator {
  import opened Graphs
  import opened Augmentation
  import opened Frontiers
  import BitsetDominance
  import BlockHeap
  import opened BlockStores
  import LengauerTarjan
  import NaturalLoops
  import opened RegionBuilder
  import opened RegionCfgs
  import opened Rv32
  import opened SsaIr
  import opened CodeGen
  import opened SsaForm
  import opened Meaning
  import opened DefUse
  import opened Renaming
  import opened Vars

  /** computeDominance below 512 blocks, computeLengauerTarjanDominance from there on. */
  method ComputeDominators(g: Graph) returns (idom: map<Block, Block>, dtreeSuccs: map<Block, set<Block>>)
    requires WellFormed(g)
    ensures IsIdomMap(g, idom) && IsDTree(g, idom, dtreeSuccs)
  {
    hide *;
    if |g.nodes| < 512 {
      var bits := new BitsetDominance.BitsetDominators(g);
      idom, dtreeSuccs := bits.Run();
    } else {
      var lt := new LengauerTarjan.LengauerTarjanDominators(g);
      dtreeSuccs := lt.Run();
      idom := lt.idom;
    }
  }

  /** The analyses of the graph: dominators, interval numbers, frontiers and natural loops. */
  method Analyze(g: Graph) returns (cfg: RegionCfg, loops: map<Block, set<Block>>)
    requires WellFormed(g)
    ensures fresh(cfg) && cfg.g == g && cfg.phis == map b | b in g.nodes :: {}
    ensures IsIdomMap(g, cfg.idom) && IsDTree(g, cfg.idom, cfg.dtreeSuccs) && IsFrontierMap(g, cfg.dfrontier)
    ensures forall h :: h in loops <==> exists l :: l in g.nodes && NaturalLoops.BackEdge(g, l, h)
  {
    hide WellFormed, IsIdomMap, IsDTree, IsFrontierMap, Dominates, NaturalLoops.InLoop, NaturalLoops.BackEdge;
    cfg := new RegionCfg(g);
    var idom, dtree := ComputeDominators(g);
    cfg.idom, cfg.dtreeSuccs := idom, dtree;
    cfg.FastDominancePreComputation();
    cfg.ComputeDominanceFrontiers();
    loops := cfg.FindNaturalLoops();
  }

  /** analyzeGraph. Every die() and assert() on the way is unreachable for a well-formed region. */
  method AnalyzeGraph(R: Region) returns (idom: map<Block, Block>, T: Translation)
    requires WellFormedRegion(R)
    ensures IsTranslation(R, idom, T) && PreservesMeaning(R, T)
    ensures R.g.entry in T.code && T.code[R.g.entry] == Code([], Br(Goto(R.head)))
  {
    hide *;
    RegionParts(R);
    AllCodeOk(R);
    var cfg, loops := Analyze(R.g);
    var allRead, defs := GetRegDefBlocks(R);
    NoZeroDefs(R, allRead, defs);
    ghost var recorded := defs;
    defs := AddEntry(R, allRead, defs);
    InsertPhis(R, cfg, defs);
    var builder := new SsaBuilder(R, cfg.idom, cfg.dtreeSuccs, cfg.phis, allRead, defs);
    MakeReady(builder, recorded);
    builder.TraverseEntry();
    AllTraversed(R, cfg.idom, cfg.phis, builder.termRegTbl, builder.code);
    builder.PatchUpPhiNodes(R.g.entry);
    idom, T := cfg.idom, Translation(cfg.phis, builder.termRegTbl, builder.code, builder.incoming);
    MakeTranslation(R, idom, T);
    TranslationIsFaithful(R, idom, T);
  }

  lemma MakeReady(builder: SsaBuilder, recorded: seq<set<Block>>)
    requires WellFormedRegion(builder.R) && IsIdomMap(builder.R.g, builder.idom)
    requires IsDTree(builder.R.g, builder.idom, builder.dtreeSuccs)
    requires PhisClosed(builder.R, builder.phis) && DefBlocks(builder.R, builder.gprDefinitionBlocks)
    requires Recorded(builder.R, builder.allGprRead, recorded)
    ensures builder.Ready()
  {
    hide WellFormedRegion, IsIdomMap, IsDTree, PhisClosed, DefBlocks;
  }

  lemma AllTraversed(R: Region, idom: map<Block, Block>, phis: map<Block, set<Var>>, tables: map<Block, Table>,
                     code: map<Block, Code>)
    requires WellFormed(R.g) && R.g.entry in tables && IsEntryTable(R, tables[R.g.entry])
    requires RenamedIn(R, idom, phis, tables, code, R.g.nodes - {R.g.entry})
    ensures Traversed(R, tables)
  {
    hide WellFormed, IsEntryTable, GoodTable, EndTable, IsTerm, StartTable, BodyStmts;
    EntryTableGood(R, tables[R.g.entry]);
    forall x | x in R.g.nodes
      ensures x in tables && GoodTable(R, x, tables[x])
    {
      if x != R.g.entry {
        assert Renamed(R, idom, Translation(phis, tables, code, map[]), x);
      }
    }
  }

  lemma MakeTranslation(R: Region, idom: map<Block, Block>, T: Translation)
    requires WellFormedRegion(R) && IsIdomMap(R.g, idom) && PhisClosed(R, T.phis)
    requires R.g.entry in T.tables && IsEntryTable(R, T.tables[R.g.entry])
    requires RenamedIn(R, idom, T.phis, T.tables, T.code, R.g.nodes - {R.g.entry})
    requires PatchedIn(R, T.phis, T.tables, T.incoming, Subtree(R.g, R.g.entry))
    ensures IsTranslation(R, idom, T)
  {
    hide WellFormedRegion, WellFormed, IsIdomMap, PhisClosed, IsEntryTable, Subtree, Renamed, Patched, RenamedIn,
         PatchedIn;
    RegionParts(R);
    WholeTree(R.g);
    forall b | b in R.g.nodes && b != R.g.entry
      ensures Renamed(R, idom, T, b)
    {
      RenamedWhole(R, idom, T, b);
    }
    forall b | b in R.g.nodes
      ensures Patched(R, T, b)
    {
      PatchedWhole(R, T, b);
    }
  }

  lemma RenamedWhole(R: Region, idom: map<Block, Block>, T: Translation, b: Block)
    requires RenamedIn(R, idom, T.phis, T.tables, T.code, R.g.nodes - {R.g.entry}) && b in R.g.nodes && b != R.g.entry
    ensures Renamed(R, idom, T, b)
  {
    hide GoodTable, EndTable, IsTerm, StartTable, BodyStmts, CountStmt, WithPhiValues;
    assert Renamed(R, idom, Translation(T.phis, T.tables, T.code, map[]), b);
  }

  lemma PatchedWhole(R: Region, T: Translation, b: Block)
    requires PatchedIn(R, T.phis, T.tables, T.incoming, R.g.nodes) && b in R.g.nodes
    ensures Patched(R, T, b)
  {
    hide Lookup;
    assert Patched(R, Translation(T.phis, T.tables, map[], T.incoming), b);
  }

  lemma AllCodeOk(R: Region)
    requires WellFormedRegion(R)
    ensures forall b :: b in R.g.nodes ==> CodeOk(R, b)
  {
    hide WellFormed, JumpOk, Translatable;
  }

  /** R is the region of the blocks with head h, with the edges of the store, and T a translation of it. */
  ghost predicate IsCompiled(L: Listing, E: Links, h: Block, entry: Block, blocks: set<Block>, R: Region,
                             T: Translation) {
    && IsRegionGraph(R.g, blocks, E.succs, h, entry) && R.head == h && R.g.entry == entry
       && R.g.nodes == blocks + {entry} && Mirrors(R, L, blocks)
    && WellFormedRegion(R) && FallsInside(R, blocks) && PreservesMeaning(R, T)
  }

  /** From the traces recorded for h to the generated code of its region. */
  method CompileTraces(bs: BlockStore, aug: CfgAug, h: Block, entry: Block)
    returns (R: Option<Region>, T: Option<Translation>, ghost blocks: set<Block>)
    requires bs.Valid() && TracesOf(bs.regions, h) != [] && AllReadOnly(bs.listing) && entry !in bs.listing.entryAddr
    ensures R.Some? == T.Some?
    ensures Augmented(aug, bs.links.succs, bs.listing.flags, h, Union(TracesOf(bs.regions, h)), blocks)
    ensures blocks <= bs.listing.readOnly && (R.Some? <==> AllTranslatable(bs.listing, blocks))
    ensures R.Some? ==> IsCompiled(bs.listing, bs.links, h, entry, blocks, R.value, T.value)
  {
    hide StoreOk, AllTranslatable, WellFormedRegion, FallsInside, PreservesMeaning, IsTranslation, IsDecoded, Arc,
         BackArc, Inner,
         BlockHeap.Code, Augmented, Union, Copies, KeysOk;
    var theBlocks;
    R, theBlocks := BuildCFG(bs, aug, h, entry);
    blocks := theBlocks;
    T := None;
    if R.Some? {
      var idom, t := AnalyzeGraph(R.value);
      T := Some(t);
      CopiesMirror(R.value, bs.listing, blocks);
    }
  }
}
