/** The guest program in the long run, and compiled regions: what the code generated for a region does when it is
    run. */
module CompiledCode {
  import opened Graphs
  import opened Rv32
  import opened MachineFacts
  import opened PlainMode
  import opened BlockHeap
  import opened Augmentation
  import opened BlockStores
  import CodeGen
  import SsaForm
  import SsaRun
  import Refinement
  import Meaning

  // ---------- the guest ----------

  /** The guest program: every fetch during the run from s returns the word that code has for the address, the
      interpreter can execute it, it does not read the cycle counter into x0, and a linking jalr that has been executed
      before is one that compiled code gets right. been holds the addresses executed before s. */
  ghost predicate Tame(code: int -> int, been: set<int>, s: State) {
    && (forall j: nat :: InterpretN(s, j).Some? ==> TameStep(code, InterpretN(s, j).value))
    && forall j: nat :: Again(been, s, j) ==> Refinement.LinkStep(InterpretN(s, j).value)
  }

  ghost predicate TameStep(code: int -> int, s: State) {
    ReadN(s.mem, s.pc, 4) == code(s.pc) && Interpret(s).Some? && Fetch(s) != Some(ReadCycle(0))
  }

  /** The instruction that is next after j steps has been executed before. */
  ghost predicate Again(been: set<int>, s: State, j: nat) {
    && InterpretN(s, j).Some?
    && (InterpretN(s, j).value.pc in been || exists i :: 0 <= i < j && At(s, i, InterpretN(s, j).value.pc))
  }

  /** After i steps the interpreter is at the address pc. */
  ghost predicate At(s: State, i: nat, pc: int) {
    InterpretN(s, i).Some? && InterpretN(s, i).value.pc == pc
  }

  /** After n steps, those of the n instructions have been executed too. */
  lemma TameTail(code: int -> int, been: set<int>, s: State, n: nat, been': set<int>)
    requires Tame(code, been, s) && InterpretN(s, n).Some?
    requires forall a :: a in been' ==> a in been || exists i :: 0 <= i < n && At(s, i, a)
    ensures Tame(code, been', InterpretN(s, n).value)
  {
    hide TameStep, Interpret, InterpretN, Refinement.LinkStep;
    var t := InterpretN(s, n).value;
    forall j: nat | InterpretN(t, j).Some?
      ensures TameStep(code, InterpretN(t, j).value)
    {
      RunsCompose(s, n, j);
    }
    forall j: nat | Again(been', t, j)
      ensures Refinement.LinkStep(InterpretN(t, j).value)
    {
      AgainLater(been, s, n, been', j);
      RunsCompose(s, n, j);
    }
  }

  lemma AgainLater(been: set<int>, s: State, n: nat, been': set<int>, j: nat)
    requires InterpretN(s, n).Some? && Again(been', InterpretN(s, n).value, j)
    requires forall a :: a in been' ==> a in been || exists i :: 0 <= i < n && At(s, i, a)
    ensures Again(been, s, n + j)
  {
    hide InterpretN;
    var t := InterpretN(s, n).value;
    RunsCompose(s, n, j);
    var pc := InterpretN(t, j).value.pc;
    if pc in been' {
      if pc !in been {
        var i :| 0 <= i < n && At(s, i, pc);
        assert i < n + j && At(s, i, pc);
      }
    } else {
      var i :| 0 <= i < j && At(t, i, pc);
      RunsCompose(s, n, i);
      assert n + i < n + j && At(s, n + i, pc);
    }
  }

  /** The same after steps that have not been anywhere of interest. */
  lemma TameOn(code: int -> int, been: set<int>, s: State, n: nat)
    requires Tame(code, been, s) && InterpretN(s, n).Some?
    ensures Tame(code, been, InterpretN(s, n).value)
  {
    hide Tame, InterpretN, At;
    TameTail(code, been, s, n, been);
  }

  /** A guest all of whose steps are good ones. */
  lemma AlwaysTame(code: int -> int, been: set<int>, s: State)
    requires forall j: nat :: InterpretN(s, j).Some? ==>
      TameStep(code, InterpretN(s, j).value) && Refinement.LinkStep(InterpretN(s, j).value)
    ensures Tame(code, been, s)
  {
    hide TameStep, InterpretN, Refinement.LinkStep;
  }

  lemma TameNow(code: int -> int, been: set<int>, s: State)
    requires Tame(code, been, s)
    ensures TameStep(code, s) && (s.pc in been ==> Refinement.LinkStep(s))
  {
    hide TameStep, Refinement.LinkStep;
    assert InterpretN(s, 0) == Some(s);
    assert s.pc in been ==> Again(been, s, 0);
  }

  /** A state that code can be entered in: words in range, and x0 zero. */
  ghost predicate Sane(s: State) {
    ValidState(s) && s.gpr[0] == 0
  }

  /** A tame guest runs for ever, through sane states. */
  lemma {:induction false} TameRun(code: int -> int, been: set<int>, s: State, n: nat)
    requires Tame(code, been, s)
    ensures InterpretN(s, n).Some?
    ensures Sane(s) ==> Sane(InterpretN(s, n).value)
    decreases n
  {
    hide ValidState, Interpret, Fetch, Refinement.LinkStep, Again;
    if n > 0 {
      TameRun(code, been, s, n - 1);
      var t := InterpretN(s, n - 1).value;
      assert TameStep(code, t);
      if Sane(s) {
        InterpretKeeps(t, Interpret(t).value);
      }
    }
  }

  // ---------- compiled regions ----------

  /** regionCFG: a region and its translation. */
  datatype Compiled = Compiled(R: CodeGen.Region, T: SsaForm.Translation)

  /** c was generated for a region with head h whose traces have the blocks in B. The region may hold more blocks, of
      which the store does not know that they are in it. One of those may have been split since. */
  ghost predicate Fits(code: int -> int, aug: CfgAug, known: set<int>, L: Listing, h: Block, B: set<Block>,
                       c: Compiled) {
    && h in B && c.R.head == h && B <= RegionBlocks(c.R) && (aug.NoAug? ==> B == RegionBlocks(c.R))
    && SsaForm.WellFormedRegion(c.R) && Meaning.PreservesMeaning(c.R, c.T)
    && SsaForm.FallsInside(c.R, RegionBlocks(c.R))
    && (forall b :: b in RegionBlocks(c.R) ==> b in L.readOnly && b in L.entryAddr)
    && (forall b :: b in RegionBlocks(c.R) ==> CodeGen.Addr(c.R, b) == Entry(L.entryAddr, b) && FromGuest(code, c.R, b))
    && (forall b :: b in RegionBlocks(c.R) ==> |Code(L.vecIns, b)| <= |CodeGen.Insns(c.R, b)|)
    && (forall b :: b in RegionBlocks(c.R) ==> IsKnown(known, c.R, b))
    && forall b :: b in B ==> !CutSince(L, c.R, b)
  }

  /** The instructions of b are at known addresses. */
  ghost predicate IsKnown(known: set<int>, R: CodeGen.Region, b: Block) {
    forall i :: 0 <= i < |CodeGen.Insns(R, b)| ==> AddrOf(CodeGen.Addr(R, b), i) in known
  }

  /** The blocks of the region. */
  ghost function RegionBlocks(R: CodeGen.Region): set<Block> {
    R.g.nodes - {R.g.entry}
  }

  /** The block has been split since it was compiled. */
  ghost predicate CutSince(L: Listing, R: CodeGen.Region, b: Block) {
    |Code(L.vecIns, b)| < |CodeGen.Insns(R, b)|
  }

  /** The instructions of b are those that the guest has at their addresses. */
  ghost predicate FromGuest(code: int -> int, R: CodeGen.Region, b: Block) {
    forall i :: 0 <= i < |CodeGen.Insns(R, b)| ==>
      Decode(code(AddrOf(CodeGen.Addr(R, b), i))) == Some(CodeGen.Insns(R, b)[i])
  }

  /** Every head of a compiled region has code for that region. */
  ghost predicate CplrOk(code: int -> int, aug: CfgAug, known: set<int>, L: Listing, compiled: map<Block, set<Block>>,
                         cfgCplr: map<Block, Compiled>) {
    forall h :: h in compiled && compiled[h] != {} ==>
      h in cfgCplr && Fits(code, aug, known, L, h, compiled[h], cfgCplr[h])
  }

  /** Code stays good while the store changes around its region, and under the blocks that augmentation has added to
      it. */
  lemma CplrKept(code: int -> int, aug: CfgAug, known: set<int>, L: Listing, G: Regions, m: map<int, Block>,
                 cfgCplr: map<Block, Compiled>, known': set<int>, L': Listing, G': Regions, m': map<int, Block>)
    requires CplrOk(code, aug, known, L, G.compiled, cfgCplr) && CodeKept(L, G, L', G') && Grown(L, m, L', m')
    requires known <= known'
    ensures CplrOk(code, aug, known', L', G'.compiled, cfgCplr)
  {
    hide Fits, SameCode, Grown;
    forall h | h in G'.compiled && G'.compiled[h] != {}
      ensures h in cfgCplr && Fits(code, aug, known', L', h, G'.compiled[h], cfgCplr[h])
    {
      FitsStill(code, aug, known, L, m, h, G.compiled[h], cfgCplr[h], known', L', m');
    }
  }

  lemma FitsStill(code: int -> int, aug: CfgAug, known: set<int>, L: Listing, m: map<int, Block>, h: Block,
                  B: set<Block>, c: Compiled,
                  known': set<int>, L': Listing, m': map<int, Block>)
    requires Fits(code, aug, known, L, h, B, c) && SameCode(L, L', B) && Grown(L, m, L', m') && known <= known'
    ensures Fits(code, aug, known', L', h, B, c)
  {
    hide SsaForm.WellFormedRegion, SsaForm.FallsInside, Meaning.PreservesMeaning, FromGuest, Code, Entry, CodeGen.Addr,
         CodeGen.Insns;
  }

  /** The split of a block that only augmentation has put into the region of h leaves the region compiled, with a block
      that is not the one it was compiled from; a region that the block knows of is dropped. */
  lemma StaleRegion(code: int -> int, aug: CfgAug, known: set<int>, L: Listing, E: Links, C: Counts, G: Regions,
                    h: Block, c: Compiled,
                    b: Block, a: int, n: Block, L': Listing, E': Links, C': Counts, G': Regions)
    requires h in G.compiled && Fits(code, aug, known, L, h, G.compiled[h], c) && b in RegionBlocks(c.R) && b != n
    requires SplitAt(L, E, C, b, a, n, L', E', C')
    requires Dropped(b, G.cfgInRegions, G.bbRegions, G.compiled, G'.bbRegions, G'.compiled)
    ensures CutSince(L', c.R, b)
    ensures forall x :: Edge(G'.compiled, h, x) <==> x in G.compiled[h] && !Edge(G.cfgInRegions, b, h)
  {
    hide SsaForm.WellFormedRegion, SsaForm.FallsInside, Meaning.PreservesMeaning, FromGuest, Records, AddrOf, FlagsOf,
         Entry,
         CodeGen.Addr, CodeGen.Insns;
    var i: nat :|
      0 < i < |Code(L.vecIns, b)| && a == AddrOf(Entry(L.entryAddr, b), i) && L' == SplitListing(L, b, n, a, i);
    CodePut(L.vecIns[n := Code(L.vecIns, b)[i..]], b, Code(L.vecIns, b)[..i]);
    SuccsAre(G.compiled, h);
  }

  lemma CplrAdded(code: int -> int, aug: CfgAug, known: set<int>, L: Listing, compiled: map<Block, set<Block>>,
                  cfgCplr: map<Block, Compiled>, h: Block, B: set<Block>, c: Compiled)
    requires CplrOk(code, aug, known, L, compiled, cfgCplr) && Fits(code, aug, known, L, h, B, c)
    ensures CplrOk(code, aug, known, L, compiled[h := B], cfgCplr[h := c])
  {
    hide Fits;
  }

  lemma CplrDropped(code: int -> int, aug: CfgAug, known: set<int>, L: Listing, compiled: map<Block, set<Block>>,
                    cfgCplr: map<Block, Compiled>, h: Block)
    requires CplrOk(code, aug, known, L, compiled, cfgCplr)
    ensures CplrOk(code, aug, known, L, compiled[h := {}], cfgCplr)
  {
    hide Fits;
  }

  /** The blocks are laid out in the guest's code. */
  ghost predicate LaidOut(code: int -> int, L: Listing, B: set<Block>) {
    forall b :: b in B ==> Laid(code, Entry(L.entryAddr, b), Code(L.vecIns, b))
  }

  /** At the instructions of the region, the guest fetches what was compiled. */
  lemma FetchIntact(code: int -> int, aug: CfgAug, known: set<int>, L: Listing, h: Block, B: set<Block>, c: Compiled,
                    t: State)
    requires Fits(code, aug, known, L, h, B, c) && TameStep(code, t)
    requires t.pc in known ==> Refinement.LinkStep(t)
    ensures Refinement.OkStep(c.R, t)
  {
    hide SsaForm.WellFormedRegion, SsaForm.FallsInside, Meaning.PreservesMeaning, Decode, ReadN, Code, Entry,
         CodeGen.Addr, Interpret,
         Refinement.LinkStep;
    EntryEmpty(c.R);
    forall b, i | b in c.R.g.nodes && 0 <= i < |CodeGen.Insns(c.R, b)| && t.pc == CodeGen.InsnAddr(c.R, b, i)
      ensures Fetch(t) == Some(CodeGen.Insns(c.R, b)[i]) && t.pc in known
    {
      assert b in RegionBlocks(c.R);
      assert FromGuest(code, c.R, b) && IsKnown(known, c.R, b);
      assert Decode(code(AddrOf(CodeGen.Addr(c.R, b), i))) == Some(CodeGen.Insns(c.R, b)[i]);
    }
  }

  lemma EntryEmpty(R: CodeGen.Region)
    requires SsaForm.WellFormedRegion(R)
    ensures CodeGen.Insns(R, R.g.entry) == []
  {
    hide SsaForm.BlockOk, SsaForm.JumpOk;
  }

  lemma TameGuarded(code: int -> int, aug: CfgAug, known: set<int>, L: Listing, h: Block, B: set<Block>, c: Compiled,
                    s: State, n: nat)
    requires Tame(code, known, s) && Fits(code, aug, known, L, h, B, c)
    ensures Refinement.Guarded(c.R, s, n)
  {
    hide Fits, Tame, TameStep, Refinement.OkStep, Refinement.LinkStep, InterpretN;
    forall j | 0 <= j < n
      ensures InterpretN(s, j).Some? && Refinement.OkStep(c.R, InterpretN(s, j).value)
    {
      TameRun(code, known, s, j);
      TameOn(code, known, s, j);
      TameNow(code, known, InterpretN(s, j).value);
      FetchIntact(code, aug, known, L, h, B, c, InterpretN(s, j).value);
    }
  }

  /** Where the compiled code leaves a block for, control can go from that block, if it is still the block that was
      compiled. */
  lemma LeftBlock(code: int -> int, L: Listing, R: CodeGen.Region, b: Block, pc: int)
    requires Laid(code, Entry(L.entryAddr, b), Code(L.vecIns, b)) && FromGuest(code, R, b)
    requires CodeGen.Addr(R, b) == Entry(L.entryAddr, b) && |Code(L.vecIns, b)| == |CodeGen.Insns(R, b)|
    requires Meaning.EndGoes(R, b, pc)
    ensures CanGo(Code(L.vecIns, b), pc)
  {
    hide Decode, GoesTo, Code, Entry, CodeGen.Insns, CodeGen.Addr, Normal, Transfers;
    var v, d := Code(L.vecIns, b), CodeGen.Insns(R, b);
    assert Decode(v[|v| - 1].0) == Some(d[|v| - 1]);
    assert v[|v| - 1].1 == AddrOf(Entry(L.entryAddr, b), |v| - 1);
  }

  /** The code of a region after k blocks: still inside, where the interpreter also is, or gone with the interpreter's
      state, by a transfer of control to where the block that was left can go, if it is still the one that was
      compiled. */
  ghost predicate RanRight(L: Listing, R: CodeGen.Region, s: State, k: nat, r: SsaRun.Config) {
    match r
    case Stuck(_) => false
    case Exited(t, from, steps) =>
      && steps > 0 && InterpretN(s, steps) == Some(t) && t.brk == s.brk && 0 <= t.pc < WORD && from in RegionBlocks(R)
      && (CutSince(L, R, from) || CanGo(Code(L.vecIns, from), t.pc)) && Jumped(s, steps)
    case Running(_, to, _, mem, steps) =>
      steps >= k && InterpretN(s, steps).Some? && to in RegionBlocks(R)
        && InterpretN(s, steps).value.pc == Entry(L.entryAddr, to) && InterpretN(s, steps).value.mem == mem
        && InterpretN(s, steps).value.brk == s.brk
  }

  lemma CompiledRuns(code: int -> int, aug: CfgAug, known: set<int>, L: Listing, h: Block, B: set<Block>, c: Compiled,
                     s: State, k: nat)
    requires Fits(code, aug, known, L, h, B, c) && LaidOut(code, L, L.readOnly) && Tame(code, known, s) && Sane(s)
    requires s.pc == Entry(L.entryAddr, h)
    ensures RanRight(L, c.R, s, k, SsaRun.RunBlocks(c.R, c.T, s, k))
  {
    hide Tame, SsaForm.WellFormedRegion, FromGuest, Code, Entry, CodeGen.Insns, CodeGen.Addr, Laid, ValidState, CanGo,
         InterpretN, SsaRun.RunBlocks, Refinement.Guarded, Meaning.EndGoes, Meaning.NoSuccAt, Meaning.Ending, Jumped;
    var r := SsaRun.RunBlocks(c.R, c.T, s, k);
    TameGuarded(code, aug, known, L, h, B, c, s, r.steps);
    assert Meaning.MayStart(c.R, s);
    assert Meaning.Faithful(c.R, s, r);
    if r.Exited? {
      ValidPc(r.state);
      ExitJumps(code, aug, known, L, h, B, c, s, r);
      if !CutSince(L, c.R, r.from) {
        LeftBlock(code, L, c.R, r.from, r.state.pc);
      }
    }
  }

  /** Compiled code is only left by a transfer of control: a block that falls through falls into the region. */
  lemma ExitJumps(code: int -> int, aug: CfgAug, known: set<int>, L: Listing, h: Block, B: set<Block>, c: Compiled,
                  s: State,
                  r: SsaRun.Config)
    requires Fits(code, aug, known, L, h, B, c) && Tame(code, known, s) && r.Exited? && Meaning.Faithful(c.R, s, r)
    ensures Jumped(s, r.steps)
  {
    hide Meaning.PreservesMeaning, Tame, Code, Entry, CodeGen.Insns, CodeGen.Addr, Decode, Interpret, InterpretN, ReadN,
         SsaForm.WellFormedRegion, SsaForm.FallsInside, GoesTo, Meaning.NoSuccAt, Refinement.LinkStep, CodeGen.SuccAt;
    var R, b := c.R, r.from;
    var n, u := |CodeGen.Insns(R, b)|, InterpretN(s, r.steps - 1).value;
    TameOn(code, known, s, r.steps - 1);
    TameNow(code, known, u);
    assert b in RegionBlocks(R) && FromGuest(code, R, b);
    assert Fetch(u) == Some(CodeGen.Insns(R, b)[n - 1]);
    if !IsControl(CodeGen.Insns(R, b)[n - 1]) {
      FallsNowhere(R, b, r.state.pc);
    }
  }

  lemma FallsNowhere(R: CodeGen.Region, b: Block, pc: int)
    requires SsaForm.WellFormedRegion(R) && SsaForm.FallsInside(R, RegionBlocks(R)) && b in RegionBlocks(R)
    requires Meaning.EndGoes(R, b, pc) && Meaning.NoSuccAt(R, b, pc)
    ensures IsControl(CodeGen.Insns(R, b)[|CodeGen.Insns(R, b)| - 1])
  {
    hide CodeGen.Insns, CodeGen.InsnAddr, WellFormed, SsaForm.JumpOk, CodeGen.SuccAt;
    var n := |CodeGen.Insns(R, b)|;
    assert SsaForm.BlockOk(R, b) && SsaForm.FallOk(R, b);
    Refinement.NextAddr(R, b, n - 1);
    assert SsaForm.Translatable(CodeGen.Insns(R, b)[n - 1]);
  }

  lemma ValidPc(s: State)
    requires ValidState(s)
    ensures 0 <= s.pc < WORD
  {
  }

  /** The generated code at work, for at most fuel blocks. */
  method RunRegion(c: Compiled, s: State, fuel: nat) returns (r: SsaRun.Config)
    ensures r == SsaRun.RunBlocks(c.R, c.T, s, fuel)
  {
    hide SsaRun.Start, SsaRun.StepBlock;
    r := SsaRun.Start(c.R, c.T, s);
    var k := 0;
    while r.Running? && k < fuel
      invariant k <= fuel && r == SsaRun.RunBlocks(c.R, c.T, s, k)
      decreases fuel - k
    {
      r := SsaRun.StepBlock(c.R, c.T, s, r);
      k := k + 1;
    }
    RunStays(c, s, k, fuel);
  }

  /** Code that has left its region is done. */
  lemma {:induction false} RunStays(c: Compiled, s: State, k: nat, fuel: nat)
    requires k <= fuel && (k == fuel || !SsaRun.RunBlocks(c.R, c.T, s, k).Running?)
    ensures SsaRun.RunBlocks(c.R, c.T, s, fuel) == SsaRun.RunBlocks(c.R, c.T, s, k)
    decreases fuel
  {
    hide SsaRun.Start, SsaRun.StepBlock;
    if k < fuel {
      RunStays(c, s, k, fuel - 1);
      Meaning.StepSteps(c.R, c.T, s, SsaRun.RunBlocks(c.R, c.T, s, k));
    }
  }
}
