/** The dispatch loops: running blocks, building them, recording traces and running compiled regions, all of which step
    through the same instructions as plain interpretation. */
module Dispatcher {
  import opened Graphs
  import opened Rv32
  import opened MachineFacts
  import opened PlainMode
  import opened BlockHeap
  import opened BlockSplit
  import opened TraceRecorder
  import opened Augmentation
  import opened BlockStores
  import opened FindBlocks
  import opened CompiledCode
  import CodeGen
  import SsaForm
  import SsaRun
  import Refinement
  import Meaning
  import RegionBuilder
  import Translator

  // ---------- one step ----------

  /** One step: where it can go, and whether it stops the machine. */
  lemma StepShape(code: int -> int, s: State, t: State)
    requires TameStep(code, s) && Interpret(s) == Some(t) && 0 <= s.pc < WORD
    ensures 0 <= t.pc < WORD
    ensures Normal(code(s.pc)) ==> t.brk == s.brk && Follows(code(s.pc), s.pc, t.pc)
    ensures Normal(code(s.pc)) && !Transfers(code(s.pc)) ==> t.pc == Wrap(s.pc + 4)
    ensures !Normal(code(s.pc)) ==> t.brk
  {
    hide Decode, ReadN, Compute, LoadFrom, StoreTo, Refinement.LinkOk;
    match Decode(code(s.pc))
    case None =>
    case Some(i) => ExecShape(i, s);
  }

  lemma PcInRange(s: State, t: State)
    requires Interpret(s) == Some(t) && 0 <= s.pc < WORD
    ensures 0 <= t.pc < WORD
  {
    hide Decode, ReadN;
    ExecShape(Fetch(s).value, s);
  }

  lemma ExecShape(i: Insn, s: State)
    requires Exec(i, s).Some? && 0 <= s.pc < WORD
    ensures var t := Exec(i, s).value;
            && 0 <= t.pc < WORD && (!i.Monitor? ==> t.brk == s.brk) && (i.Monitor? ==> t.brk)
            && match i
               case Branch(_, _, _, imm) => t.pc == Wrap(s.pc + imm) || t.pc == Wrap(s.pc + 4)
               case Jal(_, imm) => t.pc == Wrap(s.pc + imm)
               case Jalr(_, _, _) => true
               case Monitor => true
               case _ => t.pc == Wrap(s.pc + 4)
  {
    hide Compute, LoadFrom, StoreTo;
  }

  // ---------- between dispatches ----------

  /** Every block but b is finished. */
  ghost predicate AllBut(L: Listing, b: Block) {
    forall x :: x in L.entryAddr && x != b ==> x in L.readOnly
  }

  /** The current block is read-only and starts at pc, or is still growing and goes on at pc. */
  ghost predicate AtBlock(L: Listing, b: Block, pc: int) {
    && b in L.entryAddr && AllBut(L, b)
    && if b in L.readOnly then Entry(L.entryAddr, b) == pc
       else !EndsInTransfer(Code(L.vecIns, b)) && pc == AddrOf(Entry(L.entryAddr, b), |Code(L.vecIns, b)|)
  }

  /** The entries of the tape are blocks. */
  ghost predicate TapeFilled(t: Tape) {
    t.head.Some? && 0 <= t.pos <= |t.cache| && forall i :: 0 <= i < t.pos ==> t.cache[i].Some?
  }

  /** If the recorder is collecting, its blocks are a walk that goes on with b. */
  ghost predicate OnTape(succs: map<Block, set<Block>>, t: Tape, b: Block) {
    t.on ==> TapeFilled(t) && OnTrack(succs, t.head.value, Front(t.cache, t.pos), b)
  }

  /** If the recorder is collecting, its blocks are a walk that ends with b. */
  ghost predicate EndsTape(succs: map<Block, set<Block>>, t: Tape, b: Block) {
    t.on ==>
      TapeFilled(t) && t.pos > 0 && Walk(succs, t.head.value, Front(t.cache, t.pos))
      && Front(t.cache, t.pos)[t.pos - 1] == b
  }

  /** Control moves from b along an edge: the walk goes on there. */
  lemma TapeMoves(st: StoreValue, st': StoreValue, b: Block, x: Block, pc: int, spare: Block)
    requires Moved(st, st', b, x, pc, spare) && EndsTape(st.E.succs, st.tape, b)
    ensures OnTape(st'.E.succs, st'.tape, x) && (st'.tape.on ==> st'.tape.pos > 0)
  {
    hide AtBlock, Grown, Edge, Walk, Entry, CodeKept;
    if st'.tape.on {
      WalkKept(st.E.succs, st'.E.succs, st.tape.head.value, Front(st.tape.cache, st.tape.pos));
    }
  }

  // ---------- moving on to the next block ----------

  lemma NewStillLeaving(L: Listing, E: Links, b: Block, pc: int, x: Block)
    requires Leaving(L, E, b, pc) && Inside(L, E) && x !in L.entryAddr && AllBut(L, b)
    requires b in L.readOnly || EndsInTransfer(Code(L.vecIns, b))
    ensures var M, F := NewListing(L, x, pc), NewLinks(E, x);
            && MayLink(M, F, b, x) && Entry(M.entryAddr, x) == pc && x in M.entryAddr && b in M.entryAddr
            && Code(M.vecIns, b) == Code(L.vecIns, b) && Code(M.vecIns, x) == [] && |Code(M.vecIns, b)| > 0
            && forall y :: y in M.entryAddr && y != b && y != x ==> y in M.readOnly
    ensures MoreEdges(E, NewLinks(E, x))
  {
    hide NewListing, NewLinks, Code, Entry, EndsInTransfer, CanGo, Inside, AllEnded, Edge;
    NewParts(L, E, b, pc, x);
    NonEmptyGo(Code(L.vecIns, b), pc);
  }

  lemma NewParts(L: Listing, E: Links, b: Block, pc: int, x: Block)
    requires Inside(L, E) && x !in L.entryAddr && b in L.entryAddr
    ensures var M, F := NewListing(L, x, pc), NewLinks(E, x);
            && Entry(M.entryAddr, x) == pc && M.readOnly == L.readOnly && Code(M.vecIns, b) == Code(L.vecIns, b)
               && Code(M.vecIns, x) == []
            && (forall y :: y in M.entryAddr <==> y in L.entryAddr || y == x) && SameEdges(E.succs, F.succs)
  {
    NoEdgesYet(E.succs, x);
  }

  /** Finishing the block that is left. */
  lemma SealLeft(L: Listing, b: Block, next: Block, pc: int)
    requires b in L.entryAddr && next in L.entryAddr && Entry(L.entryAddr, next) == pc
    requires forall y :: y in L.entryAddr && y != b && y != next ==> y in L.readOnly
    requires next != b ==> next in L.readOnly || Code(L.vecIns, next) == []
    requires 0 <= pc < WORD
    ensures AtBlock(Sealed(L, b), next, pc) && b in Sealed(L, b).readOnly
    ensures b in L.readOnly ==> AtBlock(L, next, pc)
  {
    hide HasIndirect, Entry;
  }

  lemma OthersDone(L: Listing, L': Listing, b: Block, spare: Block)
    requires AllBut(L, b) && forall x :: x in L.readOnly ==> x in L'.readOnly
    requires forall x :: x in L'.entryAddr && x !in L.entryAddr ==> x == spare && x in L'.readOnly
    ensures AllBut(L', b)
  {
  }

  lemma GrownSealed(L: Listing, m: map<int, Block>, b: Block)
    ensures Grown(L, m, Sealed(L, b), m)
  {
  }

  lemma GrownInsns(L: Listing, m: map<int, Block>, b: Block, inst: int, addr: int)
    requires b !in L.readOnly
    ensures Grown(L, m, MoreInsns(L, b, inst, addr), m)
  {
    CodePut(L.vecIns, b, Code(L.vecIns, b) + [(inst, addr)]);
    hide Code, Entry, Transfers;
  }

  lemma GrownParts(L: Listing, m: map<int, Block>, L': Listing, m': map<int, Block>)
    requires Grown(L, m, L', m')
    ensures EntriesKept(L.entryAddr, L'.entryAddr) && forall x :: x in L.readOnly ==> x in L'.readOnly
    ensures forall x :: x in L.entryAddr ==> x in L'.entryAddr
    ensures forall a :: a in m ==> a in m'
  {
    hide Entry;
  }

  lemma MakeGrown(L: Listing, m: map<int, Block>, x: Block, a: int)
    requires x !in L.entryAddr && a !in m
    ensures Grown(L, m, NewListing(L, x, a), m[a := x])
  {
    EntriesPut(L.entryAddr, x, a);
    hide Entry;
  }

  /** Control has moved from the block b to the block x at pc. */
  ghost predicate Moved(st: StoreValue, st': StoreValue, b: Block, x: Block, pc: int, spare: Block) {
    && AtBlock(st'.L, x, pc) && Entry(st'.L.entryAddr, x) == pc && Edge(st'.E.succs, b, x) && b in st'.L.readOnly
       && pc in st'.bbMap
    && Grown(st.L, st.bbMap, st'.L, st'.bbMap)
    && (forall y :: y in st'.L.entryAddr && y !in st.L.entryAddr ==> y == spare)
    && (st'.tape.on ==> MoreEdges(st.E, st'.E) && st'.tape == st.tape)
    && CodeKept(st.L, st.G, st'.L, st'.G) && st'.insMap.Keys == st.insMap.Keys
  }

  /** Control has passed the end of b, for a block to which b has an edge. */
  ghost predicate Passed(st: StoreValue, st': StoreValue, b: Block, pc: int, spare: Block) {
    exists x :: Moved(st, st', b, x, pc, spare) && Finds(st'.E.succsMap, b, pc, x)
  }

  /** Where the current block is after b, with instructions v, has been run: getNextBlock has moved on to the next block
      if b ends in a transfer of control, and otherwise it is still b. */
  ghost predicate MovedOn(v: Insns, E: Links, b: Block, pc: int, cBB: Block) {
    if EndsInTransfer(v) then Finds(E.succsMap, b, pc, cBB) else cBB == b
  }

  lemma NoSteps(s: State)
    ensures InterpretN(s, 0) == Some(s)
  {
  }

  lemma OneMoreStep(s0: State, n: nat, t: State, u: State)
    requires InterpretN(s0, n) == Some(t) && Interpret(t) == Some(u)
    ensures InterpretN(s0, n + 1) == Some(u)
  {
  }

  lemma AddrOn(e: int, i: int)
    ensures Wrap(AddrOf(e, i) + 4) == AddrOf(e, i + 1)
  {
    BackFour(e, i + 1);
  }

  lemma AtParts(L: Listing, b: Block, pc: int)
    requires AtBlock(L, b, pc)
    ensures b in L.entryAddr && AllBut(L, b) && (b in L.readOnly ==> Entry(L.entryAddr, b) == pc)
  {
    hide AllBut, EndsInTransfer;
  }

  /** What run finds in the current block. */
  lemma RunStart(code: int -> int, L: Listing, E: Links, C: Counts, G: Regions, bbMap: map<int, Block>,
                 insMap: map<int, Block>, b: Block, pc: int)
    requires StoreOk(code, L, E, C, G, bbMap, insMap) && AtBlock(L, b, pc) && b in L.readOnly && 0 <= pc < WORD
    ensures b in L.termAddr && b in L.entryAddr && Entry(L.entryAddr, b) == L.entryAddr[b] == pc == AddrOf(pc, 0)
    ensures Laid(code, pc, Code(L.vecIns, b)) && |Code(L.vecIns, b)| > 0
    ensures Wrap(L.termAddr[b] - L.entryAddr[b]) / 4 == |Code(L.vecIns, b)| - 1
  {
    hide EdgesOk, FlowOk, IndexOk, CountsOk, FlagsOk, RegionsOk, SolidOk, CodeOk, AllBut, EndsInTransfer, Laid, AddrOf,
         Wrap, Inside, Unique, Dom, Edge;
    StoreInside(code, L, E, C, G, bbMap, insMap);
    InsideAt(L, E, b);
    ZeroAddr(pc);
    SizedAt(code, L.entryAddr, L.vecIns, L.termAddr, L.readOnly, b);
    OffsetOf(pc, |Code(L.vecIns, b)| - 1);
  }

  lemma ZeroAddr(e: int)
    requires 0 <= e < WORD
    ensures AddrOf(e, 0) == e
  {
  }

  lemma RunAt(code: int -> int, e: int, v: Insns, i: int)
    requires Laid(code, e, v) && 0 <= i < |v|
    ensures Normal(code(AddrOf(e, i))) && (i < |v| - 1 ==> !Transfers(code(AddrOf(e, i))))
    ensures i == |v| - 1 ==> forall a :: Follows(code(AddrOf(e, i)), AddrOf(e, i), a) <==> CanGo(v, a)
    ensures i == |v| - 1 ==> (Transfers(code(AddrOf(e, i))) <==> EndsInTransfer(v))
  {
    hide Normal, Transfers, Follows, AddrOf;
  }

  lemma MakePassed(code: int -> int, st: StoreValue, L: Listing, E: Links, C: Counts, G: Regions,
                   bbMap: map<int, Block>, insMap: map<int, Block>, tape: Tape,
                   b: Block, x: Block, pc: int, spare: Block)
    requires StoreOk(code, L, E, C, G, bbMap, insMap)
    requires Moved(st, StoreValue(L, E, C, G, bbMap, insMap, tape), b, x, pc, spare)
    ensures Passed(st, StoreValue(L, E, C, G, bbMap, insMap, tape), b, pc, spare) && Finds(E.succsMap, b, pc, x)
  {
    hide CodeOk, FlowOk, IndexOk, CountsOk, FlagsOk, RegionsOk, SolidOk, AllBut, EndsInTransfer, Edge, Finds, Grown,
         MoreEdges, Entry, Code, CodeKept;
    assert Finds(E.succsMap, b, Entry(L.entryAddr, x), x);
  }

  /** Falling through: the one successor is the block at pc. */
  lemma FallPassed(code: int -> int, st: StoreValue, b: Block, pc: int, spare: Block)
    requires StoreOk(code, st.L, st.E, st.C, st.G, st.bbMap, st.insMap) && b in st.L.readOnly && AllBut(st.L, b)
    requires !EndsInTransfer(Code(st.L.vecIns, b)) && CanGo(Code(st.L.vecIns, b), pc)
    ensures Passed(st, st, b, pc, spare)
  {
    hide CodeOk, IndexOk, CountsOk, FlagsOk, RegionsOk, SolidOk, EndsInTransfer, CanGo, Edge, Finds, Grown, MoreEdges,
         Entry, Code, CodeKept;
    assert HasSucc(st.E.succs, b);
    var x :| Edge(st.E.succs, b, x);
    OneWay(Code(st.L.vecIns, b), Entry(st.L.entryAddr, x), pc);
    StoreInside(code, st.L, st.E, st.C, st.G, st.bbMap, st.insMap);
    Indexed(code, st.L, st.E, st.C, st.G, st.bbMap, st.insMap, x);
    GrownRefl(st.L, st.bbMap);
    MoreRefl(st.E);
    CodeKeptRefl(st.L, st.G);
    assert Moved(st, st, b, x, pc, spare);
  }

  lemma PassedKnows(st: StoreValue, st': StoreValue, b: Block, pc: int, spare: Block)
    requires Passed(st, st', b, pc, spare)
    ensures Knows(st'.E, b, pc) && b in st'.L.readOnly
  {
    hide Finds, Grown, MoreEdges, Edge, AtBlock, CodeKept;
  }

  ghost function Counted(C: Counts, b: Block, pc: int): Counts
    requires b in C.edgeCnts && b in C.totalEdges
  {
    Counts(C.edgeCnts[b := C.edgeCnts[b] + multiset{pc}], C.totalEdges[b := C.totalEdges[b] + 1])
  }

  /** The counts with one more execution of the edge from b to pc. */
  ghost function GainsOne(C: Counts, b: Block, pc: int): Counts {
    if b in C.edgeCnts && b in C.totalEdges then Counted(C, b, pc) else C
  }

  lemma CountedIn(code: int -> int, L: Listing, E: Links, C: Counts, G: Regions, bbMap: map<int, Block>,
                  insMap: map<int, Block>, b: Block, pc: int)
    requires StoreOk(code, L, E, C, G, bbMap, insMap) && b in L.readOnly
    ensures b in C.edgeCnts && b in C.totalEdges && GainsOne(C, b, pc) == Counted(C, b, pc)
    ensures Counted(C, b, pc) == Counts(C.edgeCnts[b := C.edgeCnts[b] + multiset{pc}],
      C.totalEdges[b := C.totalEdges[b] + 1])
  {
    hide CodeOk, EdgesOk, FlowOk, IndexOk, FlagsOk, RegionsOk, SolidOk;
    ReadOnlyInside(code, L.entryAddr, L.vecIns, L.termAddr, L.readOnly);
  }

  lemma CountedOk(code: int -> int, L: Listing, E: Links, C: Counts, G: Regions, bbMap: map<int, Block>,
                  insMap: map<int, Block>, b: Block, pc: int)
    requires StoreOk(code, L, E, C, G, bbMap, insMap) && b in L.readOnly
    ensures b in C.edgeCnts && b in C.totalEdges && StoreOk(code, L, E, Counted(C, b, pc), G, bbMap, insMap)
  {
    hide CodeOk, EdgesOk, FlowOk, IndexOk, FlagsOk, RegionsOk, SolidOk;
    ReadOnlyInside(code, L.entryAddr, L.vecIns, L.termAddr, L.readOnly);
  }

  lemma PassedMoved(code: int -> int, st: StoreValue, st1: StoreValue, L: Listing, E: Links, C: Counts, G: Regions,
                    bbMap: map<int, Block>, insMap: map<int, Block>, tape: Tape,
                    b: Block, f: Block, pc: int, spare: Block)
    requires StoreOk(code, L, E, C, G, bbMap, insMap) && Passed(st, st1, b, pc, spare)
    requires L == st1.L && E == st1.E && G == st1.G && bbMap == st1.bbMap && tape == st1.tape && insMap == st1.insMap
    requires Edge(E.succs, b, f) && Entry(L.entryAddr, f) == pc && f in L.entryAddr
    ensures Moved(st, StoreValue(L, E, C, G, bbMap, insMap, tape), b, f, pc, spare)
  {
    hide CodeOk, FlowOk, IndexOk, CountsOk, FlagsOk, RegionsOk, SolidOk, AllBut, EndsInTransfer, Edge, Finds, Grown,
         MoreEdges, Entry, Code, Unique, CodeKept;
    StoreInside(code, L, E, C, G, bbMap, insMap);
    var x :| Moved(st, st1, b, x, pc, spare) && Finds(st1.E.succsMap, b, pc, x);
    assert Entry(L.entryAddr, x) == pc;
    SameWay(L.entryAddr, x, f);
  }

  lemma MovedParts(st: StoreValue, st': StoreValue, b: Block, x: Block, pc: int, spare: Block)
    requires Moved(st, st', b, x, pc, spare)
    ensures AtBlock(st'.L, x, pc) && x in st'.L.entryAddr && forall y ::
      y in st'.L.entryAddr && y !in st.L.entryAddr ==> y == spare
  {
    hide AllBut, Grown, MoreEdges, Edge, Entry;
  }

  lemma AtOpen(code: int -> int, L: Listing, b: Block, pc: int)
    requires AtBlock(L, b, pc) && b !in L.readOnly
    ensures b in L.entryAddr && AllBut(L, b) && !EndsInTransfer(Code(L.vecIns, b))
    ensures (Normal(code(pc)) ==> MayAdd(code, L, b, code(pc), pc))
  {
    hide AllBut, EndsInTransfer, AddrOf, Normal;
  }

  lemma NoEdgeYet(code: int -> int, L: Listing, E: Links, C: Counts, G: Regions, bbMap: map<int, Block>,
                  insMap: map<int, Block>, b: Block)
    requires StoreOk(code, L, E, C, G, bbMap, insMap) && b !in L.readOnly && !EndsInTransfer(Code(L.vecIns, b))
    ensures forall y :: !Edge(E.succs, b, y)
  {
    hide CodeOk, EdgesOk, IndexOk, CountsOk, FlagsOk, RegionsOk, SolidOk, EndsInTransfer, CanGo, Edge;
  }

  /** The block under construction has one more instruction, and control goes on at next. */
  lemma Added(L: Listing, E: Links, b: Block, inst: int, pc: int, next: int)
    requires AtBlock(L, b, pc) && b !in L.readOnly && Follows(inst, pc, next)
    requires (!Transfers(inst) ==> next == Wrap(pc + 4))
    requires forall y :: !Edge(E.succs, b, y)
    ensures var M := MoreInsns(L, b, inst, pc);
            && M.entryAddr == L.entryAddr && M.readOnly == L.readOnly && AllBut(M, b)
            && if Transfers(inst) then Leaving(M, E, b, next) else AtBlock(M, b, next)
  {
    var M := MoreInsns(L, b, inst, pc);
    var v := Code(L.vecIns, b);
    CodePut(L.vecIns, b, v + [(inst, pc)]);
    AddrOn(Entry(L.entryAddr, b), |v|);
    hide Follows, Transfers, Edge, Entry, Code, AddrOf, Wrap;
    assert Code(M.vecIns, b) == v + [(inst, pc)];
  }

  lemma WalkReadOnly(code: int -> int, L: Listing, E: Links, C: Counts, G: Regions, bbMap: map<int, Block>,
                     insMap: map<int, Block>, h: Block, t: seq<Block>)
    requires StoreOk(code, L, E, C, G, bbMap, insMap) && AllBut(L, h) && h in L.readOnly && ClosedWalk(E.succs, h, t)
    ensures forall x :: x in t ==> x in L.readOnly
  {
    hide StoreOk, Edge;
    StoreInside(code, L, E, C, G, bbMap, insMap);
    forall i | 0 <= i < |t|
      ensures t[i] in L.readOnly
    {
      if i < |t| - 1 {
        assert Edge(E.succs, t[i], t[i + 1]);
      }
    }
  }

  lemma AtNotStart(L: Listing, b: Block, pc: int)
    requires AtBlock(L, b, pc) && (b !in L.readOnly || pc != L.entryAddr[b])
    ensures b !in L.readOnly
  {
    hide AllBut, EndsInTransfer;
  }

  lemma TapeOff(f: RegionFinder, succs: map<Block, set<Block>>, b: Block)
    requires !f.enHistCollection
    ensures OnTape(succs, FinderState(f), b)
  {
  }

  lemma TapeIn(f: RegionFinder, succs: map<Block, set<Block>>, b: Block)
    requires f.Valid() && OnTape(succs, FinderState(f), b)
    ensures f.enHistCollection ==> OnTrack(succs, f.currRegionHead.value, f.Collected(), b)
  {
    hide OnTrack;
  }

  lemma TapeOut(f: RegionFinder, succs: map<Block, set<Block>>, b: Block)
    requires f.Valid()
    requires f.enHistCollection ==>
      f.currRegionHead.Some? && f.histBufPos > 0 && Walk(succs, f.currRegionHead.value, f.Collected())
      && f.Collected()[f.histBufPos - 1] == b
    ensures EndsTape(succs, FinderState(f), b)
  {
    hide Walk;
  }

  lemma AllDone(L: Listing, b: Block, x: Block)
    requires AllBut(L, b) && b in L.readOnly
    ensures AllBut(L, x)
  {
  }

  lemma AtDone(L: Listing, b: Block, x: Block, pc: int)
    requires AllBut(L, b) && b in L.readOnly && x in L.entryAddr && Entry(L.entryAddr, x) == pc
    ensures AtBlock(L, x, pc)
  {
    hide Entry, EndsInTransfer;
  }

  lemma AtNew(L: Listing, b: Block, x: Block, pc: int)
    requires b in L.readOnly && x in L.entryAddr && Entry(L.entryAddr, x) == pc && Code(L.vecIns, x) == []
    requires 0 <= pc < WORD
    requires forall y :: y in L.entryAddr && y != b && y != x ==> y in L.readOnly
    ensures AtBlock(L, x, pc)
  {
    ZeroAddr(pc);
    hide Entry, Code, AddrOf;
  }

  /** A collection that starts at b has an empty walk. */
  lemma Heated(succs: map<Block, set<Block>>, t: Tape, u: Tape, b: Block)
    requires OnTape(succs, t, b) && u.cache == t.cache && (t.on ==> u.head == t.head && u.pos == t.pos)
    requires !t.on && u.on ==> u.head == Some(b) && u.pos == 0
    ensures OnTape(succs, u, b)
  {
    hide Walk, Edge;
    if u.on && !t.on {
      assert Front(u.cache, 0) == [];
    }
  }

  ghost predicate HasRegion(G: Regions, h: Block) {
    h in G.compiled && G.compiled[h] != {}
  }

  /** The block x that control has gone to from left is visited, unless it starts behind left or a trace is being
      recorded. */
  ghost predicate WasVisited(entry: map<Block, int>, log: seq<Event>, on: bool, pos: int, left: Block, x: Block) {
    var ea, n := Entry(entry, x), |log|;
    || ea > Entry(entry, left)
    || (on && pos > 0)
    || (n > 0 && log[n - 1] == Visit(x, ea))
    || (n > 1 && log[n - 2] == Visit(x, ea) && log[n - 1] == Freed(ea))
  }

  lemma NotTaping(succs: map<Block, set<Block>>, t: Tape, b: Block)
    requires !t.on
    ensures OnTape(succs, t, b)
  {
  }

  lemma TameFetch(code: int -> int, s: State)
    requires TameStep(code, s)
    ensures ReadN(s.mem, s.pc, 4) == code(s.pc) && Interpret(s).Some?
  {
    hide Interpret, ReadN;
  }

  lemma MakeLeaving(L: Listing, E: Links, b: Block, pc: int)
    requires b in L.entryAddr && b in L.readOnly && AllBut(L, b) && CanGo(Code(L.vecIns, b), pc)
    ensures Leaving(L, E, b, pc)
  {
    hide CanGo, Code, EndsInTransfer, Edge;
  }

  // ---------- the loops ----------

  /** The allocator's next objects, from the i-th on, are new and different. */
  ghost predicate Unused(L: Listing, spares: seq<Block>, i: nat) {
    && (forall j :: i <= j < |spares| ==> spares[j] !in L.entryAddr)
    && forall j, k :: i <= j < k < |spares| ==> spares[j] != spares[k]
  }

  lemma NextUnused(L: Listing, spares: seq<Block>, i: nat)
    requires Unused(L, spares, i) && i < |spares|
    ensures spares[i] !in L.entryAddr
  {
  }

  lemma StillUnused(L: Listing, L': Listing, spares: seq<Block>, i: nat)
    requires Unused(L, spares, i) && i < |spares|
    requires forall x :: x in L'.entryAddr && x !in L.entryAddr ==> x == spares[i]
    ensures Unused(L', spares, i + 1)
  {
    forall j | i + 1 <= j < |spares|
      ensures spares[j] !in L'.entryAddr
    {
      assert spares[j] !in L.entryAddr && spares[i] != spares[j];
    }
  }

  /** Plain interpretation from s stops the machine with its n-th step, and not before. */
  ghost predicate Halts(s: State, n: nat) {
    && InterpretN(s, n).Some? && InterpretN(s, n).value.brk
    && forall j :: 0 <= j < n ==> InterpretN(s, j).Some? && !InterpretN(s, j).value.brk
  }

  lemma BrkStays(s: State, t: State)
    requires Interpret(s) == Some(t) && s.brk
    ensures t.brk
  {
    hide Decode, ReadN, Compute, LoadFrom, StoreTo;
  }

  /** A run that has not stopped yet has not stopped before. */
  lemma {:induction false} NotBefore(s: State, n: nat, j: nat)
    requires InterpretN(s, n).Some? && !InterpretN(s, n).value.brk && j <= n
    ensures InterpretN(s, j).Some? && !InterpretN(s, j).value.brk
    decreases n
  {
    hide Interpret;
    if j < n {
      if InterpretN(s, n - 1).value.brk {
        BrkStays(InterpretN(s, n - 1).value, InterpretN(s, n).value);
      }
      NotBefore(s, n - 1, j);
    }
  }

  lemma FirstHalt(s: State, n: nat, t: State, u: State)
    requires InterpretN(s, n) == Some(t) && !t.brk && Interpret(t) == Some(u)
    ensures u.brk ==> Halts(s, n + 1)
  {
    OneMoreStep(s, n, t, u);
    hide Interpret, InterpretN;
    forall j | 0 <= j < n + 1
      ensures InterpretN(s, j).Some? && !InterpretN(s, j).value.brk
    {
      NotBefore(s, n, j);
    }
  }

  // ---------- outcomes ----------

  /** What executeJIT comes to: control has moved on, the current block has to be built first, compiled code has not
      left its region yet, the compiler has died, or addSuccessor has when compiled code left a block that has been
      split since. */
  datatype Outcome = Went | MustBuild | InRegion(at: SsaRun.Config) | Died | DiedAtLink

  /** Compiled code entered in s has run at least fuel instructions, and is where the interpreter is after as many, none
      of which has stopped the machine. */
  ghost predicate StillInside(s: State, c: SsaRun.Config, fuel: nat) {
    c.Running? && c.steps >= fuel && InterpretN(s, c.steps).Some? && InterpretN(s, c.steps).value.mem == c.mem
    && InterpretN(s, c.steps).value.brk == s.brk
  }

  /** If interpretation from s0 stops the machine after no more steps than there may be dispatches, and blocks to each,
      then the loop has stopped it after as many instructions, or the program has died. */
  ghost predicate StopsInTime(s0: State, s: State, n: nat, o: Outcome, dispatches: nat, fuel: nat) {
    forall m: nat :: Halts(s0, m) && m <= dispatches && m <= fuel ==> StopsAt(m, s, n, o)
  }

  ghost predicate StopsAt(m: nat, s: State, n: nat, o: Outcome) {
    (s.brk && n == m) || o.Died? || o.DiedAtLink?
  }

  lemma HaltsOnce(s: State, m: nat, n: nat)
    requires Halts(s, m) && Halts(s, n)
    ensures m == n
  {
    hide InterpretN;
  }

  lemma TameBuilt(code: int -> int, been: set<int>, t: State, s: State)
    requires Tame(code, been, t) && Interpret(t) == Some(s)
    ensures Tame(code, been + {t.pc}, s) && (Sane(t) ==> Sane(s))
  {
    NoSteps(t);
    OneMoreStep(t, 0, t, s);
    hide Tame, Interpret, InterpretN, Sane;
    assert At(t, 0, t.pc);
    TameTail(code, been, t, 1, been + {t.pc});
    TameRun(code, been, t, 1);
  }

  /** With enough dispatches, and blocks to each, a machine that interpretation stops does not go on for ever. */
  lemma MustStop(s0: State, s: State, n: nat, o: Outcome, dispatches: nat, fuel: nat)
    requires InterpretN(s0, n) == Some(s) && (s.brk ==> Halts(s0, n)) && (o.InRegion? ==> StillInside(s, o.at, fuel))
    requires !s.brk && (o.Went? || o.MustBuild?) ==> n >= dispatches
    ensures StopsInTime(s0, s, n, o, dispatches, fuel)
  {
    hide InterpretN;
    forall m: nat | Halts(s0, m) && m <= dispatches && m <= fuel
      ensures StopsAt(m, s, n, o)
    {
      if s.brk {
        HaltsOnce(s0, m, n);
      } else if o.InRegion? {
        RunsCompose(s0, n, o.at.steps);
        NotBefore(s0, n + o.at.steps, m);
        assert false;
      } else if o.Went? || o.MustBuild? {
        NotBefore(s0, n, m);
        assert false;
      }
    }
  }

  /** Some finished block has an instruction without translation. */
  ghost predicate Untranslatable(L: Listing) {
    exists x :: x in L.readOnly && !RegionBuilder.CanTranslate(Code(L.vecIns, x))
  }

  /** What closing the trace t of head h does to the records: with t counted, either some count is high enough, the
      instructions of t are accepted and the region of all traces, augmented to the blocks all, is compiled, the
      compiler dying if and only if one of the region's instructions has no translation; or h has no compiled region. */
  ghost predicate TraceClosed(key: seq<Block> -> int, enoughRegions: int, aug: CfgAug, L: Listing, E: Links, G: Regions,
                              h: Block, t: seq<Block>, all: set<Block>, died: bool, G': Regions)
    requires h in G.bbRegions && h in G.bbRegionCounts
  {
    var traces, counts := WithTrace(key, G.bbRegions[h], t), Seen(G.bbRegionCounts[h], key(t));
    var canCompile := forall x :: x in t ==> Accepted(Code(L.vecIns, x));
    var compiles := canCompile && exists k :: k in counts && counts[k] >= enoughRegions;
    && (compiles ==> Augmented(aug, E.succs, L.flags, h, Union(traces), all))
    && (died <==> compiles && !RegionBuilder.AllTranslatable(L, all))
    && (!died ==>
          && (forall x, k :: Edge(G'.cfgInRegions, x, k) <==> Edge(G.cfgInRegions, x, k) || (x in t && k == h))
          && h in G'.compiled && G'.compiled == G.compiled[h := G'.compiled[h]]
          && if compiles then G'.bbRegions == G.bbRegions[h := []] && G'.compiled[h] == Union(traces)
             else G'.bbRegions == G.bbRegions[h := if canCompile then traces else []] && G'.compiled[h] == {})
  }

  /** The code that CompileTraces returns fits the region that Compile records. */
  lemma CompiledFits(code: int -> int, aug: CfgAug, known: set<int>, L: Listing, E: Links, h: Block, B: set<Block>,
                     all: set<Block>,
                     entry: Block, c: Compiled)
    requires Augmented(aug, E.succs, L.flags, h, B, all) && h in B && entry !in L.entryAddr
    requires Translator.IsCompiled(L, E, h, entry, all, c.R, c.T)
    requires LaidOut(code, L, L.readOnly) && AllKnown(known, L) && all <= L.readOnly <= L.entryAddr.Keys
    ensures Fits(code, aug, known, L, h, B, c)
  {
    hide Meaning.PreservesMeaning, Augmented, CodeGen.Insns, CodeGen.Addr, SsaForm.WellFormedRegion,
         SsaForm.FallsInside, Code, Entry,
         LaidOut, RegionBuilder.Mirrors, FromGuest, RegionBlocks;
    AugmentedParts(aug, E.succs, L.flags, h, B, all);
    EntryApart(c.R, all, entry);
    forall x | x in all
      ensures FromGuest(code, c.R, x) && |Code(L.vecIns, x)| == |CodeGen.Insns(c.R, x)|
      ensures CodeGen.Addr(c.R, x) == Entry(L.entryAddr, x) && IsKnown(known, c.R, x)
    {
      DecodedGuest(code, known, L, c.R, all, x);
    }
  }

  /** The code of h is that of a region of the blocks all. */
  ghost predicate HasCode(L: Listing, E: Links, h: Block, entry: Block, all: set<Block>,
                          cfgCplr: map<Block, Compiled>) {
    h in cfgCplr && Translator.IsCompiled(L, E, h, entry, all, cfgCplr[h].R, cfgCplr[h].T)
  }

  lemma EntryApart(R: CodeGen.Region, all: set<Block>, entry: Block)
    requires R.g.nodes == all + {entry} && R.g.entry == entry && entry !in all
    ensures RegionBlocks(R) == all
  {
  }

  lemma DecodedGuest(code: int -> int, known: set<int>, L: Listing, R: CodeGen.Region, all: set<Block>, x: Block)
    requires AllKnown(known, L) && x in L.entryAddr
    requires LaidOut(code, L, L.readOnly) && RegionBuilder.Mirrors(R, L, all) && x in all && x in L.readOnly
    ensures FromGuest(code, R, x) && |Code(L.vecIns, x)| == |CodeGen.Insns(R, x)|
    ensures CodeGen.Addr(R, x) == Entry(L.entryAddr, x) && IsKnown(known, R, x)
  {
    hide Decode, AddrOf, Normal, Transfers, CodeGen.Insns, CodeGen.Addr, Code, Entry;
    forall i | 0 <= i < |Code(L.vecIns, x)|
      ensures AddrOf(CodeGen.Addr(R, x), i) in known
    {
      assert Code(L.vecIns, x)[i].1 == AddrOf(Entry(L.entryAddr, x), i);
      assert Contains(Code(L.vecIns, x), AddrOf(Entry(L.entryAddr, x), i));
    }
    assert Laid(code, Entry(L.entryAddr, x), Code(L.vecIns, x));
    assert RegionBuilder.IsDecoded(Code(L.vecIns, x), CodeGen.Insns(R, x));
  }

  lemma TaughtAll(m: map<Block, set<Block>>, h: Block, region: seq<Block>, m': map<Block, set<Block>>)
    requires Taught(m, h, region, |region|, m')
    ensures forall x, k :: Edge(m', x, k) <==> Edge(m, x, k) || (x in region && k == h)
  {
    hide Edge;
    assert region[..|region|] == region;
  }

  /** A finished block with an untranslatable instruction. */
  lemma RegionSolid(L: Listing, all: set<Block>)
    requires all <= L.readOnly && !RegionBuilder.AllTranslatable(L, all)
    ensures Untranslatable(L)
  {
    hide RegionBuilder.CanTranslate, Code;
  }

  /** All instructions of blocks are at known addresses. */
  ghost predicate AllKnown(known: set<int>, L: Listing) {
    forall x, a :: x in L.entryAddr && Contains(Code(L.vecIns, x), a) ==> a in known
  }

  lemma RegionLaidOut(code: int -> int, L: Listing, E: Links, C: Counts, G: Regions, bbMap: map<int, Block>,
                      insMap: map<int, Block>)
    requires StoreOk(code, L, E, C, G, bbMap, insMap)
    ensures LaidOut(code, L, L.readOnly) && L.readOnly <= L.entryAddr.Keys && AllKnown(insMap.Keys, L)
  {
    hide EdgesOk, FlowOk, CountsOk, FlagsOk, RegionsOk, SolidOk, CodeOk, Code, Entry, Laid, Contains;
    ReadOnlyInside(code, L.entryAddr, L.vecIns, L.termAddr, L.readOnly);
    forall x | x in L.readOnly
      ensures Laid(code, Entry(L.entryAddr, x), Code(L.vecIns, x))
    {
      SizedAt(code, L.entryAddr, L.vecIns, L.termAddr, L.readOnly, x);
    }
  }

  lemma ReadOnlyAll(L: Listing, b: Block)
    requires AllBut(L, b) && b in L.readOnly
    ensures AllReadOnly(L)
  {
  }

  lemma RanParts(L: Listing, R: CodeGen.Region, s: State, k: nat, r: SsaRun.Config)
    requires RanRight(L, R, s, k, r)
    ensures !r.Stuck?
    ensures r.Running? ==> StillInside(s, r, k)
    ensures r.Exited? ==>
      r.steps > 0 && InterpretN(s, r.steps) == Some(r.state) && r.state.brk == s.brk && 0 <= r.state.pc < WORD
    ensures r.Exited? ==>
      r.from in RegionBlocks(R) && (CutSince(L, R, r.from) || CanGo(Code(L.vecIns, r.from), r.state.pc))
    ensures r.Exited? ==> Jumped(s, r.steps)
  {
    hide InterpretN, CanGo, Code, Entry, CutSince, Jumped;
  }

  /** The run of compiled code has left a block that has been split since, for an address where no block starts. */
  ghost predicate LeavesCut(L: Listing, bbMap: map<int, Block>, c: Compiled, r: SsaRun.Config) {
    r.Exited? && r.state.pc !in bbMap && CutSince(L, c.R, r.from)
  }

  /** What entering the code of c in the state s comes to: it is still running after fuel blocks, or the machine has its
      state and goes on, unless the code leaves a block like that. */
  ghost predicate RanTo(L: Listing, bbMap: map<int, Block>, c: Compiled, s: State, fuel: nat, o: Outcome, cBB: Block,
                        t: State, n: nat) {
    var r := SsaRun.RunBlocks(c.R, c.T, s, fuel);
    match r
    case Stuck(_) => false
    case Running(_, _, _, _, _) => o == InRegion(r)
    case Exited(_, _, _) =>
      cBB == r.from && t == r.state && n == r.steps && o == if LeavesCut(L, bbMap, c, r) then DiedAtLink else Went
  }

  lemma MovedKeeps(st: StoreValue, st': StoreValue, b: Block, x: Block, pc: int, spare: Block)
    requires Moved(st, st', b, x, pc, spare)
    ensures CodeKept(st.L, st.G, st'.L, st'.G)
  {
    hide AtBlock, Grown, MoreEdges, Edge, Entry, CodeKept;
  }

  lemma MovedGrown(st: StoreValue, st': StoreValue, b: Block, x: Block, pc: int, spare: Block)
    requires Moved(st, st', b, x, pc, spare)
    ensures Grown(st.L, st.bbMap, st'.L, st'.bbMap) && st'.insMap.Keys == st.insMap.Keys
  {
    hide AtBlock, Grown, MoreEdges, Edge, Entry, CodeKept;
  }

  lemma SanePc(s: State)
    requires Sane(s)
    ensures 0 <= s.pc < WORD
  {
  }

  class Machine {
    const bs: BlockStore
    const aug: CfgAug
    var cBB: Block
    var s: State
    // the regionCFG of every head of a compiled region
    var cfgCplr: map<Block, Compiled>

    /** main: the store is empty, and the first block starts at the entry point of the program. */
    constructor (ghost code: int -> int, finder: RegionFinder, key: seq<Block> -> int, enoughRegions: int, aug: CfgAug,
                 s: State, first: Block)
      requires finder.Valid() && !finder.enHistCollection && 0 <= s.pc < WORD
      ensures bs.Valid() && fresh(bs) && bs.finder == finder && bs.code == code && bs.key == key
      ensures bs.enoughRegions == enoughRegions && this.aug == aug
      ensures this.s == s && cBB == first
      ensures CplrOk(bs.code, aug, bs.insMap.Keys, bs.listing, bs.regions.compiled, cfgCplr)
      ensures AtBlock(bs.listing, cBB, s.pc) && bs.listing.entryAddr.Keys == {first} && !bs.finder.enHistCollection
      ensures Idle(bs.listing, bs.links, bs.insMap, cBB) && bs.insMap.Keys == {}
    {
      hide StoreOk, KeysOk, Fits;
      var store := new BlockStore(code, finder, key, enoughRegions);
      store.NewBlock(first, s.pc);
      bs := store;
      this.aug := aug;
      cBB := first;
      this.s := s;
      cfgCplr := map[];
      new;
      FirstBlock(bs.listing, bs.links, first, s.pc);
    }

    /** getNextBlock: control has left the current block for s.pc, or nothing is being built. Then addSuccessor fails,
        and what is left of getNextBlock is not executed. */
    method GetNextBlock(spare: Block, ghost leaving: bool) returns (ok: bool)
      requires bs.Valid() && AllBut(bs.listing, cBB)
      requires if leaving then Leaving(bs.listing, bs.links, cBB, s.pc) else Idle(bs.listing, bs.links, bs.insMap, cBB)
      requires spare !in bs.listing.entryAddr && 0 <= s.pc < WORD
      modifies this`cBB, bs, bs.finder
      ensures ok == leaving
      ensures ok ==> bs.Valid() && AtBlock(bs.listing, cBB, s.pc) && Entry(bs.listing.entryAddr, cBB) == s.pc
      ensures ok ==> Edge(bs.links.succs, old(cBB), cBB)
      ensures ok ==> old(cBB) in bs.listing.readOnly && s.pc in bs.bbMap
      ensures ok ==> Grown(old(bs.listing), old(bs.bbMap), bs.listing, bs.bbMap)
      ensures ok ==> forall x :: x in bs.listing.entryAddr && x !in old(bs.listing).entryAddr ==> x == spare
      ensures ok && bs.finder.enHistCollection ==>
        MoreEdges(old(bs.links), bs.links) && FinderState(bs.finder) == old(FinderState(bs.finder))
      ensures ok ==> CodeKept(old(bs.listing), old(bs.regions), bs.listing, bs.regions)
      ensures ok ==> bs.insMap.Keys == old(bs.insMap).Keys
      ensures ok ==> CountsMoved(old(bs.counts), spare, bs.counts)
      ensures ok && old(cBB in bs.listing.readOnly) && bs.listing == old(bs.listing) ==> bs.regions == old(bs.regions)
    {
      hide CountsMoved, StoreOk, Leaving, AllBut, AtBlock, Grown, MoreEdges, Edge, Entry, EndsInTransfer, Sealed, Code,
           CodeKept,
           KeysOk, Forgotten, Idle;
      ghost var L, m, G := bs.listing, bs.bbMap, bs.regions;
      var nBB;
      nBB, ok := NextOf(spare, leaving);
      if !ok {
        return;
      }
      ghost var L1, m1, G1 := bs.listing, bs.bbMap, bs.regions;
      GrownParts(L, m, L1, m1);
      SealLeft(L1, cBB, nBB, s.pc);
      GrownSealed(L1, m1, cBB);
      SealedBlocks(L1, cBB);
      if cBB !in bs.listing.readOnly {
        SealedOk(bs.code, bs.listing, bs.links, bs.counts, bs.regions, bs.bbMap, bs.insMap, cBB);
        GrownTrans(L, m, L1, m1, Sealed(L1, cBB), m1);
        KeysForgotten(bs.key, G1, cBB);
        SealKeeps(L1, G1, cBB);
        CodeKeptTrans(L, G, L1, G1, Sealed(L1, cBB), Forgotten(G1, cBB));
      }
      Indexed(bs.code, bs.listing, bs.links, bs.counts, bs.regions, bs.bbMap, bs.insMap, nBB);
      bs.SetReadOnly(cBB);
      cBB := nBB;
    }

    /** The block at s.pc, found or made. */
    method NextOf(spare: Block, ghost leaving: bool) returns (nBB: Block, ok: bool)
      requires bs.Valid() && AllBut(bs.listing, cBB)
      requires if leaving then Leaving(bs.listing, bs.links, cBB, s.pc) else Idle(bs.listing, bs.links, bs.insMap, cBB)
      requires spare !in bs.listing.entryAddr && 0 <= s.pc < WORD
      modifies bs, bs.finder
      ensures ok == leaving
      ensures ok ==>
        bs.Valid() && Edge(bs.links.succs, cBB, nBB) && cBB in bs.listing.entryAddr && nBB in bs.listing.entryAddr
      ensures ok ==> Entry(bs.listing.entryAddr, nBB) == s.pc
      ensures ok ==> cBB in bs.listing.readOnly || EndsInTransfer(Code(bs.listing.vecIns, cBB))
      ensures ok && nBB != cBB ==> nBB in bs.listing.readOnly || Code(bs.listing.vecIns, nBB) == []
      ensures ok ==> forall y :: y in bs.listing.entryAddr && y != cBB && y != nBB ==> y in bs.listing.readOnly
      ensures ok ==> forall x :: x in bs.listing.entryAddr && x !in old(bs.listing).entryAddr ==> x == spare
      ensures ok ==> Grown(old(bs.listing), old(bs.bbMap), bs.listing, bs.bbMap)
      ensures ok && bs.finder.enHistCollection ==>
        MoreEdges(old(bs.links), bs.links) && FinderState(bs.finder) == old(FinderState(bs.finder))
      ensures ok ==> CodeKept(old(bs.listing), old(bs.regions), bs.listing, bs.regions)
      ensures ok ==> bs.insMap.Keys == old(bs.insMap).Keys
      ensures ok ==> CountsMoved(old(bs.counts), spare, bs.counts)
      ensures ok && bs.listing == old(bs.listing) ==> bs.regions == old(bs.regions)
    {
      hide CountsMoved, StoreOk, Leaving, AllBut, Grown, MoreEdges, Edge, Entry, EndsInTransfer, AllEnded, Code,
           CodeKept, KeysOk,
           Idle, Knows, Blocked;
      ghost var L, m := bs.listing, bs.bbMap;
      if leaving {
        LeavingIn(bs.listing, bs.links, cBB, s.pc);
      } else {
        IdleAlone(bs.code, bs.listing, bs.links, bs.counts, bs.regions, bs.bbMap, bs.insMap, cBB, s.pc);
      }
      var f;
      f, ok := FindBlock(bs, cBB, s.pc, spare);
      if !ok {
        return spare, false;
      }
      GrownParts(L, m, bs.listing, bs.bbMap);
      OthersDone(L, bs.listing, cBB, spare);
      if leaving {
        EndedAt(bs.listing, cBB);
      }
      if f.Some? {
        nBB := f.value;
        AtFound(bs.listing, cBB, nBB);
      } else {
        nBB := spare;
        ghost var L1, G1 := bs.listing, bs.regions;
        CountsMovedLess(bs.counts, spare);
        ok := NewNext(spare, leaving);
        if !ok {
          return nBB, false;
        }
        CodeKeptTrans(L, old(bs.regions), L1, G1, bs.listing, bs.regions);
      }
    }

    /** execRiscv<false>: one instruction; a transfer of control moves on to the next block. */
    method Interpret1(spare: Block)
      requires bs.Valid() && TameStep(bs.code, s) && 0 <= s.pc < WORD && spare !in bs.listing.entryAddr
      requires Normal(bs.code(s.pc))
      requires cBB in bs.listing.entryAddr && AllBut(bs.listing, cBB) && cBB in bs.listing.readOnly
      requires Transfers(bs.code(s.pc)) ==> forall a :: Follows(bs.code(s.pc), s.pc, a) ==>
        CanGo(Code(bs.listing.vecIns, cBB), a)
      modifies this`s, this`cBB, bs, bs.finder
      ensures bs.Valid() && old(Rv32.Interpret(s)) == Some(s) && 0 <= s.pc < WORD && s.brk == old(s).brk
      ensures Follows(bs.code(old(s).pc), old(s).pc, s.pc)
      ensures !Transfers(bs.code(old(s).pc)) ==>
        s.pc == Wrap(old(s).pc + 4) && cBB == old(cBB) && Unchanged(old(StoreState(bs)), StoreState(bs))
      ensures Transfers(bs.code(old(s).pc)) ==> Moved(old(StoreState(bs)), StoreState(bs), old(cBB), cBB, s.pc, spare)
      ensures Transfers(bs.code(old(s).pc)) ==> CountsMoved(old(bs.counts), spare, bs.counts)
      ensures bs.listing == old(bs.listing) ==> bs.regions == old(bs.regions)
    {
      hide CountsMoved, StoreOk, AllBut, AtBlock, Grown, MoreEdges, Edge, Normal, Transfers, Follows, CanGo, Leaving,
           TameStep, Tame,
           AllEnded, Code, Rv32.Interpret, CodeKept, KeysOk;
      TameFetch(bs.code, s);
      var w := ReadN(s.mem, s.pc, 4);
      var t := Rv32.Interpret(s).value;
      StepShape(bs.code, s, t);
      s := t;
      if Transfers(w) {
        MakeLeaving(bs.listing, bs.links, cBB, s.pc);
        var ok := GetNextBlock(spare, true);
      }
    }

    /** basicBlock::run: the instructions of the current block, and the block that control goes to then. */
    method Run(spare: Block) returns (f: Option<Block>, ghost n: nat)
      requires bs.Valid() && AtBlock(bs.listing, cBB, s.pc) && cBB in bs.listing.readOnly && !s.brk
      requires Tame(bs.code, bs.insMap.Keys, s)
      requires 0 <= s.pc < WORD
      requires spare !in bs.listing.entryAddr
      modifies this`s, this`cBB, bs, bs.finder
      ensures bs.Valid() && n > 0 && InterpretN(old(s), n) == Some(s) && !s.brk && 0 <= s.pc < WORD
      ensures f.Some? && Moved(old(StoreState(bs)), StoreState(bs), old(cBB), f.value, s.pc, spare)
      ensures cBB in bs.listing.entryAddr
      ensures cBB == if EndsInTransfer(Code(old(bs.listing).vecIns, old(cBB))) then f.value else old(cBB)
      ensures exists moved :: CountsMoved(old(bs.counts), spare, moved) && bs.counts == GainsOne(moved, old(cBB), s.pc)
      ensures bs.listing == old(bs.listing) ==> bs.regions == old(bs.regions)
    {
      hide CountsMoved, StoreOk, AtBlock, AllBut, Moved, Grown, MoreEdges, Edge, Normal, Transfers, Follows, CanGo,
           Leaving,
           TameStep, Tame, AllEnded, Code, Rv32.Interpret, InterpretN,
           Passed, Laid, AddrOf, Wrap, Entry, EndsInTransfer, Knows, Finds, CodeKept, KeysOk;
      var b := cBB;
      ghost var st, been := StoreState(bs), bs.insMap.Keys;
      RunStart(bs.code, bs.listing, bs.links, bs.counts, bs.regions, bs.bbMap, bs.insMap, b, s.pc);
      var length := Wrap(bs.listing.termAddr[b] - bs.listing.entryAddr[b]) / 4;
      ghost var e, v := Entry(bs.listing.entryAddr, b), Code(bs.listing.vecIns, b);
      var i := 0;
      n := 0;
      NoSteps(s);
      while i <= length && !s.brk
        invariant 0 <= i == n <= length + 1 && InterpretN(old(s), n) == Some(s) && !s.brk && 0 <= s.pc < WORD
          && bs.Valid()
        invariant i <= length ==> StoreState(bs) == st && cBB == b && s.pc == AddrOf(e, i)
        invariant i == length + 1 ==> Passed(st, StoreState(bs), b, s.pc, spare)
        invariant cBB in bs.listing.entryAddr
        invariant i == length + 1 ==> MovedOn(v, bs.links, b, s.pc, cBB) && CountsMoved(st.C, spare, bs.counts)
        invariant i == length + 1 && bs.listing == st.L ==> bs.regions == st.G
        decreases length - i
      {
        RunStep(been, old(s), e, v, i, spare, st);
        i := i + 1;
        n := n + 1;
      }
      ghost var moved := bs.counts;
      f := Lookup(b, spare, st);
    }

    /** The i-th instruction of a run of the current block. */
    method RunStep(ghost been: set<int>, ghost s0: State, ghost e: int, ghost v: Insns, ghost i: int, spare: Block,
                   ghost st: StoreValue)
      requires bs.Valid() && AtBlock(bs.listing, cBB, e) && cBB in bs.listing.readOnly && spare !in bs.listing.entryAddr
      requires StoreState(bs) == st
      requires e == Entry(bs.listing.entryAddr, cBB) && v == Code(bs.listing.vecIns, cBB) && Laid(bs.code, e, v)
      requires 0 <= i < |v| && s.pc == AddrOf(e, i) && 0 <= s.pc < WORD && !s.brk && Tame(bs.code, been, s0)
      requires InterpretN(s0, i) == Some(s)
      modifies this`s, this`cBB, bs, bs.finder
      ensures bs.Valid() && InterpretN(s0, i + 1) == Some(s) && !s.brk && 0 <= s.pc < WORD
      ensures i < |v| - 1 ==> StoreState(bs) == st && cBB == old(cBB) && s.pc == AddrOf(e, i + 1)
      ensures i == |v| - 1 ==> Passed(st, StoreState(bs), old(cBB), s.pc, spare)
      ensures i == |v| - 1 ==> MovedOn(v, bs.links, old(cBB), s.pc, cBB)
      ensures cBB in bs.listing.entryAddr
      ensures CountsMoved(old(bs.counts), spare, bs.counts)
      ensures bs.listing == old(bs.listing) ==> bs.regions == old(bs.regions)
    {
      hide CountsMoved, StoreOk, Moved, Grown, MoreEdges, Edge, Normal, Transfers, Follows, CanGo, Leaving, TameStep,
           Tame, AllEnded,
           Code, Rv32.Interpret, InterpretN,
           Passed, AtBlock, AllBut, Laid, AddrOf, Wrap, Entry, EndsInTransfer, Knows, Finds, CodeKept, KeysOk;
      AtParts(bs.listing, cBB, e);
      TameOn(bs.code, been, s0, i);
      TameNow(bs.code, been, s);
      RunAt(bs.code, e, v, i);
      ghost var t, b := s, cBB;
      CountsMovedLess(bs.counts, spare);
      Interpret1(spare);
      OneMoreStep(s0, i, t, s);
      AddrOn(e, i);
      if i == |v| - 1 {
        if Transfers(bs.code(t.pc)) {
          MovedParts(st, StoreState(bs), b, cBB, s.pc, spare);
          MakePassed(bs.code, st, bs.listing, bs.links, bs.counts, bs.regions, bs.bbMap, bs.insMap,
            StoreState(bs).tape, b, cBB, s.pc, spare);
        } else {
          FallPassed(bs.code, st, b, s.pc, spare);
        }
      }
    }

    /** The end of run: the execution of the edge is counted, and findBlock has it already. */
    method Lookup(b: Block, spare: Block, ghost st: StoreValue) returns (f: Option<Block>)
      requires bs.Valid() && Passed(st, StoreState(bs), b, s.pc, spare)
      modifies bs, bs.finder
      ensures bs.Valid() && f.Some? && Moved(st, StoreState(bs), b, f.value, s.pc, spare)
      ensures bs.listing == old(bs.listing) && forall x :: Finds(old(bs.links).succsMap, b, s.pc, x) ==> f == Some(x)
      ensures bs.counts == GainsOne(old(bs.counts), b, s.pc)
      ensures bs.listing == old(bs.listing) ==> bs.regions == old(bs.regions)
    {
      hide StoreOk, Moved, Grown, MoreEdges, Edge, AllEnded, Code, AtBlock, AllBut, Entry, Knows, Finds, Passed,
           Counted, GainsOne,
           CodeKept, KeysOk;
      PassedKnows(st, StoreState(bs), b, s.pc, spare);
      CountedOk(bs.code, bs.listing, bs.links, bs.counts, bs.regions, bs.bbMap, bs.insMap, b, s.pc);
      ghost var st1 := StoreState(bs);
      CountedIn(bs.code, bs.listing, bs.links, bs.counts, bs.regions, bs.bbMap, bs.insMap, b, s.pc);
      bs.counts := Counts(bs.counts.edgeCnts[b := bs.counts.edgeCnts[b] + multiset{s.pc}],
        bs.counts.totalEdges[b := bs.counts.totalEdges[b] + 1]);
      var ok;
      f, ok := FindBlock(bs, b, s.pc, spare);
      PassedMoved(bs.code, st, st1, bs.listing, bs.links, bs.counts, bs.regions, bs.bbMap, bs.insMap,
        StoreState(bs).tape, b, f.value, s.pc, spare);
    }

    /** execRiscv<true>: the instruction joins the block under construction before it is executed. */
    method InterpretAndBuild(spare: Block)
      requires bs.Valid() && AtBlock(bs.listing, cBB, s.pc) && cBB !in bs.listing.readOnly && !s.brk
      requires Tame(bs.code, bs.insMap.Keys, s)
      requires 0 <= s.pc < WORD
      requires spare !in bs.listing.entryAddr && !bs.finder.enHistCollection
      modifies this`s, this`cBB, bs, bs.finder
      ensures Interpret(old(s)) == Some(s) && 0 <= s.pc < WORD
      ensures !s.brk ==> bs.Valid() && AtBlock(bs.listing, cBB, s.pc) && !bs.finder.enHistCollection
      ensures !s.brk ==> CodeKept(old(bs.listing), old(bs.regions), bs.listing, bs.regions)
      ensures !s.brk ==> Grown(old(bs.listing), old(bs.bbMap), bs.listing, bs.bbMap)
      ensures !s.brk ==> bs.insMap.Keys == old(bs.insMap).Keys + {old(s).pc}
      ensures !s.brk ==> forall x :: x in bs.listing.entryAddr && x !in old(bs.listing).entryAddr ==> x == spare
    {
      hide StoreOk, AllBut, AtBlock, Grown, MoreEdges, Edge, Normal, Transfers, Follows, CanGo, Leaving, TameStep, Tame,
           AllEnded, Code, Rv32.Interpret, MoreInsns,
           Entry, AddrOf, Wrap, EndsInTransfer, MayAdd, CodeKept, KeysOk;
      TameNow(bs.code, bs.insMap.Keys, s);
      TameFetch(bs.code, s);
      var inst := ReadN(s.mem, s.pc, 4);
      ghost var L, E := bs.listing, bs.links;
      AtParts(L, cBB, s.pc);
      AtOpen(bs.code, L, cBB, s.pc);
      NoEdgeYet(bs.code, L, bs.links, bs.counts, bs.regions, bs.bbMap, bs.insMap, cBB);
      MoreInsnsKeeps(bs.code, L, E, bs.counts, bs.regions, bs.bbMap, bs.insMap, cBB, inst, s.pc);
      bs.AddIns(cBB, inst, s.pc);
      ghost var L1, G := bs.listing, bs.regions;
      GrownInsns(L, bs.bbMap, cBB, inst, s.pc);
      ghost var t := s;
      s := Rv32.Interpret(s).value;
      StepShape(bs.code, t, s);
      if !s.brk {
        Added(L, E, cBB, inst, t.pc, s.pc);
        if Transfers(inst) {
          var ok := GetNextBlock(spare, true);
          CodeKeptTrans(L, G, L1, G, bs.listing, bs.regions);
          GrownTrans(L, old(bs.bbMap), L1, old(bs.bbMap), bs.listing, bs.bbMap);
        }
      }
    }

    /** The first half of executeJIT for a block that closes a trace: the trace is recorded, and if it has been seen
        often enough its region is compiled. True if the compiler dies, which it does on an instruction that it cannot
        translate. */
    method CloseTrace(spare: Block) returns (died: bool, ghost all: set<Block>)
      requires bs.Valid() && AllBut(bs.listing, cBB) && cBB in bs.listing.readOnly && cBB in bs.listing.entryAddr
      requires spare !in bs.listing.entryAddr
      requires bs.finder.currRegionHead == Some(cBB) && !bs.finder.enHistCollection
      requires ClosedWalk(bs.links.succs, cBB, bs.finder.Collected())
      requires CplrOk(bs.code, aug, bs.insMap.Keys, bs.listing, bs.regions.compiled, cfgCplr)
      modifies bs`regions, bs.finder, this`cfgCplr
      ensures bs.Valid() && !bs.finder.enHistCollection
      ensures CplrOk(bs.code, aug, bs.insMap.Keys, bs.listing, bs.regions.compiled, cfgCplr)
      ensures cBB in old(bs.regions).bbRegions && cBB in old(bs.regions).bbRegionCounts
      ensures TraceClosed(bs.key, bs.enoughRegions, aug, bs.listing, bs.links, old(bs.regions), cBB,
        old(bs.finder.Collected()), all, died, bs.regions)
      ensures died ==> Untranslatable(bs.listing)
      ensures bs.finder.log == old(bs.finder.log) + [Freed(Entry(bs.listing.entryAddr, cBB))]
    {
      hide StoreOk, Edge, Walk, ClosedWalk, AllBut, KeysOk, CplrOk, Code, Entry, Accepted, Taught, Records,
           Untranslatable, RegionBuilder.AllTranslatable, Augmented, Union, HasCode, WithTrace, Seen;
      ghost var G := bs.regions;
      var region := bs.finder.GetRegion(Entry(bs.listing.entryAddr, cBB));
      WalkReadOnly(bs.code, bs.listing, bs.links, bs.counts, bs.regions, bs.bbMap, bs.insMap, cBB, region);
      var canCompile := bs.CanCompileRegion(cBB, region);
      bs.AddRegion(cBB, region);
      TaughtAll(G.cfgInRegions, cBB, region, bs.regions.cfgInRegions);
      var enough := bs.EnoughRegions(cBB);
      died, all := false, {};
      if enough && canCompile {
        AllDone(bs.listing, cBB, cBB);
        ReadOnlyAll(bs.listing, cBB);
        died, all := CompileRegion(spare);
      } else {
        CplrDropped(bs.code, aug, bs.insMap.Keys, bs.listing, bs.regions.compiled, cfgCplr, cBB);
        bs.DropCompiled(cBB, !canCompile);
      }
    }

    /** The region of all recorded traces of the current block, and of what augmentation adds to them, is compiled. */
    method CompileRegion(spare: Block) returns (died: bool, ghost all: set<Block>)
      requires bs.Valid() && cBB in bs.listing.entryAddr && spare !in bs.listing.entryAddr && AllReadOnly(bs.listing)
      requires TracesOf(bs.regions, cBB) != []
      requires CplrOk(bs.code, aug, bs.insMap.Keys, bs.listing, bs.regions.compiled, cfgCplr)
      modifies bs`regions, this`cfgCplr
      ensures died <==> !RegionBuilder.AllTranslatable(bs.listing, all)
      ensures Augmented(aug, bs.links.succs, bs.listing.flags, cBB, Union(TracesOf(old(bs.regions), cBB)), all)
      ensures bs.Valid() && CplrOk(bs.code, aug, bs.insMap.Keys, bs.listing, bs.regions.compiled, cfgCplr)
      ensures died ==> Untranslatable(bs.listing)
      ensures !died ==>
        bs.regions.cfgInRegions == old(bs.regions).cfgInRegions
        && bs.regions.bbRegions == old(bs.regions).bbRegions[cBB := []]
      ensures !died ==> bs.regions.compiled == old(bs.regions).compiled[cBB := Union(TracesOf(old(bs.regions), cBB))]
      ensures !died ==> HasCode(bs.listing, bs.links, cBB, spare, all, cfgCplr)
    {
      hide StoreOk, KeysOk, CplrOk, Code, Entry, RegionBuilder.AllTranslatable, Translator.IsCompiled, Fits, Edge,
           Untranslatable, Augmented, Union, LaidOut;
      ghost var G := bs.regions;
      var R, T;
      R, T, all := Translator.CompileTraces(bs, aug, cBB, spare);
      if R.None? {
        RegionSolid(bs.listing, all);
        return true, all;
      }
      RegionBuilder.TracesOk(bs.code, bs.listing, bs.links, bs.counts, G, bs.bbMap, bs.insMap, cBB,
        Union(TracesOf(G, cBB)));
      bs.Compile(cBB);
      ghost var B := bs.regions.compiled[cBB];
      RegionLaidOut(bs.code, bs.listing, bs.links, bs.counts, bs.regions, bs.bbMap, bs.insMap);
      CompiledFits(bs.code, aug, bs.insMap.Keys, bs.listing, bs.links, cBB, B, all, spare, Compiled(R.value, T.value));
      CplrAdded(bs.code, aug, bs.insMap.Keys, bs.listing, G.compiled, cfgCplr, cBB, B, Compiled(R.value, T.value));
      cfgCplr := cfgCplr[cBB := Compiled(R.value, T.value)];
      return false, all;
    }

    /** executeJIT, with at most fuel blocks of compiled code. G1 are the records after a trace has been closed, which
        only a new block changes before the end, and left is the block that control has left for the new current one. */
    method ExecuteJIT(spare: Block, fuel: nat)
      returns (o: Outcome, ghost n: nat, ghost left: Block, ghost all: set<Block>, ghost G1: Regions)
      requires bs.Valid() && AtBlock(bs.listing, cBB, s.pc) && OnTape(bs.links.succs, FinderState(bs.finder), cBB)
      requires CplrOk(bs.code, aug, bs.insMap.Keys, bs.listing, bs.regions.compiled, cfgCplr)
      requires !s.brk && Tame(bs.code, bs.insMap.Keys, s) && Sane(s) && 0 <= s.pc < WORD
      requires spare !in bs.listing.entryAddr
      modifies this, bs, bs.finder
      ensures InterpretN(old(s), n) == Some(s) && !s.brk && 0 <= s.pc < WORD
      ensures o.Went? || o.MustBuild? ==> bs.insMap.Keys == old(bs.insMap).Keys
      ensures o.Went? || o.MustBuild? ==>
        bs.Valid() && AtBlock(bs.listing, cBB, s.pc) && OnTape(bs.links.succs, FinderState(bs.finder), cBB)
          && CplrOk(bs.code, aug, bs.insMap.Keys, bs.listing, bs.regions.compiled, cfgCplr)
      ensures o.Went? ==> n > 0 && forall x :: x in bs.listing.entryAddr && x !in old(bs.listing).entryAddr ==>
        x == spare
      ensures o.MustBuild? ==>
        n == 0 && s == old(s) && cBB == old(cBB) && cBB !in bs.listing.readOnly && !bs.finder.enHistCollection
        && bs.listing == old(bs.listing)
      ensures o.InRegion? ==> n == 0 && s == old(s) && StillInside(s, o.at, fuel)
      ensures o.Died? ==> n == 0 && s == old(s) && bs.Valid() && Untranslatable(bs.listing)
      ensures o.DiedAtLink? ==> !aug.NoAug? && Jumped(old(s), n)
      ensures o.Went? && bs.Uncompiled(cBB) ==>
        WasVisited(bs.listing.entryAddr, bs.finder.log, bs.finder.enHistCollection, bs.finder.histBufPos, left, cBB)
      ensures o.Went? && old(bs.Uncompiled(cBB) && !bs.finder.Closes(cBB)) ==>
        left == if EndsInTransfer(Code(old(bs.listing).vecIns, old(cBB))) then cBB else old(cBB)
      ensures o.Went? || o.InRegion? || o.Died? ==>
        if old(bs.finder.Closes(cBB)) then
          old(cBB) in old(bs.regions).bbRegions && old(cBB) in old(bs.regions).bbRegionCounts
          && TraceClosed(bs.key, bs.enoughRegions, aug, old(bs.listing), old(bs.links), old(bs.regions), old(cBB),
                         old(bs.finder.Collected()), all, o.Died?, G1)
        else G1 == old(bs.regions) && !o.Died?
      ensures o.Died? || (o.Went? && bs.listing == old(bs.listing)) ==> bs.regions == G1
      ensures (o.Went? || o.InRegion? || o.DiedAtLink?) && HasRegion(G1, old(cBB))
              && old(bs.finder.enHistCollection ==> bs.finder.Closes(cBB)) ==>
        old(cBB) in cfgCplr && RanTo(old(bs.listing), old(bs.bbMap), cfgCplr[old(cBB)], old(s), fuel, o, left, s, n)
    {
      hide WasVisited, RanTo;
      hide StoreOk, AllBut, AtBlock, Moved, Grown, MoreEdges, Edge, Tame, Entry, OnTrack, OnTape, EndsTape, Walk,
           ClosedWalk, FinderState, CanGo, Code, Rv32.Interpret, InterpretN,
           KeysOk, CplrOk, ValidState, TraceClosed, Untranslatable, StillInside, Jumped, CodeKept, Tracks;
      AtParts(bs.listing, cBB, s.pc);
      n, left, all, G1 := 0, cBB, {}, bs.regions;
      NoSteps(s);
      if cBB !in bs.listing.readOnly || s.pc != bs.listing.entryAddr[cBB] {
        AtNotStart(bs.listing, cBB, s.pc);
        bs.finder.DisableRegionCollection(HeadAddr(bs.listing.entryAddr, bs.finder.currRegionHead));
        TapeOff(bs.finder, bs.links.succs, cBB);
        return MustBuild, 0, cBB, {}, bs.regions;
      }
      var died;
      died, all := Record(spare);
      G1 := bs.regions;
      if died {
        return Died, 0, cBB, all, G1;
      }
      var nBB;
      o, nBB, n := RunUnit(spare, fuel);
      left := cBB;
      if o.Went? {
        if bs.Uncompiled(nBB) {
          Heat(nBB);
        }
        cBB := nBB;
      }
    }

    /** The recorder sees the current block. A walk that it closes is a trace. */
    method Record(spare: Block) returns (died: bool, ghost all: set<Block>)
      requires bs.Valid() && AllBut(bs.listing, cBB) && cBB in bs.listing.readOnly && cBB in bs.listing.entryAddr
      requires OnTape(bs.links.succs, FinderState(bs.finder), cBB) && spare !in bs.listing.entryAddr
      requires CplrOk(bs.code, aug, bs.insMap.Keys, bs.listing, bs.regions.compiled, cfgCplr)
      modifies bs`regions, bs.finder, this`cfgCplr
      ensures bs.Valid() && CplrOk(bs.code, aug, bs.insMap.Keys, bs.listing, bs.regions.compiled, cfgCplr)
      ensures if old(bs.finder.Closes(cBB)) then
          cBB in old(bs.regions).bbRegions && cBB in old(bs.regions).bbRegionCounts
          && TraceClosed(bs.key, bs.enoughRegions, aug, bs.listing, bs.links, old(bs.regions), cBB,
                         old(bs.finder.Collected()), all, died, bs.regions)
        else !died && bs.regions == old(bs.regions) && cfgCplr == old(cfgCplr)
      ensures !died ==> EndsTape(bs.links.succs, FinderState(bs.finder), cBB)
      ensures bs.finder.enHistCollection ==> old(bs.finder.enHistCollection && !bs.finder.Closes(cBB))
      ensures died ==> Untranslatable(bs.listing)
    {
      hide StoreOk, AllBut, Edge, Entry, OnTrack, OnTape, EndsTape, Walk, ClosedWalk, Code, KeysOk, CplrOk, TraceClosed,
           Untranslatable, Tracks;
      died, all := false, {};
      TapeIn(bs.finder, bs.links.succs, cBB);
      var closed := bs.finder.Update(cBB, bs.links.succs);
      if closed {
        died, all := CloseTrace(spare);
        if died {
          return;
        }
      }
      TapeOut(bs.finder, bs.links.succs, cBB);
    }

    /** Runs the compiled region of the current block if it has one and nothing is being recorded, else the block
        itself. */
    method RunUnit(spare: Block, fuel: nat) returns (o: Outcome, nBB: Block, ghost n: nat)
      requires bs.Valid() && AtBlock(bs.listing, cBB, s.pc) && cBB in bs.listing.readOnly
      requires EndsTape(bs.links.succs, FinderState(bs.finder), cBB)
      requires CplrOk(bs.code, aug, bs.insMap.Keys, bs.listing, bs.regions.compiled, cfgCplr)
      requires !s.brk && Tame(bs.code, bs.insMap.Keys, s) && Sane(s) && 0 <= s.pc < WORD
      requires spare !in bs.listing.entryAddr
      modifies this`s, this`cBB, bs, bs.finder
      ensures InterpretN(old(s), n) == Some(s) && !s.brk && 0 <= s.pc < WORD
      ensures o.Went? ==> bs.insMap.Keys == old(bs.insMap).Keys
      ensures o.Went? && (old(bs.Uncompiled(cBB)) || old(bs.finder.enHistCollection)) ==>
        cBB == if EndsInTransfer(Code(old(bs.listing).vecIns, old(cBB))) then nBB else old(cBB)
      ensures o.Went? ==>
        n > 0 && bs.Valid() && AtBlock(bs.listing, nBB, s.pc) && OnTape(bs.links.succs, FinderState(bs.finder), nBB)
      ensures o.Went? ==>
        cBB in bs.listing.entryAddr && nBB in bs.listing.entryAddr
        && CplrOk(bs.code, aug, bs.insMap.Keys, bs.listing, bs.regions.compiled, cfgCplr)
      ensures o.Went? ==> forall x :: x in bs.listing.entryAddr && x !in old(bs.listing).entryAddr ==> x == spare
      ensures o.DiedAtLink? ==> !aug.NoAug? && Jumped(old(s), n)
      ensures !o.Went? && !o.DiedAtLink? ==> o.InRegion? && n == 0 && s == old(s) && StillInside(s, o.at, fuel)
      ensures old(bs.Uncompiled(cBB)) || old(bs.finder.enHistCollection) ==> o.Went?
      ensures o.Went? && bs.finder.enHistCollection ==> bs.finder.histBufPos > 0
      ensures !old(bs.Uncompiled(cBB)) && !old(bs.finder.enHistCollection) ==>
        old(cBB) in cfgCplr
        && RanTo(old(bs.listing), old(bs.bbMap), cfgCplr[old(cBB)], old(s), fuel, o, cBB, s, n)
      ensures o.Went? && bs.listing == old(bs.listing) ==> bs.regions == old(bs.regions)
    {
      hide RanTo;
      hide StoreOk, AllBut, AtBlock, Grown, MoreEdges, Edge, Tame, Entry, OnTape, EndsTape, Walk, CanGo, Code,
           Rv32.Interpret, InterpretN, Moved, Finds,
           KeysOk, CplrOk, ValidState, StillInside, Jumped, CodeKept;
      ghost var st := StoreState(bs);
      ghost var b := cBB;
      if !bs.Uncompiled(cBB) && !bs.finder.enHistCollection {
        o, nBB, n := RunCompiled(spare, fuel);
        NotTaping(bs.links.succs, StoreState(bs).tape, nBB);
      } else {
        var f;
        f, n := Run(spare);
        o, nBB := Went, f.value;
        TapeMoves(st, StoreState(bs), b, nBB, s.pc, spare);
        MovedParts(st, StoreState(bs), b, nBB, s.pc, spare);
        MovedKeeps(st, StoreState(bs), b, nBB, s.pc, spare);
        MovedGrown(st, StoreState(bs), b, nBB, s.pc, spare);
        CplrKept(bs.code, aug, st.insMap.Keys, st.L, st.G, st.bbMap, cfgCplr, bs.insMap.Keys, bs.listing, bs.regions,
          bs.bbMap);
      }
    }

    /** regionCFG::run, and the block at the address where the generated code left off. Where there is none yet, the new
        one is linked to the block that was left, which is what addSuccessor dies on if augmentation has put that block
        into the region, and it has been split since. */
    method RunCompiled(spare: Block, fuel: nat) returns (o: Outcome, nBB: Block, ghost n: nat)
      requires bs.Valid() && AtBlock(bs.listing, cBB, s.pc) && cBB in bs.listing.readOnly && !bs.Uncompiled(cBB)
      requires CplrOk(bs.code, aug, bs.insMap.Keys, bs.listing, bs.regions.compiled, cfgCplr)
      requires !s.brk && Tame(bs.code, bs.insMap.Keys, s) && Sane(s) && 0 <= s.pc < WORD
      requires spare !in bs.listing.entryAddr
      modifies this`s, this`cBB, bs
      ensures InterpretN(old(s), n) == Some(s) && !s.brk && 0 <= s.pc < WORD
      ensures o.Went? ==> n > 0 && bs.Valid() && AtBlock(bs.listing, nBB, s.pc)
      ensures o.Went? ==> bs.insMap.Keys == old(bs.insMap).Keys
      ensures o.Went? ==>
        cBB in bs.listing.entryAddr && nBB in bs.listing.entryAddr
        && CplrOk(bs.code, aug, bs.insMap.Keys, bs.listing, bs.regions.compiled, cfgCplr)
      ensures o.Went? ==> forall x :: x in bs.listing.entryAddr && x !in old(bs.listing).entryAddr ==> x == spare
      ensures old(cBB) in cfgCplr
      ensures RanTo(old(bs.listing), old(bs.bbMap), cfgCplr[old(cBB)], old(s), fuel, o, cBB, s, n)
      ensures o.DiedAtLink? ==> !aug.NoAug? && Jumped(old(s), n)
      ensures !o.Went? && !o.DiedAtLink? ==> o.InRegion? && n == 0 && s == old(s) && StillInside(s, o.at, fuel)
      ensures o.Went? && bs.listing == old(bs.listing) ==> bs.regions == old(bs.regions)
    {
      hide StoreOk, AllBut, AtBlock, Grown, MoreEdges, Edge, Tame, Entry, CanGo, Code, Rv32.Interpret, InterpretN,
           EndsInTransfer, Leaving, CutSince,
           KeysOk, ValidState, StillInside, Jumped, CodeKept, Fits, LaidOut, RanRight, SsaRun.RunBlocks;
      ghost var b := cBB;
      AtParts(bs.listing, cBB, s.pc);
      ghost var B := bs.regions.compiled[cBB];
      RegionLaidOut(bs.code, bs.listing, bs.links, bs.counts, bs.regions, bs.bbMap, bs.insMap);
      NoSteps(s);
      n := 0;
      var c := cfgCplr[cBB];
      var r := RunRegion(c, s, fuel);
      CompiledRuns(bs.code, aug, bs.insMap.Keys, bs.listing, cBB, B, c, s, fuel);
      RanParts(bs.listing, c.R, s, fuel, r);
      if r.Running? {
        return InRegion(r), cBB, 0;
      }
      FitsParts(bs.code, aug, bs.insMap.Keys, bs.listing, b, B, c, r.from);
      s, cBB := r.state, r.from;
      n := r.steps;
      o := Went;
      AllDone(bs.listing, b, cBB);
      if s.pc in bs.bbMap {
        nBB := bs.bbMap[s.pc];
        BbFound(bs.code, bs.listing, bs.links, bs.counts, bs.regions, bs.bbMap, bs.insMap, s.pc);
        AtDone(bs.listing, cBB, nBB, s.pc);
      } else {
        nBB := spare;
        ghost var L, m, G, known := bs.listing, bs.bbMap, bs.regions, bs.insMap.Keys;
        ghost var cut := CutSince(L, c.R, cBB);
        if cut {
          CutBlocked(bs.code, aug, bs.insMap.Keys, L, bs.links, bs.counts, G, m, bs.insMap, b, B, c, cBB);
        } else {
          MakeLeaving(bs.listing, bs.links, cBB, s.pc);
        }
        var ok := NewNext(spare, !cut);
        if !ok {
          return DiedAtLink, nBB, n;
        }
        GrownParts(L, m, bs.listing, bs.bbMap);
        AtNew(bs.listing, cBB, nBB, s.pc);
        CplrKept(bs.code, aug, known, L, G, m, cfgCplr, bs.insMap.Keys, bs.listing, bs.regions, bs.bbMap);
      }
    }

    /** The dispatch loop of main, for at most |spares| dispatches of at most fuel blocks of compiled code each. After
        each one the state is the one that plain interpretation reaches; when the loop stops the machine, plain
        interpretation stops there too, and where plain interpretation stops it after not more steps than there may be
        dispatches, and blocks to each, the loop does as well, or dies before. It ends early only inside compiled code
        that still runs, as far as the interpreter does, when the compiler dies, or with augmentation in
        addSuccessor. */
    method Dispatch(spares: seq<Block>, fuel: nat) returns (o: Outcome, ghost n: nat)
      requires bs.Valid() && AtBlock(bs.listing, cBB, s.pc) && OnTape(bs.links.succs, FinderState(bs.finder), cBB)
      requires CplrOk(bs.code, aug, bs.insMap.Keys, bs.listing, bs.regions.compiled, cfgCplr)
      requires !s.brk && Tame(bs.code, bs.insMap.Keys, s) && Sane(s) && Unused(bs.listing, spares, 0)
      modifies this, bs, bs.finder
      ensures InterpretN(old(s), n) == Some(s)
      ensures s.brk ==> Halts(old(s), n)
      ensures o.InRegion? ==> StillInside(s, o.at, fuel)
      ensures o.Died? ==> bs.Valid() && Untranslatable(bs.listing)
      ensures o.DiedAtLink? ==> !aug.NoAug? && !s.brk && Jumped(old(s), n)
      ensures !s.brk && (o.Went? || o.MustBuild?) ==>
        n >= |spares| && bs.Valid() && AtBlock(bs.listing, cBB, s.pc)
          && OnTape(bs.links.succs, FinderState(bs.finder), cBB)
      ensures StopsInTime(old(s), s, n, o, |spares|, fuel)
    {
      hide TraceClosed, WasVisited, RanTo, HasRegion, StoreOk, AllBut, AtBlock, Grown, MoreEdges, Edge, Tame,
           Entry, OnTape, Rv32.Interpret, InterpretN, Unused,
           FinderState, TameStep,
           KeysOk, CplrOk, ValidState, StillInside, Jumped, Untranslatable, CodeKept, Sane, Halts,
           StopsInTime;
      n := 0;
      NoSteps(s);
      SanePc(s);
      o := Went;
      var i := 0;
      while i < |spares| && !s.brk
        invariant 0 <= i <= |spares| && n >= i && InterpretN(old(s), n) == Some(s) && 0 <= s.pc < WORD
          && (o.Went? || o.MustBuild?)
        invariant !s.brk ==>
          bs.Valid() && AtBlock(bs.listing, cBB, s.pc) && OnTape(bs.links.succs, FinderState(bs.finder), cBB)
          && Unused(bs.listing, spares, i)
        invariant !s.brk ==> Tame(bs.code, bs.insMap.Keys, s) && Sane(s)
        invariant !s.brk ==> CplrOk(bs.code, aug, bs.insMap.Keys, bs.listing, bs.regions.compiled, cfgCplr)
        invariant s.brk ==> Halts(old(s), n)
        decreases |spares| - i
      {
        ghost var been := bs.insMap.Keys;
        NextUnused(bs.listing, spares, i);
        ghost var t, L := s, bs.listing;
        ghost var m;
        ghost var left, all, G1;
        o, m, left, all, G1 := ExecuteJIT(spares[i], fuel);
        if o.InRegion? || o.Died? {
          MustStop(old(s), s, n, o, |spares|, fuel);
          return o, n;
        }
        if o.DiedAtLink? {
          RunsCompose(old(s), n, m);
          JumpedLater(old(s), n, m);
          n := n + m;
          MustStop(old(s), s, n, o, |spares|, fuel);
          return o, n;
        }
        if o.Went? {
          RunsCompose(old(s), n, m);
          TameOn(bs.code, been, t, m);
          TameRun(bs.code, been, t, m);
          n := n + m;
        } else {
          ghost var L1, G1, m1, known := bs.listing, bs.regions, bs.bbMap, bs.insMap.Keys;
          InterpretAndBuild(spares[i]);
          OneMoreStep(old(s), n, t, s);
          FirstHalt(old(s), n, t, s);
          n := n + 1;
          if !s.brk {
            TameBuilt(bs.code, been, t, s);
            TapeOff(bs.finder, bs.links.succs, cBB);
            CplrKept(bs.code, aug, known, L1, G1, m1, cfgCplr, bs.insMap.Keys, bs.listing, bs.regions, bs.bbMap);
          }
        }
        if !s.brk {
          StillUnused(L, bs.listing, spares, i);
        }
        i := i + 1;
      }
      MustStop(old(s), s, n, o, |spares|, fuel);
    }

    /** The loop of main that only interprets: no block gets instructions, and the first transfer of control ends in an
        exception. */
    method InterpretOnly(spare: Block, maxIcnt: int) returns (e: PlainEnd, ghost n: nat)
      requires bs.Valid() && Idle(bs.listing, bs.links, bs.insMap, cBB) && AllBut(bs.listing, cBB)
      requires spare !in bs.listing.entryAddr && 0 <= s.pc < WORD && 0 <= s.icnt && 0 <= maxIcnt < DWORD
      modifies this`s, this`cBB, bs, bs.finder
      ensures PlainRun(old(s), maxIcnt, e, n, s)
    {
      hide StoreOk, KeysOk, AllBut, Idle, Rv32.Interpret, TransfersAt, AtBlock, Grown, MoreEdges, Edge, Entry, CodeKept,
           PlainN;
      n := 0;
      PlainNone(s);
      while s.brk == false && s.icnt < maxIcnt
        invariant PlainN(old(s), n) == Some(s) && 0 <= s.pc < WORD && 0 <= s.icnt
        invariant forall j :: 0 <= j < n ==> PlainN(old(s), j).Some? && Continues(PlainN(old(s), j).value, maxIcnt)
        invariant bs.Valid() && Idle(bs.listing, bs.links, bs.insMap, cBB) && AllBut(bs.listing, cBB)
        invariant spare !in bs.listing.entryAddr
        decreases maxIcnt - s.icnt
      {
        var t := Rv32.Interpret(s);
        if t.None? {
          return GaveUp, n;
        }
        PlainStepIs(old(s), n, s, t.value);
        CountStep(s, t.value);
        PcInRange(s, t.value);
        var transfers := TransfersAt(s);
        s := t.value;
        if transfers {
          var ok := GetNextBlock(spare, false);
          assert !ok;
          return Threw, n;
        }
        n := n + 1;
      }
      return Ended, n;
    }

    /** updateRegionHeads for the block that control goes to. Where the current block is that block already, it is a
        visit. */
    method Heat(nBB: Block)
      requires bs.Valid() && nBB in bs.listing.entryAddr && cBB in bs.listing.entryAddr
      requires OnTape(bs.links.succs, FinderState(bs.finder), nBB)
      modifies bs.finder
      ensures bs.Valid() && OnTape(bs.links.succs, FinderState(bs.finder), nBB)
      ensures !old(bs.finder.enHistCollection) && bs.finder.enHistCollection ==>
        bs.finder.currRegionHead == Some(nBB) && bs.listing.entryAddr[nBB] <= bs.listing.entryAddr[cBB]
      ensures var ea, log := bs.listing.entryAddr[nBB], old(bs.finder.log);
              var count := Row(log, nBB, ea) + 1;
              if old(bs.finder.enHistCollection) || ea > bs.listing.entryAddr[cBB] then
                bs.finder.log == log && bs.finder.enHistCollection == old(bs.finder.enHistCollection)
              else
                && bs.finder.enHistCollection == (count >= 2 && count >= bs.finder.hotThresh)
                && bs.finder.log == log + [Visit(nBB, ea)] + (if bs.finder.enHistCollection then [Freed(ea)] else [])
      ensures old(bs.finder.enHistCollection) ==> bs.finder.histBufPos == old(bs.finder.histBufPos)
      ensures old(bs.finder.enHistCollection ==> bs.finder.histBufPos > 0) ==>
        WasVisited(bs.listing.entryAddr, bs.finder.log, bs.finder.enHistCollection, bs.finder.histBufPos, cBB, nBB)
    {
      hide StoreOk, OnTrack;
      ghost var t := FinderState(bs.finder);
      bs.finder.UpdateRegionHeads(nBB, cBB, bs.listing.entryAddr[nBB], bs.listing.entryAddr[cBB]);
      Heated(bs.links.succs, t, FinderState(bs.finder), nBB);
    }

    /** The new basicBlock(s.pc, cBB) of getNextBlock and executeJIT: false where addSuccessor dies. */
    method NewNext(spare: Block, ghost leaving: bool) returns (ok: bool)
      requires bs.Valid() && AllBut(bs.listing, cBB) && cBB in bs.listing.entryAddr
      requires if leaving then Leaving(bs.listing, bs.links, cBB, s.pc) else Blocked(bs.listing, bs.links, cBB)
      requires spare !in bs.listing.entryAddr && 0 <= s.pc < WORD && s.pc !in bs.bbMap
      modifies bs
      ensures ok == leaving
      ensures ok ==> bs.Valid() && Edge(bs.links.succs, cBB, spare) && cBB in bs.listing.entryAddr
      ensures ok ==> spare in bs.listing.entryAddr && spare != cBB
      ensures ok ==> Entry(bs.listing.entryAddr, spare) == s.pc && Code(bs.listing.vecIns, spare) == []
      ensures ok ==> cBB in bs.listing.readOnly || EndsInTransfer(Code(bs.listing.vecIns, cBB))
      ensures ok ==> forall y :: y in bs.listing.entryAddr && y != cBB && y != spare ==> y in bs.listing.readOnly
      ensures ok ==> forall x :: x in bs.listing.entryAddr && x !in old(bs.listing).entryAddr ==> x == spare
      ensures ok ==> Grown(old(bs.listing), old(bs.bbMap), bs.listing, bs.bbMap) && MoreEdges(old(bs.links), bs.links)
      ensures ok ==> CodeKept(old(bs.listing), old(bs.regions), bs.listing, bs.regions)
      ensures ok ==> bs.insMap.Keys == old(bs.insMap).Keys
      ensures ok ==> bs.counts == NewCounts(old(bs.counts), spare)
      ensures ok && bs.listing == old(bs.listing) ==> bs.regions == old(bs.regions)
    {
      hide NewCounts, StoreOk, Leaving, Blocked, AllBut, Grown, MoreEdges, Inside, Unique, Edge, Entry, Dom,
           EndsInTransfer,
           MayLink,
           WithEdge, AllEnded, Code, CodeKept, KeysOk, Accepts;
      NewBlockKeeps(bs.code, bs.listing, bs.links, bs.counts, bs.regions, bs.bbMap, bs.insMap, spare, s.pc);
      ghost var L, E := bs.listing, bs.links;
      StoreInside(bs.code, bs.listing, bs.links, bs.counts, bs.regions, bs.bbMap, bs.insMap);
      MakeGrown(bs.listing, bs.bbMap, spare, s.pc);
      SameReadOnly(bs.listing, spare, s.pc);
      if leaving {
        LeavingIn(bs.listing, bs.links, cBB, s.pc);
        EndedAt(bs.listing, cBB);
        NewStillLeaving(bs.listing, bs.links, cBB, s.pc, spare);
      } else {
        StillBlocked(L, E, cBB, spare, s.pc);
      }
      bs.NewBlock(spare, s.pc);
      ghost var E1 := bs.links;
      StoreInside(bs.code, bs.listing, bs.links, bs.counts, bs.regions, bs.bbMap, bs.insMap);
      InsideAt(bs.listing, bs.links, cBB);
      InsideAt(bs.listing, bs.links, spare);
      ok := bs.AddSuccessor(cBB, spare);
      if leaving {
        LinkMore(E1, cBB, spare, bs.listing.entryAddr[spare]);
        MoreTrans(E, E1, WithEdge(E1, cBB, spare, bs.listing.entryAddr[spare]));
      }
    }
  }

  /** A block without instructions, or that falls through to its one successor: addSuccessor does not accept another. */
  ghost predicate Blocked(L: Listing, E: Links, b: Block) {
    Code(L.vecIns, b) == [] || (!EndsInTransfer(Code(L.vecIns, b)) && exists y :: Edge(E.succs, b, y))
  }

  lemma IdleAlone(code: int -> int, L: Listing, E: Links, C: Counts, G: Regions, bbMap: map<int, Block>,
                  insMap: map<int, Block>, b: Block, pc: int)
    requires StoreOk(code, L, E, C, G, bbMap, insMap) && Idle(L, E, insMap, b)
    ensures b in L.entryAddr && Blocked(L, E, b) && !Knows(E, b, pc) && !Leaving(L, E, b, pc) && insMap == map[]
  {
    hide CodeOk, FlowOk, IndexOk, CountsOk, FlagsOk, RegionsOk, SolidOk, EndsInTransfer, Edge, AllEnded, Finds;
  }

  lemma StillBlocked(L: Listing, E: Links, b: Block, x: Block, pc: int)
    requires Blocked(L, E, b) && Inside(L, E) && x !in L.entryAddr && b in L.entryAddr
    requires forall u, v :: Edge(E.succs, u, v) ==> u in L.entryAddr && v in L.entryAddr
    ensures !Accepts(NewListing(L, x, pc), NewLinks(E, x), b, x)
  {
    NewParts(L, E, b, pc, x);
    hide NewListing, Inside, EndsInTransfer, Code;
    if y :| Edge(E.succs, b, y) {
      assert Edge(NewLinks(E, x).succs, b, y);
    }
    assert !Edge(NewLinks(E, x).succs, b, x);
  }

  /** A region block that has been split since falls through into its second half. */
  lemma CutBlocked(code: int -> int, aug: CfgAug, known: set<int>, L: Listing, E: Links, C: Counts, G: Regions,
                   bbMap: map<int, Block>,
                   insMap: map<int, Block>, h: Block, B: set<Block>, c: Compiled, b: Block)
    requires StoreOk(code, L, E, C, G, bbMap, insMap) && Fits(code, aug, known, L, h, B, c)
    requires LaidOut(code, L, L.readOnly)
    requires b in RegionBlocks(c.R) && CutSince(L, c.R, b)
    ensures Blocked(L, E, b)
  {
    hide EdgesOk, IndexOk, CountsOk, FlagsOk, RegionsOk, SolidOk, CodeOk, SsaForm.WellFormedRegion, Edge, CanGo, Laid,
         Code, Entry,
         Meaning.PreservesMeaning, EndsInTransfer, FromGuest, CodeGen.Insns, CodeGen.Addr;
    SizedAt(code, L.entryAddr, L.vecIns, L.termAddr, L.readOnly, b);
    RegionInsns(c.R, b);
    NoTransferInside(code, L, c.R, b);
    assert HasSucc(E.succs, b);
  }

  lemma RegionInsns(R: CodeGen.Region, b: Block)
    requires SsaForm.WellFormedRegion(R) && b in RegionBlocks(R)
    ensures forall i :: 0 <= i < |CodeGen.Insns(R, b)| - 1 ==> !IsControl(CodeGen.Insns(R, b)[i])
  {
    hide WellFormed, SsaForm.JumpOk, IsControl, SsaForm.Translatable;
    assert SsaForm.BlockOk(R, b);
  }

  lemma NoTransferInside(code: int -> int, L: Listing, R: CodeGen.Region, b: Block)
    requires Laid(code, Entry(L.entryAddr, b), Code(L.vecIns, b)) && FromGuest(code, R, b) && CutSince(L, R, b)
    requires CodeGen.Addr(R, b) == Entry(L.entryAddr, b)
    requires forall i :: 0 <= i < |CodeGen.Insns(R, b)| - 1 ==> !IsControl(CodeGen.Insns(R, b)[i])
    ensures !EndsInTransfer(Code(L.vecIns, b))
  {
    hide Decode, AddrOf, Normal, IsControl, CodeGen.Insns, CodeGen.Addr, Code, Entry;
    var v := Code(L.vecIns, b);
    if |v| > 0 {
      assert v[|v| - 1].0 == code(AddrOf(Entry(L.entryAddr, b), |v| - 1));
      assert Decode(v[|v| - 1].0) == Some(CodeGen.Insns(R, b)[|v| - 1]);
    }
  }

  lemma FitsParts(code: int -> int, aug: CfgAug, known: set<int>, L: Listing, h: Block, B: set<Block>, c: Compiled,
                  b: Block)
    requires Fits(code, aug, known, L, h, B, c) && b in RegionBlocks(c.R)
    ensures b in L.readOnly && b in L.entryAddr && (aug.NoAug? ==> !CutSince(L, c.R, b))
  {
    hide SsaForm.WellFormedRegion, Meaning.PreservesMeaning, CutSince, FromGuest, Code, Entry, CodeGen.Addr,
         CodeGen.Insns;
  }

  lemma FirstBlock(L: Listing, E: Links, b: Block, pc: int)
    requires L == NewListing(Listing(map[], map[], map[], {}, map[]), b, pc)
    requires E == NewLinks(Links(map[], map[], map[]), b)
    requires 0 <= pc < WORD
    ensures AtBlock(L, b, pc) && L.entryAddr.Keys == {b} && Idle(L, E, map[], b)
  {
  }

  lemma SealedBlocks(L: Listing, b: Block)
    ensures Sealed(L, b).entryAddr == L.entryAddr
  {
  }

  lemma SameReadOnly(L: Listing, x: Block, a: int)
    ensures NewListing(L, x, a).readOnly == L.readOnly
    ensures forall y :: y in NewListing(L, x, a).entryAddr <==> y in L.entryAddr || y == x
  {
  }

  lemma MoreTrans(E: Links, E1: Links, E2: Links)
    requires MoreEdges(E, E1) && MoreEdges(E1, E2)
    ensures MoreEdges(E, E2)
  {
    hide Edge;
  }

  lemma AtFound(L: Listing, b: Block, x: Block)
    requires AllBut(L, b)
    ensures forall y :: y in L.entryAddr && y != b && y != x ==> y in L.readOnly
    ensures x in L.entryAddr && x != b ==> x in L.readOnly
  {
  }

  lemma Indexed(code: int -> int, L: Listing, E: Links, C: Counts, G: Regions, bbMap: map<int, Block>,
                insMap: map<int, Block>, b: Block)
    requires StoreOk(code, L, E, C, G, bbMap, insMap) && b in L.entryAddr
    ensures Entry(L.entryAddr, b) in bbMap && bbMap[Entry(L.entryAddr, b)] == b
  {
    hide CodeOk, EdgesOk, FlowOk, CountsOk, FlagsOk, RegionsOk, SolidOk, Contains;
  }
}
