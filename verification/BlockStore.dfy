/** The block store: basicBlock's static maps and the operations that build, find, link and split blocks. */
module BlockStores {
  import opened Graphs
  import opened Rv32
  import opened BlockHeap
  import opened BlockSplit
  import opened TraceRecorder

  // ---------- traces and compiled regions ----------

  /** t is one of the traces recorded with head h. */
  predicate Records(m: map<Block, seq<seq<Block>>>, h: Block, t: seq<Block>) {
    h in m && t in m[h]
  }

  /** Every recorded trace is a closed walk along current edges, and every block of a trace or of a compiled region
      knows the region's head. */
  ghost predicate RegionsOk(entry: map<Block, int>, succs: map<Block, set<Block>>,
                            bbRegions: map<Block, seq<seq<Block>>>,
                            compiled: map<Block, set<Block>>, inRegions: map<Block, set<Block>>) {
    && Dom(entry, bbRegions) && Dom(entry, compiled) && Dom(entry, inRegions)
    && (forall h, t :: Records(bbRegions, h, t) ==> ClosedWalk(succs, h, t))
    && (forall h, t, x :: Records(bbRegions, h, t) && x in t ==> Edge(inRegions, x, h))
    && (forall h, x :: Edge(compiled, h, x) ==> Edge(inRegions, x, h) && Edge(compiled, h, h))
    && (forall h, x :: Edge(inRegions, x, h) ==> h in entry)
  }

  lemma RegionsMoreEdges(entry: map<Block, int>, succs: map<Block, set<Block>>, bbRegions: map<Block, seq<seq<Block>>>,
                         compiled: map<Block, set<Block>>, inRegions: map<Block, set<Block>>,
                           succs': map<Block, set<Block>>)
    requires RegionsOk(entry, succs, bbRegions, compiled, inRegions)
    requires forall u, v :: Edge(succs, u, v) ==> Edge(succs', u, v)
    ensures RegionsOk(entry, succs', bbRegions, compiled, inRegions)
  {
    hide Edge, Records, ClosedWalk, Dom;
    forall h, t | Records(bbRegions, h, t)
      ensures ClosedWalk(succs', h, t)
    {
      WalkKept(succs, succs', h, t);
    }
  }

  ghost predicate SameRecords(m: map<Block, seq<seq<Block>>>, m': map<Block, seq<seq<Block>>>) {
    forall h, t :: Records(m', h, t) <==> Records(m, h, t)
  }

  lemma NoRecordsYet(m: map<Block, seq<seq<Block>>>, x: Block)
    requires x !in m
    ensures SameRecords(m, m[x := []])
  {
  }

  lemma RegionsSame(entry: map<Block, int>, succs: map<Block, set<Block>>, bbRegions: map<Block, seq<seq<Block>>>,
                    compiled: map<Block, set<Block>>, inRegions: map<Block, set<Block>>,
                    entry': map<Block, int>, bbRegions': map<Block, seq<seq<Block>>>,
                      compiled': map<Block, set<Block>>, inRegions': map<Block, set<Block>>)
    requires RegionsOk(entry, succs, bbRegions, compiled, inRegions)
    requires SameRecords(bbRegions, bbRegions') && SameEdges(compiled, compiled') && SameEdges(inRegions, inRegions')
    requires Dom(entry', bbRegions') && Dom(entry', compiled') && Dom(entry', inRegions') && forall h :: h in entry ==>
      h in entry'
    ensures RegionsOk(entry', succs, bbRegions', compiled', inRegions')
  {
    hide Edge, Records, ClosedWalk, Dom;
    forall h, t, x | Records(bbRegions', h, t) && x in t
      ensures Edge(inRegions', x, h)
    {
      assert Records(bbRegions, h, t);
      assert Edge(inRegions, x, h);
    }
    forall h, x | Edge(compiled', h, x)
      ensures Edge(inRegions', x, h) && Edge(compiled', h, h)
    {
      assert Edge(compiled, h, x);
      assert Edge(inRegions, x, h);
    }
  }

  lemma RegionsNewBlock(entry: map<Block, int>, succs: map<Block, set<Block>>, bbRegions: map<Block, seq<seq<Block>>>,
                        compiled: map<Block, set<Block>>, inRegions: map<Block, set<Block>>, x: Block, a: int)
    requires RegionsOk(entry, succs, bbRegions, compiled, inRegions) && x !in entry
    ensures RegionsOk(entry[x := a], succs, bbRegions[x := []], compiled[x := {}], inRegions[x := {}])
  {
    DomPut(entry, bbRegions, x, a, []);
    DomPut(entry, compiled, x, a, {});
    DomPut(entry, inRegions, x, a, {});
    NoEdgesYet(compiled, x);
    NoEdgesYet(inRegions, x);
    NoRecordsYet(bbRegions, x);
    hide RegionsOk, Edge, Records, Dom;
    RegionsSame(entry, succs, bbRegions, compiled, inRegions, entry[x := a], bbRegions[x := []], compiled[x := {}],
      inRegions[x := {}]);
  }

  /** What is left after dropCompiledCode of b: nothing recorded or compiled with b as head, or with b in it. */
  ghost predicate Dropped(b: Block, inRegions: map<Block, set<Block>>, bbRegions: map<Block, seq<seq<Block>>>,
                          compiled: map<Block, set<Block>>,
                          bbRegions': map<Block, seq<seq<Block>>>, compiled': map<Block, set<Block>>) {
    && (forall h, t :: Records(bbRegions', h, t) <==> Records(bbRegions, h, t) && h != b && !Edge(inRegions, b, h))
    && (forall h, x :: Edge(compiled', h, x) <==> Edge(compiled, h, x) && !Edge(inRegions, b, h))
  }

  /** After dropCompiledCode of b no trace and no compiled region refers to b. */
  lemma DroppedOk(entry: map<Block, int>, succs: map<Block, set<Block>>, bbRegions: map<Block, seq<seq<Block>>>,
                  compiled: map<Block, set<Block>>, inRegions: map<Block, set<Block>>, b: Block,
                  bbRegions': map<Block, seq<seq<Block>>>, compiled': map<Block, set<Block>>)
    requires RegionsOk(entry, succs, bbRegions, compiled, inRegions)
    requires Dropped(b, inRegions, bbRegions, compiled, bbRegions', compiled')
    requires Dom(entry, bbRegions') && Dom(entry, compiled')
    ensures RegionsOk(entry, succs, bbRegions', compiled', inRegions)
    ensures Without(b, bbRegions', compiled')
  {
    hide Edge, Records, ClosedWalk, Dom;
  }

  ghost predicate Without(b: Block, bbRegions: map<Block, seq<seq<Block>>>, compiled: map<Block, set<Block>>) {
    && (forall h, t :: Records(bbRegions, h, t) ==> b !in t)
    && forall h :: !Edge(compiled, h, b)
  }

  /** Traces that avoid b survive the split of b. */
  lemma SplitKeepsRegions(entry: map<Block, int>, succs: map<Block, set<Block>>, bbRegions: map<Block, seq<seq<Block>>>,
                          compiled: map<Block, set<Block>>, inRegions: map<Block, set<Block>>, b: Block, n: Block,
                            succs': map<Block, set<Block>>)
    requires RegionsOk(entry, succs, bbRegions, compiled, inRegions) && Without(b, bbRegions, compiled)
    requires SplitSuccs(succs, b, n, succs') && forall v :: !Edge(succs, n, v)
    ensures RegionsOk(entry, succs', bbRegions, compiled, inRegions)
  {
    hide Edge, Records, ClosedWalk, Dom;
    forall h, t | Records(bbRegions, h, t)
      ensures ClosedWalk(succs', h, t)
    {
      forall x, y | Edge(succs, x, y) && x in t
        ensures Edge(succs', x, y)
      {
        assert x != n && x != b;
      }
      WalkKept(succs, succs', h, t);
    }
  }

  // ---------- counters and flags ----------

  /** The execution counts of the edges add up to totalEdges. */
  ghost predicate CountsOk(entry: map<Block, int>, edgeCnts: map<Block, multiset<int>>, totalEdges: map<Block, int>) {
    && Dom(entry, edgeCnts) && Dom(entry, totalEdges)
    && forall b :: b in edgeCnts && b in totalEdges ==> |edgeCnts[b]| == totalEdges[b]
  }

  ghost predicate HasIndirect(v: Insns) {
    exists i :: 0 <= i < |v| && IsIndirect(v[i].0)
  }

  /** hasjr, hasjalr, hasjal and hasmonitor. */
  datatype Flags = Flags(jr: bool, jalr: bool, jal: bool, monitor: bool)

  const NOFLAGS := Flags(false, false, false, false)

  function OrFlags(f: Flags, g: Flags): Flags {
    Flags(f.jr || g.jr, f.jalr || g.jalr, f.jal || g.jal, f.monitor || g.monitor)
  }

  function FlagsAt(flags: map<Block, Flags>, b: Block): Flags {
    if b in flags then flags[b] else NOFLAGS
  }

  /** The flags that one instruction sets. */
  function InsnFlags(w: int): Flags {
    Flags(IsJr(w), IsJalr(w), IsJal(w), IsMonitor(w))
  }

  function FlagsOf(v: Insns): Flags {
    if v == [] then NOFLAGS else OrFlags(FlagsOf(v[..|v| - 1]), InsnFlags(v[|v| - 1].0))
  }

  predicate IsIndirectFlags(f: Flags) {
    f.jr || f.jalr || f.monitor
  }

  /** A flag is set if and only if some instruction sets it. */
  lemma {:induction false} FlagsOfExact(v: Insns)
    ensures FlagsOf(v).jr <==> exists i :: 0 <= i < |v| && IsJr(v[i].0)
    ensures FlagsOf(v).jalr <==> exists i :: 0 <= i < |v| && IsJalr(v[i].0)
    ensures FlagsOf(v).jal <==> exists i :: 0 <= i < |v| && IsJal(v[i].0)
    ensures FlagsOf(v).monitor <==> exists i :: 0 <= i < |v| && IsMonitor(v[i].0)
  {
    hide IsJr, IsJalr, IsJal, IsMonitor;
    if v != [] {
      var n := |v| - 1;
      FlagsOfExact(v[..n]);
      assert forall i :: 0 <= i < n ==> v[..n][i] == v[i];
    }
  }

  lemma IndirectFlags(v: Insns)
    ensures IsIndirectFlags(FlagsOf(v)) <==> HasIndirect(v)
  {
    FlagsOfExact(v);
    hide Decode;
    if HasIndirect(v) {
      var i :| 0 <= i < |v| && IsIndirect(v[i].0);
      assert IsJr(v[i].0) || IsJalr(v[i].0) || IsMonitor(v[i].0);
    }
    assert forall i :: 0 <= i < |v| && (IsJr(v[i].0) || IsJalr(v[i].0) || IsMonitor(v[i].0)) ==> IsIndirect(v[i].0);
  }

  /** The flags of finished blocks are those of their instructions, and the others are clear. */
  ghost predicate FlagsOk(ins: map<Block, Insns>, readOnly: set<Block>, flags: map<Block, Flags>) {
    && (forall b :: b in readOnly ==> FlagsAt(flags, b) == FlagsOf(Code(ins, b)))
    && forall b :: b !in readOnly ==> FlagsAt(flags, b) == NOFLAGS
  }

  /** The fields of the blocks, grouped: their code, their edges, the executions of their edges, and the regions they
      are in. compiled holds the blocks of the traces that the compiled region of each head was made from, and nothing
      for a block without one. */
  datatype Listing = Listing(entryAddr: map<Block, int>, vecIns: map<Block, Insns>, termAddr: map<Block, int>,
                             readOnly: set<Block>, flags: map<Block, Flags>)
  datatype Links = Links(succs: map<Block, set<Block>>, preds: map<Block, set<Block>>,
    succsMap: map<Block, map<int, Block>>)
  datatype Counts = Counts(edgeCnts: map<Block, multiset<int>>, totalEdges: map<Block, int>)
  datatype Regions = Regions(bbRegions: map<Block, seq<seq<Block>>>, bbRegionCounts: map<Block, map<int, int>>,
                             compiled: map<Block, set<Block>>, cfgInRegions: map<Block, set<Block>>)

  ghost predicate StoreOk(code: int -> int, L: Listing, E: Links, C: Counts, G: Regions, bbMap: map<int, Block>,
                          insMap: map<int, Block>) {
    && CodeOk(code, L.entryAddr, L.vecIns, L.termAddr, L.readOnly)
    && EdgesOk(L.entryAddr, E.succs, E.preds, E.succsMap)
    && FlowOk(L.entryAddr, L.vecIns, L.readOnly, E.succs)
    && IndexOk(L.entryAddr, L.vecIns, bbMap, insMap)
    && CountsOk(L.entryAddr, C.edgeCnts, C.totalEdges)
    && FlagsOk(L.vecIns, L.readOnly, L.flags)
    && RegionsOk(L.entryAddr, E.succs, G.bbRegions, G.compiled, G.cfgInRegions)
    && SolidOk(L.readOnly, G.cfgInRegions)
  }

  /** The counted keys of a head are those of its recorded traces, no two of which have the same key. */
  ghost predicate KeysOk(key: seq<Block> -> int, G: Regions) {
    && G.bbRegionCounts.Keys == G.bbRegions.Keys
    && (forall h, k :: h in G.bbRegions ==> (k in G.bbRegionCounts[h] <==> HasKey(key, G.bbRegions[h], k)))
    && forall h :: h in G.bbRegions ==> KeysDistinct(key, G.bbRegions[h])
  }

  ghost predicate HasKey(key: seq<Block> -> int, traces: seq<seq<Block>>, k: int) {
    exists t :: t in traces && key(t) == k
  }

  ghost predicate KeysDistinct(key: seq<Block> -> int, traces: seq<seq<Block>>) {
    forall i, j :: 0 <= i < j < |traces| ==> key(traces[i]) != key(traces[j])
  }

  lemma NoKeys(key: seq<Block> -> int)
    ensures KeysDistinct(key, []) && forall k :: !HasKey(key, [], k)
  {
  }

  /** A head without traces has no counts. */
  lemma KeysCleared(key: seq<Block> -> int, G: Regions, h: Block, G': Regions)
    requires KeysOk(key, G) && G'.bbRegions == G.bbRegions[h := []] && G'.bbRegionCounts == G.bbRegionCounts[h := map[]]
    ensures KeysOk(key, G')
  {
    NoKeys(key);
    hide HasKey, KeysDistinct;
  }

  /** What addRegion does with a trace of head h. */
  lemma KeysAdded(key: seq<Block> -> int, G: Regions, h: Block, t: seq<Block>, G': Regions)
    requires KeysOk(key, G) && h in G.bbRegions && h in G.bbRegionCounts
    requires G'.bbRegions == G.bbRegions[h := WithTrace(key, G.bbRegions[h], t)]
    requires G'.bbRegionCounts == G.bbRegionCounts[h := Seen(G.bbRegionCounts[h], key(t))]
    ensures KeysOk(key, G')
  {
    var traces := G.bbRegions[h];
    if !HasKey(key, traces, key(t)) {
      forall i | 0 <= i < |traces|
        ensures key(traces[i]) != key(t)
      {
        assert traces[i] in traces;
      }
    }
    forall k
      ensures k in G'.bbRegionCounts[h] <==> HasKey(key, G'.bbRegions[h], k)
    {
      assert k in G.bbRegionCounts[h] <==> HasKey(key, traces, k);
      if k == key(t) {
        assert !HasKey(key, traces, k) ==> t in traces + [t];
      }
      if k != key(t) && HasKey(key, traces, k) {
        var u :| u in traces && key(u) == k;
        assert u in G'.bbRegions[h];
      }
    }
  }

  /** The traces of a head after one more: it is kept if its key is new. */
  ghost function WithTrace(key: seq<Block> -> int, traces: seq<seq<Block>>, t: seq<Block>): seq<seq<Block>> {
    if HasKey(key, traces, key(t)) then traces else traces + [t]
  }

  /** The counts after one more trace with key k. */
  function Seen(counts: map<int, int>, k: int): map<int, int> {
    counts[k := (if k in counts then counts[k] else 0) + 1]
  }

  /** The blocks of regions are read-only. */
  ghost predicate SolidOk(readOnly: set<Block>, inRegions: map<Block, set<Block>>) {
    forall x, h :: Edge(inRegions, x, h) ==> x in readOnly
  }

  lemma SolidMore(readOnly: set<Block>, inRegions: map<Block, set<Block>>, readOnly': set<Block>,
                  inRegions': map<Block, set<Block>>)
    requires SolidOk(readOnly, inRegions) && SameEdges(inRegions, inRegions') && forall x :: x in readOnly ==>
      x in readOnly'
    ensures SolidOk(readOnly', inRegions')
  {
    hide Edge;
  }

  // ---------- a new block ----------

  function NewListing(L: Listing, x: Block, a: int): Listing {
    L.(entryAddr := L.entryAddr[x := a], vecIns := L.vecIns[x := []], termAddr := L.termAddr[x := 0])
  }

  function NewLinks(E: Links, x: Block): Links {
    Links(E.succs[x := {}], E.preds[x := {}], E.succsMap[x := map[]])
  }

  function NewCounts(C: Counts, x: Block): Counts {
    Counts(C.edgeCnts[x := multiset{}], C.totalEdges[x := 0])
  }

  function NewRegions(G: Regions, x: Block): Regions {
    Regions(G.bbRegions[x := []], G.bbRegionCounts[x := map[]], G.compiled[x := {}], G.cfgInRegions[x := {}])
  }

  // ---------- a new edge ----------

  function WithEdge(E: Links, b: Block, x: Block, a: int): Links
    requires b in E.succs && x in E.preds && b in E.succsMap
  {
    Links(AddTo(E.succs, b, x), AddTo(E.preds, x, b), Learn(E.succsMap, b, a, x))
  }

  ghost predicate Inside(L: Listing, E: Links) {
    Dom(L.entryAddr, E.succs) && Dom(L.entryAddr, E.preds) && Dom(L.entryAddr, E.succsMap)
      && Dom(L.entryAddr, L.vecIns) && Dom(L.entryAddr, L.termAddr)
  }

  lemma StoreInside(code: int -> int, L: Listing, E: Links, C: Counts, G: Regions, bbMap: map<int, Block>,
                    insMap: map<int, Block>)
    requires StoreOk(code, L, E, C, G, bbMap, insMap)
    ensures Inside(L, E) && Unique(L.entryAddr)
    ensures Dom(L.entryAddr, C.edgeCnts) && Dom(L.entryAddr, C.totalEdges)
    ensures Dom(L.entryAddr, G.bbRegions) && Dom(L.entryAddr, G.compiled) && Dom(L.entryAddr, G.cfgInRegions)
    ensures forall b :: b in L.readOnly ==> b in L.entryAddr
    ensures forall u, v :: Edge(E.succs, u, v) ==> u in L.entryAddr && v in L.entryAddr
  {
    hide Dom, Edge, Unique, FlowOk, FlagsOk;
    EdgesInside(L.entryAddr, E.succs, E.preds, E.succsMap);
    ReadOnlyInside(code, L.entryAddr, L.vecIns, L.termAddr, L.readOnly);
    IndexUnique(L.entryAddr, L.vecIns, bbMap, insMap);
  }

  predicate IndirectAt(L: Listing, b: Block) {
    IsIndirectFlags(FlagsAt(L.flags, b))
  }

  /** When addSuccessor does not fail: it asks for the last instruction, a block that falls through has one successor,
      and one without an indirect jump at most two. */
  ghost predicate Accepts(L: Listing, E: Links, b: Block, x: Block) {
    || Edge(E.succs, b, x)
    || (b in E.succs && |Code(L.vecIns, b)| > 0 && (EndsInTransfer(Code(L.vecIns, b)) || E.succs[b] == {})
        && (|E.succs[b] + {x}| <= 2 || IndirectAt(L, b)))
  }

  /** b may get the edge to x: control can go there, and b is finished, or about to be with this as its first edge. */
  ghost predicate MayLink(L: Listing, E: Links, b: Block, x: Block) {
    && b in L.entryAddr && x in L.entryAddr && CanGo(Code(L.vecIns, b), Entry(L.entryAddr, x))
    && (b in L.readOnly || (EndsInTransfer(Code(L.vecIns, b)) && forall y :: !Edge(E.succs, b, y)))
  }

  /** The two checks of addSuccessor pass, and the invariant is kept. */
  lemma LinkOk(code: int -> int, L: Listing, E: Links, C: Counts, G: Regions, bbMap: map<int, Block>,
               insMap: map<int, Block>, b: Block, x: Block)
    requires StoreOk(code, L, E, C, G, bbMap, insMap) && MayLink(L, E, b, x)
    ensures Inside(L, E)
    ensures Edge(E.succs, b, x) || EndsInTransfer(Code(L.vecIns, b)) || forall y :: !Edge(E.succs, b, y)
    ensures StoreOk(code, L, WithEdge(E, b, x, L.entryAddr[x]), C, G, bbMap, insMap)
    ensures IndirectAt(L, b) || |WithEdge(E, b, x, L.entryAddr[x]).succs[b]| <= 2
    ensures |Code(L.vecIns, b)| > 0
  {
    NonEmptyGo(Code(L.vecIns, b), Entry(L.entryAddr, x));
    StoreInside(code, L, E, C, G, bbMap, insMap);
    NoThird(code, L, E, C, G, bbMap, insMap, b, x);
    hide CodeOk, EdgesOk, IndexOk, CountsOk, FlagsOk, RegionsOk, Edge, Unique, CanGo, EndsInTransfer;
    EdgeAdded(L.entryAddr, E.succs, E.preds, E.succsMap, b, x);
    EdgeFlows(L.entryAddr, L.vecIns, L.readOnly, E.succs, b, x);
    AddToEdges(E.succs, b, x);
    RegionsMoreEdges(L.entryAddr, E.succs, G.bbRegions, G.compiled, G.cfgInRegions, AddTo(E.succs, b, x));
    if !EndsInTransfer(Code(L.vecIns, b)) {
      forall y | Edge(E.succs, b, y)
        ensures y == x
      {
        OneWay(Code(L.vecIns, b), Entry(L.entryAddr, y), Entry(L.entryAddr, x));
        SameWay(L.entryAddr, x, y);
      }
    }
  }

  lemma SameWay(entry: map<Block, int>, x: Block, y: Block)
    requires Unique(entry) && x in entry && y in entry && Entry(entry, x) == Entry(entry, y)
    ensures x == y
  {
  }

  lemma NoThird(code: int -> int, L: Listing, E: Links, C: Counts, G: Regions, bbMap: map<int, Block>,
                insMap: map<int, Block>, b: Block, x: Block)
    requires StoreOk(code, L, E, C, G, bbMap, insMap) && MayLink(L, E, b, x) && Inside(L, E) && Unique(L.entryAddr)
    requires forall u, v :: Edge(E.succs, u, v) ==> u in L.entryAddr && v in L.entryAddr
    ensures IndirectAt(L, b) || |AddTo(E.succs, b, x)[b]| <= 2
  {
    hide CodeOk, EdgesOk, IndexOk, CountsOk, RegionsOk, SolidOk, Unique, FlowOk, CanGo, EndsInTransfer, FlagsOf,
         IsIndirect, Code, Entry;
    var S := AddTo(E.succs, b, x);
    var v := Code(L.vecIns, b);
    IndirectFlags(v);
    AddToEdges(E.succs, b, x);
    NonEmptyGo(v, Entry(L.entryAddr, x));
    if b in L.readOnly {
      EntryIs(L.entryAddr, x);
      EdgeFlows(L.entryAddr, L.vecIns, L.readOnly, E.succs, b, x);
      if IsIndirect(v[|v| - 1].0) {
        LastIndirect(v);
      } else {
        SuccsAre(S, b);
        FewSuccs(L.entryAddr, L.vecIns, L.readOnly, S, b);
      }
    } else {
      if E.succs[b] != {} {
        SomeSucc(E.succs, b);
      }
      assert S[b] == {x};
    }
  }

  lemma NonEmptyGo(v: Insns, a: int)
    requires CanGo(v, a)
    ensures |v| > 0
  {
  }

  lemma LastIndirect(v: Insns)
    requires |v| > 0 && IsIndirect(v[|v| - 1].0)
    ensures HasIndirect(v)
  {
  }

  lemma SomeSucc(m: map<Block, set<Block>>, b: Block)
    requires b in m && m[b] != {}
    ensures exists y :: Edge(m, b, y)
  {
    var y :| y in m[b];
    assert Edge(m, b, y);
  }

  /** The entry address of the head under collection, if any. */
  /** Where collecting stops, the slot of its head is freed. */
  ghost function Stopped(entry: map<Block, int>, collecting: bool, head: Option<Block>): seq<Event> {
    if collecting && head.Some? then [Freed(Entry(entry, head.value))] else []
  }

  function HeadAddr(entry: map<Block, int>, head: Option<Block>): int {
    match head case Some(h) => Entry(entry, h) case None => 0
  }

  /** No block is under construction. */
  ghost predicate AllReadOnly(L: Listing) {
    forall x :: x in L.entryAddr ==> x in L.readOnly
  }

  ghost function TracesOf(G: Regions, h: Block): seq<seq<Block>> {
    if h in G.bbRegions then G.bbRegions[h] else []
  }

  /** The blocks of a list of traces. */
  ghost function Union(traces: seq<seq<Block>>): set<Block> {
    set j, x | 0 <= j < |traces| && x in traces[j] :: x
  }

  method CollectBlocks(traces: seq<seq<Block>>) returns (blocks: set<Block>)
    ensures blocks == Union(traces)
  {
    blocks := {};
    for i := 0 to |traces|
      invariant forall x :: x in blocks <==> exists j :: 0 <= j < i && x in traces[j]
    {
      var t := traces[i];
      for j := 0 to |t|
        invariant forall x :: x in blocks <==> x in t[..j] || exists k :: 0 <= k < i && x in traces[k]
      {
        assert t[..j + 1] == t[..j] + [t[j]];
        blocks := blocks + {t[j]};
      }
      assert t[..|t|] == t;
    }
  }

  class BlockStore {
    ghost const code: int -> int
    const finder: RegionFinder
    const key: seq<Block> -> int
    const enoughRegions: int
    var listing: Listing
    var links: Links
    var counts: Counts
    var regions: Regions
    var bbMap: map<int, Block>
    var insMap: map<int, Block>

    /** key stands for the CRC over the entry addresses of a trace, which never change. */
    constructor (ghost code: int -> int, finder: RegionFinder, key: seq<Block> -> int, enoughRegions: int)
      requires finder.Valid()
      ensures this.code == code && this.finder == finder && this.key == key && this.enoughRegions == enoughRegions
      ensures Valid()
      ensures listing == Listing(map[], map[], map[], {}, map[]) && bbMap == map[] && insMap == map[]
      ensures links == Links(map[], map[], map[])
      ensures regions == Regions(map[], map[], map[], map[])
    {
      this.code, this.finder, this.key, this.enoughRegions := code, finder, key, enoughRegions;
      listing := Listing(map[], map[], map[], {}, map[]);
      links := Links(map[], map[], map[]);
      counts := Counts(map[], map[]);
      regions := Regions(map[], map[], map[], map[]);
      bbMap, insMap := map[], map[];
    }

    ghost predicate Valid()
      reads this, finder
    {
      finder.Valid() && StoreOk(code, listing, links, counts, regions, bbMap, insMap) && KeysOk(key, regions)
    }

    /** new basicBlock(a): x is the object that the allocator hands out. */
    method NewBlock(x: Block, a: int)
      requires Valid() && x !in listing.entryAddr && a !in bbMap && 0 <= a < WORD
      modifies this
      ensures Valid() && bbMap == old(bbMap)[a := x] && insMap == old(insMap)
      ensures listing == NewListing(old(listing), x, a) && links == NewLinks(old(links), x)
      ensures counts == NewCounts(old(counts), x) && regions == NewRegions(old(regions), x)
    {
      hide StoreOk, NewListing, NewLinks, NewCounts, NewRegions, KeysOk;
      NewBlockOk(code, listing, links, counts, regions, bbMap, insMap, x, a);
      KeysNew(key, regions, x);
      listing := NewListing(listing, x, a);
      links := NewLinks(links, x);
      counts := NewCounts(counts, x);
      regions := NewRegions(regions, x);
      bbMap := bbMap[a := x];
    }

    /** addSuccessor; false where it dies, or throws for want of a last instruction. */
    method AddSuccessor(b: Block, x: Block) returns (ok: bool)
      requires Valid() && b in listing.entryAddr && x in listing.entryAddr
      modifies this`links
      ensures ok <==> Accepts(listing, old(links), b, x)
      ensures ok ==> links == if Edge(old(links).succs, b, x) then old(links)
        else WithEdge(old(links), b, x, listing.entryAddr[x])
      ensures old(MayLink(listing, links, b, x)) ==> ok && Valid()
    {
      hide StoreOk, CanGo, EndsInTransfer, Unique, MayLink, Inside, WithEdge, Accepts, Edge, KeysOk, Transfers;
      StoreInside(code, listing, links, counts, regions, bbMap, insMap);
      InsideAt(listing, links, b);
      InsideAt(listing, links, x);
      if MayLink(listing, links, b, x) {
        LinkOk(code, listing, links, counts, regions, bbMap, insMap, b, x);
      }
      AcceptsIs(listing, links, b, x, listing.entryAddr[x]);
      SuccsAre(links.succs, b);
      if x in links.succs[b] {
        return true;
      }
      var v := Code(listing.vecIns, b);
      if v == [] {
        return false;
      }
      if !Transfers(v[|v| - 1].0) && |links.succs[b]| >= 1 {
        LinkedSome(links, listing, b);
        return false;
      }
      links := WithEdge(links, b, x, listing.entryAddr[x]);
      LinkedAt(old(links), b, x, listing.entryAddr[x]);
      if |links.succs[b]| > 2 && !IndirectAt(listing, b) {
        return false;
      }
      return true;
    }

    /** addIns, and setTermAddr when the instruction transfers control. */
    method AddIns(b: Block, inst: int, addr: int)
      requires Valid() && b in listing.entryAddr
      modifies this`listing, this`insMap
      ensures old(b in listing.readOnly || MayAdd(code, listing, b, inst, addr)) ==> Valid()
      ensures b in old(listing).readOnly ==> listing == old(listing) && insMap == old(insMap)
      ensures b !in old(listing).readOnly ==>
        listing == MoreInsns(old(listing), b, inst, addr) && insMap == old(insMap)[addr := b]
    {
      hide StoreOk, MoreInsns, EndsInTransfer, Normal, AddrOf;
      if b !in listing.readOnly {
        if MayAdd(code, listing, b, inst, addr) {
          MoreInsnsOk(code, listing, links, counts, regions, bbMap, insMap, b, inst, addr);
        }
        listing := MoreInsns(listing, b, inst, addr);
        insMap := insMap[addr := b];
      }
    }

    /** addRegion, after the blocks of the trace have learned its head: a trace whose key is new is kept, and its key is
        counted. */
    method AddRegion(h: Block, region: seq<Block>)
      requires Valid() && h in listing.entryAddr && ClosedWalk(links.succs, h, region)
      requires forall x :: x in region ==> x in listing.readOnly
      modifies this`regions
      ensures Valid() && h in old(regions).bbRegions && h in old(regions).bbRegionCounts
      ensures regions.compiled == old(regions).compiled
      ensures regions.bbRegions == old(regions).bbRegions[h := WithTrace(key, old(regions).bbRegions[h], region)]
      ensures regions.bbRegions[h] != []
      ensures regions.bbRegionCounts ==
        old(regions).bbRegionCounts[h := Seen(old(regions).bbRegionCounts[h], key(region))]
      ensures Taught(old(regions).cfgInRegions, h, region, |region|, regions.cfgInRegions)
    {
      hide StoreOk, ClosedWalk, Edge, Dom, Inside, Unique, Taught, KeysOk, KeysDistinct;
      StoreInside(code, listing, links, counts, regions, bbMap, insMap);
      InDom(listing.entryAddr, regions, h);
      ghost var G := regions;
      CountedKey(key, G, h, key(region));
      TaughtNone(G.cfgInRegions, h, region);
      for i := 0 to |region|
        invariant Taught(G.cfgInRegions, h, region, i, regions.cfgInRegions)
          && Dom(listing.entryAddr, regions.cfgInRegions)
        invariant regions.bbRegions == G.bbRegions && regions.bbRegionCounts == G.bbRegionCounts
          && regions.compiled == G.compiled && listing == old(listing)
      {
        ReadOnlyIn(code, listing, links, counts, G, bbMap, insMap, region[i]);
        InDomOf(listing.entryAddr, regions.cfgInRegions, region[i]);
        TaughtOne(G.cfgInRegions, h, region, i, regions.cfgInRegions);
        DomPut(listing.entryAddr, regions.cfgInRegions, region[i], 0, regions.cfgInRegions[region[i]] + {h});
        regions := regions.(cfgInRegions := AddTo(regions.cfgInRegions, region[i], h));
      }
      TaughtOk(code, listing, links, counts, G, bbMap, insMap, h, region, regions);
      var crc := key(region);
      var seen := regions.bbRegionCounts[h];
      ghost var H := regions;
      if crc !in seen {
        RecordOk(code, listing, links, counts, regions, bbMap, insMap, h, region);
        regions := regions.(bbRegions := regions.bbRegions[h := regions.bbRegions[h] + [region]]);
        CountsFree(code, listing, links, counts, regions, bbMap, insMap, regions.bbRegionCounts[h := seen[crc := 1]]);
        regions := regions.(bbRegionCounts := regions.bbRegionCounts[h := seen[crc := 1]]);
      } else {
        CountsFree(code, listing, links, counts, regions, bbMap, insMap,
          regions.bbRegionCounts[h := seen[crc := seen[crc] + 1]]);
        regions := regions.(bbRegionCounts := regions.bbRegionCounts[h := seen[crc := seen[crc] + 1]]);
      }
      KeysAdded(key, G, h, region, regions);
    }

    /** enoughRegions: some recorded trace has been seen often enough. */
    method EnoughRegions(h: Block) returns (enough: bool)
      requires Valid() && h in listing.entryAddr
      ensures h in regions.bbRegionCounts
      ensures enough <==> exists k :: k in regions.bbRegionCounts[h] && regions.bbRegionCounts[h][k] >= enoughRegions
    {
      hide StoreOk, Dom, Inside, Unique, Edge, HasKey, KeysDistinct;
      StoreInside(code, listing, links, counts, regions, bbMap, insMap);
      InDom(listing.entryAddr, regions, h);
      var tcs := regions.bbRegionCounts[h];
      var todo := tcs.Keys;
      while todo != {}
        invariant todo <= tcs.Keys && forall k :: k in tcs && k !in todo ==> tcs[k] < enoughRegions
        decreases todo
      {
        var k;
        k, todo := Next(todo);
        if tcs[k] >= enoughRegions {
          return true;
        }
      }
      return false;
    }

    /** canCompileRegion. Blocks without a transfer of control fall into the next block of the walk, so that test never
        fails. */
    method CanCompileRegion(ghost h: Block, region: seq<Block>) returns (ok: bool)
      requires Valid() && ClosedWalk(links.succs, h, region) && forall x :: x in region ==> x in listing.readOnly
      ensures ok <==> forall x :: x in region ==> Accepted(Code(listing.vecIns, x))
    {
      hide StoreOk, KeysOk, Accepted, ClosedWalk, Transfers;
      for bIdx := 0 to |region|
        invariant forall i :: 0 <= i < bIdx ==> Accepted(Code(listing.vecIns, region[i]))
      {
        var b := region[bIdx];
        var nB := if bIdx == |region| - 1 then region[0] else region[bIdx + 1];
        FallsInto(code, listing, links, counts, regions, bbMap, insMap, h, region, bIdx);
        var accepted, gotBrOrJmp := ScanBlock(Code(listing.vecIns, b));
        if !accepted {
          assert b in region;
          return false;
        }
        if !gotBrOrJmp && Wrap(listing.termAddr[b] + 4) != listing.entryAddr[nB] {
          return false;
        }
      }
      forall x | x in region
        ensures Accepted(Code(listing.vecIns, x))
      {
        var i :| 0 <= i < |region| && region[i] == x;
      }
      return true;
    }

    function Uncompiled(h: Block): bool
      reads this
    {
      h !in regions.compiled || regions.compiled[h] == {}
    }

    /** buildCFG for the recorded traces of h has succeeded: their blocks are those that know of the region, and the
        traces are cleared. */
    method Compile(h: Block)
      requires Valid() && h in listing.entryAddr
      modifies this`regions
      ensures Valid() && regions.bbRegions == old(regions).bbRegions[h := []]
      ensures regions.bbRegionCounts == old(regions).bbRegionCounts[h := map[]]
      ensures regions.cfgInRegions == old(regions).cfgInRegions && h in regions.compiled
      ensures regions.compiled == old(regions).compiled[h := regions.compiled[h]]
      ensures regions.compiled[h] == Union(TracesOf(old(regions), h))
    {
      hide StoreOk, Dom, Inside, Unique, KeysOk, Edge, Union;
      StoreInside(code, listing, links, counts, regions, bbMap, insMap);
      InDom(listing.entryAddr, regions, h);
      var blocks := CollectBlocks(regions.bbRegions[h]);
      BlocksOf(regions.bbRegions, h, blocks);
      CompileOk(code, listing, links, counts, regions, bbMap, insMap, h, blocks);
      ghost var G := regions;
      regions := regions.(compiled := regions.compiled[h := blocks], bbRegions := regions.bbRegions[h := []]);
      CountsFree(code, listing, links, counts, regions, bbMap, insMap, regions.bbRegionCounts[h := map[]]);
      regions := regions.(bbRegionCounts := regions.bbRegionCounts[h := map[]]);
      KeysCleared(key, G, h, regions);
    }

    /** The region of h is not used any more; clear says that its traces are dropped too. */
    method DropCompiled(h: Block, clear: bool)
      requires Valid() && h in listing.entryAddr
      modifies this`regions
      ensures Valid() && regions.compiled == old(regions).compiled[h := {}]
      ensures regions.cfgInRegions == old(regions).cfgInRegions
      ensures regions.bbRegions == if clear then old(regions).bbRegions[h := []] else old(regions).bbRegions
      ensures regions.bbRegionCounts == if clear then old(regions).bbRegionCounts[h := map[]]
        else old(regions).bbRegionCounts
    {
      hide StoreOk, KeysOk;
      ghost var G := regions;
      KeysSame(key, G, G.(compiled := G.compiled[h := {}]));
      RegionDropped(code, listing, links, counts, regions, bbMap, insMap, h);
      regions := regions.(compiled := regions.compiled[h := {}]);
      if clear {
        RegionCleared(code, listing, links, counts, regions, bbMap, insMap, h);
        regions := regions.(bbRegions := regions.bbRegions[h := []]);
        CountsFree(code, listing, links, counts, regions, bbMap, insMap, regions.bbRegionCounts[h := map[]]);
        regions := regions.(bbRegionCounts := regions.bbRegionCounts[h := map[]]);
        KeysCleared(key, G, h, regions);
      }
    }

    /** setReadOnly: the first time, the flags are computed and what was recorded or compiled for b is forgotten. */
    method SetReadOnly(b: Block)
      modifies this`listing, this`regions
      ensures b in old(listing).readOnly ==> listing == old(listing) && regions == old(regions)
      ensures b !in old(listing).readOnly ==>
        listing == Sealed(old(listing), b) && regions == Forgotten(old(regions), b)
    {
      hide InsnFlags;
      if b !in listing.readOnly {
        var v := Code(listing.vecIns, b);
        var f := FlagsAt(listing.flags, b);
        for i := 0 to |v|
          modifies {}
          invariant f == OrFlags(FlagsAt(listing.flags, b), FlagsOf(v[..i]))
        {
          assert v[..i + 1][..i] == v[..i];
          f := OrFlags(f, InsnFlags(v[i].0));
        }
        assert v[..|v|] == v;
        listing := listing.(readOnly := listing.readOnly + {b}, flags := listing.flags[b := f]);
        regions := Forgotten(regions, b);
      }
    }

    /** dropCompiledCode: the traces and the compiled code of every region that contains b, and the traces with head
        b. */
    method DropCompiledCode(b: Block)
      requires b in regions.bbRegions && b in regions.cfgInRegions && regions.cfgInRegions[b] <= regions.bbRegions.Keys
      requires regions.cfgInRegions[b] <= regions.compiled.Keys
      requires KeysOk(key, regions)
      modifies this`regions
      ensures KeysOk(key, regions)
      ensures Dropped(b, old(regions).cfgInRegions, old(regions).bbRegions, old(regions).compiled, regions.bbRegions,
        regions.compiled)
      ensures regions.cfgInRegions == old(regions).cfgInRegions
      ensures regions.bbRegions.Keys == old(regions).bbRegions.Keys
      ensures regions.compiled.Keys == old(regions).compiled.Keys
    {
      hide KeysOk, Records, Edge, Forgotten;
      ghost var G := regions;
      SuccsAre(G.cfgInRegions, b);
      regions := regions.(bbRegions := regions.bbRegions[b := []],
                          bbRegionCounts := regions.bbRegionCounts[b := map[]]);
      TracesCleared(G.bbRegions, b, regions.bbRegions);
      KeysCleared(key, G, b, regions);
      var todo := regions.cfgInRegions[b];
      while todo != {}
        invariant regions.cfgInRegions == old(regions).cfgInRegions && todo <= regions.cfgInRegions[b]
          && KeysOk(key, regions)
        invariant regions.bbRegions.Keys == old(regions).bbRegions.Keys
          && regions.compiled.Keys == old(regions).compiled.Keys
        invariant forall h, t :: Records(regions.bbRegions, h, t) <==>
          Records(old(regions).bbRegions, h, t) && h != b && !(h in regions.cfgInRegions[b] && h !in todo)
        invariant forall h, x :: Edge(regions.compiled, h, x) <==>
          Edge(old(regions).compiled, h, x) && !(h in regions.cfgInRegions[b] && h !in todo)
        decreases todo
      {
        var nukeBB, rest := Next(todo);
        KeysForgotten(key, regions, nukeBB);
        ForgottenEffect(regions, nukeBB);
        regions := Forgotten(regions, nukeBB);
        todo := rest;
      }
    }

    /** The successors of b become those of n, and n becomes the only successor of b. */
    method Relink(b: Block, n: Block)
      requires Valid() && b in listing.entryAddr && n in listing.entryAddr && b != n
      requires forall u :: !Edge(links.preds, n, u) && !Edge(links.succs, n, u)
      modifies this`links
      ensures SplitSuccs(old(links).succs, b, n, links.succs) && SplitPreds(old(links).preds, b, n, links.preds)
      ensures SplitFinds(old(links).succsMap, b, n, Entry(listing.entryAddr, n), links.succsMap)
      ensures Dom(listing.entryAddr, links.succs) && Dom(listing.entryAddr, links.preds)
      ensures Dom(listing.entryAddr, links.succsMap)
    {
      hide StoreOk, Moving, MoveOne, Relinked, Edge, Dom, Finds, Inside, Unique, Entry;
      ghost var entry, E := listing.entryAddr, links;
      StoreInside(code, listing, links, counts, regions, bbMap, insMap);
      StoreEdges(code, listing, links, counts, regions, bbMap, insMap);
      InsideAt(listing, links, b);
      InsideAt(listing, links, n);
      var nbrs := links.succs[b];
      SuccsAre(links.succs, b);
      MovingStart(E, entry, b, n);
      ghost var done: set<Block> := {};
      var todo := nbrs;
      while todo != {}
        invariant todo <= nbrs && done == nbrs - todo
        invariant Moving(E, entry, b, n, done, links)
        decreases todo
      {
        var s, rest := Next(todo);
        assert Edge(E.succs, b, s);
        MovingDoms(E, entry, b, n, done, links, s);
        MovingStep(E, entry, b, n, done, links, s);
        EntryIs(entry, s);
        links := MoveOne(links, b, n, s, listing.entryAddr[s]);
        todo := rest;
        done := done + {s};
      }
      assert done == nbrs;
      MovingDoms(E, entry, b, n, done, links, n);
      MovedAll(E, entry, b, n, done, links, links.preds);
      EntryIs(entry, n);
      links := Relinked(links, b, n, listing.entryAddr[n]);
    }

    /** The instructions of b from position offs on move to n. */
    method Divide(b: Block, n: Block, offs: nat)
      requires b in listing.entryAddr && b in listing.vecIns && n in listing.vecIns && b != n
      requires Code(listing.vecIns, n) == []
      requires Laid(code, listing.entryAddr[b], Code(listing.vecIns, b)) && offs <= |Code(listing.vecIns, b)|
      modifies this`listing, this`insMap
      ensures var v := Code(old(listing).vecIns, b);
              && listing == old(listing).(vecIns := old(listing).vecIns[n := v[offs..]][b := v[..offs]])
              && SplitIndex(old(insMap), n, v[offs..], insMap)
    {
      hide Contains, Normal, Transfers;
      var v := Code(listing.vecIns, b);
      ghost var ins0 := listing.vecIns;
      NothingIn();
      assert v[offs..offs] == [] && ins0[n] == [];
      assert ins0[n := []] == ins0;
      for i := offs to |v|
        invariant listing == old(listing).(vecIns := ins0[n := v[offs..i]])
          && SplitIndex(old(insMap), n, v[offs..i], insMap)
      {
        var addr := Wrap(listing.entryAddr[b] + 4 * i);
        ContainsMore(v[offs..i], v[i].0, addr);
        assert v[i].1 == AddrOf(listing.entryAddr[b], i);
        assert v[offs..i + 1] == v[offs..i] + [v[i]];
        insMap := insMap[addr := n];
        listing := listing.(vecIns := listing.vecIns[n := listing.vecIns[n] + [v[i]]]);
      }
      assert v[offs..|v|] == v[offs..];
      listing := listing.(vecIns := listing.vecIns[b := v[..offs]]);
    }

    /** Collecting stops, and everything recorded or compiled with b in it is dropped. */
    method Forget(b: Block)
      requires Valid() && b in listing.entryAddr
      modifies this`regions, finder
      ensures Valid() && !finder.enHistCollection && Without(b, regions.bbRegions, regions.compiled)
      ensures Dropped(b, old(regions).cfgInRegions, old(regions).bbRegions, old(regions).compiled, regions.bbRegions,
        regions.compiled)
      ensures regions.cfgInRegions == old(regions).cfgInRegions
      ensures finder.log == old(finder.log) + Stopped(old(listing).entryAddr, old(finder.enHistCollection),
        old(finder.currRegionHead))
    {
      hide StoreOk, Dropped, Without, Entry;
      ghost var G := regions;
      DropReady(code, listing, links, counts, regions, bbMap, insMap, b);
      finder.DisableRegionCollection(HeadAddr(listing.entryAddr, finder.currRegionHead));
      DropCompiledCode(b);
      DropOk(code, listing, links, counts, G, bbMap, insMap, b, regions);
    }

    /** The new block n for the address a, with the successors of b, and b with n as its only one. */
    method SplitLinks(b: Block, a: int, n: Block)
      requires Valid() && b in listing.entryAddr && n !in listing.entryAddr && a !in bbMap && 0 <= a < WORD
      modifies this
      ensures listing == NewListing(old(listing), n, a) && counts == NewCounts(old(counts), n)
      ensures regions == NewRegions(old(regions), n)
      ensures bbMap == old(bbMap)[a := n] && insMap == old(insMap)
      ensures SplitSuccs(old(links).succs, b, n, links.succs) && SplitPreds(old(links).preds, b, n, links.preds)
      ensures SplitFinds(old(links).succsMap, b, n, a, links.succsMap)
      ensures Dom(listing.entryAddr, links.succs) && Dom(listing.entryAddr, links.preds)
      ensures Dom(listing.entryAddr, links.succsMap)
    {
      hide StoreOk, SplitSuccs, SplitPreds, SplitFinds, Inside, Unique, Edge, Dom, Entry;
      StoreInside(code, listing, links, counts, regions, bbMap, insMap);
      FreshLinks(listing, links, n);
      NewEntry(listing, n, a);
      NewBlock(n, a);
      Relink(b, n);
      FromNew(old(links), b, n, a, links);
    }

    /** The terminal addresses, the execution counts and the flags of the two halves. */
    method SealHalves(b: Block, a: int, n: Block)
      requires b != n && b in listing.termAddr && b in counts.edgeCnts && b in counts.totalEdges
      requires counts.totalEdges[b] >= 0
      requires b !in listing.readOnly - {b} && n !in listing.readOnly
      modifies this`listing, this`counts, this`regions
      ensures listing.entryAddr == old(listing).entryAddr && listing.vecIns == old(listing).vecIns
      ensures listing.termAddr == old(listing).termAddr[n := old(listing).termAddr[b]][b := Wrap(a - 4)]
      ensures listing.readOnly == old(listing).readOnly - {b} + {b} + {n}
      ensures FlagsAt(old(listing).flags, n) == NOFLAGS ==>
        listing.flags ==
          old(listing).flags[b := FlagsOf(Code(listing.vecIns, b))][n := FlagsOf(Code(listing.vecIns, n))]
      ensures counts ==
        Counts(old(counts).edgeCnts[n := old(counts).edgeCnts[b]][b := multiset{}[a := old(counts).totalEdges[b]]],
               old(counts).totalEdges[n := old(counts).totalEdges[b]])
      ensures regions == Forgotten(Forgotten(old(regions), b), n)
    {
      hide FlagsOf, Code, Forgotten, Wrap;
      ghost var f0 := listing.flags;
      counts := Counts(counts.edgeCnts[n := counts.edgeCnts[b]][b := multiset{}[a := counts.totalEdges[b]]],
        counts.totalEdges[n := counts.totalEdges[b]]);
      listing := listing.(termAddr := listing.termAddr[n := listing.termAddr[b]][b := Wrap(a - 4)],
                          readOnly := listing.readOnly - {b}, flags := listing.flags[b := NOFLAGS]);
      SetReadOnly(b);
      SetReadOnly(n);
      ghost var f := FlagsOf(Code(listing.vecIns, b));
      assert f0[b := NOFLAGS][b := f] == f0[b := f];
    }

    /** The fields of the two halves, offs being the position of a in b. */
    method Halve(b: Block, a: int, n: Block, offs: nat)
      requires Valid() && b in listing.entryAddr && n !in listing.entryAddr && a !in bbMap && 0 <= a < WORD
      requires b in listing.vecIns && b in listing.termAddr && n !in listing.readOnly
      requires FlagsAt(listing.flags, n) == NOFLAGS
      requires b != n
      requires b in counts.edgeCnts && b in counts.totalEdges && counts.totalEdges[b] >= 0
      requires Laid(code, listing.entryAddr[b], Code(listing.vecIns, b)) && offs <= |Code(listing.vecIns, b)|
      modifies this
      ensures listing == SplitListing(old(listing), b, n, a, offs)
      ensures counts == SplitCounts(old(counts), b, n, a)
      ensures regions == Forgotten(Forgotten(NewRegions(old(regions), n), b), n) && bbMap == old(bbMap)[a := n]
      ensures SplitSuccs(old(links).succs, b, n, links.succs) && SplitPreds(old(links).preds, b, n, links.preds)
      ensures SplitFinds(old(links).succsMap, b, n, a, links.succsMap)
      ensures Dom(old(listing).entryAddr[n := a], links.succs) && Dom(old(listing).entryAddr[n := a], links.preds)
      ensures Dom(old(listing).entryAddr[n := a], links.succsMap)
      ensures SplitIndex(old(insMap), n, Code(old(listing).vecIns, b)[offs..], insMap)
    {
      hide StoreOk, SplitSuccs, SplitPreds, SplitFinds, SplitIndex, Edge, Dom, FlagsOf, Laid, SplitListing,
           SplitCounts, Entry, Forgotten, NewRegions, Wrap, Code;
      ghost var L, C := listing, counts;
      SplitLinks(b, a, n);
      NewCode(L, n, a, b);
      Divide(b, n, offs);
      HalfCode(L.vecIns, b, n, offs);
      SealHalves(b, a, n);
      ListingIs(L, b, n, a, offs, listing);
      CountsIs(C, b, n, a, counts);
    }

    /** split: b ends before the address a, and the new block n, made for the rest, takes over its edges. Collecting
        stops, and every trace and compiled region with b in it is forgotten. */
    method Split(b: Block, a: int, n: Block)
      requires Valid() && b in listing.entryAddr && n !in listing.entryAddr && a !in bbMap
      requires Contains(Code(listing.vecIns, b), a)
      requires b in listing.readOnly || EndsInTransfer(Code(listing.vecIns, b))
      modifies this, finder
      ensures Valid() && !finder.enHistCollection
      ensures SplitAt(old(listing), old(links), old(counts), b, a, n, listing, links, counts)
      ensures bbMap == old(bbMap)[a := n] && Without(b, regions.bbRegions, regions.compiled)
      ensures Dropped(b, old(regions).cfgInRegions, old(regions).bbRegions, old(regions).compiled, regions.bbRegions,
        regions.compiled)
      ensures regions.cfgInRegions == old(regions).cfgInRegions[n := {}] && insMap.Keys == old(insMap).Keys
      ensures finder.log == old(finder.log) + Stopped(old(listing).entryAddr, old(finder.enHistCollection),
        old(finder.currRegionHead))
    {
      hide StoreOk, Dropped, Without, SplitSuccs, SplitPreds, SplitFinds, SplitIndex, Inside, Unique, Edge, Dom,
           Contains, EndsInTransfer, FlagsOf, AddrOf, Laid,
           SplitListing, SplitCounts, Entry, Forgotten, NewRegions, KeysOk;
      ghost var L, E, C := listing, links, counts;
      ghost var i := OffsetIn(code, L, E, C, regions, bbMap, insMap, b, a);
      SplitReady(code, L, E, C, regions, bbMap, insMap, b, n);
      var offs := Wrap(a - listing.entryAddr[b]) / 4;
      Forget(b);
      ghost var H := regions;
      Halve(b, a, n, offs);
      SplitDone(code, L, E, C, H, old(bbMap), old(insMap), b, n, i, a, links, insMap);
      SplitKeys(code, L, E, C, H, old(bbMap), old(insMap), b, n, i, insMap);
      StillWithout(H, b, n);
      StillDropped(code, L, E, C, old(regions), old(bbMap), old(insMap), b, n, H);
      KeysNew(key, H, n);
      KeysForgotten(key, NewRegions(H, n), b);
      KeysForgotten(key, Forgotten(NewRegions(H, n), b), n);
    }
  }

  /** No block is still growing. */
  ghost predicate AllEnded(L: Listing) {
    forall x :: x in L.entryAddr ==> x in L.readOnly || EndsInTransfer(Code(L.vecIns, x))
  }

  /** What blocks keep while others are added and split: they stay, with their addresses, and those that are finished do
      not get longer. */
  ghost predicate Grown(L: Listing, bbMap: map<int, Block>, L': Listing, bbMap': map<int, Block>) {
    && EntriesKept(L.entryAddr, L'.entryAddr)
    && (forall x :: x in L.readOnly ==> x in L'.readOnly && |Code(L'.vecIns, x)| <= |Code(L.vecIns, x)|)
    && (forall a :: a in bbMap ==> a in bbMap' && bbMap'[a] == bbMap[a])
  }

  ghost predicate MoreEdges(E: Links, E': Links) {
    forall u, v :: Edge(E.succs, u, v) ==> Edge(E'.succs, u, v)
  }

  lemma SplitReady(code: int -> int, L: Listing, E: Links, C: Counts, G: Regions, bbMap: map<int, Block>,
                   insMap: map<int, Block>, b: Block, n: Block)
    requires StoreOk(code, L, E, C, G, bbMap, insMap) && b in L.entryAddr && n !in L.entryAddr
    ensures b in G.bbRegions && b in G.cfgInRegions && G.cfgInRegions[b] <= G.bbRegions.Keys
    ensures G.cfgInRegions[b] <= G.compiled.Keys
    ensures b in C.edgeCnts && b in C.totalEdges && C.totalEdges[b] >= 0
    ensures b in L.vecIns && b in L.termAddr && b != n && n !in L.readOnly
    ensures FlagsAt(L.flags, n) == NOFLAGS
  {
    hide StoreOk;
    StoreInside(code, L, E, C, G, bbMap, insMap);
    DropReady(code, L, E, C, G, bbMap, insMap, b);
    CountsReady(code, L, E, C, G, bbMap, insMap, b);
    InsideAt(L, E, b);
    StoreFlags(code, L, E, C, G, bbMap, insMap);
  }

  lemma StoreFlags(code: int -> int, L: Listing, E: Links, C: Counts, G: Regions, bbMap: map<int, Block>,
                   insMap: map<int, Block>)
    requires StoreOk(code, L, E, C, G, bbMap, insMap)
    ensures forall b :: b !in L.readOnly ==> FlagsAt(L.flags, b) == NOFLAGS
  {
    hide CodeOk, EdgesOk, FlowOk, IndexOk, CountsOk, RegionsOk;
  }

  lemma NewEntry(L: Listing, n: Block, a: int)
    ensures Entry(NewListing(L, n, a).entryAddr, n) == a
  {
  }

  lemma NewCode(L: Listing, n: Block, a: int, b: Block)
    requires b != n && b in L.entryAddr && b in L.vecIns
    ensures Code(NewListing(L, n, a).vecIns, n) == [] && Code(NewListing(L, n, a).vecIns, b) == Code(L.vecIns, b)
    ensures b in NewListing(L, n, a).entryAddr && NewListing(L, n, a).entryAddr[b] == L.entryAddr[b]
    ensures b in NewListing(L, n, a).vecIns && n in NewListing(L, n, a).vecIns
  {
  }

  lemma HalfCode(ins: map<Block, Insns>, b: Block, n: Block, i: nat)
    requires b != n && i <= |Code(ins, b)|
    ensures var m := ins[n := []][n := Code(ins, b)[i..]][b := Code(ins, b)[..i]];
            Code(m, b) == Code(ins, b)[..i] && Code(m, n) == Code(ins, b)[i..]
  {
  }

  /** b has been split at address a: n holds the instructions from there on and has b's successors, b has n. */
  ghost predicate SplitAt(L: Listing, E: Links, C: Counts, b: Block, a: int, n: Block, L': Listing, E': Links,
                          C': Counts) {
    && b in L.termAddr && b in C.edgeCnts && b in C.totalEdges && C.totalEdges[b] >= 0
    && SplitSuccs(E.succs, b, n, E'.succs) && C' == SplitCounts(C, b, n, a)
    && exists i: nat ::
       0 < i < |Code(L.vecIns, b)| && a == AddrOf(Entry(L.entryAddr, b), i) && L' == SplitListing(L, b, n, a, i)
  }

  /** insMap knows no more addresses after a split. */
  lemma SplitKeys(code: int -> int, L: Listing, E: Links, C: Counts, G: Regions, bbMap: map<int, Block>,
                  insMap: map<int, Block>, b: Block, n: Block, i: nat, insMap': map<int, Block>)
    requires StoreOk(code, L, E, C, G, bbMap, insMap) && b in L.entryAddr && i < |Code(L.vecIns, b)|
    requires SplitIndex(insMap, n, Code(L.vecIns, b)[i..], insMap')
    ensures insMap'.Keys == insMap.Keys
  {
    hide CodeOk, EdgesOk, FlowOk, CountsOk, FlagsOk, RegionsOk, SolidOk, Code;
    var v := Code(L.vecIns, b);
    forall k
      ensures k in insMap' <==> k in insMap
    {
      if Contains(v[i..], k) {
        var j :| 0 <= j < |v[i..]| && v[i..][j].1 == k;
        assert v[i + j].1 == k;
        assert Contains(v, k);
      }
    }
  }

  /** The offset that split computes. */
  lemma OffsetIn(code: int -> int, L: Listing, E: Links, C: Counts, G: Regions, bbMap: map<int, Block>,
                 insMap: map<int, Block>, b: Block, a: int)
    returns (i: nat)
    requires StoreOk(code, L, E, C, G, bbMap, insMap) && b in L.entryAddr && a !in bbMap
    requires Contains(Code(L.vecIns, b), a)
    requires b in L.readOnly || EndsInTransfer(Code(L.vecIns, b))
    ensures 0 < i < |Code(L.vecIns, b)| && i == Wrap(a - L.entryAddr[b]) / 4 && a == AddrOf(Entry(L.entryAddr, b), i)
    ensures 0 <= a < WORD
    ensures Laid(code, L.entryAddr[b], Code(L.vecIns, b))
  {
    hide EdgesOk, FlowOk, CountsOk, FlagsOk, RegionsOk, SolidOk, EndsInTransfer, CodeOk, Laid, AddrOf, Wrap, Code;
    SizedAt(code, L.entryAddr, L.vecIns, L.termAddr, L.readOnly, b);
    i := LaidAt(code, L.entryAddr[b], Code(L.vecIns, b), a);
    OffsetOf(L.entryAddr[b], i);
    assert Entry(L.entryAddr, b) in bbMap;
  }

  lemma LaidAt(code: int -> int, e: int, v: Insns, a: int) returns (i: nat)
    requires Laid(code, e, v) && Contains(v, a)
    ensures i < |v| && a == AddrOf(e, i) && 0 <= a < WORD && (i == 0 ==> a == e) && 0 <= e < WORD
  {
    hide Normal, Transfers;
    i :| 0 <= i < |v| && v[i].1 == a;
  }

  lemma FromNew(E: Links, b: Block, n: Block, a: int, E': Links)
    requires n !in E.succs && n !in E.preds && n !in E.succsMap
    requires SplitSuccs(NewLinks(E, n).succs, b, n, E'.succs) && SplitPreds(NewLinks(E, n).preds, b, n, E'.preds)
    requires SplitFinds(NewLinks(E, n).succsMap, b, n, a, E'.succsMap)
    ensures SplitSuccs(E.succs, b, n, E'.succs) && SplitPreds(E.preds, b, n, E'.preds)
    ensures SplitFinds(E.succsMap, b, n, a, E'.succsMap)
  {
    NoEdgesYet(E.succs, n);
    NoEdgesYet(E.preds, n);
    NoFindsYet(E.succsMap, n);
    hide Edge, Finds;
  }

  lemma FreshLinks(L: Listing, E: Links, n: Block)
    requires Inside(L, E) && n !in L.entryAddr
    ensures n !in E.succs && n !in E.preds && n !in E.succsMap && n !in L.vecIns && n !in L.termAddr
    ensures forall u :: !Edge(NewLinks(E, n).preds, n, u) && !Edge(NewLinks(E, n).succs, n, u)
  {
  }

  lemma ListingIs(L: Listing, b: Block, n: Block, a: int, i: nat, M: Listing)
    requires i <= |Code(L.vecIns, b)| && b in L.termAddr && b != n
    requires var v := Code(L.vecIns, b);
             && M.entryAddr == L.entryAddr[n := a] && M.vecIns == L.vecIns[n := []][n := v[i..]][b := v[..i]]
             && M.termAddr == L.termAddr[n := 0][n := L.termAddr[b]][b := Wrap(a - 4)]
                && M.readOnly == L.readOnly - {b} + {b} + {n}
             && M.flags == L.flags[b := FlagsOf(v[..i])][n := FlagsOf(v[i..])]
    ensures M == SplitListing(L, b, n, a, i)
  {
    var v := Code(L.vecIns, b);
    assert L.vecIns[n := []][n := v[i..]] == L.vecIns[n := v[i..]];
    assert L.termAddr[n := 0][n := L.termAddr[b]] == L.termAddr[n := L.termAddr[b]];
    assert L.readOnly - {b} + {b} + {n} == L.readOnly + {b, n};
  }

  lemma CountsIs(C: Counts, b: Block, n: Block, a: int, D: Counts)
    requires b in C.edgeCnts && b in C.totalEdges && C.totalEdges[b] >= 0 && b != n
    requires D.edgeCnts == C.edgeCnts[n := multiset{}][n := C.edgeCnts[b]][b := multiset{}[a := C.totalEdges[b]]]
    requires D.totalEdges == C.totalEdges[n := 0][n := C.totalEdges[b]]
    ensures D == SplitCounts(C, b, n, a)
  {
    assert C.edgeCnts[n := multiset{}][n := C.edgeCnts[b]] == C.edgeCnts[n := C.edgeCnts[b]];
    assert C.totalEdges[n := 0][n := C.totalEdges[b]] == C.totalEdges[n := C.totalEdges[b]];
  }

  ghost function SplitCounts(C: Counts, b: Block, n: Block, a: int): Counts
    requires b in C.edgeCnts && b in C.totalEdges && C.totalEdges[b] >= 0
  {
    Counts(C.edgeCnts[n := C.edgeCnts[b]][b := multiset{}[a := C.totalEdges[b]]], C.totalEdges[n := C.totalEdges[b]])
  }

  ghost predicate CountsHalved(C: Counts, b: Block, n: Block, a: int, D: Counts) {
    b in C.edgeCnts && b in C.totalEdges && C.totalEdges[b] >= 0 && D == SplitCounts(C, b, n, a)
  }

  /** No execution has been counted: at most a new block n has come with no counts, or with those of a block that was
      split, all whose executions have gone on to n. */
  ghost predicate CountsMoved(C: Counts, n: Block, D: Counts) {
    D == C || D == NewCounts(C, n) || exists b, a :: CountsHalved(C, b, n, a, D)
  }

  lemma CountsMovedBy(L: Listing, E: Links, C: Counts, b: Block, a: int, n: Block, L': Listing, E': Links, D: Counts)
    ensures SplitAt(L, E, C, b, a, n, L', E', D) ==> CountsMoved(C, n, D)
    ensures CountsMoved(C, n, C) && CountsMoved(C, n, NewCounts(C, n))
  {
    hide SplitSuccs, SplitCounts;
    if SplitAt(L, E, C, b, a, n, L', E', D) {
      assert CountsHalved(C, b, n, a, D);
    }
  }

  lemma CountsMovedLess(C: Counts, n: Block)
    ensures CountsMoved(C, n, C) && CountsMoved(C, n, NewCounts(C, n))
  {
  }

  lemma CountsSplit(entry: map<Block, int>, C: Counts, b: Block, n: Block, a: int)
    requires CountsOk(entry, C.edgeCnts, C.totalEdges) && b in entry
    ensures b in C.edgeCnts && b in C.totalEdges && C.totalEdges[b] >= 0
    ensures CountsOk(entry[n := a], SplitCounts(C, b, n, a).edgeCnts, SplitCounts(C, b, n, a).totalEdges)
  {
    var k := C.totalEdges[b];
    assert |C.edgeCnts[b]| == k;
    assert |multiset{}[a := k]| == k;
  }

  lemma FlagsSplit(ins: map<Block, Insns>, readOnly: set<Block>, flags: map<Block, Flags>, b: Block, n: Block, v: Insns,
                   w: Insns)
    requires FlagsOk(ins, readOnly, flags) && b != n
    ensures FlagsOk(ins[n := w][b := v], readOnly + {b, n}, flags[b := FlagsOf(v)][n := FlagsOf(w)])
  {
    hide FlagsOf, FlagsOk;
    FlagsGiven(ins, readOnly, flags, n, w);
    FlagsGiven(ins[n := w], readOnly + {n}, flags[n := FlagsOf(w)], b, v);
    assert flags[n := FlagsOf(w)][b := FlagsOf(v)] == flags[b := FlagsOf(v)][n := FlagsOf(w)];
    assert readOnly + {n} + {b} == readOnly + {b, n};
  }

  lemma FlagsGiven(ins: map<Block, Insns>, readOnly: set<Block>, flags: map<Block, Flags>, b: Block, v: Insns)
    requires FlagsOk(ins, readOnly, flags)
    ensures FlagsOk(ins[b := v], readOnly + {b}, flags[b := FlagsOf(v)])
  {
    CodePut(ins, b, v);
    FlagsPut(flags, b, FlagsOf(v));
    hide FlagsOf, Code, FlagsAt;
    forall x | x in readOnly + {b}
      ensures FlagsAt(flags[b := FlagsOf(v)], x) == FlagsOf(Code(ins[b := v], x))
    {
      if x == b {
        assert FlagsAt(flags[b := FlagsOf(v)], x) == FlagsOf(v) && Code(ins[b := v], x) == v;
      } else {
        assert x in readOnly && FlagsAt(flags, x) == FlagsOf(Code(ins, x));
        assert FlagsAt(flags[b := FlagsOf(v)], x) == FlagsAt(flags, x) && Code(ins[b := v], x) == Code(ins, x);
      }
    }
  }

  lemma FlagsPut(flags: map<Block, Flags>, b: Block, f: Flags)
    ensures forall x :: FlagsAt(flags[b := f], x) == if x == b then f else FlagsAt(flags, x)
  {
    forall x
      ensures FlagsAt(flags[b := f], x) == if x == b then f else FlagsAt(flags, x)
    {
    }
  }

  /** The listing after the split of b at offset i. */
  ghost function SplitListing(L: Listing, b: Block, n: Block, a: int, i: nat): Listing
    requires i <= |Code(L.vecIns, b)| && b in L.termAddr
  {
    var v := Code(L.vecIns, b);
    Listing(L.entryAddr[n := a], L.vecIns[n := v[i..]][b := v[..i]], L.termAddr[n := L.termAddr[b]][b := Wrap(a - 4)],
            L.readOnly + {b, n}, L.flags[b := FlagsOf(v[..i])][n := FlagsOf(v[i..])])
  }

  lemma SplitListingIs(L: Listing, E: Links, b: Block, n: Block, a: int, i: nat)
    requires i <= |Code(L.vecIns, b)| && Inside(L, E) && b in L.entryAddr && n !in L.entryAddr && b in L.termAddr
    requires a == AddrOf(Entry(L.entryAddr, b), i)
    ensures var M := SplitListing(L, b, n, a, i);
            && SplitCode(L.entryAddr, L.vecIns, L.termAddr, b, n, i, M.entryAddr, M.vecIns, M.termAddr)
            && Dom(M.entryAddr, M.vecIns) && Dom(M.entryAddr, M.termAddr) && EntriesKept(L.entryAddr, M.entryAddr)
               && n in M.entryAddr && Entry(M.entryAddr, n) == a
  {
    hide AddrOf, Wrap, Dom, SplitCode, EntriesKept, Entry, Code;
    var v := Code(L.vecIns, b);
    DomPut(L.entryAddr, L.vecIns, n, a, v[i..]);
    DomPut(L.entryAddr, L.termAddr, n, a, L.termAddr[b]);
    DomPut(L.entryAddr[n := a], L.vecIns[n := v[i..]], b, 0, v[..i]);
    DomPut(L.entryAddr[n := a], L.termAddr[n := L.termAddr[b]], b, 0, Wrap(a - 4));
    EntriesPut(L.entryAddr, n, a);
    SplitCodeIs(L.entryAddr, L.vecIns, L.termAddr, b, n, i, a, Wrap(a - 4));
  }

  lemma SplitCodeIs(entry: map<Block, int>, ins: map<Block, Insns>, term: map<Block, int>, b: Block, n: Block, i: nat,
                    a: int, t: int)
    requires i <= |Code(ins, b)| && b != n && n !in entry && b in term && a == AddrOf(Entry(entry, b), i)
    requires t == Wrap(a - 4)
    ensures SplitCode(entry, ins, term, b, n, i, entry[n := a], ins[n := Code(ins, b)[i..]][b := Code(ins, b)[..i]],
      term[n := term[b]][b := t])
  {
    var v := Code(ins, b);
    var ins1, term1 := ins[n := v[i..]], term[n := term[b]];
    EntryPut(entry, n, a);
    EntryPut(term, n, term[b]);
    EntryPut(term1, b, t);
    CodePut(ins, n, v[i..]);
    CodePut(ins1, b, v[..i]);
    assert Entry(term, b) == term[b];
    hide Entry, Code, AddrOf, Wrap;
  }

  lemma SplitBlocks(code: int -> int, L: Listing, E: Links, C: Counts, G: Regions, bbMap: map<int, Block>,
                    insMap: map<int, Block>,
                    b: Block, n: Block, i: nat, a: int, E': Links, insMap': map<int, Block>)
    requires StoreOk(code, L, E, C, G, bbMap, insMap) && b in L.entryAddr && n !in L.entryAddr
    requires 0 < i < |Code(L.vecIns, b)|
    requires b in L.readOnly || EndsInTransfer(Code(L.vecIns, b))
    requires a == AddrOf(Entry(L.entryAddr, b), i) && a !in bbMap && b in L.termAddr
    requires SplitSuccs(E.succs, b, n, E'.succs) && SplitIndex(insMap, n, Code(L.vecIns, b)[i..], insMap')
    ensures var M := SplitListing(L, b, n, a, i);
            && CodeOk(code, M.entryAddr, M.vecIns, M.termAddr, M.readOnly)
               && FlowOk(M.entryAddr, M.vecIns, M.readOnly, E'.succs)
            && IndexOk(M.entryAddr, M.vecIns, bbMap[a := n], insMap')
  {
    var M := SplitListing(L, b, n, a, i);
    hide CodeOk, EdgesOk, FlowOk, IndexOk, CountsOk, FlagsOk, RegionsOk, SolidOk, SplitListing, SplitCode, Edge, Dom,
         Inside, Unique, SplitSuccs, SplitIndex, EndsInTransfer, FlagsOf, AddrOf, EntriesKept, Entry, Contains;
    StoreInside(code, L, E, C, G, bbMap, insMap);
    SplitListingIs(L, E, b, n, a, i);
    SizedAt(code, L.entryAddr, L.vecIns, L.termAddr, L.readOnly, b);
    SplitReadOnly(L, b, n, a, i);
    SplitKeepsCode(code, L.entryAddr, L.vecIns, L.termAddr, L.readOnly, b, n, i, M.entryAddr, M.vecIns, M.termAddr,
      M.readOnly);
    SplitKeepsFlow(code, L.entryAddr, L.vecIns, L.termAddr, L.readOnly, E.succs, b, n, i, M.entryAddr, M.vecIns,
      M.termAddr, E'.succs, M.readOnly);
    SplitKeepsIndex(L.entryAddr, L.vecIns, L.termAddr, bbMap, insMap, b, n, i, M.entryAddr, M.vecIns, M.termAddr,
      insMap');
  }

  /** The whole invariant after the split. */
  lemma SplitDone(code: int -> int, L: Listing, E: Links, C: Counts, G: Regions, bbMap: map<int, Block>,
                  insMap: map<int, Block>,
                  b: Block, n: Block, i: nat, a: int, E': Links, insMap': map<int, Block>)
    requires StoreOk(code, L, E, C, G, bbMap, insMap) && b in L.entryAddr && n !in L.entryAddr
    requires 0 < i < |Code(L.vecIns, b)|
    requires b in L.readOnly || EndsInTransfer(Code(L.vecIns, b))
    requires a == AddrOf(Entry(L.entryAddr, b), i) && a !in bbMap && Without(b, G.bbRegions, G.compiled)
    requires b in L.termAddr && b in C.edgeCnts && b in C.totalEdges && C.totalEdges[b] >= 0
    requires SplitSuccs(E.succs, b, n, E'.succs) && SplitPreds(E.preds, b, n, E'.preds)
    requires SplitFinds(E.succsMap, b, n, a, E'.succsMap)
    requires Dom(L.entryAddr[n := a], E'.succs) && Dom(L.entryAddr[n := a], E'.preds)
    requires Dom(L.entryAddr[n := a], E'.succsMap)
    requires SplitIndex(insMap, n, Code(L.vecIns, b)[i..], insMap')
    ensures StoreOk(code, SplitListing(L, b, n, a, i), E', SplitCounts(C, b, n, a),
      Forgotten(Forgotten(NewRegions(G, n), b), n), bbMap[a := n], insMap')
  {
    var M := SplitListing(L, b, n, a, i);
    hide CodeOk, EdgesOk, FlowOk, IndexOk, CountsOk, FlagsOk, RegionsOk, SolidOk, SplitListing, SplitCounts, Forgotten,
         NewRegions, SplitCode, Edge, Dom, Inside, Unique,
         SplitSuccs, SplitPreds, SplitFinds, SplitIndex, Without, EndsInTransfer, FlagsOf, AddrOf, EntriesKept, Entry,
         FlagsAt, Code, Contains;
    StoreInside(code, L, E, C, G, bbMap, insMap);
    SplitListingIs(L, E, b, n, a, i);
    SplitReadOnly(L, b, n, a, i);
    SplitBlocks(code, L, E, C, G, bbMap, insMap, b, n, i, a, E', insMap');
    SplitKeepsEdges(L.entryAddr, E.succs, E.preds, E.succsMap, b, n, a, M.entryAddr, E'.succs, E'.preds, E'.succsMap);
    CountsSplit(L.entryAddr, C, b, n, a);
    FlagsSplit(L.vecIns, L.readOnly, L.flags, b, n, Code(L.vecIns, b)[..i], Code(L.vecIns, b)[i..]);
    SplitRegions(L, E, G, b, n, a, E');
    SplitSolid(L, G, b, n);
  }

  lemma NewSolid(L: Listing, G: Regions, x: Block)
    requires SolidOk(L.readOnly, G.cfgInRegions) && Dom(L.entryAddr, G.cfgInRegions) && x !in L.entryAddr
    ensures SolidOk(L.readOnly, NewRegions(G, x).cfgInRegions)
  {
    NoEdgesYet(G.cfgInRegions, x);
    SolidMore(L.readOnly, G.cfgInRegions, L.readOnly, G.cfgInRegions[x := {}]);
  }

  lemma SplitSolid(L: Listing, G: Regions, b: Block, n: Block)
    requires SolidOk(L.readOnly, G.cfgInRegions) && Dom(L.entryAddr, G.cfgInRegions) && n !in L.entryAddr
    ensures SolidOk(L.readOnly + {b, n}, Forgotten(Forgotten(NewRegions(G, n), b), n).cfgInRegions)
  {
    NoEdgesYet(G.cfgInRegions, n);
    SolidMore(L.readOnly, G.cfgInRegions, L.readOnly + {b, n}, G.cfgInRegions[n := {}]);
  }

  lemma SplitReadOnly(L: Listing, b: Block, n: Block, a: int, i: nat)
    requires i <= |Code(L.vecIns, b)| && b in L.termAddr
    ensures var M := SplitListing(L, b, n, a, i);
            && M.readOnly == L.readOnly + {b, n} && M.entryAddr == L.entryAddr[n := a]
            && M.flags == L.flags[b := FlagsOf(Code(L.vecIns, b)[..i])][n := FlagsOf(Code(L.vecIns, b)[i..])]
            && M.vecIns == L.vecIns[n := Code(L.vecIns, b)[i..]][b := Code(L.vecIns, b)[..i]]
            && forall x :: x in M.readOnly <==> x in L.readOnly || x == b || x == n
  {
  }

  lemma SizedAt(code: int -> int, entry: map<Block, int>, ins: map<Block, Insns>, term: map<Block, int>,
                readOnly: set<Block>, b: Block)
    requires CodeOk(code, entry, ins, term, readOnly) && b in entry && (b in readOnly || EndsInTransfer(Code(ins, b)))
    ensures Sized(Entry(entry, b), Code(ins, b), Entry(term, b)) && Laid(code, Entry(entry, b), Code(ins, b))
  {
    hide Laid, Sized, EndsInTransfer;
    BlockOf(code, entry, ins, term, readOnly, b);
  }

  lemma SplitRegions(L: Listing, E: Links, G: Regions, b: Block, n: Block, a: int, E': Links)
    requires RegionsOk(L.entryAddr, E.succs, G.bbRegions, G.compiled, G.cfgInRegions)
    requires Without(b, G.bbRegions, G.compiled)
    requires b in L.entryAddr && n !in L.entryAddr && SplitSuccs(E.succs, b, n, E'.succs)
    requires forall u, v :: Edge(E.succs, u, v) ==> u in L.entryAddr && v in L.entryAddr
    ensures var H := Forgotten(Forgotten(NewRegions(G, n), b), n);
            RegionsOk(L.entryAddr[n := a], E'.succs, H.bbRegions, H.compiled, H.cfgInRegions)
  {
    hide RegionsOk, Edge, SplitSuccs, Without;
    SplitKeepsRegions(L.entryAddr, E.succs, G.bbRegions, G.compiled, G.cfgInRegions, b, n, E'.succs);
    RegionsNewBlock(L.entryAddr, E'.succs, G.bbRegions, G.compiled, G.cfgInRegions, n, a);
    RegionsForgotten(L.entryAddr[n := a], E'.succs, NewRegions(G, n), b);
    RegionsForgotten(L.entryAddr[n := a], E'.succs, Forgotten(NewRegions(G, n), b), n);
  }

  lemma DropOk(code: int -> int, L: Listing, E: Links, C: Counts, G: Regions, bbMap: map<int, Block>,
               insMap: map<int, Block>, b: Block, H: Regions)
    requires StoreOk(code, L, E, C, G, bbMap, insMap)
    requires Dropped(b, G.cfgInRegions, G.bbRegions, G.compiled, H.bbRegions, H.compiled)
    requires H.cfgInRegions == G.cfgInRegions
    requires H.bbRegions.Keys == G.bbRegions.Keys && H.compiled.Keys == G.compiled.Keys
    ensures StoreOk(code, L, E, C, H, bbMap, insMap) && Without(b, H.bbRegions, H.compiled)
  {
    hide CodeOk, EdgesOk, FlowOk, IndexOk, CountsOk, FlagsOk, Dropped, Without, Edge, Records, ClosedWalk;
    assert Dom(L.entryAddr, H.bbRegions) && Dom(L.entryAddr, H.compiled);
    DroppedOk(L.entryAddr, E.succs, G.bbRegions, G.compiled, G.cfgInRegions, b, H.bbRegions, H.compiled);
  }

  lemma CountsReady(code: int -> int, L: Listing, E: Links, C: Counts, G: Regions, bbMap: map<int, Block>,
                    insMap: map<int, Block>, b: Block)
    requires StoreOk(code, L, E, C, G, bbMap, insMap) && b in L.entryAddr
    ensures b in C.edgeCnts && b in C.totalEdges && C.totalEdges[b] >= 0
  {
    hide CodeOk, EdgesOk, FlowOk, IndexOk, RegionsOk, FlagsOk;
    CountsSplit(L.entryAddr, C, b, b, 0);
  }

  lemma DropReady(code: int -> int, L: Listing, E: Links, C: Counts, G: Regions, bbMap: map<int, Block>,
                  insMap: map<int, Block>, b: Block)
    requires StoreOk(code, L, E, C, G, bbMap, insMap) && b in L.entryAddr
    ensures b in G.bbRegions && b in G.cfgInRegions && G.cfgInRegions[b] <= G.bbRegions.Keys
    ensures G.cfgInRegions[b] <= G.compiled.Keys
  {
    hide CodeOk, EdgesOk, FlowOk, IndexOk, CountsOk, FlagsOk, Records, ClosedWalk;
    forall h | h in G.cfgInRegions[b]
      ensures h in G.bbRegions && h in G.compiled
    {
      assert Edge(G.cfgInRegions, b, h);
    }
  }

  /** What the two halves forget is nothing more than dropCompiledCode has dropped. */
  lemma StillDropped(code: int -> int, L: Listing, E: Links, C: Counts, G: Regions, bbMap: map<int, Block>,
                     insMap: map<int, Block>, b: Block, n: Block, H: Regions)
    requires StoreOk(code, L, E, C, G, bbMap, insMap) && b in L.entryAddr && n !in L.entryAddr
    requires Dropped(b, G.cfgInRegions, G.bbRegions, G.compiled, H.bbRegions, H.compiled)
    requires H.cfgInRegions == G.cfgInRegions
    ensures var F := Forgotten(Forgotten(NewRegions(H, n), b), n);
            Dropped(b, G.cfgInRegions, G.bbRegions, G.compiled, F.bbRegions, F.compiled)
              && F.cfgInRegions == G.cfgInRegions[n := {}]
  {
    hide CodeOk, EdgesOk, FlowOk, IndexOk, CountsOk, FlagsOk, SolidOk, ClosedWalk;
    var F := Forgotten(Forgotten(NewRegions(H, n), b), n);
    forall h, t
      ensures Records(F.bbRegions, h, t) <==> Records(G.bbRegions, h, t) && h != b && !Edge(G.cfgInRegions, b, h)
    {
      assert Records(H.bbRegions, h, t) <==> Records(G.bbRegions, h, t) && h != b && !Edge(G.cfgInRegions, b, h);
    }
    forall h, x
      ensures Edge(F.compiled, h, x) <==> Edge(G.compiled, h, x) && !Edge(G.cfgInRegions, b, h)
    {
      assert Edge(H.compiled, h, x) <==> Edge(G.compiled, h, x) && !Edge(G.cfgInRegions, b, h);
      if h == b && Edge(G.compiled, b, x) {
        assert Edge(G.compiled, b, b) && Edge(G.cfgInRegions, b, b);
      }
    }
  }

  lemma StillWithout(G: Regions, b: Block, n: Block)
    requires Without(b, G.bbRegions, G.compiled)
    ensures var H := Forgotten(Forgotten(NewRegions(G, n), b), n); Without(b, H.bbRegions, H.compiled)
  {
    var H := Forgotten(Forgotten(NewRegions(G, n), b), n);
    forall h, t | Records(H.bbRegions, h, t)
      ensures b !in t
    {
      assert Records(G.bbRegions, h, t);
    }
    forall h
      ensures !Edge(H.compiled, h, b)
    {
      assert !Edge(G.compiled, h, b);
    }
  }

  lemma StoreEdges(code: int -> int, L: Listing, E: Links, C: Counts, G: Regions, bbMap: map<int, Block>,
                   insMap: map<int, Block>)
    requires StoreOk(code, L, E, C, G, bbMap, insMap)
    ensures EdgesOk(L.entryAddr, E.succs, E.preds, E.succsMap)
  {
    hide CodeOk, EdgesOk, FlowOk, IndexOk, CountsOk, FlagsOk, RegionsOk;
  }

  lemma SuccsAre(m: map<Block, set<Block>>, b: Block)
    requires b in m
    ensures forall v :: v in m[b] <==> Edge(m, b, v)
  {
  }

  lemma EntryIs(entry: map<Block, int>, b: Block)
    requires b in entry
    ensures Entry(entry, b) == entry[b]
  {
  }

  lemma MovingStart(E: Links, entry: map<Block, int>, b: Block, n: Block)
    requires EdgesOk(entry, E.succs, E.preds, E.succsMap) && b != n && forall u ::
      !Edge(E.preds, n, u) && !Edge(E.succs, n, u)
    ensures Moving(E, entry, b, n, {}, E)
  {
    hide Edge, Finds, Dom, Entry;
  }

  lemma MovingDoms(E: Links, entry: map<Block, int>, b: Block, n: Block, done: set<Block>, E1: Links, s: Block)
    requires Moving(E, entry, b, n, done, E1) && n in entry && s in entry
    ensures n in E1.succs && n in E1.succsMap && n in E1.preds && s in E1.preds
  {
    hide Edge, Finds, Entry;
  }

  // ---------- the split of a block ----------

  /** The links while the successors of b move to n: those in done have moved. */
  ghost predicate Moving(E: Links, entry: map<Block, int>, b: Block, n: Block, done: set<Block>, E': Links) {
    && (forall u, v :: Edge(E'.succs, u, v) <==> if u == n then v in done else Edge(E.succs, u, v))
    && (forall u, v :: Edge(E'.preds, v, u) <==>
          if u == b then Edge(E.preds, v, b) && v !in done else if u == n then v in done else Edge(E.preds, v, u))
    && (forall u, k, v :: Finds(E'.succsMap, u, k, v) <==>
       if u == n then v in done && k == Entry(entry, v) else Finds(E.succsMap, u, k, v))
    && Dom(entry, E'.succs) && Dom(entry, E'.preds) && Dom(entry, E'.succsMap)
  }

  /** One successor s of b moves to n. */
  function MoveOne(E: Links, b: Block, n: Block, s: Block, a: int): Links
    requires s in E.preds && n in E.succs && n in E.succsMap
  {
    Links(AddTo(E.succs, n, s), E.preds[s := E.preds[s] - {b} + {n}], Learn(E.succsMap, n, a, s))
  }

  lemma MovingStep(E: Links, entry: map<Block, int>, b: Block, n: Block, done: set<Block>, E1: Links, s: Block)
    requires Moving(E, entry, b, n, done, E1) && b != n && s in entry && n in entry && Unique(entry) && forall v ::
      v in done ==> v in entry
    requires s in E1.preds && n in E1.succs && n in E1.succsMap
    ensures Moving(E, entry, b, n, done + {s}, MoveOne(E1, b, n, s, Entry(entry, s)))
  {
    var E2 := MoveOne(E1, b, n, s, Entry(entry, s));
    AddToEdges(E1.succs, n, s);
    LearnFinds(E1.succsMap, n, Entry(entry, s), s);
    forall u, v
      ensures Edge(E2.preds, v, u) <==>
        if v == s then (Edge(E1.preds, s, u) && u != b) || u == n else Edge(E1.preds, v, u)
    {
    }
    DomPut(entry, E1.succs, n, 0, E1.succs[n] + {s});
    DomPut(entry, E1.preds, s, 0, E1.preds[s] - {b} + {n});
    DomPut(entry, E1.succsMap, n, 0, E1.succsMap[n][Entry(entry, s) := s]);
    hide Edge, Finds, Dom, AddTo, Learn, Entry, Unique;
    forall v | v in done && Entry(entry, v) == Entry(entry, s)
      ensures v == s
    {
      SameWay(entry, s, v);
    }
  }

  /** The links once b has n as its only successor. */
  function Relinked(E: Links, b: Block, n: Block, a: int): Links
    requires n in E.preds
  {
    Links(E.succs[b := {n}], AddTo(E.preds, n, b), E.succsMap[b := map[a := n]])
  }

  lemma MovedAll(E: Links, entry: map<Block, int>, b: Block, n: Block, done: set<Block>, E1: Links,
                 preds0: map<Block, set<Block>>)
    requires EdgesOk(entry, E.succs, E.preds, E.succsMap) && Moving(E, entry, b, n, done, E1) && b != n && b in entry
    requires n in entry
    requires forall v :: v in done <==> Edge(E.succs, b, v)
    requires forall u :: !Edge(E.preds, n, u) && !Edge(E.succs, n, u)
    requires n in E1.preds
    ensures var E2 := Relinked(E1, b, n, Entry(entry, n));
            && SplitSuccs(E.succs, b, n, E2.succs) && SplitPreds(E.preds, b, n, E2.preds)
               && SplitFinds(E.succsMap, b, n, Entry(entry, n), E2.succsMap)
            && Dom(entry, E2.succs) && Dom(entry, E2.preds) && Dom(entry, E2.succsMap)
  {
    var a := Entry(entry, n);
    var E2 := Relinked(E1, b, n, a);
    forall u, v
      ensures Edge(E2.succs, u, v) <==> if u == b then v == n else Edge(E1.succs, u, v)
    {
    }
    forall u, k, v
      ensures Finds(E2.succsMap, u, k, v) <==> if u == b then k == a && v == n else Finds(E1.succsMap, u, k, v)
    {
    }
    AddToEdges(E1.preds, n, b);
    DomPut(entry, E1.succs, b, 0, {n});
    DomPut(entry, E1.preds, n, 0, E1.preds[n] + {b});
    DomPut(entry, E1.succsMap, b, 0, map[a := n]);
    hide Edge, Finds, Dom, AddTo, Entry;
    forall u, v
      ensures Edge(E2.preds, v, u) <==>
        if u == b then v == n else if u == n then Edge(E.preds, v, b) else Edge(E.preds, v, u)
    {
      assert Edge(E.preds, v, b) <==> Edge(E.succs, b, v);
    }
    forall u, k, v
      ensures Finds(E2.succsMap, u, k, v) <==>
        if u == b then k == a && v == n else if u == n then Finds(E.succsMap, b, k, v) else Finds(E.succsMap, u, k, v)
    {
      if u == n {
        assert Finds(E.succsMap, b, k, v) ==> Edge(E.succs, b, v) && Entry(entry, v) == k;
        assert Edge(E.succs, b, v) ==> Finds(E.succsMap, b, Entry(entry, v), v);
      }
    }
  }

  // ---------- a recorded trace ----------

  /** The first i blocks of the region have learned that h is a head of theirs. */
  ghost predicate Taught(m: map<Block, set<Block>>, h: Block, region: seq<Block>, i: int, m': map<Block, set<Block>>)
    requires 0 <= i <= |region|
  {
    forall u, v :: Edge(m', u, v) <==> Edge(m, u, v) || (v == h && u in region[..i])
  }

  lemma TaughtNone(m: map<Block, set<Block>>, h: Block, region: seq<Block>)
    ensures Taught(m, h, region, 0, m)
  {
  }

  lemma TaughtOne(m: map<Block, set<Block>>, h: Block, region: seq<Block>, i: int, m': map<Block, set<Block>>)
    requires 0 <= i < |region| && Taught(m, h, region, i, m') && region[i] in m'
    ensures Taught(m, h, region, i + 1, AddTo(m', region[i], h))
  {
    AddToEdges(m', region[i], h);
    assert region[..i + 1] == region[..i] + [region[i]];
    hide Edge, AddTo;
  }

  lemma InDom(entry: map<Block, int>, G: Regions, h: Block)
    requires Dom(entry, G.bbRegions) && Dom(entry, G.compiled) && Dom(entry, G.cfgInRegions) && h in entry
    ensures h in G.bbRegions && h in G.compiled && h in G.cfgInRegions
  {
  }

  lemma InDomOf<V(!new)>(entry: map<Block, int>, m: map<Block, V>, x: Block)
    requires Dom(entry, m) && x in entry
    ensures x in m
  {
  }

  lemma ReadOnlyIn(code: int -> int, L: Listing, E: Links, C: Counts, G: Regions, bbMap: map<int, Block>,
                   insMap: map<int, Block>, x: Block)
    requires StoreOk(code, L, E, C, G, bbMap, insMap) && x in L.readOnly
    ensures x in L.entryAddr
  {
    hide CodeOk, EdgesOk, FlowOk, IndexOk, CountsOk, FlagsOk, RegionsOk, SolidOk;
    ReadOnlyInside(code, L.entryAddr, L.vecIns, L.termAddr, L.readOnly);
  }

  lemma TaughtOk(code: int -> int, L: Listing, E: Links, C: Counts, G: Regions, bbMap: map<int, Block>,
                 insMap: map<int, Block>, h: Block, region: seq<Block>, H: Regions)
    requires StoreOk(code, L, E, C, G, bbMap, insMap) && h in L.entryAddr && forall x :: x in region ==> x in L.readOnly
    requires H.bbRegions == G.bbRegions && H.compiled == G.compiled && Dom(L.entryAddr, H.cfgInRegions)
    requires Taught(G.cfgInRegions, h, region, |region|, H.cfgInRegions)
    ensures StoreOk(code, L, E, C, H, bbMap, insMap)
    ensures forall x :: x in region ==> Edge(H.cfgInRegions, x, h)
  {
    hide CodeOk, EdgesOk, FlowOk, IndexOk, CountsOk, FlagsOk, Edge, Records, ClosedWalk, Dom;
    assert region[..|region|] == region;
  }

  lemma RecordOk(code: int -> int, L: Listing, E: Links, C: Counts, G: Regions, bbMap: map<int, Block>,
                 insMap: map<int, Block>, h: Block, region: seq<Block>)
    requires StoreOk(code, L, E, C, G, bbMap, insMap) && h in L.entryAddr && h in G.bbRegions
    requires ClosedWalk(E.succs, h, region)
    requires forall x :: x in region ==> Edge(G.cfgInRegions, x, h)
    ensures StoreOk(code, L, E, C, G.(bbRegions := G.bbRegions[h := G.bbRegions[h] + [region]]), bbMap, insMap)
  {
    hide CodeOk, EdgesOk, FlowOk, IndexOk, CountsOk, FlagsOk, SolidOk, Edge, RegionsOk, ClosedWalk, Dom;
    RegionsMore(L.entryAddr, E.succs, G, h, region, G.bbRegions[h := G.bbRegions[h] + [region]]);
  }

  lemma RegionsMore(entry: map<Block, int>, succs: map<Block, set<Block>>, G: Regions, h: Block, region: seq<Block>,
                    R: map<Block, seq<seq<Block>>>)
    requires RegionsOk(entry, succs, G.bbRegions, G.compiled, G.cfgInRegions) && h in entry && h in G.bbRegions
    requires ClosedWalk(succs, h, region)
    requires R == G.bbRegions[h := G.bbRegions[h] + [region]] && forall x :: x in region ==> Edge(G.cfgInRegions, x, h)
    ensures RegionsOk(entry, succs, R, G.compiled, G.cfgInRegions)
  {
    DomPut(entry, G.bbRegions, h, 0, G.bbRegions[h] + [region]);
    MoreRecords(G.bbRegions, h, region);
    hide Edge, Records, ClosedWalk, Dom;
    forall k, t, x | Records(R, k, t) && x in t
      ensures Edge(G.cfgInRegions, x, k)
    {
      if k != h || t != region {
        assert Records(G.bbRegions, k, t);
      }
    }
  }

  lemma MoreRecords(m: map<Block, seq<seq<Block>>>, h: Block, region: seq<Block>)
    requires h in m
    ensures forall k, t :: Records(m[h := m[h] + [region]], k, t) <==> Records(m, k, t) || (k == h && t == region)
  {
    forall k, t
      ensures Records(m[h := m[h] + [region]], k, t) <==> Records(m, k, t) || (k == h && t == region)
    {
    }
  }

  lemma BlocksOf(m: map<Block, seq<seq<Block>>>, h: Block, blocks: set<Block>)
    requires h in m && blocks == Union(m[h])
    ensures forall x :: x in blocks <==> exists t :: Records(m, h, t) && x in t
  {
    forall x
      ensures x in blocks <==> exists t :: Records(m, h, t) && x in t
    {
      if x in blocks {
        var j :| 0 <= j < |m[h]| && x in m[h][j];
        assert Records(m, h, m[h][j]);
      }
      if t :| Records(m, h, t) && x in t {
        var j :| 0 <= j < |m[h]| && m[h][j] == t;
      }
    }
  }

  lemma CompileOk(code: int -> int, L: Listing, E: Links, C: Counts, G: Regions, bbMap: map<int, Block>,
                  insMap: map<int, Block>, h: Block, blocks: set<Block>)
    requires StoreOk(code, L, E, C, G, bbMap, insMap) && h in L.entryAddr
    requires forall x :: x in blocks <==> exists t :: Records(G.bbRegions, h, t) && x in t
    ensures StoreOk(code, L, E, C, G.(compiled := G.compiled[h := blocks], bbRegions := G.bbRegions[h := []]), bbMap,
      insMap)
    ensures forall x :: Edge(G.compiled[h := blocks], h, x) <==> x in blocks
  {
    hide CodeOk, EdgesOk, FlowOk, IndexOk, CountsOk, FlagsOk, SolidOk, RegionsOk, Edge, Records;
    CompiledRegions(L.entryAddr, E.succs, G, h, blocks);
    RegionClearedOk(L.entryAddr, E.succs, G.(compiled := G.compiled[h := blocks]), h);
    CompiledAt(G.compiled, h, blocks);
  }

  lemma CompiledAt(m: map<Block, set<Block>>, h: Block, blocks: set<Block>)
    ensures forall k, x :: Edge(m[h := blocks], k, x) <==> if k == h then x in blocks else Edge(m, k, x)
  {
    forall k, x
      ensures Edge(m[h := blocks], k, x) <==> if k == h then x in blocks else Edge(m, k, x)
    {
    }
  }

  lemma CompiledRegions(entry: map<Block, int>, succs: map<Block, set<Block>>, G: Regions, h: Block, blocks: set<Block>)
    requires RegionsOk(entry, succs, G.bbRegions, G.compiled, G.cfgInRegions) && h in entry
    requires forall x :: x in blocks ==> exists t :: Records(G.bbRegions, h, t) && x in t
    requires forall t, x :: Records(G.bbRegions, h, t) && x in t ==> x in blocks
    ensures RegionsOk(entry, succs, G.bbRegions, G.compiled[h := blocks], G.cfgInRegions)
  {
    CompiledAt(G.compiled, h, blocks);
    DomPut(entry, G.compiled, h, 0, blocks);
    hide Edge, Records, Dom;
    forall x | x in blocks
      ensures Edge(G.cfgInRegions, x, h) && h in blocks
    {
      var t :| Records(G.bbRegions, h, t) && x in t;
      assert ClosedWalk(succs, h, t);
      assert t[0] == h && h in t;
    }
    hide ClosedWalk;
    var K := G.compiled[h := blocks];
    forall k, x | Edge(K, k, x)
      ensures Edge(G.cfgInRegions, x, k) && Edge(K, k, k)
    {
    }
  }

  lemma RegionClearedOk(entry: map<Block, int>, succs: map<Block, set<Block>>, G: Regions, h: Block)
    requires RegionsOk(entry, succs, G.bbRegions, G.compiled, G.cfgInRegions) && h in entry
    ensures RegionsOk(entry, succs, G.bbRegions[h := []], G.compiled, G.cfgInRegions)
  {
    DomPut(entry, G.bbRegions, h, 0, []);
    forall k, t
      ensures Records(G.bbRegions[h := []], k, t) <==> Records(G.bbRegions, k, t) && k != h
    {
    }
    hide Edge, Records, ClosedWalk, Dom;
  }

  lemma RegionCleared(code: int -> int, L: Listing, E: Links, C: Counts, G: Regions, bbMap: map<int, Block>,
                      insMap: map<int, Block>, h: Block)
    requires StoreOk(code, L, E, C, G, bbMap, insMap) && h in L.entryAddr
    ensures StoreOk(code, L, E, C, G.(bbRegions := G.bbRegions[h := []]), bbMap, insMap)
  {
    hide CodeOk, EdgesOk, FlowOk, IndexOk, CountsOk, FlagsOk, SolidOk, RegionsOk;
    RegionClearedOk(L.entryAddr, E.succs, G, h);
  }

  lemma RegionDropped(code: int -> int, L: Listing, E: Links, C: Counts, G: Regions, bbMap: map<int, Block>,
                      insMap: map<int, Block>, h: Block)
    requires StoreOk(code, L, E, C, G, bbMap, insMap) && h in L.entryAddr
    ensures StoreOk(code, L, E, C, G.(compiled := G.compiled[h := {}]), bbMap, insMap)
  {
    hide CodeOk, EdgesOk, FlowOk, IndexOk, CountsOk, FlagsOk, SolidOk, RegionsOk;
    DroppedRegion(L.entryAddr, E.succs, G, h);
  }

  lemma DroppedRegion(entry: map<Block, int>, succs: map<Block, set<Block>>, G: Regions, h: Block)
    requires RegionsOk(entry, succs, G.bbRegions, G.compiled, G.cfgInRegions) && h in entry
    ensures RegionsOk(entry, succs, G.bbRegions, G.compiled[h := {}], G.cfgInRegions)
  {
    CompiledAt(G.compiled, h, {});
    DomPut(entry, G.compiled, h, 0, {});
    hide Edge, Records, ClosedWalk, Dom;
    var K := G.compiled[h := {}];
    forall k, x | Edge(K, k, x)
      ensures Edge(G.cfgInRegions, x, k) && Edge(K, k, k)
    {
      assert Edge(G.compiled, k, x);
    }
  }

  // ---------- a new instruction, a finished block ----------

  ghost predicate MayAdd(code: int -> int, L: Listing, b: Block, inst: int, addr: int) {
    && b in L.entryAddr && b !in L.readOnly && !EndsInTransfer(Code(L.vecIns, b))
    && addr == AddrOf(L.entryAddr[b], |Code(L.vecIns, b)|) && inst == code(addr) && Normal(inst)
  }

  function MoreInsns(L: Listing, b: Block, inst: int, addr: int): Listing {
    L.(vecIns := L.vecIns[b := Code(L.vecIns, b) + [(inst, addr)]],
       termAddr := if Transfers(inst) then L.termAddr[b := addr] else L.termAddr)
  }

  lemma MoreInsnsOk(code: int -> int, L: Listing, E: Links, C: Counts, G: Regions, bbMap: map<int, Block>,
                    insMap: map<int, Block>, b: Block, inst: int, addr: int)
    requires StoreOk(code, L, E, C, G, bbMap, insMap) && b in L.entryAddr && b !in L.readOnly
    requires !EndsInTransfer(Code(L.vecIns, b))
    requires addr == AddrOf(L.entryAddr[b], |Code(L.vecIns, b)|) && inst == code(addr) && Normal(inst)
    ensures StoreOk(code, MoreInsns(L, b, inst, addr), E, C, G, bbMap, insMap[addr := b])
    ensures EndsInTransfer(Code(L.vecIns, b) + [(inst, addr)]) <==> Transfers(inst)
  {
    hide CodeOk, EdgesOk, FlowOk, IndexOk, CountsOk, FlagsOk, RegionsOk, EndsInTransfer, AddrOf, Normal, Transfers;
    InsnAddedCode(code, L.entryAddr, L.vecIns, L.termAddr, L.readOnly, b, inst, addr);
    InsnAddedFlow(L.entryAddr, L.vecIns, L.readOnly, E.succs, b, Code(L.vecIns, b) + [(inst, addr)]);
    InsnAddedIndex(L.entryAddr, L.vecIns, bbMap, insMap, b, inst, addr);
    BlockAddedFlags(L.vecIns, L.readOnly, L.flags, b, Code(L.vecIns, b) + [(inst, addr)]);
  }

  ghost function Sealed(L: Listing, b: Block): Listing {
    L.(readOnly := L.readOnly + {b}, flags := L.flags[b := OrFlags(FlagsAt(L.flags, b), FlagsOf(Code(L.vecIns, b)))])
  }

  function Forgotten(G: Regions, b: Block): Regions {
    G.(bbRegions := G.bbRegions[b := []], bbRegionCounts := G.bbRegionCounts[b := map[]],
       compiled := G.compiled[b := {}])
  }

  lemma SealedOk(code: int -> int, L: Listing, E: Links, C: Counts, G: Regions, bbMap: map<int, Block>,
                 insMap: map<int, Block>, b: Block)
    requires StoreOk(code, L, E, C, G, bbMap, insMap) && b in L.entryAddr && b !in L.readOnly
    requires EndsInTransfer(Code(L.vecIns, b))
    ensures StoreOk(code, Sealed(L, b), E, C, Forgotten(G, b), bbMap, insMap)
  {
    hide CodeOk, EdgesOk, FlowOk, IndexOk, CountsOk, EndsInTransfer, RegionsOk, FlagsOf, SolidOk, Edge;
    FinishedOk(code, L.entryAddr, L.vecIns, L.termAddr, L.readOnly, E.succs, b);
    RegionsForgotten(L.entryAddr, E.succs, G, b);
    SolidMore(L.readOnly, G.cfgInRegions, L.readOnly + {b}, G.cfgInRegions);
  }

  lemma RegionsForgotten(entry: map<Block, int>, succs: map<Block, set<Block>>, G: Regions, b: Block)
    requires RegionsOk(entry, succs, G.bbRegions, G.compiled, G.cfgInRegions) && b in entry
    ensures RegionsOk(entry, succs, Forgotten(G, b).bbRegions, Forgotten(G, b).compiled, G.cfgInRegions)
  {
    var R, K := G.bbRegions[b := []], G.compiled[b := {}];
    DomPut(entry, G.bbRegions, b, 0, []);
    DomPut(entry, G.compiled, b, 0, {});
    forall h, t
      ensures Records(R, h, t) <==> Records(G.bbRegions, h, t) && h != b
    {
    }
    forall h, x
      ensures Edge(K, h, x) <==> Edge(G.compiled, h, x) && h != b
    {
    }
    hide Records, Edge, Dom, ClosedWalk;
  }

  lemma InsideAt(L: Listing, E: Links, x: Block)
    requires Inside(L, E) && x in L.entryAddr
    ensures x in E.succs && x in E.preds && x in E.succsMap && x in L.vecIns && x in L.termAddr
  {
  }

  lemma LinkedSome(E: Links, L: Listing, b: Block)
    requires b in E.succs && |E.succs[b]| >= 1
    ensures exists y :: Edge(E.succs, b, y)
    ensures EndsInTransfer(Code(L.vecIns, b)) ==>
      |Code(L.vecIns, b)| > 0 && Transfers(Code(L.vecIns, b)[|Code(L.vecIns, b)| - 1].0)
  {
    SomeSucc(E.succs, b);
  }

  lemma AcceptsIs(L: Listing, E: Links, b: Block, x: Block, a: int)
    requires b in E.succs && x in E.preds && b in E.succsMap
    ensures var v := Code(L.vecIns, b);
            Accepts(L, E, b, x) <==>
              x in E.succs[b] || (v != [] && (Transfers(v[|v| - 1].0) || |E.succs[b]| < 1)
              && (|WithEdge(E, b, x, a).succs[b]| <= 2 || IndirectAt(L, b)))
  {
    hide Transfers, Code;
  }

  lemma LinkedAt(E: Links, b: Block, x: Block, a: int)
    requires b in E.succs && x in E.preds && b in E.succsMap
    ensures b in WithEdge(E, b, x, a).succs
  {
  }

  lemma NewBlockOk(code: int -> int, L: Listing, E: Links, C: Counts, G: Regions, bbMap: map<int, Block>,
                   insMap: map<int, Block>, x: Block, a: int)
    requires StoreOk(code, L, E, C, G, bbMap, insMap) && x !in L.entryAddr && a !in bbMap && 0 <= a < WORD
    ensures StoreOk(code, NewListing(L, x, a), NewLinks(E, x), NewCounts(C, x), NewRegions(G, x), bbMap[a := x], insMap)
  {
    hide CodeOk, EdgesOk, FlowOk, IndexOk, CountsOk, FlagsOk, RegionsOk, SolidOk, Edge, Dom;
    EdgesInside(L.entryAddr, E.succs, E.preds, E.succsMap);
    ReadOnlyInside(code, L.entryAddr, L.vecIns, L.termAddr, L.readOnly);
    BlockAddedCode(code, L.entryAddr, L.vecIns, L.termAddr, L.readOnly, x, a);
    BlockAddedEdges(L.entryAddr, E.succs, E.preds, E.succsMap, x, a);
    BlockAddedFlow(L.entryAddr, L.vecIns, L.readOnly, E.succs, x, a);
    BlockAddedIndex(L.entryAddr, L.vecIns, bbMap, insMap, x, a);
    BlockAddedCounts(L.entryAddr, C.edgeCnts, C.totalEdges, x, a);
    BlockAddedFlags(L.vecIns, L.readOnly, L.flags, x, []);
    RegionsNewBlock(L.entryAddr, E.succs, G.bbRegions, G.compiled, G.cfgInRegions, x, a);
    StoreInside(code, L, E, C, G, bbMap, insMap);
    NewSolid(L, G, x);
    SameIsMore(E.succs, E.succs[x := {}]);
    RegionsMoreEdges(L.entryAddr[x := a], E.succs, G.bbRegions[x := []], G.compiled[x := {}], G.cfgInRegions[x := {}],
      E.succs[x := {}]);
  }

  lemma SameIsMore(m: map<Block, set<Block>>, m': map<Block, set<Block>>)
    requires SameEdges(m, m')
    ensures forall u, v :: Edge(m, u, v) ==> Edge(m', u, v)
  {
    hide Edge;
  }

  lemma EdgesInside(entry: map<Block, int>, succs: map<Block, set<Block>>, preds: map<Block, set<Block>>,
                    succsMap: map<Block, map<int, Block>>)
    requires EdgesOk(entry, succs, preds, succsMap)
    ensures Dom(entry, succs) && Dom(entry, preds) && Dom(entry, succsMap)
    ensures forall u, v :: Edge(succs, u, v) ==> u in entry && v in entry
  {
    hide Dom, Edge, Finds, Entry;
  }

  lemma ReadOnlyInside(code: int -> int, entry: map<Block, int>, ins: map<Block, Insns>, term: map<Block, int>,
                       readOnly: set<Block>)
    requires CodeOk(code, entry, ins, term, readOnly)
    ensures Dom(entry, ins) && Dom(entry, term) && forall b :: b in readOnly ==> b in entry
  {
    hide Dom, Laid, Sized, Growing;
  }

  lemma BlockAddedCounts(entry: map<Block, int>, edgeCnts: map<Block, multiset<int>>, totalEdges: map<Block, int>,
                         x: Block, a: int)
    requires CountsOk(entry, edgeCnts, totalEdges)
    ensures CountsOk(entry[x := a], edgeCnts[x := multiset{}], totalEdges[x := 0])
  {
  }

  lemma BlockAddedFlags(ins: map<Block, Insns>, readOnly: set<Block>, flags: map<Block, Flags>, x: Block, v: Insns)
    requires FlagsOk(ins, readOnly, flags) && x !in readOnly
    ensures FlagsOk(ins[x := v], readOnly, flags)
  {
    CodePut(ins, x, v);
    hide FlagsOf, Code;
  }

  // ---------- compiled regions ----------

  /** What compiled code relies on: a region that is still compiled has the blocks it was compiled from, and they have
      not changed. */
  ghost predicate CodeKept(L: Listing, G: Regions, L': Listing, G': Regions) {
    forall h :: h in G'.compiled && G'.compiled[h] != {} ==>
      h in G.compiled && G'.compiled[h] == G.compiled[h] && SameCode(L, L', G.compiled[h])
  }

  ghost predicate SameCode(L: Listing, L': Listing, B: set<Block>) {
    forall x :: x in B ==> Code(L'.vecIns, x) == Code(L.vecIns, x) && Entry(L'.entryAddr, x) == Entry(L.entryAddr, x)
  }

  lemma CodeKeptRefl(L: Listing, G: Regions)
    ensures CodeKept(L, G, L, G)
  {
  }

  lemma CodeKeptTrans(L: Listing, G: Regions, L1: Listing, G1: Regions, L2: Listing, G2: Regions)
    requires CodeKept(L, G, L1, G1) && CodeKept(L1, G1, L2, G2)
    ensures CodeKept(L, G, L2, G2)
  {
    hide Code, Entry;
  }

  /** The blocks of compiled regions are finished ones. */
  lemma CompiledSolid(code: int -> int, L: Listing, E: Links, C: Counts, G: Regions, bbMap: map<int, Block>,
                      insMap: map<int, Block>, h: Block)
    requires StoreOk(code, L, E, C, G, bbMap, insMap) && h in G.compiled && G.compiled[h] != {}
    ensures h in G.compiled[h] && forall x :: x in G.compiled[h] ==> x in L.readOnly && x in L.entryAddr
  {
    hide EdgesOk, FlowOk, IndexOk, CountsOk, FlagsOk, CodeOk;
    ReadOnlyInside(code, L.entryAddr, L.vecIns, L.termAddr, L.readOnly);
    forall x | x in G.compiled[h]
      ensures x in L.readOnly && h in G.compiled[h]
    {
      assert Edge(G.compiled, h, x);
      assert Edge(G.cfgInRegions, x, h);
    }
  }

  lemma NewBlockKeeps(code: int -> int, L: Listing, E: Links, C: Counts, G: Regions, bbMap: map<int, Block>,
                      insMap: map<int, Block>, x: Block, a: int)
    requires StoreOk(code, L, E, C, G, bbMap, insMap) && x !in L.entryAddr
    ensures CodeKept(L, G, NewListing(L, x, a), NewRegions(G, x))
  {
    hide StoreOk;
    CodePut(L.vecIns, x, []);
    EntryPut(L.entryAddr, x, a);
    hide Code, Entry;
    forall h | h in NewRegions(G, x).compiled && NewRegions(G, x).compiled[h] != {}
      ensures h in G.compiled && NewRegions(G, x).compiled[h] == G.compiled[h]
      ensures SameCode(L, NewListing(L, x, a), G.compiled[h])
    {
      CompiledSolid(code, L, E, C, G, bbMap, insMap, h);
    }
  }

  lemma SealKeeps(L: Listing, G: Regions, b: Block)
    ensures CodeKept(L, G, Sealed(L, b), Forgotten(G, b))
  {
    hide FlagsOf;
  }

  /** A block that grows is in no compiled region. */
  lemma MoreInsnsKeeps(code: int -> int, L: Listing, E: Links, C: Counts, G: Regions, bbMap: map<int, Block>,
                       insMap: map<int, Block>, b: Block, inst: int, addr: int)
    requires StoreOk(code, L, E, C, G, bbMap, insMap) && b !in L.readOnly
    ensures CodeKept(L, G, MoreInsns(L, b, inst, addr), G)
  {
    hide StoreOk;
    CodePut(L.vecIns, b, Code(L.vecIns, b) + [(inst, addr)]);
    hide Code, Entry, Transfers;
    forall h | h in G.compiled && G.compiled[h] != {}
      ensures SameCode(L, MoreInsns(L, b, inst, addr), G.compiled[h])
    {
      CompiledSolid(code, L, E, C, G, bbMap, insMap, h);
    }
  }

  /** Compiled regions survive the split of a block that is not theirs. */
  lemma SplitKeepsCompiled(code: int -> int, L: Listing, E: Links, C: Counts, G: Regions, bbMap: map<int, Block>,
                           insMap: map<int, Block>, b: Block, a: int, n: Block,
                           L': Listing, E': Links, C': Counts, G': Regions)
    requires StoreOk(code, L, E, C, G, bbMap, insMap) && n !in L.entryAddr && SplitAt(L, E, C, b, a, n, L', E', C')
    requires Dropped(b, G.cfgInRegions, G.bbRegions, G.compiled, G'.bbRegions, G'.compiled)
    requires Without(b, G'.bbRegions, G'.compiled)
    ensures CodeKept(L, G, L', G')
  {
    hide StoreOk, Records, SplitSuccs, AddrOf, FlagsOf;
    var i: nat :| 0 < i < |Code(L.vecIns, b)| && a == AddrOf(Entry(L.entryAddr, b), i)
      && L' == SplitListing(L, b, n, a, i);
    EntryPut(L.entryAddr, n, a);
    CodePut(L.vecIns, n, Code(L.vecIns, b)[i..]);
    CodePut(L.vecIns[n := Code(L.vecIns, b)[i..]], b, Code(L.vecIns, b)[..i]);
    forall h | h in G'.compiled && G'.compiled[h] != {}
      ensures h in G.compiled && G'.compiled[h] == G.compiled[h] && SameCode(L, L', G.compiled[h])
    {
      KeptRegion(b, G, G', h);
      CompiledSolid(code, L, E, C, G, bbMap, insMap, h);
    }
  }

  lemma KeptRegion(b: Block, G: Regions, G': Regions, h: Block)
    requires Dropped(b, G.cfgInRegions, G.bbRegions, G.compiled, G'.bbRegions, G'.compiled)
    requires Without(b, G'.bbRegions, G'.compiled)
    requires h in G'.compiled && G'.compiled[h] != {}
    ensures h in G.compiled && G'.compiled[h] == G.compiled[h] && b !in G.compiled[h]
  {
    hide Records;
    var x :| x in G'.compiled[h];
    assert Edge(G'.compiled, h, x);
    assert Edge(G.compiled, h, x) && !Edge(G.cfgInRegions, b, h);
    forall y
      ensures y in G'.compiled[h] <==> y in G.compiled[h]
    {
      assert Edge(G'.compiled, h, y) <==> Edge(G.compiled, h, y);
    }
    assert !Edge(G'.compiled, h, b);
  }

  // ---------- keys and counts of traces ----------

  lemma KeysNew(key: seq<Block> -> int, G: Regions, x: Block)
    requires KeysOk(key, G)
    ensures KeysOk(key, NewRegions(G, x))
  {
    KeysCleared(key, G, x, NewRegions(G, x));
  }

  lemma KeysForgotten(key: seq<Block> -> int, G: Regions, b: Block)
    requires KeysOk(key, G)
    ensures KeysOk(key, Forgotten(G, b))
  {
    KeysCleared(key, G, b, Forgotten(G, b));
  }

  lemma KeysSame(key: seq<Block> -> int, G: Regions, G': Regions)
    requires KeysOk(key, G) && G'.bbRegions == G.bbRegions && G'.bbRegionCounts == G.bbRegionCounts
    ensures KeysOk(key, G')
  {
    hide HasKey, KeysDistinct;
  }

  lemma CountedKey(key: seq<Block> -> int, G: Regions, h: Block, k: int)
    requires KeysOk(key, G) && h in G.bbRegions
    ensures h in G.bbRegionCounts && (k in G.bbRegionCounts[h] <==> HasKey(key, G.bbRegions[h], k))
  {
    hide HasKey, KeysDistinct;
  }

  lemma TracesCleared(m: map<Block, seq<seq<Block>>>, b: Block, m': map<Block, seq<seq<Block>>>)
    requires m' == m[b := []]
    ensures forall h, t :: Records(m', h, t) <==> Records(m, h, t) && h != b
  {
    forall h, t
      ensures Records(m', h, t) <==> Records(m, h, t) && h != b
    {
    }
  }

  lemma ForgottenEffect(G: Regions, b: Block)
    ensures forall h, t :: Records(Forgotten(G, b).bbRegions, h, t) <==> Records(G.bbRegions, h, t) && h != b
    ensures forall h, x :: Edge(Forgotten(G, b).compiled, h, x) <==> Edge(G.compiled, h, x) && h != b
    ensures b in G.bbRegions && b in G.compiled ==>
      Forgotten(G, b).bbRegions.Keys == G.bbRegions.Keys && Forgotten(G, b).compiled.Keys == G.compiled.Keys
    ensures Forgotten(G, b).cfgInRegions == G.cfgInRegions
  {
    TracesCleared(G.bbRegions, b, Forgotten(G, b).bbRegions);
    forall h, x
      ensures Edge(Forgotten(G, b).compiled, h, x) <==> Edge(G.compiled, h, x) && h != b
    {
    }
  }

  /** The invariant of the store does not speak of the counts of traces. */
  lemma CountsFree(code: int -> int, L: Listing, E: Links, C: Counts, G: Regions, bbMap: map<int, Block>,
                   insMap: map<int, Block>, rc: map<Block, map<int, int>>)
    requires StoreOk(code, L, E, C, G, bbMap, insMap)
    ensures StoreOk(code, L, E, C, G.(bbRegionCounts := rc), bbMap, insMap)
  {
    hide CodeOk, EdgesOk, FlowOk, IndexOk, CountsOk, FlagsOk, RegionsOk, SolidOk;
  }

  // ---------- which regions are compiled ----------

  /** canCompileInstr. */
  predicate CanCompileInstr(w: int) {
    Field(w, 0, 7) in {0x03, 0x0f, 0x13, 0x23, 0x37, 0x17, 0x67, 0x6f, 0x33, 0x63}
  }

  ghost predicate Accepted(v: Insns) {
    forall i :: 0 <= i < |v| ==> CanCompileInstr(v[i].0)
  }

  ghost predicate HasTransfer(v: Insns) {
    exists i :: 0 <= i < |v| && Transfers(v[i].0)
  }

  /** The inner loop of canCompileRegion. */
  method ScanBlock(v: Insns) returns (accepted: bool, gotBrOrJmp: bool)
    ensures accepted <==> Accepted(v)
    ensures accepted ==> (gotBrOrJmp <==> HasTransfer(v))
  {
    hide CanCompileInstr, Transfers;
    accepted, gotBrOrJmp := true, false;
    for i := 0 to |v|
      invariant accepted && (forall j :: 0 <= j < i ==> CanCompileInstr(v[j].0))
        && (gotBrOrJmp <==> exists j :: 0 <= j < i && Transfers(v[j].0))
    {
      gotBrOrJmp := gotBrOrJmp || Transfers(v[i].0);
      if !CanCompileInstr(v[i].0) {
        return false, gotBrOrJmp;
      }
    }
  }

  /** A block of a closed walk that does not transfer control ends where the next block of the walk starts. */
  lemma FallsInto(code: int -> int, L: Listing, E: Links, C: Counts, G: Regions, bbMap: map<int, Block>,
                  insMap: map<int, Block>, h: Block, t: seq<Block>, i: nat)
    requires StoreOk(code, L, E, C, G, bbMap, insMap) && ClosedWalk(E.succs, h, t) && i < |t| && t[i] in L.readOnly
    ensures var b, n := t[i], if i == |t| - 1 then t[0] else t[i + 1];
            && b in L.termAddr && n in L.entryAddr
               && (!HasTransfer(Code(L.vecIns, b)) ==> Wrap(L.termAddr[b] + 4) == L.entryAddr[n])
  {
    hide StoreOk, Edge, Code, HasTransfer;
    var b, n := t[i], if i == |t| - 1 then t[0] else t[i + 1];
    assert Edge(E.succs, b, n);
    EdgeFalls(code, L, E, C, G, bbMap, insMap, b, n);
  }

  /** A finished block that does not transfer control ends where its successor starts. */
  lemma EdgeFalls(code: int -> int, L: Listing, E: Links, C: Counts, G: Regions, bbMap: map<int, Block>,
                  insMap: map<int, Block>, b: Block, n: Block)
    requires StoreOk(code, L, E, C, G, bbMap, insMap) && b in L.readOnly && Edge(E.succs, b, n)
    ensures b in L.termAddr && n in L.entryAddr
    ensures !HasTransfer(Code(L.vecIns, b)) ==> Wrap(L.termAddr[b] + 4) == L.entryAddr[n]
  {
    hide EdgesOk, IndexOk, CountsOk, FlagsOk, RegionsOk, SolidOk, CodeOk, Edge, Code, CanGo, HasTransfer, Laid,
         EndsInTransfer, AddrOf;
    StoreInside(code, L, E, C, G, bbMap, insMap);
    ReadOnlyInside(code, L.entryAddr, L.vecIns, L.termAddr, L.readOnly);
    SizedAt(code, L.entryAddr, L.vecIns, L.termAddr, L.readOnly, b);
    if !HasTransfer(Code(L.vecIns, b)) {
      LastFalls(code, L.entryAddr[b], Code(L.vecIns, b), L.entryAddr[n]);
    }
  }

  lemma LastFalls(code: int -> int, e: int, v: Insns, a: int)
    requires Laid(code, e, v) && CanGo(v, a) && !HasTransfer(v)
    ensures a == Wrap(AddrOf(e, |v| - 1) + 4)
  {
    hide Decode, AddrOf;
    assert !Transfers(v[|v| - 1].0) && Normal(v[|v| - 1].0);
  }
}
