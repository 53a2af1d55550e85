/** Looking a block up: through the edges of the current block, the entry addresses, and the recorded instructions. */
module FindBlocks {
  import opened Graphs
  import opened Rv32
  import opened BlockHeap
  import opened TraceRecorder
  import opened BlockStores

  lemma GrownRefl(L: Listing, bbMap: map<int, Block>)
    ensures Grown(L, bbMap, L, bbMap)
  {
  }

  lemma GrownTrans(L: Listing, m: map<int, Block>, L1: Listing, m1: map<int, Block>, L2: Listing, m2: map<int, Block>)
    requires Grown(L, m, L1, m1) && Grown(L1, m1, L2, m2)
    ensures Grown(L, m, L2, m2)
  {
    hide Entry;
  }

  lemma LinkMore(E: Links, b: Block, x: Block, a: int)
    requires b in E.succs && x in E.preds && b in E.succsMap
    ensures MoreEdges(E, WithEdge(E, b, x, a)) && Edge(WithEdge(E, b, x, a).succs, b, x)
  {
    AddToEdges(E.succs, b, x);
  }

  /** After a split the two halves are complete, and the first has the edge to the second. */
  lemma SplitResult(L: Listing, E: Links, C: Counts, m: map<int, Block>, b: Block, a: int, n: Block, L': Listing,
                    E': Links, C': Counts, m': map<int, Block>)
    requires SplitAt(L, E, C, b, a, n, L', E', C') && b in L.entryAddr && n !in L.entryAddr && a !in m
    requires m' == m[a := n] && AllEnded(L) && n !in L.readOnly
    ensures EntriesKept(L.entryAddr, L'.entryAddr) && Grown(L, m, L', m') && AllEnded(L') && n in L'.readOnly
    ensures b in L'.readOnly && n in L'.entryAddr && Entry(L'.entryAddr, n) == a
    ensures Edge(E'.succs, b, n)
    ensures forall x :: x in L'.entryAddr ==> x in L.entryAddr || x == n
    ensures forall x :: x != b && x != n ==>
      Code(L'.vecIns, x) == Code(L.vecIns, x) && (x in L'.readOnly <==> x in L.readOnly)
    ensures forall x, y :: x != b && x != n ==> (Edge(E'.succs, x, y) <==> Edge(E.succs, x, y))
  {
    hide EndsInTransfer, AddrOf, Wrap, FlagsOf, Edge;
    var i: nat :| 0 < i < |Code(L.vecIns, b)| && a == AddrOf(Entry(L.entryAddr, b), i)
      && L' == SplitListing(L, b, n, a, i);
    EntriesPut(L.entryAddr, n, a);
    var ins1 := L.vecIns[n := Code(L.vecIns, b)[i..]];
    CodePut(L.vecIns, n, Code(L.vecIns, b)[i..]);
    CodePut(ins1, b, Code(L.vecIns, b)[..i]);
    hide Code, Entry;
  }

  /** An edge that exists may be added again. */
  lemma EdgeMayLink(code: int -> int, L: Listing, E: Links, C: Counts, G: Regions, bbMap: map<int, Block>,
                    insMap: map<int, Block>, b: Block, x: Block)
    requires StoreOk(code, L, E, C, G, bbMap, insMap) && Edge(E.succs, b, x) && b in L.readOnly
    ensures MayLink(L, E, b, x)
  {
    hide CodeOk, EdgesOk, IndexOk, CountsOk, FlagsOk, RegionsOk, CanGo, EndsInTransfer, Edge;
    StoreInside(code, L, E, C, G, bbMap, insMap);
  }

  /** What findBlock finds at an address of insMap. */
  lemma InsFound(code: int -> int, L: Listing, E: Links, C: Counts, G: Regions, bbMap: map<int, Block>,
                 insMap: map<int, Block>, a: int)
    requires StoreOk(code, L, E, C, G, bbMap, insMap) && a in insMap
    ensures insMap[a] in L.entryAddr && Contains(Code(L.vecIns, insMap[a]), a)
  {
    hide CodeOk, EdgesOk, FlowOk, CountsOk, FlagsOk, RegionsOk, Contains;
  }

  lemma BbFound(code: int -> int, L: Listing, E: Links, C: Counts, G: Regions, bbMap: map<int, Block>,
                insMap: map<int, Block>, a: int)
    requires StoreOk(code, L, E, C, G, bbMap, insMap) && a in bbMap
    ensures bbMap[a] in L.entryAddr && Entry(L.entryAddr, bbMap[a]) == a
  {
    hide CodeOk, EdgesOk, FlowOk, CountsOk, FlagsOk, RegionsOk, Contains;
  }

  lemma SuccFound(code: int -> int, L: Listing, E: Links, C: Counts, G: Regions, bbMap: map<int, Block>,
                  insMap: map<int, Block>, b: Block, a: int)
    requires StoreOk(code, L, E, C, G, bbMap, insMap) && b in E.succsMap && a in E.succsMap[b]
    ensures E.succsMap[b][a] in L.entryAddr && Entry(L.entryAddr, E.succsMap[b][a]) == a
    ensures Edge(E.succs, b, E.succsMap[b][a])
  {
    hide CodeOk, FlowOk, CountsOk, FlagsOk, RegionsOk, Contains, IndexOk;
    assert Finds(E.succsMap, b, a, E.succsMap[b][a]);
  }

  /** b has just reached its end with control going to pc: it may be linked to any block at pc. */
  ghost predicate Leaving(L: Listing, E: Links, b: Block, pc: int) {
    && b in L.entryAddr && CanGo(Code(L.vecIns, b), pc) && AllEnded(L)
    && (b in L.readOnly || forall y :: !Edge(E.succs, b, y))
  }

  lemma LeavingLinks(L: Listing, E: Links, b: Block, pc: int, x: Block)
    requires Leaving(L, E, b, pc) && x in L.entryAddr && Entry(L.entryAddr, x) == pc
    ensures MayLink(L, E, b, x) && |Code(L.vecIns, b)| > 0
  {
    hide EndsInTransfer, Edge, Follows;
  }

  /** The current block was not the one that was split. */
  lemma LeavingStill(L: Listing, E: Links, b: Block, pc: int, s: Block, n: Block, L': Listing, E': Links)
    requires Leaving(L, E, b, pc) && b != s && n !in L.entryAddr && AllEnded(L')
    requires EntriesKept(L.entryAddr, L'.entryAddr)
    requires forall x :: x != s && x != n ==>
      Code(L'.vecIns, x) == Code(L.vecIns, x) && (x in L'.readOnly <==> x in L.readOnly)
    requires forall x, y :: x != s && x != n ==> (Edge(E'.succs, x, y) <==> Edge(E.succs, x, y))
    ensures Leaving(L', E', b, pc)
  {
    hide CanGo, AllEnded, Entry, Edge, Code;
  }

  /** b has the edge to the block at pc already. */
  ghost predicate Knows(E: Links, b: Block, pc: int) {
    exists x :: Finds(E.succsMap, b, pc, x)
  }

  /** What the recorder has collected. */
  datatype Tape = Tape(on: bool, head: Option<Block>, pos: int, cache: seq<Option<Block>>)

  ghost function FinderState(f: RegionFinder): Tape
    reads f
  {
    Tape(f.enHistCollection, f.currRegionHead, f.histBufPos, f.blockCache)
  }

  datatype StoreValue = StoreValue(L: Listing, E: Links, C: Counts, G: Regions, bbMap: map<int, Block>,
    insMap: map<int, Block>, tape: Tape)

  ghost function StoreState(bs: BlockStore): StoreValue
    reads bs, bs.finder
  {
    StoreValue(bs.listing, bs.links, bs.counts, bs.regions, bs.bbMap, bs.insMap, FinderState(bs.finder))
  }

  ghost predicate Unchanged(v: StoreValue, w: StoreValue) {
    v == w
  }

  lemma KnowsIs(E: Links, b: Block, pc: int)
    requires Knows(E, b, pc)
    ensures b in E.succsMap && pc in E.succsMap[b]
  {
  }

  lemma FoundKnown(E: Links, b: Block, pc: int)
    ensures forall x :: Finds(E.succsMap, b, pc, x) ==> Knows(E, b, pc) && E.succsMap[b][pc] == x
  {
  }

  lemma NotKnown(E: Links, b: Block, pc: int)
    requires !Knows(E, b, pc) && b in E.succsMap
    ensures pc !in E.succsMap[b]
  {
    if pc in E.succsMap[b] {
      assert Finds(E.succsMap, b, pc, E.succsMap[b][pc]);
    }
  }

  /** b has no instructions and no edges, and no block has any: nothing has been built. */
  ghost predicate Idle(L: Listing, E: Links, insMap: map<int, Block>, b: Block) {
    b in L.entryAddr && Code(L.vecIns, b) == [] && (forall y :: !Edge(E.succs, b, y)) && insMap == map[]
  }

  lemma IdleKnowsNothing(code: int -> int, L: Listing, E: Links, C: Counts, G: Regions, bbMap: map<int, Block>,
                         insMap: map<int, Block>, b: Block, x: Block)
    requires StoreOk(code, L, E, C, G, bbMap, insMap) && Idle(L, E, insMap, b)
    ensures b in L.entryAddr && insMap == map[] && !Accepts(L, E, b, x)
  {
    hide StoreOk, EndsInTransfer, Edge;
  }

  /** findBlock on b: the block that starts at pc, by splitting one in the middle if need be; spare is the object a
      split allocates. It fails where nothing has been built and a block starts at pc. */
  method FindBlock(bs: BlockStore, b: Block, pc: int, spare: Block) returns (f: Option<Block>, ok: bool)
    requires bs.Valid()
    requires Knows(bs.links, b, pc)
             || ((Leaving(bs.listing, bs.links, b, pc) || Idle(bs.listing, bs.links, bs.insMap, b))
                && spare !in bs.listing.entryAddr)
    modifies bs, bs.finder
    ensures ok <==> old(Knows(bs.links, b, pc) || Leaving(bs.listing, bs.links, b, pc)) || pc !in old(bs.bbMap)
    ensures ok ==> bs.Valid() && Grown(old(bs.listing), old(bs.bbMap), bs.listing, bs.bbMap)
    ensures ok && old(AllEnded(bs.listing)) ==> AllEnded(bs.listing)
    ensures old(Knows(bs.links, b, pc)) ==> f.Some? && Unchanged(old(StoreState(bs)), StoreState(bs))
    ensures forall x :: Finds(old(bs.links).succsMap, b, pc, x) ==> f == Some(x)
    ensures ok ==>
            match f
            case Some(x) =>
              x in bs.listing.entryAddr && Entry(bs.listing.entryAddr, x) == pc && Edge(bs.links.succs, b, x)
            case None =>
              && pc !in bs.bbMap && bs.listing == old(bs.listing) && bs.links == old(bs.links)
              && bs.bbMap == old(bs.bbMap) && bs.counts == old(bs.counts)
    ensures ok ==> CountsMoved(old(bs.counts), spare, bs.counts)
    ensures ok && bs.listing == old(bs.listing) ==> bs.regions == old(bs.regions)
    ensures ok ==> (f.None? <==> !old(Knows(bs.links, b, pc)) && pc !in old(bs.bbMap) && pc !in old(bs.insMap))
    ensures ok && f.Some? && !old(Knows(bs.links, b, pc)) ==> f.value == if pc in old(bs.bbMap) then old(bs.bbMap)[pc]
      else spare
    ensures ok ==> forall x :: x in bs.listing.entryAddr && x !in old(bs.listing).entryAddr ==>
      x == spare && x in bs.listing.readOnly
    ensures ok && bs.finder.enHistCollection ==>
      MoreEdges(old(bs.links), bs.links) && FinderState(bs.finder) == old(FinderState(bs.finder))
    ensures ok ==> bs.insMap.Keys == old(bs.insMap).Keys
    ensures ok ==> CodeKept(old(bs.listing), old(bs.regions), bs.listing, bs.regions)
  {
    hide StoreOk, MayLink, Leaving, AllEnded, Grown, MoreEdges, Inside, Unique, Edge, Entry, Dom, Contains, WithEdge,
         SplitAt, Without, Knows, Finds, CodeKept, Dropped, KeysOk, Idle, Accepts, CountsMoved;
    CountsMovedLess(bs.counts, spare);
    ghost var leaving := Leaving(bs.listing, bs.links, b, pc);
    StoreInside(bs.code, bs.listing, bs.links, bs.counts, bs.regions, bs.bbMap, bs.insMap);
    FoundKnown(bs.links, b, pc);
    if Knows(bs.links, b, pc) {
      KnowsIs(bs.links, b, pc);
    } else {
      if leaving {
        LeavingIn(bs.listing, bs.links, b, pc);
      } else {
        IdleKnowsNothing(bs.code, bs.listing, bs.links, bs.counts, bs.regions, bs.bbMap, bs.insMap, b, b);
      }
      InsideAt(bs.listing, bs.links, b);
      NotKnown(bs.links, b, pc);
    }
    GrownRefl(bs.listing, bs.bbMap);
    MoreRefl(bs.links);
    CodeKeptRefl(bs.listing, bs.regions);
    if pc in bs.links.succsMap[b] {
      SuccFound(bs.code, bs.listing, bs.links, bs.counts, bs.regions, bs.bbMap, bs.insMap, b, pc);
      f, ok := Some(bs.links.succsMap[b][pc]), true;
    } else if pc in bs.bbMap {
      var x := bs.bbMap[pc];
      BbFound(bs.code, bs.listing, bs.links, bs.counts, bs.regions, bs.bbMap, bs.insMap, pc);
      InsideAt(bs.listing, bs.links, x);
      EntryIs(bs.listing.entryAddr, x);
      if leaving {
        LeavingLinks(bs.listing, bs.links, b, pc, x);
        LinkMore(bs.links, b, x, bs.listing.entryAddr[x]);
      } else {
        IdleKnowsNothing(bs.code, bs.listing, bs.links, bs.counts, bs.regions, bs.bbMap, bs.insMap, b, x);
      }
      f := Some(x);
      ok := bs.AddSuccessor(b, x);
    } else if pc in bs.insMap {
      ok := SplitFor(bs, b, pc, spare);
      f := Some(spare);
    } else {
      f, ok := None, true;
    }
  }

  /** The last case of findBlock: pc is inside a block, which is split there. */
  method SplitFor(bs: BlockStore, b: Block, pc: int, spare: Block) returns (ok: bool)
    requires bs.Valid() && Leaving(bs.listing, bs.links, b, pc) && spare !in bs.listing.entryAddr
    requires pc !in bs.bbMap && pc in bs.insMap
    modifies bs, bs.finder
    ensures bs.Valid() && ok && Grown(old(bs.listing), old(bs.bbMap), bs.listing, bs.bbMap) && AllEnded(bs.listing)
    ensures spare in bs.listing.entryAddr && Entry(bs.listing.entryAddr, spare) == pc && Edge(bs.links.succs, b, spare)
    ensures forall x :: x in bs.listing.entryAddr && x !in old(bs.listing).entryAddr ==>
      x == spare && x in bs.listing.readOnly
    ensures bs.insMap.Keys == old(bs.insMap).Keys
    ensures !bs.finder.enHistCollection && CodeKept(old(bs.listing), old(bs.regions), bs.listing, bs.regions)
    ensures CountsMoved(old(bs.counts), spare, bs.counts)
  {
    hide StoreOk, MayLink, Leaving, AllEnded, Grown, Inside, Unique, Edge, Entry, Dom, Contains, WithEdge, SplitAt,
         Without, CodeKept, Dropped, KeysOk, Accepts, CountsMoved;
    StoreInside(bs.code, bs.listing, bs.links, bs.counts, bs.regions, bs.bbMap, bs.insMap);
    LeavingIn(bs.listing, bs.links, b, pc);
    ghost var L, E := bs.listing, bs.links;
    var sBB := bs.insMap[pc];
    InsFound(bs.code, bs.listing, bs.links, bs.counts, bs.regions, bs.bbMap, bs.insMap, pc);
    EndedAt(bs.listing, sBB);
    bs.Split(sBB, pc, spare);
    CountsMovedBy(L, E, old(bs.counts), sBB, pc, spare, bs.listing, bs.links, bs.counts);
    SplitResult(L, E, old(bs.counts), old(bs.bbMap), sBB, pc, spare, bs.listing, bs.links, bs.counts, bs.bbMap);
    SplitKeepsCompiled(bs.code, L, E, old(bs.counts), old(bs.regions), old(bs.bbMap), old(bs.insMap), sBB, pc, spare,
      bs.listing, bs.links, bs.counts, bs.regions);
    if b == sBB {
      EdgeMayLink(bs.code, bs.listing, bs.links, bs.counts, bs.regions, bs.bbMap, bs.insMap, b, spare);
    } else {
      LeavingStill(L, E, b, pc, sBB, spare, bs.listing, bs.links);
      LeavingLinks(bs.listing, bs.links, b, pc, spare);
    }
    MayLinkParts(bs.listing, bs.links, b, spare);
    StoreInside(bs.code, bs.listing, bs.links, bs.counts, bs.regions, bs.bbMap, bs.insMap);
    InsideAt(bs.listing, bs.links, b);
    InsideAt(bs.listing, bs.links, spare);
    LinkMore(bs.links, b, spare, bs.listing.entryAddr[spare]);
    ok := bs.AddSuccessor(b, spare);
  }

  lemma MoreRefl(E: Links)
    ensures MoreEdges(E, E)
  {
  }

  lemma LeavingIn(L: Listing, E: Links, b: Block, pc: int)
    requires Leaving(L, E, b, pc)
    ensures b in L.entryAddr && AllEnded(L) && CanGo(Code(L.vecIns, b), pc)
  {
    hide AllEnded, CanGo;
  }

  lemma EndedAt(L: Listing, x: Block)
    requires AllEnded(L) && x in L.entryAddr
    ensures x in L.readOnly || EndsInTransfer(Code(L.vecIns, x))
  {
  }

  lemma MayLinkParts(L: Listing, E: Links, b: Block, x: Block)
    requires MayLink(L, E, b, x)
    ensures b in L.entryAddr && x in L.entryAddr && |Code(L.vecIns, b)| > 0
  {
    hide EndsInTransfer, Follows;
  }
}
