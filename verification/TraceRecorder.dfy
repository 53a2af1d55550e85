/** The trace recorder: it notices hot loop heads, and collects the blocks executed from one visit of a head to the
    next. */
module TraceRecorder {
  import opened Graphs
  import opened Rv32
  import opened BlockHeap

  const NREGIONHEADS: int := 1024

  /** A walk along current edges that starts at h and does not come back to it. */
  ghost predicate Walk(succs: map<Block, set<Block>>, h: Block, t: seq<Block>) {
    && |t| > 0 && t[0] == h
    && (forall i :: 0 < i < |t| ==> t[i] != h)
    && forall i, j :: 0 <= i < j < |t| && j == i + 1 ==> Edge(succs, t[i], t[j])
  }

  /** A walk that can be closed by the edge back to h. */
  ghost predicate ClosedWalk(succs: map<Block, set<Block>>, h: Block, t: seq<Block>) {
    Walk(succs, h, t) && Edge(succs, t[|t| - 1], h)
  }

  /** While collecting, the buffered blocks are a walk from the head, and next is where it goes on. */
  ghost predicate OnTrack(succs: map<Block, set<Block>>, h: Block, t: seq<Block>, next: Block) {
    if t == [] then next == h else Walk(succs, h, t) && Edge(succs, t[|t| - 1], next)
  }

  lemma WalkMore(succs: map<Block, set<Block>>, h: Block, t: seq<Block>, b: Block)
    requires OnTrack(succs, h, t, b) && (t != [] ==> b != h)
    ensures Walk(succs, h, t + [b])
  {
    hide Edge;
  }

  /** More edges do not spoil a walk. */
  lemma WalkKept(succs: map<Block, set<Block>>, succs': map<Block, set<Block>>, h: Block, t: seq<Block>)
    requires forall x, y :: Edge(succs, x, y) && x in t ==> Edge(succs', x, y)
    ensures Walk(succs, h, t) ==> Walk(succs', h, t)
    ensures ClosedWalk(succs, h, t) ==> ClosedWalk(succs', h, t)
    ensures forall n :: OnTrack(succs, h, t, n) ==> OnTrack(succs', h, t, n)
  {
    hide Edge;
  }

  function Front(cache: seq<Option<Block>>, n: int): (t: seq<Block>)
    requires 0 <= n <= |cache| && forall i :: 0 <= i < n ==> cache[i].Some?
    ensures |t| == n && forall i :: 0 <= i < n ==> cache[i] == Some(t[i])
  {
    seq(n, i requires 0 <= i < n => cache[i].value)
  }

  // ---------- the slots of the table of heads ----------

  /** What happens to the slot of an entry address: a counted visit to a block there, or its being freed. */
  datatype Event = Visit(block: Block, ea: int) | Freed(ea: int)

  /** Two entry addresses share a slot exactly if their words are a multiple of 1024 words apart. */
  predicate SameSlot(a: int, c: int) {
    (a / 4 - c / 4) % 1024 == 0
  }

  function ComputeIndex(pc: int): (i: int)
    ensures 0 <= i < NREGIONHEADS
  {
    (pc / 4) % NREGIONHEADS
  }

  lemma SlotsDiffer(a: int, c: int)
    ensures ComputeIndex(a) == ComputeIndex(c) <==> SameSlot(a, c)
  {
  }

  /** How often b has been visited in the slot of ea since it was last visited for another block or freed. */
  function Row(log: seq<Event>, b: Block, ea: int): nat {
    if log == [] then 0 else
      var rest, e := log[..|log| - 1], log[|log| - 1];
      if !SameSlot(e.ea, ea) then Row(rest, b, ea)
      else if e.Visit? && e.block == b then Row(rest, b, ea) + 1
      else 0
  }

  /** From place p of the log on the slot of ea has been visited for b only, and what came before p, if anything, was
      another event of the slot. */
  predicate Since(log: seq<Event>, b: Block, ea: int, p: nat) {
    && p <= |log|
    && (p > 0 ==> SameSlot(log[p - 1].ea, ea) && !(log[p - 1].Visit? && log[p - 1].block == b))
    && forall i :: p <= i < |log| && SameSlot(log[i].ea, ea) ==> log[i].Visit? && log[i].block == b
  }

  /** The events of the slot of ea from place p on. */
  ghost function InSlot(log: seq<Event>, ea: int, p: nat): set<nat> {
    set i: nat | p <= i < |log| && SameSlot(log[i].ea, ea)
  }

  /** The count of a row is the number of visits since the last event of the slot that was something else. */
  lemma {:induction false} RowCounts(log: seq<Event>, b: Block, ea: int, p: nat)
    requires Since(log, b, ea, p)
    ensures Row(log, b, ea) == |InSlot(log, ea, p)|
    decreases |log|
  {
    if p == |log| {
      assert InSlot(log, ea, p) == {};
    } else {
      var n := |log| - 1;
      var rest := log[..n];
      assert forall i: nat :: i < n ==> rest[i] == log[i];
      assert Since(rest, b, ea, p);
      RowCounts(rest, b, ea, p);
      hide SameSlot;
      if SameSlot(log[n].ea, ea) {
        assert InSlot(log, ea, p) == InSlot(rest, ea, p) + {n};
        assert n !in InSlot(rest, ea, p);
      } else {
        assert InSlot(log, ea, p) == InSlot(rest, ea, p);
      }
    }
  }

  lemma {:induction false} RowStarts(log: seq<Event>, b: Block, ea: int)
    ensures exists p: nat :: Since(log, b, ea, p)
    decreases |log|
  {
    if log == [] {
      assert Since(log, b, ea, 0);
    } else {
      var n := |log| - 1;
      var rest := log[..n];
      RowStarts(rest, b, ea);
      var p: nat :| Since(rest, b, ea, p);
      assert forall i: nat :: i < n ==> rest[i] == log[i];
      if SameSlot(log[n].ea, ea) && !(log[n].Visit? && log[n].block == b) {
        assert Since(log, b, ea, n + 1);
      } else {
        assert Since(log, b, ea, p);
      }
    }
  }

  lemma RowMore(log: seq<Event>, e: Event, b: Block, ea: int)
    ensures Row(log + [e], b, ea)
         == if !SameSlot(e.ea, ea) then Row(log, b, ea)
            else if e.Visit? && e.block == b then Row(log, b, ea) + 1 else 0
  {
    assert (log + [e])[..|log|] == log;
  }

  /** The table holds a block in a slot exactly if it was visited there last, and with the count of its row. */
  ghost predicate Tracks(heads: seq<Option<Block>>, counts: seq<int>, log: seq<Event>) {
    && |heads| == |counts| == NREGIONHEADS
    && forall b, ea ::
         && (heads[ComputeIndex(ea)] == Some(b) <==> Row(log, b, ea) > 0)
         && (heads[ComputeIndex(ea)] == Some(b) ==> counts[ComputeIndex(ea)] == Row(log, b, ea))
  }

  lemma TracksVisit(heads: seq<Option<Block>>, counts: seq<int>, log: seq<Event>, b: Block, ea: int)
    requires Tracks(heads, counts, log)
    ensures var i := ComputeIndex(ea);
            Tracks(heads[i := Some(b)], counts[i := if heads[i] == Some(b) then counts[i] + 1 else 1],
                   log + [Visit(b, ea)])
  {
    hide Row, ComputeIndex, SameSlot;
    var i := ComputeIndex(ea);
    var heads', counts' := heads[i := Some(b)], counts[i := if heads[i] == Some(b) then counts[i] + 1 else 1];
    forall x, a
      ensures heads'[ComputeIndex(a)] == Some(x) <==> Row(log + [Visit(b, ea)], x, a) > 0
      ensures heads'[ComputeIndex(a)] == Some(x) ==> counts'[ComputeIndex(a)] == Row(log + [Visit(b, ea)], x, a)
    {
      RowMore(log, Visit(b, ea), x, a);
      SlotsDiffer(ea, a);
    }
  }

  lemma TracksFreed(heads: seq<Option<Block>>, counts: seq<int>, log: seq<Event>, ea: int, n: int)
    requires Tracks(heads, counts, log)
    ensures Tracks(heads[ComputeIndex(ea) := None], counts[ComputeIndex(ea) := n], log + [Freed(ea)])
  {
    hide Row, ComputeIndex, SameSlot;
    var i := ComputeIndex(ea);
    forall x, a
      ensures heads[i := None][ComputeIndex(a)] == Some(x) <==> Row(log + [Freed(ea)], x, a) > 0
      ensures heads[i := None][ComputeIndex(a)] == Some(x) ==>
                counts[i := n][ComputeIndex(a)] == Row(log + [Freed(ea)], x, a)
    {
      RowMore(log, Freed(ea), x, a);
      SlotsDiffer(ea, a);
    }
  }

  class RegionFinder {
    const numEntries: int
    const hotThresh: int
    var blockCache: seq<Option<Block>>
    var regionHeads: seq<Option<Block>>
    var regionCounts: seq<int>
    var enHistCollection: bool
    var histBufPos: int
    var tooLongAborts: int
    var currRegionHead: Option<Block>
    // all counted visits so far, and when slots were freed
    ghost var log: seq<Event>

    constructor (lgNumEntries: nat, hotThresh: int)
      ensures numEntries == Pow2(lgNumEntries) && this.hotThresh == hotThresh && Valid() && !enHistCollection
      ensures tooLongAborts == 0 && log == []
    {
      Pow2Positive(lgNumEntries);
      numEntries, this.hotThresh := Pow2(lgNumEntries), hotThresh;
      blockCache := seq(Pow2(lgNumEntries), i => None);
      regionHeads := seq(NREGIONHEADS, i => None);
      regionCounts := seq(NREGIONHEADS, i => 0);
      log := [];
      enHistCollection, histBufPos, tooLongAborts, currRegionHead := false, 0, 0, None;
    }

    /** The buffers have their sizes, while collecting there is a head and every buffered entry is a block, and the
        table of heads follows the log. */
    ghost predicate Valid()
      reads this
    {
      && 0 < numEntries == |blockCache|
      && 0 <= histBufPos < numEntries
      && (enHistCollection ==> currRegionHead.Some?)
      && (currRegionHead.Some? ==> forall i :: 0 <= i < histBufPos ==> blockCache[i].Some?)
      && Tracks(regionHeads, regionCounts, log)
    }

    /** b closes the walk that is being recorded. */
    ghost predicate Closes(b: Block)
      reads this
    {
      enHistCollection && currRegionHead == Some(b) && histBufPos != 0
    }

    /** The blocks collected so far. */
    ghost function Collected(): (t: seq<Block>)
      requires Valid() && currRegionHead.Some?
      reads this
      ensures |t| == histBufPos
    {
      Front(blockCache, histBufPos)
    }

    /** bb counts as visited unless it starts behind lbb. Collecting starts at the visit that is the hotThresh-th, and
        at least the second, since the slot was visited for another block or freed. */
    method UpdateRegionHeads(bb: Block, lbb: Block, bbEa: int, lbbEa: int)
      requires Valid()
      modifies this
      ensures Valid() && blockCache == old(blockCache) && tooLongAborts == old(tooLongAborts)
      ensures bbEa > lbbEa || old(enHistCollection) ==>
        && enHistCollection == old(enHistCollection) && currRegionHead == old(currRegionHead)
           && histBufPos == old(histBufPos)
        && regionHeads == old(regionHeads) && regionCounts == old(regionCounts) && log == old(log)
      ensures bbEa <= lbbEa && !old(enHistCollection) ==>
        var count := Row(old(log), bb, bbEa) + 1;
        && enHistCollection == (count >= 2 && count >= hotThresh)
        && log == old(log) + [Visit(bb, bbEa)] + (if enHistCollection then [Freed(bbEa)] else [])
        && currRegionHead == (if enHistCollection then Some(bb) else old(currRegionHead))
        && histBufPos == (if enHistCollection then 0 else old(histBufPos))
    {
      hide Row, ComputeIndex;
      if bbEa > lbbEa || enHistCollection {
        return;
      }
      var idx := ComputeIndex(bbEa);
      TracksVisit(regionHeads, regionCounts, log, bb, bbEa);
      ghost var row := Row(log, bb, bbEa);
      log := log + [Visit(bb, bbEa)];
      if regionHeads[idx] == Some(bb) {
        assert regionHeads[idx := Some(bb)] == regionHeads;
        regionCounts := regionCounts[idx := regionCounts[idx] + 1];
        if regionCounts[idx] >= hotThresh {
          enHistCollection := true;
          currRegionHead := Some(bb);
          histBufPos := 0;
          TracksFreed(regionHeads, regionCounts, log, bbEa, regionCounts[idx]);
          assert regionCounts[idx := regionCounts[idx]] == regionCounts;
          regionHeads := regionHeads[idx := None];
          log := log + [Freed(bbEa)];
        }
      } else {
        regionHeads := regionHeads[idx := Some(bb)];
        regionCounts := regionCounts[idx := 1];
      }
    }

    /** headEa is the entry address of the current head. */
    method DisableRegionCollection(headEa: int)
      requires Valid()
      modifies this
      ensures Valid() && !enHistCollection && blockCache == old(blockCache) && tooLongAborts == old(tooLongAborts)
      ensures old(enHistCollection) ==>
        currRegionHead == None && histBufPos == 0 && log == old(log) + [Freed(headEa)]
      ensures !old(enHistCollection) ==>
        && currRegionHead == old(currRegionHead) && histBufPos == old(histBufPos) && log == old(log)
        && regionCounts == old(regionCounts) && regionHeads == old(regionHeads)
    {
      hide Row, ComputeIndex;
      if enHistCollection {
        enHistCollection := false;
        if currRegionHead.Some? {
          var idx := ComputeIndex(headEa);
          TracksFreed(regionHeads, regionCounts, log, headEa, 0);
          regionCounts := regionCounts[idx := 0];
          regionHeads := regionHeads[idx := None];
          log := log + [Freed(headEa)];
        }
        currRegionHead := None;
        histBufPos := 0;
      }
    }

    /** Hands out the collected blocks. */
    method GetRegion(headEa: int) returns (region: seq<Block>)
      requires Valid() && currRegionHead.Some? && !enHistCollection
      modifies this
      ensures Valid() && !enHistCollection && currRegionHead == None && histBufPos == 0
      ensures region == old(Collected())
      ensures blockCache == old(blockCache) && tooLongAborts == old(tooLongAborts) && log == old(log) + [Freed(headEa)]
    {
      hide Row, ComputeIndex;
      var idx := ComputeIndex(headEa);
      region := [];
      for i := 0 to histBufPos
        modifies {}
        invariant |region| == i && forall j :: 0 <= j < i ==> blockCache[j] == Some(region[j])
      {
        region := region + [blockCache[i].value];
      }
      histBufPos := 0;
      currRegionHead := None;
      TracksFreed(regionHeads, regionCounts, log, headEa, 0);
      regionCounts := regionCounts[idx := 0];
      regionHeads := regionHeads[idx := None];
      log := log + [Freed(headEa)];
    }

    /** bb is about to run. True when it closes the walk; otherwise it joins the walk, unless the buffer is full. */
    method Update(bb: Block, ghost succs: map<Block, set<Block>>) returns (done: bool)
      requires Valid()
      requires enHistCollection ==> OnTrack(succs, currRegionHead.value, Collected(), bb)
      modifies this
      ensures Valid() && currRegionHead == old(currRegionHead)
      ensures regionHeads == old(regionHeads) && regionCounts == old(regionCounts) && log == old(log)
      ensures done <==> old(Closes(bb))
      ensures done ==>
        !enHistCollection && Collected() == old(Collected()) && ClosedWalk(succs, bb, Collected())
        && |Collected()| < numEntries
      ensures enHistCollection <==> old(enHistCollection) && !done && old(histBufPos) < numEntries - 1
      ensures enHistCollection ==>
        Collected() == old(Collected()) + [bb] && Walk(succs, currRegionHead.value, Collected())
      ensures enHistCollection ==> histBufPos > 0 && Collected()[histBufPos - 1] == bb
      ensures tooLongAborts == old(tooLongAborts) + if old(enHistCollection) && !done && !enHistCollection then 1 else 0
    {
      hide Walk, Edge, Tracks;
      if enHistCollection {
        if Some(bb) == currRegionHead && histBufPos != 0 {
          enHistCollection := false;
          return true;
        } else if histBufPos == numEntries - 1 {
          tooLongAborts := tooLongAborts + 1;
          enHistCollection := false;
          return false;
        } else {
          WalkMore(succs, currRegionHead.value, Collected(), bb);
          blockCache := blockCache[histBufPos := Some(bb)];
          histBufPos := histBufPos + 1;
          assert Collected() == old(Collected()) + [bb];
          return false;
        }
      }
      return false;
    }
  }
}
