/** The program as a whole: main with the translator on, and with plain interpretation. */
module Simulator {
  import opened Graphs
  import opened Rv32
  import opened TraceRecorder
  import opened BlockHeap
  import opened BlockStores
  import opened CompiledCode
  import opened PlainMode
  import opened Dispatcher
  import opened Augmentation
  import RegionBuilder
  import SsaForm

  /** main with the translator on, from the first instruction of a tame guest: whatever the thresholds of the recorder
      and the augmentation of regions are, it takes the steps of plain interpretation, stops the guest only where plain
      interpretation stops it, and, given enough dispatches and blocks to each, stops it there unless it dies. It dies
      only over a word without translation, or, with augmentation, over a block that has been split since compiled code
      was made from it. spares are the objects that the allocator hands out, one a dispatch. */
  method Simulate(ghost code: int -> int, lgNumEntries: nat, hotThresh: int, enoughRegions: int, key: seq<Block> -> int,
                  aug: CfgAug, s0: State, first: Block, spares: seq<Block>, fuel: nat)
    returns (s: State, o: Outcome, ghost n: nat)
    requires Tame(code, {}, s0) && Sane(s0) && !s0.brk
    requires first !in spares && forall j, k :: 0 <= j < k < |spares| ==> spares[j] != spares[k]
    ensures InterpretN(s0, n) == Some(s)
    ensures s.brk ==> Halts(s0, n)
    ensures !s.brk && (o.Went? || o.MustBuild?) ==> n >= |spares|
    ensures StopsInTime(s0, s, n, o, |spares|, fuel)
    ensures o.InRegion? ==> StillInside(s, o.at, fuel)
    ensures o.Died? ==> exists a :: 0 <= a < WORD && HasNoTranslation(code(a))
    ensures o.DiedAtLink? ==> !aug.NoAug? && !s.brk && Jumped(s0, n)
  {
    hide Tame, Interpret, InterpretN, StillInside, Jumped, StopsInTime, AtBlock, CplrOk, OnTape, StoreOk, KeysOk, Sane,
         Halts, Tracks,
         Untranslatable, HasNoTranslation;
    SanePc(s0);
    var finder := new RegionFinder(lgNumEntries, hotThresh);
    var m := new Machine(code, finder, key, enoughRegions, aug, s0, first);
    TapeOff(finder, m.bs.links.succs, m.cBB);
    o, n := m.Dispatch(spares, fuel);
    s := m.s;
    if o.Died? {
      ghost var a := WhyDied(code, m.bs.listing, m.bs.links, m.bs.counts, m.bs.regions, m.bs.bbMap, m.bs.insMap);
    }
  }

  /** A word that the interpreter executes and goes on, and the compiler does not translate: a fence, a write to x0, or
      a system instruction that does not stop the machine. */
  predicate HasNoTranslation(w: int) {
    Normal(w) && !SsaForm.Translatable(Decode(w).value)
  }

  /** The compiler only dies on such a word. */
  lemma WhyDied(code: int -> int, L: Listing, E: Links, C: Counts, G: Regions, bbMap: map<int, Block>,
                insMap: map<int, Block>)
    returns (a: int)
    requires StoreOk(code, L, E, C, G, bbMap, insMap) && Untranslatable(L)
    ensures 0 <= a < WORD && HasNoTranslation(code(a))
  {
    hide EdgesOk, FlowOk, IndexOk, CountsOk, FlagsOk, RegionsOk, SolidOk, CodeOk, Decode, SsaForm.Translatable;
    var x :| x in L.readOnly && !RegionBuilder.CanTranslate(Code(L.vecIns, x));
    ReadOnlyInside(code, L.entryAddr, L.vecIns, L.termAddr, L.readOnly);
    SizedAt(code, L.entryAddr, L.vecIns, L.termAddr, L.readOnly, x);
    var v := Code(L.vecIns, x);
    var i :| 0 <= i < |v| && !(Decode(v[i].0).Some? && SsaForm.Translatable(Decode(v[i].0).value));
    a := AddrOf(Entry(L.entryAddr, x), i);
    assert Normal(v[i].0);
  }

  /** The first transfer of control among n steps. */
  lemma {:induction false} FirstTransfer(s: State, n: nat) returns (k: nat)
    requires InterpretN(s, n).Some? && !StraightLine(s, n)
    ensures k < n && StraightLine(s, k) && InterpretN(s, k).Some? && TransfersAt(InterpretN(s, k).value)
    ensures InterpretN(s, k + 1).Some?
  {
    hide Interpret, TransfersAt;
    if StraightLine(s, n - 1) {
      k := n - 1;
    } else {
      k := FirstTransfer(s, n - 1);
    }
  }

  /** Where interpretation stops the machine after n steps and max_icnt leaves room for them, the plain loop stops it in
      the same state if none of the steps transfers control, and otherwise throws. */
  lemma PlainStops(s: State, n: nat, maxIcnt: int, e: PlainEnd, m: nat, t: State)
    requires Halts(s, n) && PlainRun(s, maxIcnt, e, m, t) && 0 <= s.icnt && s.icnt + n <= maxIcnt < DWORD
    ensures if StraightLine(s, n) then e.Ended? && InterpretN(s, n) == Some(t) else e.Threw?
  {
    hide InterpretN, PlainN, Interpret, TransfersAt;
    var k := n;
    if !StraightLine(s, n) {
      k := FirstTransfer(s, n);
    }
    forall j | 0 <= j <= k
      ensures PlainN(s, j).Some? && PlainN(s, j) == InterpretN(s, j)
      ensures (j < n ==> Continues(InterpretN(s, j).value, maxIcnt))
    {
      assert StraightLine(s, j);
      PlainExact(s, j);
      CountOf(s, j);
    }
    if k == n {
      PlainRunOnce(s, maxIcnt, e, m, t, Ended, n, InterpretN(s, n).value);
    } else {
      NextOf(s, k);
      PlainRunOnce(s, maxIcnt, e, m, t, Threw, k, InterpretN(s, k + 1).value);
    }
  }

  lemma NextOf(s: State, k: nat)
    requires InterpretN(s, k).Some?
    ensures InterpretN(s, k + 1) == Interpret(InterpretN(s, k).value)
  {
    hide Interpret;
  }

  /** Both loops of main, on the same guest. If the translator stops it after n instructions, the plain loop stops it in
      the same state if none of them transfers control, and throws if one does. */
  method BothModes(ghost code: int -> int, lgNumEntries: nat, hotThresh: int, enoughRegions: int,
                   key: seq<Block> -> int, aug: CfgAug,
                   s0: State, first: Block, spares: seq<Block>, fuel: nat, spare: Block, maxIcnt: int)
    returns (translated: State, o: Outcome, ghost n: nat, plain: State, e: PlainEnd, ghost m: nat)
    requires Tame(code, {}, s0) && Sane(s0) && !s0.brk && 0 <= s0.icnt && 0 <= maxIcnt < DWORD && spare != first
    requires first !in spares && forall j, k :: 0 <= j < k < |spares| ==> spares[j] != spares[k]
    ensures InterpretN(s0, n) == Some(translated) && PlainRun(s0, maxIcnt, e, m, plain) && !e.GaveUp?
    ensures translated.brk && s0.icnt + n <= maxIcnt ==> if StraightLine(s0, n) then e.Ended? && plain == translated
      else e.Threw?
    ensures translated.brk && e.Ended? && plain.brk ==> plain == translated
  {
    hide Tame, Sane, Interpret, InterpretN, PlainN, StillInside, TransfersAt, StoreOk, KeysOk, AtBlock,
         AllBut, PlainRun, HasNoTranslation, CplrOk, Halts, StraightLine;
    translated, o, n := Simulate(code, lgNumEntries, hotThresh, enoughRegions, key, aug, s0, first, spares, fuel);
    SanePc(s0);
    var finder := new RegionFinder(lgNumEntries, hotThresh);
    var mach := new Machine(code, finder, key, enoughRegions, aug, s0, first);
    AtParts(mach.bs.listing, mach.cBB, mach.s.pc);
    e, m := mach.InterpretOnly(spare, maxIcnt);
    plain := mach.s;
    TamePlain(code, s0, maxIcnt, e, m, plain);
    if translated.brk {
      if s0.icnt + n <= maxIcnt {
        PlainStops(s0, n, maxIcnt, e, m, plain);
      }
      if e.Ended? && plain.brk {
        EndedHalts(s0, maxIcnt, m, plain);
        HaltsOnce(s0, m, n);
        PlainIs(s0, maxIcnt, e, m, plain);
      }
    }
  }

  /** The interpreter does not give up on a tame guest. */
  lemma TamePlain(code: int -> int, s: State, maxIcnt: int, e: PlainEnd, m: nat, t: State)
    requires Tame(code, {}, s) && PlainRun(s, maxIcnt, e, m, t)
    ensures !e.GaveUp?
  {
    hide Interpret, InterpretN, PlainN, TransfersAt;
    PlainExact(s, m);
    TameOn(code, {}, s, m);
    TameNow(code, {}, InterpretN(s, m).value);
  }

  lemma PlainIs(s: State, maxIcnt: int, e: PlainEnd, m: nat, t: State)
    requires PlainRun(s, maxIcnt, e, m, t) && e.Ended?
    ensures InterpretN(s, m) == Some(t)
  {
    hide Interpret, InterpretN, PlainN, TransfersAt;
    PlainExact(s, m);
  }

  lemma EndedHalts(s: State, maxIcnt: int, m: nat, t: State)
    requires PlainRun(s, maxIcnt, Ended, m, t) && t.brk
    ensures Halts(s, m)
  {
    hide Interpret, InterpretN, PlainN, TransfersAt;
    PlainExact(s, m);
    forall j | 0 <= j < m
      ensures InterpretN(s, j).Some? && !InterpretN(s, j).value.brk
    {
      PlainExact(s, j);
    }
  }
}
