/** The analyses of regionCFG over its blocks, and the fields of cfgBasicBlock they fill in.
    A field of all blocks is one map from blocks to values. */
module RegionCfgs {
  import opened Graphs
  import opened Frontiers
  import opened NaturalLoops
  import opened Vars

  class RegionCfg {
    const g: Graph
    var idom: map<Block, Block>
    var dtreeSuccs: map<Block, set<Block>>
    var dfrontier: map<Block, set<Block>>
    var dtDfn: map<Block, int>
    var dtMaxAncestorDfn: map<Block, int>
    var phis: map<Block, set<Var>>

    constructor (g: Graph)
      requires WellFormed(g)
      ensures this.g == g && dtDfn == map[] && dtMaxAncestorDfn == map[]
      ensures dfrontier == map b | b in g.nodes :: {}
      ensures phis == map b | b in g.nodes :: {}
    {
      this.g := g;
      idom, dtreeSuccs, dtDfn, dtMaxAncestorDfn := map[], map[], map[], map[];
      dfrontier := map b | b in g.nodes :: {};
      phis := map b | b in g.nodes :: {};
    }

    /** The dominator tree has been built. */
    ghost predicate HasDominators()
      reads this
    {
      WellFormed(g) && IsIdomMap(g, idom) && IsDTree(g, idom, dtreeSuccs)
    }

    // ---------- dominance frontiers ----------

    /** From the predecessor p up to the immediate dominator of cbb, cbb enters every frontier on the way. */
    method WalkUp(cbb: Block, p: Block)
      requires HasDominators() && cbb in g.nodes && p in Preds(g, cbb) && cbb in idom && dfrontier.Keys == g.nodes
      modifies this`dfrontier
      ensures dfrontier.Keys == g.nodes
      ensures forall x, y :: x in g.nodes ==>
        (y in dfrontier[x] <==>
          y in old(dfrontier)[x] || (y == cbb && Dominates(g, x, p) && !StrictlyDominates(g, x, cbb)))
    {
      hide WellFormed, Dominates, IsIdom, Reachable, IsDTree, StrictlyDominates, Walked;
      var stop := idom[cbb];
      var nbb := p;
      WalkStart(g, stop, cbb, p);
      while nbb != stop
        invariant nbb in g.nodes && Dominates(g, nbb, p) && Dominates(g, stop, nbb)
        invariant dfrontier.Keys == g.nodes
        invariant forall x, y :: x in g.nodes ==>
          (y in dfrontier[x] <==> y in old(dfrontier)[x] || (y == cbb && Walked(g, p, nbb, x)))
        decreases Doms(g, nbb)
      {
        WalkOn(g, idom, stop, nbb, p);
        forall x | x in g.nodes
          ensures Walked(g, p, idom[nbb], x) <==> Walked(g, p, nbb, x) || x == nbb
        {
          WalkStep(g, idom[nbb], p, nbb, x);
        }
        dfrontier := dfrontier[nbb := dfrontier[nbb] + {cbb}];
        nbb := idom[nbb];
      }
      forall x | x in g.nodes
        ensures Walked(g, p, stop, x) <==> Dominates(g, x, p) && !StrictlyDominates(g, x, cbb)
      {
        WalkDone(g, stop, p, cbb, x);
      }
    }

    /** cbb's entries in all frontiers. */
    method FrontiersOf(cbb: Block)
      requires HasDominators() && cbb in g.nodes && |Preds(g, cbb)| > 1 && dfrontier.Keys == g.nodes
      modifies this`dfrontier
      ensures dfrontier.Keys == g.nodes
      ensures forall x, y :: x in g.nodes ==>
        (y in dfrontier[x] <==> y in old(dfrontier)[x] || (y == cbb && InFrontier(g, x, cbb)))
    {
      JoinHasIdom(g, idom, cbb);
      hide WellFormed, Dominates, IsIdomMap, IsDTree, StrictlyDominates;
      var todo := Preds(g, cbb);
      while todo != {}
        invariant todo <= Preds(g, cbb) && dfrontier.Keys == g.nodes
        invariant forall x, y :: x in g.nodes ==>
          (y in dfrontier[x] <==> y in old(dfrontier)[x] || (y == cbb && Partial(g, cbb, todo, x)))
        decreases todo
      {
        var nbb, rest := Next(todo);
        WalkUp(cbb, nbb);
        forall x
          ensures Partial(g, cbb, rest, x) <==>
            Partial(g, cbb, todo, x) || (Dominates(g, x, nbb) && !StrictlyDominates(g, x, cbb))
        {
        }
        todo := rest;
      }
      forall x
        ensures Partial(g, cbb, {}, x) <==> InFrontier(g, x, cbb)
      {
      }
    }

    /** Only blocks with more than one predecessor are visited; the others are in no frontier. */
    method ComputeDominanceFrontiers()
      requires HasDominators() && dfrontier == map b | b in g.nodes :: {}
      modifies this`dfrontier
      ensures IsFrontierMap(g, dfrontier)
    {
      hide WellFormed, Dominates, IsIdomMap, IsDTree, InFrontier;
      var todo := g.nodes;
      while todo != {}
        invariant todo <= g.nodes && dfrontier.Keys == g.nodes
        invariant forall x, y :: x in g.nodes ==>
          (y in dfrontier[x] <==> y in g.nodes && y !in todo && InFrontier(g, x, y))
        decreases todo
      {
        var cbb;
        cbb, todo := Next(todo);
        if |Preds(g, cbb)| > 1 {
          FrontiersOf(cbb);
        } else {
          forall x | x in g.nodes
            ensures !InFrontier(g, x, cbb)
          {
            FewPreds(g, x, cbb);
          }
        }
      }
      forall x, y | InFrontier(g, x, y)
        ensures y in g.nodes
      {
        FrontierInNodes(g, x, y);
      }
    }

    // ---------- dominance by interval numbers ----------

    /** fastDominates: the constant-time test, by the intervals of numbers in the dominator tree. */
    function FastDominates(a: Block, b: Block): bool
      reads this
      requires a in dtDfn && b in dtDfn && a in dtMaxAncestorDfn
    {
      a == b || (dtDfn[a] < dtDfn[b] && dtMaxAncestorDfn[a] >= dtDfn[b])
    }

    /** Numbers the dominator subtree of bb, counting on from cnt. */
    method Number(bb: Block, cnt0: int) returns (cnt: int)
      requires HasDominators() && bb in g.nodes
      requires forall x :: x in Subtree(g, bb) ==> x !in dtDfn && x !in dtMaxAncestorDfn
      modifies this`dtDfn, this`dtMaxAncestorDfn
      ensures cnt0 < cnt && Numbered(g, bb, old(dtDfn), old(dtMaxAncestorDfn), dtDfn, dtMaxAncestorDfn, cnt0, cnt)
      decreases Subtree(g, bb)
    {
      hide WellFormed, IsIdomMap, IsDTree, Numbering, Numbered, Subtree;
      ghost var dfn0, max0 := dtDfn, dtMaxAncestorDfn;
      SubtreeSplit(g, idom, dtreeSuccs, bb);
      cnt := cnt0 + 1;
      dtDfn := dtDfn[bb := cnt];
      var todo := dtreeSuccs[bb];
      NumberingStart(g, bb, dfn0, max0, cnt);
      assert dtreeSuccs[bb] - todo == {};
      while todo != {}
        invariant todo <= dtreeSuccs[bb] && cnt0 < cnt
        invariant Numbering(g, bb, dtreeSuccs[bb] - todo, dfn0, max0, dtDfn, dtMaxAncestorDfn, cnt0 + 1, cnt)
        decreases todo
      {
        var nbb, rest := Next(todo);
        ghost var dfn, max, mid := dtDfn, dtMaxAncestorDfn, cnt;
        ghost var done := dtreeSuccs[bb] - todo;
        ChildApart(g, idom, dtreeSuccs, bb, done, nbb);
        NumberingFree(g, bb, done, nbb, dfn0, max0, dfn, max, cnt0 + 1, cnt);
        cnt := Number(nbb, cnt);
        assert dtreeSuccs[bb] - rest == done + {nbb};
        NumberingChild(g, bb, done, nbb, dfn0, max0, dfn, max, dtDfn, dtMaxAncestorDfn, cnt0 + 1, mid, cnt);
        todo := rest;
      }
      assert dtreeSuccs[bb] - todo == dtreeSuccs[bb];
      NumberingDone(g, bb, dtreeSuccs[bb], dfn0, max0, dtDfn, dtMaxAncestorDfn, cnt0 + 1, cnt);
      dtMaxAncestorDfn := dtMaxAncestorDfn[bb := cnt];
    }

    /** fastDominancePreComputation: numbers the whole dominator tree. */
    method FastDominancePreComputation()
      requires HasDominators() && dtDfn == map[] && dtMaxAncestorDfn == map[]
      modifies this`dtDfn, this`dtMaxAncestorDfn
      ensures dtDfn.Keys == g.nodes && dtMaxAncestorDfn.Keys == g.nodes
      ensures forall a, b :: a in g.nodes && b in g.nodes ==> (FastDominates(a, b) <==> Dominates(g, a, b))
    {
      WholeTree(g);
      var cnt := Number(g.entry, 0);
    }

    /** cfgBasicBlock::dominates, the walk up the dominator tree. */
    method DominatesWalk(a: Block, b: Block) returns (r: bool)
      requires HasDominators() && a in g.nodes && b in g.nodes
      ensures r <==> Dominates(g, a, b)
    {
      hide WellFormed, Dominates, IsDTree, IsIdomMap, IsIdom;
      if a == b {
        DomRefl(g, a);
        return true;
      }
      IdomOf(g, idom, a);
      IdomOf(g, idom, b);
      if b in idom && idom[b] == a {
        return true;
      }
      if a in idom && idom[a] == b {
        IdomNotBack(g, b, a);
        return false;
      }
      var at := b;
      while at in idom
        invariant at in g.nodes && at != a
        invariant Dominates(g, a, b) <==> Dominates(g, a, at)
        decreases Doms(g, at)
      {
        IdomOf(g, idom, at);
        Climb(g, idom[at], a, at);
        at := idom[at];
        if at == a {
          DomRefl(g, a);
          return true;
        } else if Preds(g, at) == {} {
          break;
        }
      }
      IdomOf(g, idom, at);
      return false;
    }

    // ---------- phi placement ----------

    /** addPhiNode: a block keeps at most one phi per register. */
    method AddPhiNode(b: Block, id: Var)
      requires b in phis
      modifies this`phis
      ensures phis == old(phis)[b := old(phis)[b] + {id}]
    {
      if id !in phis[b] {
        phis := phis[b := phis[b] + {id}];
      } else {
        assert phis[b] == phis[b] + {id};
      }
    }

    /** The frontier of one block taken off the worklist gets its phis, and its new blocks join the worklist. */
    method SpreadFrom(cbb: Block, id: Var, workList0: seq<Block>, checkSet0: set<Block>, ghost defs: set<Block>,
                      ghost placed0: set<Block>)
      returns (workList: seq<Block>, checkSet: set<Block>, ghost placed: set<Block>)
      requires FrontiersInside(g, dfrontier) && phis.Keys == g.nodes && cbb in g.nodes && cbb in defs + placed0
      requires Queued(g, workList0, checkSet0, defs, placed0) && Needed(dfrontier, defs, placed0)
      modifies this`phis
      ensures placed == placed0 + dfrontier[cbb] && Needed(dfrontier, defs, placed)
      ensures Queued(g, workList, checkSet, defs, placed)
      ensures checkSet0 <= checkSet && forall b :: b in checkSet && b !in checkSet0 ==> b in workList
      ensures forall b :: b in workList0 ==> b in workList
      ensures checkSet == checkSet0 ==> workList == workList0
      ensures phis == WithPhis(old(phis), dfrontier[cbb], id)
    {
      hide Needed, WithPhis;
      WithPhisNone(phis, id);
      assert dfrontier[cbb] - dfrontier[cbb] == {};
      workList, checkSet, placed := workList0, checkSet0, placed0;
      var todo := dfrontier[cbb];
      while todo != {}
        invariant todo <= dfrontier[cbb] && placed == placed0 + (dfrontier[cbb] - todo)
        invariant Queued(g, workList, checkSet, defs, placed)
        invariant checkSet0 <= checkSet && forall b :: b in checkSet && b !in checkSet0 ==> b in workList
        invariant forall b :: b in workList0 ==> b in workList
        invariant checkSet == checkSet0 ==> workList == workList0
        invariant phis.Keys == g.nodes && phis == WithPhis(old(phis), dfrontier[cbb] - todo, id)
        decreases todo
      {
        var dbb, rest := Next(todo);
        WithPhisOne(old(phis), dfrontier[cbb] - todo, dbb, id);
        AddPhiNode(dbb, id);
        assert dfrontier[cbb] - rest == dfrontier[cbb] - todo + {dbb};
        todo := rest;
        placed := placed + {dbb};
        if dbb !in checkSet {
          checkSet := checkSet + {dbb};
          workList := workList + [dbb];
        }
      }
      assert dfrontier[cbb] - todo == dfrontier[cbb];
      NeededMore(dfrontier, defs, placed0, cbb);
    }

    /** inducePhis: a phi of id goes into every block of the iterated dominance frontier of defs. */
    method InducePhis(defs: set<Block>, id: Var) returns (ghost placed: set<Block>)
      requires FrontiersInside(g, dfrontier) && phis.Keys == g.nodes && defs <= g.nodes
      modifies this`phis
      ensures placed <= g.nodes && IsIterated(dfrontier, defs, placed)
      ensures phis == WithPhis(old(phis), placed, id)
    {
      hide Needed, IsIterated, WithPhis;
      WithPhisNone(phis, id);
      placed := {};
      var workList: seq<Block>, checkSet: set<Block> := [], {};
      var todo := defs;
      while todo != {}
        invariant todo <= defs && checkSet == defs - todo && forall b :: b in workList <==> b in checkSet
        decreases todo
        modifies {}
      {
        var cbb;
        cbb, todo := Next(todo);
        workList := workList + [cbb];
        checkSet := checkSet + {cbb};
      }
      ghost var done := {};
      NeededNone(dfrontier, defs);
      while workList != []
        invariant Queued(g, workList, checkSet, defs, placed) && Needed(dfrontier, defs, placed)
        invariant forall b :: b in checkSet ==> b in done || b in workList
        invariant forall b :: b in done ==> b in dfrontier && dfrontier[b] <= placed
        invariant phis.Keys == g.nodes && phis == WithPhis(old(phis), placed, id)
        decreases g.nodes - checkSet, |workList|
      {
        var cbb := workList[0];
        assert forall b :: b in workList ==> b == cbb || b in workList[1..];
        WithPhisMore(old(phis), placed, dfrontier[cbb], id);
        workList, checkSet, placed := SpreadFrom(cbb, id, workList[1..], checkSet, defs, placed);
        done := done + {cbb};
      }
      Spread(dfrontier, defs, placed, checkSet, done);
    }

    // ---------- natural loops ----------

    /** findLoop: everything found backwards from the stack without passing hbb. */
    method FindLoop(lbb: Block, hbb: Block) returns (loop: set<Block>)
      requires WellFormed(g) && lbb in g.nodes && hbb in g.nodes && Dominates(g, hbb, lbb)
      ensures forall x :: x in loop <==> InLoop(g, hbb, lbb, x)
    {
      hide Dominates, Reachable, Leads;
      loop := {};
      var stack := [lbb];
      LatchInLoop(g, hbb, lbb);
      while stack != []
        invariant loop <= g.nodes && forall x :: x in stack ==> x in g.nodes
        invariant forall x :: x in loop || x in stack ==> InLoop(g, hbb, lbb, x)
        invariant lbb in loop || lbb in stack
        invariant Nearer(g, hbb, loop, stack) && Closing(g, hbb, loop, stack)
        decreases g.nodes - loop, |stack|
      {
        hide InLoop, Nearer, Closing;
        stack, loop := LoopStep(lbb, hbb, stack, loop);
      }
      HeaderInside(g, hbb, lbb, loop);
      forall x | InLoop(g, hbb, lbb, x)
        ensures x in loop
      {
        if x != hbb {
          var p :| Leads(g, x, p, lbb) && hbb !in p;
          BodyInside(g, hbb, lbb, loop, x, p);
        }
      }
    }

    /** One turn of findLoop's loop: the top block joins the loop and pushes its predecessors outside it. */
    method LoopStep(lbb: Block, hbb: Block, stack0: seq<Block>, loop0: set<Block>)
      returns (stack: seq<Block>, loop: set<Block>)
      requires WellFormed(g) && stack0 != [] && loop0 <= g.nodes && forall x :: x in stack0 ==> x in g.nodes
      requires forall x :: x in loop0 || x in stack0 ==> InLoop(g, hbb, lbb, x)
      requires Nearer(g, hbb, loop0, stack0) && Closing(g, hbb, loop0, stack0)
      ensures loop == loop0 + {stack0[0]} && loop <= g.nodes && forall x :: x in stack ==> x in g.nodes
      ensures forall x :: x in loop || x in stack ==> InLoop(g, hbb, lbb, x)
      ensures forall x :: x in stack0 ==> x in stack || x in loop
      ensures Nearer(g, hbb, loop, stack) && Closing(g, hbb, loop, stack)
      ensures loop == loop0 ==> |stack| < |stack0|
    {
      var c := stack0[0];
      stack := stack0[1..];
      loop := loop0 + {c};
      ghost var pushed: seq<Block> := [];
      if c != hbb {
        hide Nearer, Closing, WellFormed, InLoop;
        var todo := Preds(g, c);
        while todo != {}
          invariant todo <= Preds(g, c) && stack == pushed + stack0[1..]
          invariant forall q :: q in pushed ==> q in Preds(g, c) && q !in loop
          invariant forall q :: q in Preds(g, c) ==> q in todo || q in loop || q in pushed
          decreases todo
        {
          var cc;
          cc, todo := Next(todo);
          if cc !in loop {
            stack := [cc] + stack;
            pushed := [cc] + pushed;
          }
        }
      }
      LoopStepKeeps(g, hbb, lbb, stack0, loop0, pushed);
    }

    /** The first half of findNaturalLoops: for every header the union of the loops of its back edges. */
    method FindNaturalLoops() returns (loops: map<Block, set<Block>>)
      requires HasDominators() && dtDfn.Keys == g.nodes && dtMaxAncestorDfn.Keys == g.nodes
      requires forall a, b :: a in g.nodes && b in g.nodes ==> (FastDominates(a, b) <==> Dominates(g, a, b))
      ensures forall h :: h in loops <==> exists l :: l in g.nodes && BackEdge(g, l, h)
      ensures forall h, x :: h in loops ==>
        (x in loops[h] <==> exists l :: l in g.nodes && BackEdge(g, l, h) && InLoop(g, h, l, x))
    {
      hide WellFormed, IsIdomMap, IsDTree, Dominates, InLoop;
      loops := map[];
      var todo := g.nodes;
      while todo != {}
        invariant todo <= g.nodes && Collected(g, g.nodes - todo, loops)
        decreases todo
      {
        var lbb, rest := Next(todo);
        assert g.nodes - rest == g.nodes - todo + {lbb};
        loops := LoopsOfLatch(lbb, g.nodes - todo, loops);
        todo := rest;
      }
      assert g.nodes - todo == g.nodes;
    }

    method LoopsOfLatch(lbb: Block, ghost latches: set<Block>, loops0: map<Block, set<Block>>)
      returns (loops: map<Block, set<Block>>)
      requires HasDominators() && dtDfn.Keys == g.nodes && dtMaxAncestorDfn.Keys == g.nodes
      requires forall a, b :: a in g.nodes && b in g.nodes ==> (FastDominates(a, b) <==> Dominates(g, a, b))
      requires lbb in g.nodes && lbb !in latches && Collected(g, latches, loops0)
      ensures Collected(g, latches + {lbb}, loops)
    {
      hide WellFormed, IsIdomMap, IsDTree, Dominates, InLoop, CollectedTo;
      loops := loops0;
      var todo := Succs(g, lbb);
      CollectNone(g, latches, lbb, loops);
      while todo != {}
        invariant todo <= Succs(g, lbb) && CollectedTo(g, latches, lbb, todo, loops)
        decreases todo
      {
        var hbb, rest := Next(todo);
        NotEntry(g, lbb, hbb);
        if FastDominates(hbb, lbb) {
          var loop := FindLoop(lbb, hbb);
          CollectMore(g, latches, lbb, todo, loops, hbb, loop);
          loops := loops[hbb := (if hbb in loops then loops[hbb] else {}) + loop];
        } else {
          CollectSame(g, latches, lbb, todo, loops, hbb);
        }
        todo := rest;
      }
      CollectDone(g, latches, lbb, loops);
    }
  }

  /** loops holds, by header, the loops of the back edges from latches. */
  ghost predicate Collected(g: Graph, latches: set<Block>, loops: map<Block, set<Block>>) {
    && (forall h :: h in loops <==> exists l :: l in latches && BackEdge(g, l, h))
    && forall h, x :: h in loops ==>
       (x in loops[h] <==> exists l :: l in latches && BackEdge(g, l, h) && InLoop(g, h, l, x))
  }

  /** ... and also those of the edges from lbb to headers outside todo. */
  ghost predicate CollectedTo(g: Graph, latches: set<Block>, lbb: Block, todo: set<Block>,
                              loops: map<Block, set<Block>>) {
    && (forall h :: h in loops <==>
       (exists l :: l in latches && BackEdge(g, l, h)) || (h !in todo && BackEdge(g, lbb, h)))
    && forall h, x :: h in loops ==>
         (x in loops[h] <==>
           (exists l :: l in latches && BackEdge(g, l, h) && InLoop(g, h, l, x))
           || (h !in todo && BackEdge(g, lbb, h) && InLoop(g, h, lbb, x)))
  }

  lemma CollectNone(g: Graph, latches: set<Block>, lbb: Block, loops: map<Block, set<Block>>)
    requires Collected(g, latches, loops)
    ensures CollectedTo(g, latches, lbb, Succs(g, lbb), loops)
  {
    hide InLoop, Dominates;
  }

  lemma CollectDone(g: Graph, latches: set<Block>, lbb: Block, loops: map<Block, set<Block>>)
    requires CollectedTo(g, latches, lbb, {}, loops)
    ensures Collected(g, latches + {lbb}, loops)
  {
    hide InLoop, BackEdge;
  }

  /** The edge from lbb to hbb is a back edge, and loop its loop. */
  lemma CollectMore(g: Graph, latches: set<Block>, lbb: Block, todo: set<Block>, loops: map<Block, set<Block>>,
                    hbb: Block, loop: set<Block>)
    requires CollectedTo(g, latches, lbb, todo, loops) && hbb in todo && BackEdge(g, lbb, hbb)
    requires forall x :: x in loop <==> InLoop(g, hbb, lbb, x)
    ensures CollectedTo(g, latches, lbb, todo - {hbb}, loops[hbb := (if hbb in loops then loops[hbb] else {}) + loop])
  {
    hide InLoop, BackEdge;
  }

  lemma CollectSame(g: Graph, latches: set<Block>, lbb: Block, todo: set<Block>, loops: map<Block, set<Block>>,
                    hbb: Block)
    requires CollectedTo(g, latches, lbb, todo, loops) && !BackEdge(g, lbb, hbb)
    ensures CollectedTo(g, latches, lbb, todo - {hbb}, loops)
  {
    hide InLoop, BackEdge;
  }

  lemma LatchInLoop(g: Graph, h: Block, l: Block)
    requires WellFormed(g) && l in g.nodes
    ensures InLoop(g, h, l, l)
  {
    if l != h {
      assert Leads(g, l, [l], l) && h !in [l];
    }
  }

  lemma LoopStepKeeps(g: Graph, h: Block, l: Block, stack: seq<Block>, loop: set<Block>, pushed: seq<Block>)
    requires WellFormed(g) && stack != [] && forall x :: x in loop || x in stack ==> InLoop(g, h, l, x)
    requires Nearer(g, h, loop, stack) && Closing(g, h, loop, stack)
    requires forall q :: q in pushed ==> stack[0] != h && q in Preds(g, stack[0]) && q !in loop + {stack[0]}
    requires stack[0] != h ==> forall q :: q in Preds(g, stack[0]) ==> q in loop + {stack[0]} || q in pushed
    ensures Nearer(g, h, loop + {stack[0]}, pushed + stack[1..])
    ensures Closing(g, h, loop + {stack[0]}, pushed + stack[1..])
    ensures forall x :: x in stack ==> x in pushed + stack[1..] || x in loop + {stack[0]}
    ensures forall x :: x in pushed ==> InLoop(g, h, l, x) && x in g.nodes
    ensures stack[0] in loop && stack[0] != h ==> pushed == []
    ensures stack[0] == h ==> pushed == []
  {
    NearerStep(g, h, loop, stack, pushed);
    assert forall x :: x in stack ==> x == stack[0] || x in stack[1..];
    forall x | x in pushed
      ensures InLoop(g, h, l, x) && x in g.nodes
    {
      assert stack[0] in Succs(g, x);
      if x != h {
        BodyPred(g, h, l, stack[0], x);
      }
    }
    assert pushed != [] ==> pushed[0] in pushed;
    assert stack[..0] == [];
    assert stack[0] in loop && stack[0] != h ==> forall q :: q in Preds(g, stack[0]) ==> q in loop || q in stack[..0];
  }

  /** The phis m with one of id added in every block of S. */
  ghost function WithPhis(m: map<Block, set<Var>>, S: set<Block>, id: Var): map<Block, set<Var>> {
    map b | b in m :: m[b] + if b in S then {id} else {}
  }

  lemma WithPhisNone(m: map<Block, set<Var>>, id: Var)
    ensures WithPhis(m, {}, id) == m
  {
    assert forall b :: b in m ==> m[b] + {} == m[b];
  }

  lemma WithPhisOne(m: map<Block, set<Var>>, S: set<Block>, b: Block, id: Var)
    requires b in m
    ensures WithPhis(m, S, id).Keys == m.Keys
    ensures WithPhis(m, S + {b}, id) == WithPhis(m, S, id)[b := WithPhis(m, S, id)[b] + {id}]
  {
    var n := WithPhis(m, S, id);
    assert forall c :: c in m && c != b ==> WithPhis(m, S + {b}, id)[c] == n[c];
    assert WithPhis(m, S + {b}, id)[b] == n[b] + {id};
  }

  lemma WithPhisMore(m: map<Block, set<Var>>, S: set<Block>, T: set<Block>, id: Var)
    ensures WithPhis(m, S + T, id) == WithPhis(WithPhis(m, S, id), T, id)
    ensures WithPhis(m, S + T, id).Keys == m.Keys
  {
    var n := WithPhis(m, S, id);
    assert forall b :: b in m ==> WithPhis(m, S + T, id)[b] == WithPhis(n, T, id)[b];
  }

  ghost predicate FrontiersInside(g: Graph, df: map<Block, set<Block>>) {
    df.Keys == g.nodes && forall b :: b in df ==> df[b] <= g.nodes
  }

  /** The worklist holds blocks that were checked in: the definitions and the blocks given a phi. */
  ghost predicate Queued(g: Graph, workList: seq<Block>, checkSet: set<Block>, defs: set<Block>, placed: set<Block>) {
    checkSet == defs + placed && checkSet <= g.nodes && forall b :: b in workList ==> b in checkSet
  }

  /** Whatever covers the definitions has to contain the phis placed so far. */
  ghost predicate Needed(df: map<Block, set<Block>>, defs: set<Block>, placed: set<Block>) {
    forall T :: Covers(df, defs, T) ==> placed <= T
  }

  lemma NeededNone(df: map<Block, set<Block>>, defs: set<Block>)
    ensures Needed(df, defs, {})
  {
  }

  lemma NeededMore(df: map<Block, set<Block>>, defs: set<Block>, placed: set<Block>, b: Block)
    requires Needed(df, defs, placed) && b in df && b in defs + placed
    ensures Needed(df, defs, placed + df[b])
  {
    forall T | Covers(df, defs, T)
      ensures placed + df[b] <= T
    {
      assert placed <= T;
      assert df[b] <= T;
    }
  }

  /** Once the worklist is empty the placed phis cover the definitions. */
  lemma Spread(df: map<Block, set<Block>>, defs: set<Block>, placed: set<Block>, checkSet: set<Block>, done: set<Block>)
    requires Needed(df, defs, placed) && checkSet == defs + placed && checkSet <= done
    requires forall b :: b in done ==> b in df && df[b] <= placed
    ensures IsIterated(df, defs, placed)
  {
    assert Covers(df, defs, placed);
  }

  lemma WholeTree(g: Graph)
    requires WellFormed(g)
    ensures g.entry in g.nodes && Subtree(g, g.entry) == g.nodes
  {
  }

  /** Every block but the entry has an immediate dominator, and its dominators climb there. */
  lemma IdomOf(g: Graph, idom: map<Block, Block>, b: Block)
    requires WellFormed(g) && IsIdomMap(g, idom) && b in g.nodes
    ensures b in idom <==> b != g.entry
    ensures b in idom ==>
      IsIdom(g, idom[b], b) && idom[b] in g.nodes && Dominates(g, idom[b], b) && Doms(g, idom[b]) < Doms(g, b)
    ensures Preds(g, b) == {} <==> b == g.entry
    ensures forall a :: Dominates(g, a, g.entry) ==> a == g.entry
  {
    if b != g.entry {
      assert IsIdom(g, idom[b], b);
      DomsOfIdom(g, idom[b], b);
    }
    forall a | Dominates(g, a, g.entry)
      ensures a == g.entry
    {
      DomEntry(g, a);
    }
    if b != g.entry {
      var p :| Leads(g, g.entry, p, b);
      assert p[|p| - 1] in Succs(g, p[|p| - 2]);
      assert p[|p| - 2] in Preds(g, b);
    }
  }

  lemma IdomNotBack(g: Graph, d: Block, b: Block)
    requires WellFormed(g) && b in g.nodes && IsIdom(g, d, b)
    ensures !Dominates(g, b, d)
  {
    if Dominates(g, b, d) {
      DomAntisym(g, b, d);
    }
  }

  /** For a block other than b, dominating b is dominating b's immediate dominator. */
  lemma Climb(g: Graph, d: Block, a: Block, b: Block)
    requires WellFormed(g) && b in g.nodes && IsIdom(g, d, b) && a != b
    ensures Dominates(g, a, b) <==> Dominates(g, a, d)
  {
    StrictViaIdom(g, d, a, b);
  }

  /** The subtree of b has been numbered from lo + 1 to hi, on top of the numbers dfn0 and max0. */
  ghost predicate Numbered(g: Graph, b: Block, dfn0: map<Block, int>, max0: map<Block, int>, dfn: map<Block, int>,
                           max: map<Block, int>, lo: int, hi: int) {
    && dfn.Keys == dfn0.Keys + Subtree(g, b) && max.Keys == max0.Keys + Subtree(g, b)
    && Same(dfn0, dfn) && Same(max0, max)
    && NumberedIn(Subtree(g, b), dfn, max, lo, hi)
    && Agrees(g, Subtree(g, b), dfn, max)
  }

  /** b has its number lo, and the subtrees of its children cs follow it, up to hi. */
  ghost predicate Numbering(g: Graph, b: Block, cs: set<Block>, dfn0: map<Block, int>, max0: map<Block, int>,
                            dfn: map<Block, int>, max: map<Block, int>, lo: int, hi: int) {
    && b in dfn && dfn[b] == lo <= hi
    && dfn.Keys == dfn0.Keys + {b} + Below(g, cs) && max.Keys == max0.Keys + Below(g, cs)
    && Same(dfn0, dfn) && Same(max0, max)
    && NumberedIn(Below(g, cs), dfn, max, lo, hi)
    && Agrees(g, Below(g, cs), dfn, max)
  }

  lemma NumberingStart(g: Graph, b: Block, dfn0: map<Block, int>, max0: map<Block, int>, lo: int)
    requires b !in dfn0
    ensures Numbering(g, b, {}, dfn0, max0, dfn0[b := lo], max0, lo, lo)
  {
    hide Dominates;
  }

  /** The subtree of the next child is still without numbers. */
  lemma NumberingFree(g: Graph, b: Block, cs: set<Block>, c: Block, dfn0: map<Block, int>, max0: map<Block, int>,
                      dfn: map<Block, int>, max: map<Block, int>, lo: int, hi: int)
    requires Numbering(g, b, cs, dfn0, max0, dfn, max, lo, hi)
    requires Below(g, cs) !! Subtree(g, c) && b !in Subtree(g, c) && Subtree(g, c) <= Subtree(g, b)
    requires forall x :: x in Subtree(g, b) ==> x !in dfn0 && x !in max0
    ensures forall x :: x in Subtree(g, c) ==> x !in dfn && x !in max
  {
    hide Subtree, Below, Same, NumberedIn, Agrees;
  }

  lemma NumberingChild(g: Graph, b: Block, cs: set<Block>, c: Block, dfn0: map<Block, int>, max0: map<Block, int>,
                       dfn: map<Block, int>, max: map<Block, int>, dfn': map<Block, int>, max': map<Block, int>,
                         lo: int, mid: int, hi: int)
    requires Numbering(g, b, cs, dfn0, max0, dfn, max, lo, mid) && mid < hi
    requires Numbered(g, c, dfn, max, dfn', max', mid, hi)
    requires forall x, y :: x in Below(g, cs) && y in Subtree(g, c) ==> !Dominates(g, x, y) && !Dominates(g, y, x)
    ensures Numbering(g, b, cs + {c}, dfn0, max0, dfn', max', lo, hi)
  {
    hide Subtree, Below, NumberedIn, Agrees, Dominates;
    BelowAdd(g, cs, c);
    Merge(g, Below(g, cs), Subtree(g, c), dfn, max, dfn', max', lo, mid, hi);
  }

  lemma NumberingDone(g: Graph, b: Block, cs: set<Block>, dfn0: map<Block, int>, max0: map<Block, int>,
                      dfn: map<Block, int>, max: map<Block, int>, lo: int, hi: int)
    requires WellFormed(g) && b in g.nodes && Subtree(g, b) == {b} + Below(g, cs) && b !in Below(g, cs) && b !in max0
    requires Numbering(g, b, cs, dfn0, max0, dfn, max, lo, hi)
    ensures Numbered(g, b, dfn0, max0, dfn, max[b := hi], lo - 1, hi)
  {
    hide Subtree, Below, NumberedIn, Agrees, WellFormed;
    RootLast(g, b, Below(g, cs), dfn, max, lo, hi);
  }

  /** The blocks dominated by a block of cs. */
  ghost function Below(g: Graph, cs: set<Block>): set<Block> {
    set x | x in g.nodes && exists c :: c in cs && Dominates(g, c, x)
  }

  lemma SubtreeSplit(g: Graph, idom: map<Block, Block>, dtree: map<Block, set<Block>>, b: Block)
    requires WellFormed(g) && IsIdomMap(g, idom) && IsDTree(g, idom, dtree) && b in g.nodes
    ensures b in dtree
    ensures Subtree(g, b) == {b} + Below(g, dtree[b]) && b !in Below(g, dtree[b]) && b in Subtree(g, b)
    ensures forall c :: c in dtree[b] ==> c in g.nodes && Subtree(g, c) < Subtree(g, b)
  {
    DomRefl(g, b);
    forall c | c in dtree[b]
      ensures c in g.nodes && Subtree(g, c) <= Subtree(g, b) && b !in Subtree(g, c)
    {
      assert c in idom && idom[c] == b && IsIdom(g, idom[c], c);
      forall x | x in Subtree(g, c)
        ensures x in Subtree(g, b)
      {
        DomTrans(g, b, c, x);
      }
      if Dominates(g, c, b) {
        DomAntisym(g, b, c);
      }
    }
    forall x | x in Subtree(g, b) && x != b
      ensures x in Below(g, dtree[b])
    {
      var c := ChildOver(g, idom, b, x);
      assert c in dtree[b];
    }
    assert forall x :: x in Below(g, dtree[b]) ==> exists c :: c in dtree[b] && x in Subtree(g, c);
  }

  /** The subtree of one more child shares no block with the earlier children, nor with their parent. */
  lemma ChildApart(g: Graph, idom: map<Block, Block>, dtree: map<Block, set<Block>>, b: Block, done: set<Block>,
                   c: Block)
    requires WellFormed(g) && IsIdomMap(g, idom) && IsDTree(g, idom, dtree) && b in g.nodes
    requires done <= dtree[b] && c in dtree[b] && c !in done
    ensures Below(g, done) !! Subtree(g, c)
    ensures forall x :: x in Subtree(g, c) <==> x in g.nodes && Dominates(g, c, x)
    ensures Subtree(g, c) <= Subtree(g, b) && b !in Subtree(g, c)
    ensures forall x, y :: x in Below(g, done) && y in Subtree(g, c) ==> !Dominates(g, x, y) && !Dominates(g, y, x)
  {
    SubtreeSplit(g, idom, dtree, b);
    forall x, y | x in Below(g, done) && y in Subtree(g, c)
      ensures x != y && !Dominates(g, x, y) && !Dominates(g, y, x)
    {
      var d :| d in done && Dominates(g, d, x);
      if Dominates(g, x, y) {
        DomTrans(g, d, x, y);
        ChildrenDisjoint(g, idom, c, d, y);
      } else if Dominates(g, y, x) {
        DomTrans(g, c, y, x);
        ChildrenDisjoint(g, idom, c, d, x);
      }
      DomRefl(g, x);
    }
  }

  lemma BelowAdd(g: Graph, cs: set<Block>, c: Block)
    ensures Below(g, cs + {c}) == Below(g, cs) + Subtree(g, c)
  {
  }

  /** Two sets of blocks that do not dominate each other, numbered one after the other. */
  lemma Merge(g: Graph, S: set<Block>, T: set<Block>, dfn: map<Block, int>, max: map<Block, int>,
              dfn': map<Block, int>, max': map<Block, int>, lo: int, mid: int, hi: int)
    requires Same(dfn, dfn') && Same(max, max') && lo <= mid <= hi
    requires NumberedIn(S, dfn, max, lo, mid) && Agrees(g, S, dfn, max)
    requires NumberedIn(T, dfn', max', mid, hi) && Agrees(g, T, dfn', max')
    requires forall x, y :: x in S && y in T ==> !Dominates(g, x, y) && !Dominates(g, y, x)
    ensures NumberedIn(S + T, dfn', max', lo, hi) && Agrees(g, S + T, dfn', max')
  {
    hide Dominates;
    forall a, b | a in S + T && b in S + T
      ensures Dominates(g, a, b) <==> a == b || (dfn'[a] < dfn'[b] && max'[a] >= dfn'[b])
    {
      if a in S && b in S {
      } else if a in T && b in T {
      } else {
        assert a != b by {
          assert a in S + T;
        }
      }
    }
  }

  /** The root of a subtree is numbered before it and closes after it. */
  lemma RootLast(g: Graph, b: Block, S: set<Block>, dfn: map<Block, int>, max: map<Block, int>, lo: int, hi: int)
    requires WellFormed(g) && b in g.nodes && Subtree(g, b) == {b} + S && b !in S
    requires b in dfn && dfn[b] == lo <= hi
    requires NumberedIn(S, dfn, max, lo, hi) && Agrees(g, S, dfn, max)
    ensures NumberedIn({b} + S, dfn, max[b := hi], lo - 1, hi)
    ensures Agrees(g, {b} + S, dfn, max[b := hi])
  {
    DomRefl(g, b);
    assert forall x :: x in S ==> x in Subtree(g, b) && Dominates(g, b, x);
    forall x | x in S
      ensures !Dominates(g, x, b)
    {
      if Dominates(g, x, b) {
        DomAntisym(g, x, b);
      }
    }
    hide Dominates, WellFormed, Subtree;
    var max' := max[b := hi];
    forall x, y | x in {b} + S && y in {b} + S && x in dfn && y in dfn && x in max'
      ensures Dominates(g, x, y) <==> x == y || (dfn[x] < dfn[y] && max'[x] >= dfn[y])
    {
      if x == b {
        assert Dominates(g, b, y);
        assert y != b ==> y in S && lo < dfn[y] <= max[y] <= hi;
      } else if y == b {
        assert x in S && lo < dfn[x];
      } else {
        assert x in S && y in S && max'[x] == max[x];
      }
    }
  }

  ghost function Subtree(g: Graph, b: Block): set<Block> {
    set x | x in g.nodes && Dominates(g, b, x)
  }

  ghost predicate Same(m: map<Block, int>, n: map<Block, int>) {
    forall b :: b in m ==> b in n && n[b] == m[b]
  }

  /** The blocks of S are numbered above lo, up to hi, and their intervals end there too. */
  ghost predicate NumberedIn(S: set<Block>, dfn: map<Block, int>, max: map<Block, int>, lo: int, hi: int) {
    forall b :: b in S ==> b in dfn && b in max && lo < dfn[b] <= max[b] <= hi
  }

  /** On S the interval test is dominance. */
  ghost predicate Agrees(g: Graph, S: set<Block>, dfn: map<Block, int>, max: map<Block, int>) {
    forall a, b :: a in S && b in S && a in dfn && b in dfn && a in max ==>
      (Dominates(g, a, b) <==> a == b || (dfn[a] < dfn[b] && max[a] >= dfn[b]))
  }

  lemma JoinHasIdom(g: Graph, idom: map<Block, Block>, b: Block)
    requires WellFormed(g) && IsIdomMap(g, idom) && b in g.nodes && |Preds(g, b)| > 1
    ensures b in idom
  {
    assert |Preds(g, g.entry)| == 0;
  }

  lemma FrontierInNodes(g: Graph, x: Block, y: Block)
    requires WellFormed(g) && InFrontier(g, x, y)
    ensures y in g.nodes
  {
    var p :| p in Preds(g, y) && Dominates(g, x, p);
    assert y in Succs(g, p);
  }

  lemma WalkStart(g: Graph, d: Block, b: Block, p: Block)
    requires WellFormed(g) && b in g.nodes && p in Preds(g, b) && IsIdom(g, d, b)
    ensures p in g.nodes && Dominates(g, p, p) && Dominates(g, d, p)
    ensures forall x :: !Walked(g, p, p, x)
  {
    IdomPred(g, d, b, p);
  }

  /** Above a block strictly dominated by stop there is an immediate dominator, still below or at stop. */
  lemma WalkOn(g: Graph, idom: map<Block, Block>, stop: Block, n: Block, p: Block)
    requires WellFormed(g) && IsIdomMap(g, idom) && n in g.nodes && n != stop && Dominates(g, stop, n)
    requires Dominates(g, n, p)
    ensures n in idom && IsIdom(g, idom[n], n) && idom[n] in g.nodes
    ensures Dominates(g, idom[n], p) && Dominates(g, stop, idom[n])
    ensures Doms(g, idom[n]) < Doms(g, n)
  {
    if n == g.entry {
      DomEntry(g, stop);
    }
    var d := idom[n];
    DomsOfIdom(g, d, n);
    DomTrans(g, d, n, p);
  }
}
