/** buildCFG: from the traces recorded for a head to a region that the translator accepts. */
module RegionBuilder {
  import opened Graphs
  import opened Rv32
  import opened BlockHeap
  import opened TraceRecorder
  import opened BlockStores
  import opened Augmentation
  import CodeGen
  import SsaForm
  import Refinement

  // ---------- the order in which probabilities are propagated ----------

  /** Every block of the list but the head has a predecessor earlier in it, or among the open ones. */
  ghost predicate Led(succs: map<Block, set<Block>>, h: Block, open: set<Block>, ordered: seq<Block>) {
    forall i :: 0 <= i < |ordered| ==> ordered[i] == h || HasPred(succs, open, ordered, i)
  }

  ghost predicate HasPred(succs: map<Block, set<Block>>, open: set<Block>, ordered: seq<Block>, i: int)
    requires 0 <= i < |ordered|
  {
    exists p :: Edge(succs, p, ordered[i]) && (p in open || p in ordered[..i])
  }

  lemma PredOf(succs: map<Block, set<Block>>, open: set<Block>, ordered: seq<Block>, i: int) returns (p: Block)
    requires 0 <= i < |ordered| && HasPred(succs, open, ordered, i)
    ensures Edge(succs, p, ordered[i]) && (p in open || p in ordered[..i])
  {
    hide Edge;
    p :| Edge(succs, p, ordered[i]) && (p in open || p in ordered[..i]);
  }

  /** What toposort has done: the visited blocks are the listed and the open ones, and the listed ones are finished. */
  ghost predicate Sorting(succs: map<Block, set<Block>>, h: Block, valid: set<Block>, open: set<Block>,
                          ordered: seq<Block>, visited: set<Block>) {
    && (forall x :: x in visited <==> x in open || x in ordered)
    && (forall x :: x in open ==> x !in ordered)
    && (forall i, j :: 0 <= i < j < |ordered| ==> ordered[i] != ordered[j])
    && (forall x, y :: x in ordered && Edge(succs, x, y) && y in valid ==> y in visited)
    && visited <= valid
    && Led(succs, h, open, ordered)
  }

  lemma SortOpen(succs: map<Block, set<Block>>, h: Block, valid: set<Block>, open: set<Block>, ordered: seq<Block>,
                 visited: set<Block>, b: Block)
    requires Sorting(succs, h, valid, open, ordered, visited) && b !in visited && b in valid
    ensures Sorting(succs, h, valid, open + {b}, ordered, visited + {b})
  {
    hide Edge;
    forall i | 0 <= i < |ordered| && ordered[i] != h
      ensures HasPred(succs, open + {b}, ordered, i)
    {
      var p := PredOf(succs, open, ordered, i);
    }
  }

  /** b is finished: it goes to the front of the list, before everything found from it. */
  lemma SortClose(succs: map<Block, set<Block>>, h: Block, valid: set<Block>, open: set<Block>, ordered: seq<Block>,
                  visited: set<Block>, b: Block)
    requires Sorting(succs, h, valid, open + {b}, ordered, visited) && b !in open && b !in ordered
    requires forall y :: Edge(succs, b, y) && y in valid ==> y in visited
    requires b == h || exists p :: p in open && Edge(succs, p, b)
    ensures Sorting(succs, h, valid, open, [b] + ordered, visited)
  {
    hide Edge;
    var o := [b] + ordered;
    forall i | 0 <= i < |o| && o[i] != h
      ensures HasPred(succs, open, o, i)
    {
      if i > 0 {
        assert o[i] == ordered[i - 1];
        var p := PredOf(succs, open + {b}, ordered, i - 1);
        assert o[..i] == [b] + ordered[..i - 1];
        assert Edge(succs, p, o[i]) && (p in open || p in o[..i]);
      }
    }
    assert forall x :: x in o <==> x == b || x in ordered;
  }

  /** toposort from b, found from an open block or being the head itself. */
  method Toposort(succs: map<Block, set<Block>>, b: Block, valid: set<Block>, ordered0: seq<Block>,
                  visited0: set<Block>, ghost h: Block, ghost open: set<Block>)
    returns (ordered: seq<Block>, visited: set<Block>)
    requires Sorting(succs, h, valid, open, ordered0, visited0) && b in valid && (forall x :: x in valid ==> x in succs)
    requires b == h || exists p :: p in open && Edge(succs, p, b)
    ensures Sorting(succs, h, valid, open, ordered, visited) && visited0 + {b} <= visited
    ensures b !in visited0 ==> ordered != [] && ordered[0] == b
    decreases valid - visited0
  {
    hide Sorting, Edge;
    SortParts(succs, h, valid, open, ordered0, visited0);
    ordered, visited := ordered0, visited0;
    if b in visited {
      return;
    }
    SortOpen(succs, h, valid, open, ordered0, visited0, b);
    visited := visited + {b};
    var todo := succs[b];
    while todo != {}
      invariant todo <= succs[b] && Sorting(succs, h, valid, open + {b}, ordered, visited) && visited0 + {b} <= visited
      invariant forall y :: y in succs[b] && y !in todo && y in valid ==> y in visited
      decreases todo
    {
      var s;
      s, todo := Next(todo);
      if s in valid {
        EdgeOf(succs, b, s);
        SortSmaller(succs, h, valid, open + {b}, ordered, visited, visited0, b);
        ordered, visited := Toposort(succs, s, valid, ordered, visited, h, open + {b});
      }
    }
    EdgesOf(succs, b);
    SortParts(succs, h, valid, open + {b}, ordered, visited);
    SortClose(succs, h, valid, open, ordered, visited, b);
    ordered := [b] + ordered;
  }

  lemma SortParts(succs: map<Block, set<Block>>, h: Block, valid: set<Block>, open: set<Block>, ordered: seq<Block>,
                  visited: set<Block>)
    requires Sorting(succs, h, valid, open, ordered, visited)
    ensures visited <= valid && (forall x :: x in open ==> x in visited && x !in ordered)
  {
    hide Edge, Led;
  }

  lemma SortSmaller(succs: map<Block, set<Block>>, h: Block, valid: set<Block>, open: set<Block>, ordered: seq<Block>,
                    visited: set<Block>, visited0: set<Block>, b: Block)
    requires Sorting(succs, h, valid, open, ordered, visited) && visited0 + {b} <= visited && b in valid
    requires b !in visited0
    ensures valid - visited < valid - visited0
  {
    assert b in valid - visited0 && b !in valid - visited;
  }

  lemma EdgeOf(succs: map<Block, set<Block>>, b: Block, s: Block)
    requires b in succs && s in succs[b]
    ensures Edge(succs, b, s)
  {
  }

  lemma EdgesOf(succs: map<Block, set<Block>>, b: Block)
    requires b in succs
    ensures forall y :: Edge(succs, b, y) ==> y in succs[b]
  {
  }

  /** The order of propagation: all blocks, the head first, every other block after one of its predecessors. */
  method Order(succs: map<Block, set<Block>>, h: Block, valid: set<Block>) returns (ordered: seq<Block>)
    requires h in valid && (forall x :: x in valid ==> x in succs) && Connected(succs, h, valid)
    ensures ordered != [] && ordered[0] == h && (forall x :: x in ordered <==> x in valid)
    ensures forall i, j :: 0 <= i < j < |ordered| ==> ordered[i] != ordered[j]
    ensures forall i :: 0 < i < |ordered| ==> HasPred(succs, {}, ordered, i)
  {
    hide Connected, Edge;
    assert Sorting(succs, h, valid, {}, [], {}) by {
      assert Led(succs, h, {}, []);
    }
    var visited;
    ordered, visited := Toposort(succs, h, valid, [], {}, h, {});
    SortedAll(succs, h, valid, ordered, visited);
  }

  lemma SortedAll(succs: map<Block, set<Block>>, h: Block, valid: set<Block>, ordered: seq<Block>, visited: set<Block>)
    requires Sorting(succs, h, valid, {}, ordered, visited) && h in visited && Connected(succs, h, valid)
    requires ordered != [] && ordered[0] == h
    ensures forall x :: x in ordered <==> x in valid
    ensures forall i, j :: 0 <= i < j < |ordered| ==> ordered[i] != ordered[j]
    ensures forall i :: 0 < i < |ordered| ==> HasPred(succs, {}, ordered, i)
  {
    hide Edge;
    assert valid <= visited;
    forall i | 0 < i < |ordered|
      ensures HasPred(succs, {}, ordered, i)
    {
      assert ordered[i] != ordered[0];
    }
  }

  /** edgeWeight: how often b was left for pc. */
  function EdgeWeight(C: Counts, b: Block, pc: int): (w: real)
    ensures w >= 0.0
  {
    if b !in C.edgeCnts || b !in C.totalEdges || C.totalEdges[b] < 0 then 0.0
    else (C.edgeCnts[b][pc] as real) / (if C.totalEdges[b] == 0 then 1.0 else C.totalEdges[b] as real)
  }

  /** The share of a block's probability pr that its edge of the given weight hands on. */
  function Share(pr: real, weight: real): (share: real)
    ensures pr >= 0.0 && weight >= 0.0 ==> share >= 0.0
  {
    pr * weight
  }

  /** The weight is the fraction of a block's executions that took the edge, and 0 for a block that has never run. */
  lemma WeightIs(C: Counts, b: Block, pc: int)
    requires b in C.edgeCnts && b in C.totalEdges && C.totalEdges[b] == |C.edgeCnts[b]|
    ensures EdgeWeight(C, b, pc) * (|C.edgeCnts[b]| as real) == C.edgeCnts[b][pc] as real
    ensures C.edgeCnts[b] == multiset{} ==> EdgeWeight(C, b, pc) == 0.0
    ensures EdgeWeight(C, b, pc) <= 1.0
  {
    AtMostAll(C.edgeCnts[b], pc);
  }

  lemma AtMostAll(m: multiset<int>, x: int)
    ensures m[x] <= |m|
  {
    var only := multiset{}[x := m[x]];
    assert only + (m - only) == m;
  }

  /** A block's probability is handed on to all its successors, in the region or not: each gains the part of it that is
      the share of the block's executions that went there. */
  method HandOn(succs: map<Block, set<Block>>, entry: map<Block, int>, C: Counts, bb: Block, pr: real,
                prob0: map<Block, real>)
    returns (prob: map<Block, real>)
    requires bb in succs && pr >= 0.0 && forall y :: y in prob0 ==> prob0[y] >= 0.0
    ensures forall y :: y in prob <==> y in prob0 || Edge(succs, bb, y)
    ensures forall y :: Edge(succs, bb, y) ==>
                          prob[y] == Before(prob0, y) + pr * EdgeWeight(C, bb, Entry(entry, y))
    ensures forall y :: y in prob0 && !Edge(succs, bb, y) ==> prob[y] == prob0[y]
    ensures forall y :: y in prob ==> prob[y] >= Before(prob0, y)
  {
    hide EdgeWeight;
    EdgesOf(succs, bb);
    prob := prob0;
    var todo := succs[bb];
    while todo != {}
      invariant todo <= succs[bb] && (forall y :: y in prob <==> y in prob0 || (y in succs[bb] && y !in todo))
      invariant forall y :: y in succs[bb] - todo ==>
                              prob[y] == Before(prob0, y) + Share(pr, EdgeWeight(C, bb, Entry(entry, y)))
      invariant forall y :: y in prob0 && y !in succs[bb] - todo ==> prob[y] == prob0[y]
      decreases todo
    {
      var nbb;
      nbb, todo := Next(todo);
      prob := prob[nbb := (if nbb in prob then prob[nbb] else 0.0) + Share(pr, EdgeWeight(C, bb, Entry(entry, nbb)))];
    }
  }

  function Before(prob: map<Block, real>, y: Block): real {
    if y in prob then prob[y] else 0.0
  }

  /** What the first |pr| blocks, run with the probabilities pr, hand on to y. */
  ghost function Inflow(succs: map<Block, set<Block>>, entry: map<Block, int>, C: Counts, ordered: seq<Block>,
                        pr: seq<real>, y: Block): (p: real)
    requires |pr| <= |ordered|
    decreases |pr|
  {
    if pr == [] then 0.0 else
      var n := |pr| - 1;
      Inflow(succs, entry, C, ordered, pr[..n], y)
      + if Edge(succs, ordered[n], y) then pr[n] * EdgeWeight(C, ordered[n], Entry(entry, y)) else 0.0
  }

  lemma MoreInflow(succs: map<Block, set<Block>>, entry: map<Block, int>, C: Counts, ordered: seq<Block>,
                   pr: seq<real>, x: real, y: Block)
    requires |pr| < |ordered|
    ensures Inflow(succs, entry, C, ordered, pr + [x], y)
         == Inflow(succs, entry, C, ordered, pr, y)
            + if Edge(succs, ordered[|pr|], y) then x * EdgeWeight(C, ordered[|pr|], Entry(entry, y)) else 0.0
  {
    assert (pr + [x])[..|pr|] == pr;
  }

  /** The probabilities of the blocks in order: 1 for the head, and for any other block what those before it hand on. */
  ghost predicate Flows(succs: map<Block, set<Block>>, entry: map<Block, int>, C: Counts, h: Block,
                        ordered: seq<Block>, pr: seq<real>) {
    && |pr| <= |ordered|
    && forall i :: 0 <= i < |pr| ==>
         pr[i] == if ordered[i] == h then 1.0 else Inflow(succs, entry, C, ordered, pr[..i], ordered[i])
  }

  lemma FlowsMore(succs: map<Block, set<Block>>, entry: map<Block, int>, C: Counts, h: Block, ordered: seq<Block>,
                  pr: seq<real>, x: real)
    requires Flows(succs, entry, C, h, ordered, pr) && |pr| < |ordered|
    requires x == if ordered[|pr|] == h then 1.0 else Inflow(succs, entry, C, ordered, pr, ordered[|pr|])
    ensures Flows(succs, entry, C, h, ordered, pr + [x])
  {
    hide Inflow;
    var all := pr + [x];
    forall i | 0 <= i < |all|
      ensures all[i] == if ordered[i] == h then 1.0 else Inflow(succs, entry, C, ordered, all[..i], ordered[i])
    {
      assert all[..i] == pr[..i];
    }
  }

  /** The propagation of execution probabilities from the head: what flows back to it. None where at() would throw,
      which it does not: each block has received a share from a block before it, and the head from some block. */
  method HeadProbability(succs: map<Block, set<Block>>, entry: map<Block, int>, C: Counts, h: Block,
                         ordered: seq<Block>)
    returns (headProb: Option<real>, ghost prs: seq<real>)
    requires ordered != [] && ordered[0] == h && forall i :: 0 < i < |ordered| ==> HasPred(succs, {}, ordered, i)
    requires forall x :: x in ordered ==> x in succs
    requires exists p :: p in ordered && Edge(succs, p, h)
    ensures headProb.Some? && headProb.value >= 0.0
    ensures |prs| == |ordered| && Flows(succs, entry, C, h, ordered, prs)
    ensures headProb == Some(Inflow(succs, entry, C, ordered, prs, h))
  {
    hide Edge, Inflow, Flows, EdgeWeight;
    var regionProb: map<Block, real> := map[];
    prs := [];
    NothingFlows(succs, entry, C, h, ordered);
    for i := 0 to |ordered|
      invariant forall p, y :: p in ordered[..i] && Edge(succs, p, y) ==> y in regionProb
      invariant forall y :: y in regionProb ==> regionProb[y] >= 0.0
      invariant |prs| == i && Flows(succs, entry, C, h, ordered, prs)
      invariant forall y :: Before(regionProb, y) == Inflow(succs, entry, C, ordered, prs, y)
    {
      var bb := ordered[i];
      var pr := 1.0;
      if bb != h {
        assert HasPred(succs, {}, ordered, i);
        if bb !in regionProb {
          return None, prs;
        }
        pr := regionProb[bb];
      }
      ghost var before := regionProb;
      assert bb != h ==> pr == Before(before, bb);
      regionProb := HandOn(succs, entry, C, bb, pr, regionProb);
      assert ordered[..i + 1] == ordered[..i] + [bb];
      FlowsMore(succs, entry, C, h, ordered, prs, pr);
      forall y
        ensures Before(regionProb, y) == Inflow(succs, entry, C, ordered, prs + [pr], y)
      {
        MoreInflow(succs, entry, C, ordered, prs, pr, y);
        assert Before(before, y) == Inflow(succs, entry, C, ordered, prs, y);
      }
      prs := prs + [pr];
    }
    assert ordered[..|ordered|] == ordered;
    if h !in regionProb {
      return None, prs;
    }
    assert Before(regionProb, h) == Inflow(succs, entry, C, ordered, prs, h);
    return Some(regionProb[h]), prs;
  }

  lemma NothingFlows(succs: map<Block, set<Block>>, entry: map<Block, int>, C: Counts, h: Block, ordered: seq<Block>)
    ensures Flows(succs, entry, C, h, ordered, [])
    ensures forall y :: Inflow(succs, entry, C, ordered, [], y) == 0.0
  {
  }

  // ---------- the graph of the region ----------

  ghost predicate Arc(g: Graph, x: Block, y: Block) {
    y in Succs(g, x)
  }

  ghost predicate BackArc(g: Graph, x: Block, y: Block) {
    x in Preds(g, y)
  }

  /** The blocks, with an arc wherever the block store has an edge, and from a lone block to itself. */
  ghost predicate IsBlockGraph(g: Graph, blocks: set<Block>, succs: map<Block, set<Block>>, h: Block, entry: Block) {
    && g.nodes == blocks && g.entry == entry
    && (forall x, y :: Arc(g, x, y) <==> Inner(blocks, succs, h, x, y))
    && (forall x, y :: BackArc(g, x, y) <==> Inner(blocks, succs, h, x, y))
  }

  ghost predicate Inner(blocks: set<Block>, succs: map<Block, set<Block>>, h: Block, x: Block, y: Block) {
    x in blocks && y in blocks && (Edge(succs, x, y) || (blocks == {h} && x == h && y == h))
  }

  /** The same with the entry block in front of the head. */
  ghost predicate IsRegionGraph(g: Graph, blocks: set<Block>, succs: map<Block, set<Block>>, h: Block, entry: Block) {
    && g.nodes == blocks + {entry} && g.entry == entry
    && (forall x, y :: Arc(g, x, y) <==> Inner(blocks, succs, h, x, y) || (x == entry && y == h))
    && (forall x, y :: BackArc(g, x, y) <==> Inner(blocks, succs, h, x, y) || (x == entry && y == h))
  }

  /** cfgBasicBlock::addSuccessor on the graph under construction. */
  function WithArc(g: Graph, x: Block, y: Block): Graph {
    g.(succs := g.succs[x := Succs(g, x) + {y}], preds := g.preds[y := Preds(g, y) + {x}])
  }

  lemma ArcAdded(g: Graph, x: Block, y: Block)
    ensures forall u, v :: Arc(WithArc(g, x, y), u, v) <==> Arc(g, u, v) || (u == x && v == y)
    ensures forall u, v :: BackArc(WithArc(g, x, y), u, v) <==> BackArc(g, u, v) || (u == x && v == y)
  {
    forall u, v
      ensures Arc(WithArc(g, x, y), u, v) <==> Arc(g, u, v) || (u == x && v == y)
      ensures BackArc(WithArc(g, x, y), u, v) <==> BackArc(g, u, v) || (u == x && v == y)
    {
    }
  }

  /** g has exactly the arcs of the blocks in done. */
  ghost predicate ArcsOf(g: Graph, blocks: set<Block>, succs: map<Block, set<Block>>, done: set<Block>) {
    && (forall x, y :: Arc(g, x, y) <==> x in done && y in blocks && Edge(succs, x, y))
    && (forall x, y :: BackArc(g, x, y) <==> x in done && y in blocks && Edge(succs, x, y))
  }

  /** The cfgBasicBlocks of the blocks and their arcs, and a self loop for a lone block. */
  method BuildGraph(blocks: set<Block>, succs: map<Block, set<Block>>, h: Block, entry: Block) returns (g: Graph)
    requires h in blocks && forall x :: x in blocks ==> x in succs
    ensures IsBlockGraph(g, blocks, succs, h, entry)
  {
    hide Arc, BackArc, Edge, ArcsOf;
    g := Graph(blocks, entry, map[], map[]);
    NoArcs(g, blocks, succs);
    var todo := blocks;
    ghost var done: set<Block> := {};
    while todo != {}
      invariant todo <= blocks && done == blocks - todo && ArcsOf(g, blocks, succs, done)
      invariant g.nodes == blocks && g.entry == entry
      decreases todo
    {
      var bb;
      bb, todo := Next(todo);
      g := AddArcs(g, blocks, succs, bb, done);
      done := done + {bb};
    }
    assert done == blocks;
    if |blocks| == 1 {
      LoneBlock(blocks, h);
      LoneArcs(g, blocks, succs, h, entry);
      g := WithArc(g, h, h);
    } else {
      ManyArcs(g, blocks, succs, h, entry);
    }
  }

  lemma LoneArcs(g: Graph, blocks: set<Block>, succs: map<Block, set<Block>>, h: Block, entry: Block)
    requires ArcsOf(g, blocks, succs, blocks) && blocks == {h} && g.nodes == blocks && g.entry == entry
    ensures IsBlockGraph(WithArc(g, h, h), blocks, succs, h, entry)
  {
    ArcAdded(g, h, h);
    hide Arc, BackArc, Edge;
  }

  lemma ManyArcs(g: Graph, blocks: set<Block>, succs: map<Block, set<Block>>, h: Block, entry: Block)
    requires ArcsOf(g, blocks, succs, blocks) && |blocks| != 1 && g.nodes == blocks && g.entry == entry
    ensures IsBlockGraph(g, blocks, succs, h, entry)
  {
    hide Arc, BackArc, Edge;
    assert blocks != {h};
  }

  /** The entry block that analyzeGraph puts in front of the head. */
  method PrependEntry(g0: Graph, blocks: set<Block>, succs: map<Block, set<Block>>, h: Block, entry: Block)
    returns (g: Graph)
    requires IsBlockGraph(g0, blocks, succs, h, entry) && h in blocks && entry !in blocks
    ensures IsRegionGraph(g, blocks, succs, h, entry)
  {
    hide Arc, BackArc, Edge, Inner;
    g := g0.(nodes := g0.nodes + {entry});
    SameArcs(g0, g);
    ArcAdded(g, entry, h);
    g := WithArc(g, entry, h);
  }

  lemma SameArcs(g: Graph, g': Graph)
    requires g'.succs == g.succs && g'.preds == g.preds
    ensures forall x, y :: (Arc(g', x, y) <==> Arc(g, x, y)) && (BackArc(g', x, y) <==> BackArc(g, x, y))
  {
  }

  lemma NoArcs(g: Graph, blocks: set<Block>, succs: map<Block, set<Block>>)
    requires g.succs == map[] && g.preds == map[]
    ensures ArcsOf(g, blocks, succs, {})
  {
  }

  lemma LoneBlock(blocks: set<Block>, h: Block)
    requires h in blocks && |blocks| == 1
    ensures blocks == {h}
  {
    assert |blocks - {h}| == 0;
  }

  /** The arcs of one block. */
  method AddArcs(g0: Graph, blocks: set<Block>, succs: map<Block, set<Block>>, bb: Block, ghost done: set<Block>)
    returns (g: Graph)
    requires ArcsOf(g0, blocks, succs, done) && bb in blocks && bb !in done && bb in succs
    ensures ArcsOf(g, blocks, succs, done + {bb}) && g.nodes == g0.nodes && g.entry == g0.entry
  {
    hide Arc, BackArc, Edge;
    SuccsAre(succs, bb);
    g := g0;
    var todo := succs[bb];
    while todo != {}
      invariant todo <= succs[bb] && g.nodes == g0.nodes && g.entry == g0.entry
      invariant forall x, y :: Arc(g, x, y) <==>
        Arc(g0, x, y) || (x == bb && y in blocks && y in succs[bb] && y !in todo)
      invariant forall x, y :: BackArc(g, x, y) <==>
        BackArc(g0, x, y) || (x == bb && y in blocks && y in succs[bb] && y !in todo)
      decreases todo
    {
      var nbb, rest := Next(todo);
      if nbb in blocks {
        ArcAdded(g, bb, nbb);
        g := WithArc(g, bb, nbb);
      }
      todo := rest;
    }
  }

  // ---------- reachability ----------

  /** allBlocksReachable: breadth-first search from the head. */
  method AllBlocksReachable(g: Graph, root: Block) returns (all: bool)
    requires Linked(g) && root in g.nodes
    ensures all <==> forall b :: b in g.nodes ==> exists p :: Leads(g, root, p, b)
  {
    hide IsPath, Succs, Preds;
    var q := [root];
    var v: set<Block> := {};
    PathTo(g, root);
    while q != []
      invariant v <= g.nodes && forall x :: x in q ==> x in g.nodes
      invariant forall x :: x in v || x in q ==> exists p :: Leads(g, root, p, x)
      invariant root in v || root in q
      invariant forall x, y :: x in v && y in Succs(g, x) ==> y in v || y in q
      decreases g.nodes - v, |q|
    {
      var cbb := q[0];
      assert forall x :: x in q <==> x == cbb || x in q[1..];
      q := q[1..];
      if cbb !in v {
        q := PushAll(g, root, cbb, q);
        v := v + {cbb};
      }
    }
    forall b, p | Leads(g, root, p, b)
      ensures b in v
    {
      Closed(g, root, p, b, v);
    }
    SameSize(v, g.nodes);
    all := |v| == |g.nodes|;
  }

  lemma SameSize(S: set<Block>, T: set<Block>)
    requires S <= T
    ensures |S| == |T| <==> S == T
  {
    if S != T {
      assert T == S + (T - S);
      assert T - S != {};
    }
  }

  lemma PathTo(g: Graph, b: Block)
    requires b in g.nodes
    ensures Leads(g, b, [b], b)
  {
  }

  lemma {:induction false} Closed(g: Graph, a: Block, p: seq<Block>, b: Block, v: set<Block>)
    requires Leads(g, a, p, b) && a in v && forall x, y :: x in v && y in Succs(g, x) ==> y in v
    ensures b in v
    decreases |p|
  {
    if |p| > 1 {
      var q := p[..|p| - 1];
      assert forall i, j :: 0 <= i < j < |q| && j == i + 1 ==> q[i] == p[i] && q[j] == p[j];
      Closed(g, a, q, Last(q), v);
    }
  }

  /** The successors of a block join the queue. */
  method PushAll(g: Graph, root: Block, cbb: Block, q0: seq<Block>) returns (q: seq<Block>)
    requires Linked(g) && cbb in g.nodes && exists p :: Leads(g, root, p, cbb)
    requires forall x :: x in q0 ==> x in g.nodes && exists p :: Leads(g, root, p, x)
    ensures forall x :: x in q <==> x in q0 || x in Succs(g, cbb)
    ensures forall x :: x in q ==> x in g.nodes && exists p :: Leads(g, root, p, x)
  {
    hide IsPath, Preds, Succs;
    q := q0;
    var todo := Succs(g, cbb);
    while todo != {}
      invariant todo <= Succs(g, cbb) && forall x :: x in q <==> x in q0 || (x in Succs(g, cbb) && x !in todo)
      decreases todo
    {
      var nbb;
      nbb, todo := Next(todo);
      q := q + [nbb];
    }
    forall x | x in Succs(g, cbb)
      ensures x in g.nodes && exists p :: Leads(g, root, p, x)
    {
      var p :| Leads(g, root, p, cbb);
      Graphs.Extend(g, root, p, cbb, x);
    }
  }

  // ---------- from traces to a region ----------

  /** Every block is on a closed walk from h inside blocks. */
  ghost predicate Traced(succs: map<Block, set<Block>>, h: Block, blocks: set<Block>) {
    forall x :: x in blocks ==> exists t :: ClosedWalk(succs, h, t) && x in t && Within(t, blocks)
  }

  /** Along a walk from h everything is in a set that holds h and is closed under edges inside blocks. */
  lemma {:induction false} WalkInside(succs: map<Block, set<Block>>, h: Block, blocks: set<Block>, S: set<Block>,
                                      t: seq<Block>, i: nat)
    requires Walk(succs, h, t) && Within(t, blocks) && i < |t| && h in S
    requires ClosedIn(succs, blocks, S)
    ensures t[i] in S
  {
    if i > 0 {
      WalkInside(succs, h, blocks, S, t, i - 1);
      assert Edge(succs, t[i - 1], t[i]);
    }
  }

  lemma TracedConnected(succs: map<Block, set<Block>>, h: Block, blocks: set<Block>)
    requires Traced(succs, h, blocks)
    ensures Connected(succs, h, blocks)
  {
    hide Edge, ClosedWalk, Within, ClosedIn;
    forall S: set<Block> | h in S && ClosedIn(succs, blocks, S)
      ensures blocks <= S
    {
      forall x | x in blocks
        ensures x in S
      {
        var t :| ClosedWalk(succs, h, t) && x in t && Within(t, blocks);
        ClosedIsWalk(succs, h, t);
        var i :| 0 <= i < |t| && t[i] == x;
        WalkInside(succs, h, blocks, S, t, i);
      }
    }
  }

  lemma ClosedIsWalk(succs: map<Block, set<Block>>, h: Block, t: seq<Block>)
    requires ClosedWalk(succs, h, t)
    ensures Walk(succs, h, t) && |t| > 0 && t[0] == h && h in t && Edge(succs, t[|t| - 1], h)
  {
    hide Edge;
  }

  /** A block on a closed walk has a successor on it. */
  lemma NextOnWalk(succs: map<Block, set<Block>>, h: Block, blocks: set<Block>, x: Block) returns (y: Block)
    requires Traced(succs, h, blocks) && x in blocks
    ensures y in blocks && Edge(succs, x, y)
  {
    hide Edge;
    var t :| ClosedWalk(succs, h, t) && x in t && Within(t, blocks);
    var i :| 0 <= i < |t| && t[i] == x;
    y := if i == |t| - 1 then h else t[i + 1];
    assert h in t && t[0] == h;
  }

  /** The head has a predecessor on a closed walk. */
  lemma HeadHasPred(succs: map<Block, set<Block>>, h: Block, blocks: set<Block>) returns (p: Block)
    requires Traced(succs, h, blocks) && h in blocks
    ensures p in blocks && Edge(succs, p, h)
  {
    hide Edge, Walk;
    var t :| ClosedWalk(succs, h, t) && h in t && Within(t, blocks);
    ClosedIsWalk(succs, h, t);
    p := t[|t| - 1];
  }

  /** The blocks of the traces of a head can make a region. */
  lemma TracedRooted(succs: map<Block, set<Block>>, h: Block, blocks: set<Block>)
    requires Traced(succs, h, blocks) && h in blocks
    ensures Rooted(succs, h, blocks)
  {
    hide Traced, Edge, Connected;
    TracedConnected(succs, h, blocks);
    forall x | x in blocks
      ensures GoesOn(succs, blocks, x)
    {
      var y := NextOnWalk(succs, h, blocks, x);
    }
    var p := HeadHasPred(succs, h, blocks);
  }

  lemma RootedParts(succs: map<Block, set<Block>>, h: Block, blocks: set<Block>)
    requires Rooted(succs, h, blocks)
    ensures h in blocks && Connected(succs, h, blocks) && exists p :: p in blocks && Edge(succs, p, h)
  {
    hide Connected, GoesOn, Edge;
  }

  lemma NextInside(succs: map<Block, set<Block>>, h: Block, blocks: set<Block>, x: Block) returns (y: Block)
    requires Rooted(succs, h, blocks) && x in blocks
    ensures y in blocks && Edge(succs, x, y)
  {
    hide Connected, Edge;
    assert GoesOn(succs, blocks, x);
    y :| y in blocks && Edge(succs, x, y);
  }

  lemma BlockGraphLinked(g: Graph, blocks: set<Block>, succs: map<Block, set<Block>>, h: Block, entry: Block)
    requires IsBlockGraph(g, blocks, succs, h, entry)
    ensures Linked(g)
  {
    hide Edge, Succs, Preds, Inner;
    InnerInside(blocks, succs, h);
    forall x, y {:trigger y in Succs(g, x)} | y in Succs(g, x)
      ensures x in g.nodes && y in g.nodes && x in Preds(g, y)
    {
      assert Arc(g, x, y) && BackArc(g, x, y);
    }
    forall x, y {:trigger x in Preds(g, y)} | x in Preds(g, y)
      ensures y in Succs(g, x)
    {
      assert BackArc(g, x, y) && Arc(g, x, y);
    }
  }

  /** The search from the head finds every block. */
  lemma AllReached(g: Graph, blocks: set<Block>, succs: map<Block, set<Block>>, h: Block, entry: Block)
    requires IsBlockGraph(g, blocks, succs, h, entry) && Rooted(succs, h, blocks)
    ensures forall b :: b in g.nodes ==> exists p :: Leads(g, h, p, b)
  {
    BlockGraphLinked(g, blocks, succs, h, entry);
    hide Edge, IsBlockGraph, GoesOn, Leads, Linked, ClosedIn;
    GraphNodes(g, blocks, succs, h, entry);
    PathTo(g, h);
    ReachedClosed(g, blocks, succs, h, entry);
  }

  lemma ReachedClosed(g: Graph, blocks: set<Block>, succs: map<Block, set<Block>>, h: Block, entry: Block)
    requires IsBlockGraph(g, blocks, succs, h, entry) && Linked(g)
    ensures ClosedIn(succs, blocks, set b | b in blocks && exists p :: Leads(g, h, p, b))
  {
    hide Edge, BackArc, Leads, Linked;
    var S := set b | b in blocks && exists p :: Leads(g, h, p, b);
    forall x, y | x in S && Edge(succs, x, y) && y in blocks
      ensures y in S
    {
      var p :| Leads(g, h, p, x);
      assert Arc(g, x, y);
      Graphs.Extend(g, h, p, x, y);
    }
  }

  /** With the entry block in front, the graph is one that the translator accepts. */
  lemma RegionGraphOk(g0: Graph, g: Graph, blocks: set<Block>, succs: map<Block, set<Block>>, h: Block, entry: Block)
    requires IsBlockGraph(g0, blocks, succs, h, entry) && IsRegionGraph(g, blocks, succs, h, entry) && h in blocks
    requires entry !in blocks
    requires forall b :: b in g0.nodes ==> exists p :: Leads(g0, h, p, b)
    ensures WellFormed(g) && Succs(g, entry) == {h}
  {
    RegionGraphLinked(g, blocks, succs, h, entry);
    forall b | b in g.nodes
      ensures Reachable(g, b)
    {
      if b == entry {
        PathTo(g, entry);
      } else {
        var p :| Leads(g0, h, p, b);
        EntryLeads(g0, g, blocks, succs, h, entry, p, b);
      }
    }
    forall x
      ensures x !in Preds(g, entry) && (x in Succs(g, entry) <==> x == h)
    {
      assert BackArc(g, x, entry) <==> false;
      assert Arc(g, entry, x) <==> x == h;
    }
  }

  lemma RegionGraphLinked(g: Graph, blocks: set<Block>, succs: map<Block, set<Block>>, h: Block, entry: Block)
    requires IsRegionGraph(g, blocks, succs, h, entry) && h in blocks
    ensures Linked(g)
  {
    hide Edge, Succs, Preds, Inner;
    InnerInside(blocks, succs, h);
    forall x, y {:trigger y in Succs(g, x)} | y in Succs(g, x)
      ensures x in g.nodes && y in g.nodes && x in Preds(g, y)
    {
      assert Arc(g, x, y) && BackArc(g, x, y);
    }
    forall x, y {:trigger x in Preds(g, y)} | x in Preds(g, y)
      ensures y in Succs(g, x)
    {
      assert BackArc(g, x, y) && Arc(g, x, y);
    }
  }

  lemma InnerInside(blocks: set<Block>, succs: map<Block, set<Block>>, h: Block)
    ensures forall x, y :: Inner(blocks, succs, h, x, y) ==> x in blocks && y in blocks
  {
  }

  lemma EntryLeads(g0: Graph, g: Graph, blocks: set<Block>, succs: map<Block, set<Block>>, h: Block, entry: Block,
                   p: seq<Block>, b: Block)
    requires IsBlockGraph(g0, blocks, succs, h, entry) && IsRegionGraph(g, blocks, succs, h, entry) && h in blocks
    requires Leads(g0, h, p, b)
    ensures Leads(g, entry, [entry] + p, b)
  {
    hide Inner;
    var q := [entry] + p;
    forall j, k | 0 <= j < k < |q| && k == j + 1
      ensures q[k] in Succs(g, q[j])
    {
      if j > 0 {
        assert q[j] == p[j - 1] && q[k] == p[k - 1];
        assert p[k - 1] in Succs(g0, p[j - 1]);
        assert Arc(g0, p[j - 1], p[k - 1]);
      }
      assert Arc(g, q[j], q[k]);
    }
  }

  // ---------- the instructions of the region ----------

  /** Every instruction can be turned into an Insn that the translator handles. */
  ghost predicate CanTranslate(v: Insns) {
    forall i :: 0 <= i < |v| ==> Decode(v[i].0).Some? && SsaForm.Translatable(Decode(v[i].0).value)
  }

  ghost predicate AllTranslatable(L: Listing, blocks: set<Block>) {
    forall x :: x in blocks ==> CanTranslate(Code(L.vecIns, x))
  }

  ghost predicate IsDecoded(v: Insns, d: seq<Insn>) {
    |d| == |v| && forall i :: 0 <= i < |v| ==> Decode(v[i].0) == Some(d[i])
  }

  /** Every instruction is one that getInsn has a class for. */
  ghost predicate CanBindAll(v: Insns) {
    forall i :: 0 <= i < |v| ==> Decode(v[i].0).Some? && SsaForm.CanBind(Decode(v[i].0).value)
  }

  ghost predicate WritesZero(d: seq<Insn>) {
    exists i :: 0 <= i < |d| && Defines(d[i]) == Some(0)
  }

  /** bindInsns; None where its assertion fails, getInsn having no class for a word. */
  method BindInsns(v: Insns) returns (d: Option<seq<Insn>>)
    ensures d.Some? <==> CanBindAll(v)
    ensures d.Some? ==> IsDecoded(v, d.value)
  {
    hide Decode, SsaForm.CanBind;
    var insns: seq<Insn> := [];
    for i := 0 to |v|
      invariant |insns| == i && forall j :: 0 <= j < i ==> Decode(v[j].0) == Some(insns[j]) && SsaForm.CanBind(insns[j])
    {
      var ins := Decode(v[i].0);
      if ins.None? || !SsaForm.CanBind(ins.value) {
        return None;
      }
      insns := insns + [ins.value];
    }
    return Some(insns);
  }

  /** What has a class and does not write x0 can be translated: the fields of a word are in range. */
  lemma BoundInsn(w: int)
    requires Decode(w).Some?
    ensures SsaForm.Translatable(Decode(w).value) <==>
      SsaForm.CanBind(Decode(w).value) && Defines(Decode(w).value) != Some(0)
  {
    FieldSize(w, 7, 5);
    FieldSize(w, 15, 5);
    FieldSize(w, 20, 5);
    FieldSize(w, 12, 20);
    ImmRanges(w);
    Pow20();
    hide Field, IImm, SImm, BImm, JImm, Pow2;
  }

  lemma Pow20()
    ensures Pow2(5) == 32 && Pow2(20) == 0x10_0000
  {
    assert Pow2(5) == 32 && Pow2(10) == 1024 && Pow2(15) == 0x8000;
  }

  lemma FieldSize(w: int, lo: int, width: int)
    ensures 0 <= Field(w, lo, width) < Pow2(width)
  {
    Pow2Positive(lo);
    Pow2Positive(width);
    hide Pow2;
  }

  lemma ImmRanges(w: int)
    ensures 0 <= IImm(w) < WORD && 0 <= SImm(w) < WORD && 0 <= BImm(w) < WORD && 0 <= JImm(w) < WORD
  {
    hide Field, Pow2;
  }

  lemma BoundBlock(v: Insns, d: seq<Insn>)
    requires IsDecoded(v, d) && CanBindAll(v)
    ensures CanTranslate(v) <==> !WritesZero(d)
  {
    hide Decode, SsaForm.Translatable, SsaForm.CanBind, Defines;
    forall i | 0 <= i < |v|
      ensures SsaForm.Translatable(d[i]) <==> Defines(d[i]) != Some(0)
    {
      BoundInsn(v[i].0);
    }
  }

  lemma BoundOnly(v: Insns)
    requires CanTranslate(v)
    ensures CanBindAll(v)
  {
    hide Decode, SsaForm.Translatable, SsaForm.CanBind, Defines;
    forall i | 0 <= i < |v|
      ensures SsaForm.CanBind(Decode(v[i].0).value)
    {
      BoundInsn(v[i].0);
    }
  }

  /** A finished block is one that the translator accepts. */
  lemma BlockOkOf(code: int -> int, R: CodeGen.Region, b: Block, v: Insns, term: int)
    requires b in R.addr && b in R.code && Laid(code, R.addr[b], v) && Sized(R.addr[b], v, term)
    requires IsDecoded(v, R.code[b]) && CanTranslate(v)
    ensures SsaForm.BlockOk(R, b)
  {
    hide Decode, SsaForm.Translatable, IsControl, AddrOf, Normal;
    forall i | 0 <= i < |v|
      ensures SsaForm.Translatable(R.code[b][i]) && (i < |v| - 1 ==> !IsControl(R.code[b][i]))
    {
      assert Decode(v[i].0) == Some(R.code[b][i]);
      if i < |v| - 1 {
        assert !Transfers(v[i].0);
      }
    }
  }

  /** A successor of a block that ends with a direct jump is its target. */
  lemma JumpOnly(code: int -> int, R: CodeGen.Region, b: Block, v: Insns, a: int)
    requires b in R.addr && b in R.code && Laid(code, R.addr[b], v) && |v| > 0 && IsDecoded(v, R.code[b]) && CanGo(v, a)
    requires R.code[b][|v| - 1].Jal?
    ensures a == Wrap(CodeGen.InsnAddr(R, b, |v| - 1) + R.code[b][|v| - 1].imm)
  {
    hide Decode;
  }

  /** Successors of a conditional branch are its target or what follows it. */
  lemma BranchOnly(code: int -> int, R: CodeGen.Region, b: Block, v: Insns, a: int)
    requires b in R.addr && b in R.code && Laid(code, R.addr[b], v) && |v| > 0 && IsDecoded(v, R.code[b]) && CanGo(v, a)
    requires R.code[b][|v| - 1].Branch?
    ensures var pc := CodeGen.InsnAddr(R, b, |v| - 1); a == Wrap(pc + R.code[b][|v| - 1].imm) || a == Wrap(pc + 4)
  {
    hide Decode;
  }

  /** checkIfPlausableSuccessors: no successor with instructions starts anywhere but where the first branch can go. */
  method PlausibleSuccessors(R: CodeGen.Region, b: Block) returns (plausible: bool)
    ensures plausible <==>
      forall i, s :: IsFirstBranch(R, b, i) && s in Succs(R.g, b) && CodeGen.Insns(R, s) != [] ==> MayBranch(R, b, i, s)
  {
    hide Succs, MayBranch;
    var n := |CodeGen.Insns(R, b)|;
    var i := 0;
    while i < n && !CodeGen.Insns(R, b)[i].Branch?
      invariant 0 <= i <= n && forall j :: 0 <= j < i ==> !CodeGen.Insns(R, b)[j].Branch?
    {
      i := i + 1;
    }
    if i == n {
      return true;
    }
    assert forall j :: IsFirstBranch(R, b, j) <==> j == i;
    var impossible := false;
    var todo := Succs(R.g, b);
    while todo != {}
      invariant todo <= Succs(R.g, b)
      invariant impossible <==>
        exists s :: s in Succs(R.g, b) && s !in todo && CodeGen.Insns(R, s) != [] && !MayBranch(R, b, i, s)
      decreases todo
    {
      var s, rest := Next(todo);
      if CodeGen.Insns(R, s) != [] && !MayBranch(R, b, i, s) {
        impossible := true;
      }
      todo := rest;
    }
    return !impossible;
  }

  ghost predicate IsFirstBranch(R: CodeGen.Region, b: Block, i: int) {
    && 0 <= i < |CodeGen.Insns(R, b)| && CodeGen.Insns(R, b)[i].Branch?
    && forall j :: 0 <= j < i ==> !CodeGen.Insns(R, b)[j].Branch?
  }

  predicate MayBranch(R: CodeGen.Region, b: Block, i: int, s: Block)
    requires 0 <= i < |CodeGen.Insns(R, b)| && CodeGen.Insns(R, b)[i].Branch?
  {
    var pc := CodeGen.InsnAddr(R, b, i);
    CodeGen.Addr(R, s) == Wrap(pc + CodeGen.Insns(R, b)[i].imm) || CodeGen.Addr(R, s) == Wrap(pc + 4)
  }

  /** R has the blocks of the store with their instructions decoded. */
  ghost predicate Copies(R: CodeGen.Region, L: Listing, blocks: set<Block>) {
    && R.addr == L.entryAddr && R.code.Keys == blocks
    && forall b :: b in blocks ==>
       b in L.entryAddr && IsDecoded(Code(L.vecIns, b), R.code[b]) && CanTranslate(Code(L.vecIns, b))
  }

  /** The blocks of R have the addresses and the instructions that the store has for them. */
  ghost predicate Mirrors(R: CodeGen.Region, L: Listing, blocks: set<Block>) {
    forall b :: b in blocks ==>
      CodeGen.Addr(R, b) == Entry(L.entryAddr, b) && IsDecoded(Code(L.vecIns, b), CodeGen.Insns(R, b))
  }

  lemma CopiesMirror(R: CodeGen.Region, L: Listing, blocks: set<Block>)
    requires Copies(R, L, blocks)
    ensures Mirrors(R, L, blocks)
  {
    hide IsDecoded, CanTranslate, Code;
  }

  /** What buildCFG needs to know of the block store about the blocks of a region. */
  ghost predicate Sound(code: int -> int, L: Listing, succs: map<Block, set<Block>>, blocks: set<Block>) {
    && Unique(L.entryAddr)
    && (forall b :: b in blocks ==>
       b in L.entryAddr && Laid(code, L.entryAddr[b], Code(L.vecIns, b))
       && Sized(L.entryAddr[b], Code(L.vecIns, b), Entry(L.termAddr, b)))
    && forall x, y :: Edge(succs, x, y) ==> CanGo(Code(L.vecIns, x), Entry(L.entryAddr, y))
  }

  /** A region made of finished blocks, all reached from the head and going on inside it, satisfies everything that the
      translator relies on. */
  lemma RegionOk(code: int -> int, L: Listing, blocks: set<Block>, succs: map<Block, set<Block>>, h: Block,
                 entry: Block, R: CodeGen.Region)
    requires Sound(code, L, succs, blocks) && Copies(R, L, blocks) && Rooted(succs, h, blocks)
    requires entry !in blocks && entry !in L.entryAddr
    requires IsRegionGraph(R.g, blocks, succs, h, entry) && WellFormed(R.g) && Succs(R.g, entry) == {h} && R.head == h
    ensures SsaForm.WellFormedRegion(R)
  {
    hide WellFormed, SsaForm.BlockOk, SsaForm.JumpOk, Edge, Arc, BackArc, Inner, Rooted, Laid, Sized, CanGo, IsDecoded,
         CanTranslate, Entry, Code;
    RootHead(succs, h, blocks);
    forall b | b in R.g.nodes && b != entry
      ensures SsaForm.BlockOk(R, b) && SsaForm.JumpOk(R, b)
    {
      BlockOkOf(code, R, b, Code(L.vecIns, b), Entry(L.termAddr, b));
      JumpOkOf(code, L, blocks, succs, h, entry, R, b);
    }
  }

  lemma RegionFalls(code: int -> int, L: Listing, blocks: set<Block>, succs: map<Block, set<Block>>, h: Block,
                    entry: Block, R: CodeGen.Region)
    requires Sound(code, L, succs, blocks) && Copies(R, L, blocks) && Rooted(succs, h, blocks)
    requires IsRegionGraph(R.g, blocks, succs, h, entry)
    ensures SsaForm.FallsInside(R, blocks)
  {
    hide Sound, Copies, Rooted, IsRegionGraph, SsaForm.FallOk;
    forall b | b in blocks
      ensures SsaForm.FallOk(R, b)
    {
      FallOkOf(code, L, blocks, succs, h, entry, R, b);
    }
  }

  lemma JumpOkOf(code: int -> int, L: Listing, blocks: set<Block>, succs: map<Block, set<Block>>, h: Block,
                 entry: Block, R: CodeGen.Region, b: Block)
    requires Sound(code, L, succs, blocks) && Copies(R, L, blocks) && Rooted(succs, h, blocks) && b in blocks
    requires entry !in blocks
    requires IsRegionGraph(R.g, blocks, succs, h, entry)
    ensures SsaForm.JumpOk(R, b)
  {
    hide Edge, Rooted, Laid, Sized, CanGo, CanTranslate, IsDecoded, Code, Entry, Unique, CodeGen.Addr, CodeGen.InsnAddr,
         Arc, BackArc, Succs, Wrap;
    var y := NextInside(succs, h, blocks, b);
    var v := Code(L.vecIns, b);
    ArcIs(R.g, b, y);
    assert CodeGen.Insns(R, b) == R.code[b];
    if |R.code[b]| > 0 && R.code[b][|R.code[b]| - 1].Jal? {
      forall s | s in Succs(R.g, b)
        ensures CodeGen.Addr(R, s) == Wrap(CodeGen.InsnAddr(R, b, |R.code[b]| - 1) + R.code[b][|R.code[b]| - 1].imm)
      {
        ArcIs(R.g, b, s);
        AddrIs(R, L, blocks, s);
        DecodedLength(v, R.code[b]);
        JumpOnly(code, R, b, v, CodeGen.Addr(R, s));
      }
    }
  }

  /** A block that falls through goes on inside the region, and can only go on to what follows it. */
  lemma FallOkOf(code: int -> int, L: Listing, blocks: set<Block>, succs: map<Block, set<Block>>, h: Block,
                 entry: Block, R: CodeGen.Region, b: Block)
    requires Sound(code, L, succs, blocks) && Copies(R, L, blocks) && Rooted(succs, h, blocks) && b in blocks
    requires IsRegionGraph(R.g, blocks, succs, h, entry)
    ensures SsaForm.FallOk(R, b)
  {
    hide Edge, Rooted, Laid, Sized, CanGo, CanTranslate, IsDecoded, Code, Entry, Unique, CodeGen.Addr, CodeGen.InsnAddr,
         Arc, BackArc, Succs, Wrap;
    var y := NextInside(succs, h, blocks, b);
    var v := Code(L.vecIns, b);
    ArcIs(R.g, b, y);
    AddrIs(R, L, blocks, y);
    assert CodeGen.Insns(R, b) == R.code[b];
    DecodedLength(v, R.code[b]);
    if |v| > 0 && !IsControl(R.code[b][|v| - 1]) {
      FallOnly(code, R, b, v, CodeGen.Addr(R, y));
      assert CodeGen.SuccAt(R, b, CodeGen.InsnAddr(R, b, |v|), y);
    }
  }

  /** The successor of a block that falls through is what follows it. */
  lemma FallOnly(code: int -> int, R: CodeGen.Region, b: Block, v: Insns, a: int)
    requires b in R.addr && b in R.code && Laid(code, R.addr[b], v) && |v| > 0 && IsDecoded(v, R.code[b]) && CanGo(v, a)
    requires !IsControl(R.code[b][|v| - 1])
    ensures a == CodeGen.InsnAddr(R, b, |v|)
  {
    hide Decode;
    assert Normal(v[|v| - 1].0) && Decode(v[|v| - 1].0) == Some(R.code[b][|v| - 1]);
    Refinement.NextAddr(R, b, |v| - 1);
  }

  lemma ArcIs(g: Graph, x: Block, y: Block)
    ensures Arc(g, x, y) <==> y in Succs(g, x)
  {
  }

  lemma AddrIs(R: CodeGen.Region, L: Listing, blocks: set<Block>, s: Block)
    requires Copies(R, L, blocks) && s in blocks
    ensures CodeGen.Addr(R, s) == Entry(L.entryAddr, s)
  {
    hide IsDecoded, CanTranslate;
  }

  lemma DecodedLength(v: Insns, d: seq<Insn>)
    requires IsDecoded(v, d)
    ensures |v| == |d|
  {
    hide Decode;
  }

  /** The traces of a head with their union. */
  lemma TracesOk(code: int -> int, L: Listing, E: Links, C: Counts, G: Regions, bbMap: map<int, Block>,
                 insMap: map<int, Block>, h: Block, blocks: set<Block>)
    requires StoreOk(code, L, E, C, G, bbMap, insMap) && h in G.bbRegions && G.bbRegions[h] != []
    requires blocks == Union(G.bbRegions[h])
    ensures Traced(E.succs, h, blocks) && h in blocks
    ensures forall j :: 0 <= j < |G.bbRegions[h]| ==> |G.bbRegions[h][j]| > 0 && G.bbRegions[h][j][0] == h
    ensures forall x :: x in blocks ==> x in L.readOnly && x in L.entryAddr
  {
    hide CodeOk, EdgesOk, FlowOk, IndexOk, CountsOk, FlagsOk, Edge, ClosedWalk;
    ReadOnlyInside(code, L.entryAddr, L.vecIns, L.termAddr, L.readOnly);
    forall j | 0 <= j < |G.bbRegions[h]|
      ensures ClosedWalk(E.succs, h, G.bbRegions[h][j]) && Within(G.bbRegions[h][j], blocks)
      ensures |G.bbRegions[h][j]| > 0 && G.bbRegions[h][j][0] == h && h in G.bbRegions[h][j]
      ensures forall x :: x in G.bbRegions[h][j] ==> x in L.readOnly
    {
      assert Records(G.bbRegions, h, G.bbRegions[h][j]);
      ClosedIsWalk(E.succs, h, G.bbRegions[h][j]);
      forall x | x in G.bbRegions[h][j]
        ensures x in L.readOnly
      {
        assert Edge(G.cfgInRegions, x, h);
      }
    }
    assert h in G.bbRegions[h][0];
    forall x | x in blocks
      ensures x in L.readOnly && exists t :: ClosedWalk(E.succs, h, t) && x in t && Within(t, blocks)
    {
      var j :| 0 <= j < |G.bbRegions[h]| && x in G.bbRegions[h][j];
    }
  }

  lemma StoreSuccs(code: int -> int, L: Listing, E: Links, C: Counts, G: Regions, bbMap: map<int, Block>,
                   insMap: map<int, Block>)
    requires StoreOk(code, L, E, C, G, bbMap, insMap)
    ensures SuccsInside(E.succs) && E.succs.Keys == L.entryAddr.Keys
  {
    hide StoreOk, Edge;
    StoreInside(code, L, E, C, G, bbMap, insMap);
  }

  lemma SoundOf(code: int -> int, L: Listing, E: Links, C: Counts, G: Regions, bbMap: map<int, Block>,
                insMap: map<int, Block>, blocks: set<Block>)
    requires StoreOk(code, L, E, C, G, bbMap, insMap) && forall x :: x in blocks ==> x in L.readOnly
    ensures Sound(code, L, E.succs, blocks)
    ensures forall x :: x in blocks ==> x in E.succs && x in L.entryAddr
  {
    hide EdgesOk, IndexOk, CountsOk, FlagsOk, RegionsOk, SolidOk, CodeOk, Edge, CanGo, EndsInTransfer, Laid, Sized,
         Unique, Dom, Code;
    StoreInside(code, L, E, C, G, bbMap, insMap);
    forall b | b in blocks
      ensures b in L.entryAddr && b in E.succs && Laid(code, L.entryAddr[b], Code(L.vecIns, b))
      ensures Sized(L.entryAddr[b], Code(L.vecIns, b), Entry(L.termAddr, b))
    {
      InsideAt(L, E, b);
      SizedAt(code, L.entryAddr, L.vecIns, L.termAddr, L.readOnly, b);
    }
  }

  /** The first part of buildCFG: the head that all traces have, and the blocks of the region. */
  method GatherBlocks(bs: BlockStore, aug: CfgAug, h: Block) returns (head: Block, blocks: set<Block>)
    requires bs.Valid() && TracesOf(bs.regions, h) != [] && AllReadOnly(bs.listing)
    ensures head == h && Rooted(bs.links.succs, h, blocks) && blocks <= bs.listing.readOnly
    ensures Augmented(aug, bs.links.succs, bs.listing.flags, h, Union(TracesOf(bs.regions, h)), blocks)
  {
    hide StoreOk, KeysOk, Traced, Edge, Augmented, Rooted, Union;
    var traces := bs.regions.bbRegions[h];
    var traced := CollectBlocks(traces);
    TracesOk(bs.code, bs.listing, bs.links, bs.counts, bs.regions, bs.bbMap, bs.insMap, h, traced);
    var heads: set<Block> := {};
    for i := 0 to |traces|
      invariant heads == if i == 0 then {} else {h}
    {
      heads := heads + {traces[i][0]};
    }
    assert |heads| == 1;
    head := traces[0][0];
    TracedRooted(bs.links.succs, head, traced);
    StoreSuccs(bs.code, bs.listing, bs.links, bs.counts, bs.regions, bs.bbMap, bs.insMap);
    blocks := Augment(aug, bs.links.succs, bs.listing.flags, head, traced);
    AugmentedParts(aug, bs.links.succs, bs.listing.flags, head, traced, blocks);
  }

  /** buildCFG for the recorded traces of h, and the entry block of analyzeGraph. None where some instruction of the
      region has no translation; the calls of die() on the way are unreachable. */
  method BuildCFG(bs: BlockStore, aug: CfgAug, h: Block, entry: Block)
    returns (R: Option<CodeGen.Region>, blocks: set<Block>)
    requires bs.Valid() && TracesOf(bs.regions, h) != [] && AllReadOnly(bs.listing) && entry !in bs.listing.entryAddr
    ensures Augmented(aug, bs.links.succs, bs.listing.flags, h, Union(TracesOf(bs.regions, h)), blocks)
    ensures blocks <= bs.listing.readOnly && (R.Some? <==> AllTranslatable(bs.listing, blocks))
    ensures R.Some? ==> SsaForm.WellFormedRegion(R.value) && R.value.head == h && Copies(R.value, bs.listing, blocks)
                        && IsRegionGraph(R.value.g, blocks, bs.links.succs, h, entry)
                        && SsaForm.FallsInside(R.value, blocks)
  {
    hide StoreOk, KeysOk, AllTranslatable, AreDecoded, Traced, Connected, Edge, IsBlockGraph, IsRegionGraph,
         CanTranslate, IsDecoded, Sound, Copies, Within,
         HasPred, Linked, WellFormed, Leads, Code,
         IsFirstBranch, MayBranch, Succs, CodeGen.Insns, Augmented, Rooted, Union, CanBindAll, WritesZero;
    var head, theBlocks := GatherBlocks(bs, aug, h);
    blocks := theBlocks;
    RootedParts(bs.links.succs, head, blocks);
    SoundOf(bs.code, bs.listing, bs.links, bs.counts, bs.regions, bs.bbMap, bs.insMap, blocks);
    var topoblocks := Order(bs.links.succs, head, theBlocks);
    ghost var p :| p in blocks && Edge(bs.links.succs, p, head);
    var headProb, prs := HeadProbability(bs.links.succs, bs.listing.entryAddr, bs.counts, head, topoblocks);
    var g0 := BuildGraph(theBlocks, bs.links.succs, head, entry);
    var code := DecodeRegion(bs.listing, theBlocks);
    if code.None? {
      return None, blocks;
    }
    BlockGraphLinked(g0, blocks, bs.links.succs, head, entry);
    AllReached(g0, blocks, bs.links.succs, head, entry);
    GraphNodes(g0, blocks, bs.links.succs, head, entry);
    var region0 := CodeGen.Region(g0, head, bs.listing.entryAddr, code.value);
    MakeCopies(region0, bs.listing, blocks);
    var todo := theBlocks;
    while todo != {}
      invariant todo <= blocks
      decreases todo
    {
      var cbb, rest := Next(todo);
      var plausible := PlausibleSuccessors(region0, cbb);
      AllPlausible(bs.code, bs.listing, blocks, bs.links.succs, head, entry, region0, cbb);
      assert plausible;
      todo := rest;
    }
    var reachable := AllBlocksReachable(g0, head);
    assert reachable;
    var g := PrependEntry(g0, theBlocks, bs.links.succs, head, entry);
    RegionGraphOk(g0, g, blocks, bs.links.succs, head, entry);
    var region := CodeGen.Region(g, head, bs.listing.entryAddr, code.value);
    MakeCopies(region, bs.listing, blocks);
    RegionOk(bs.code, bs.listing, blocks, bs.links.succs, head, entry, region);
    RegionFalls(bs.code, bs.listing, blocks, bs.links.succs, head, entry, region);
    return Some(region), blocks;
  }

  /** Every successor of a block of the region is one that checkIfPlausableSuccessors lets pass. */
  lemma AllPlausible(code: int -> int, L: Listing, blocks: set<Block>, succs: map<Block, set<Block>>, h: Block,
                     entry: Block, R: CodeGen.Region, b: Block)
    requires Sound(code, L, succs, blocks) && Copies(R, L, blocks) && Rooted(succs, h, blocks) && b in blocks
    requires IsBlockGraph(R.g, blocks, succs, h, entry)
    ensures forall i, s :: IsFirstBranch(R, b, i) && s in Succs(R.g, b) && CodeGen.Insns(R, s) != [] ==>
      MayBranch(R, b, i, s)
  {
    hide Edge, Rooted, Laid, Sized, CanGo, CanTranslate, IsDecoded, Code, Entry, Unique, CodeGen.Addr, Arc, BackArc,
         Succs;
    var y := NextInside(succs, h, blocks, b);
    var v := Code(L.vecIns, b);
    DecodedLength(v, R.code[b]);
    forall i, s | IsFirstBranch(R, b, i) && s in Succs(R.g, b)
      ensures MayBranch(R, b, i, s)
    {
      ArcIs(R.g, b, s);
      AddrIs(R, L, blocks, s);
      BranchLast(code, R, b, v, i);
      BranchOnly(code, R, b, v, CodeGen.Addr(R, s));
    }
  }

  lemma BranchLast(code: int -> int, R: CodeGen.Region, b: Block, v: Insns, i: int)
    requires b in R.addr && b in R.code && Laid(code, R.addr[b], v) && IsDecoded(v, R.code[b]) && 0 <= i < |v|
    requires R.code[b][i].Branch?
    ensures i == |v| - 1
  {
    hide Decode, AddrOf;
  }

  lemma GraphNodes(g: Graph, blocks: set<Block>, succs: map<Block, set<Block>>, h: Block, entry: Block)
    requires IsBlockGraph(g, blocks, succs, h, entry)
    ensures g.nodes == blocks
  {
  }

  lemma MakeCopies(R: CodeGen.Region, L: Listing, blocks: set<Block>)
    requires R.addr == L.entryAddr && AreDecoded(L, blocks, R.code) && AllTranslatable(L, blocks)
    requires forall b :: b in blocks ==> b in L.entryAddr
    ensures Copies(R, L, blocks)
  {
    hide IsDecoded, CanTranslate, Code;
  }

  lemma Unbound(L: Listing, blocks: set<Block>)
    requires !forall b :: b in blocks ==> CanBindAll(Code(L.vecIns, b))
    ensures !AllTranslatable(L, blocks)
  {
    hide CanBindAll, CanTranslate, Code;
    var b :| b in blocks && !CanBindAll(Code(L.vecIns, b));
    if CanTranslate(Code(L.vecIns, b)) {
      BoundOnly(Code(L.vecIns, b));
    }
  }

  lemma BoundBlocks(L: Listing, blocks: set<Block>, code: map<Block, seq<Insn>>)
    requires code.Keys == blocks
    requires forall b :: b in blocks ==> CanBindAll(Code(L.vecIns, b)) && IsDecoded(Code(L.vecIns, b), code[b])
    ensures (exists b :: b in code && WritesZero(code[b])) <==> !AllTranslatable(L, blocks)
  {
    hide CanBindAll, CanTranslate, Code, IsDecoded, WritesZero;
    forall b | b in blocks
      ensures CanTranslate(Code(L.vecIns, b)) <==> !WritesZero(code[b])
    {
      BoundBlock(Code(L.vecIns, b), code[b]);
    }
  }

  /** bindInsns of every block. */
  method BindBlocks(L: Listing, blocks: set<Block>) returns (code: Option<map<Block, seq<Insn>>>)
    ensures code.Some? <==> forall b :: b in blocks ==> CanBindAll(Code(L.vecIns, b))
    ensures code.Some? ==> code.value.Keys == blocks && forall b :: b in blocks ==>
      IsDecoded(Code(L.vecIns, b), code.value[b])
  {
    hide IsDecoded, CanBindAll, Code;
    var m: map<Block, seq<Insn>> := map[];
    var todo := blocks;
    while todo != {}
      invariant todo <= blocks && m.Keys == blocks - todo
      invariant forall b :: b in m ==> CanBindAll(Code(L.vecIns, b)) && IsDecoded(Code(L.vecIns, b), m[b])
      decreases todo
    {
      var b, rest := Next(todo);
      var d := BindInsns(Code(L.vecIns, b));
      if d.None? {
        return None;
      }
      m := m[b := d.value];
      todo := rest;
    }
    return Some(m);
  }

  ghost predicate AreDecoded(L: Listing, blocks: set<Block>, code: map<Block, seq<Insn>>) {
    code.Keys == blocks && forall b :: b in blocks ==> IsDecoded(Code(L.vecIns, b), code[b])
  }

  /** The two places where an instruction without translation is noticed: bindInsns, and insertPhis, which is only come
      to later but not kept from its assertion by anything in between. */
  method DecodeRegion(L: Listing, blocks: set<Block>) returns (code: Option<map<Block, seq<Insn>>>)
    ensures code.Some? <==> AllTranslatable(L, blocks)
    ensures code.Some? ==> AreDecoded(L, blocks, code.value)
  {
    hide CanBindAll, AllTranslatable, IsDecoded, WritesZero, Code;
    code := BindBlocks(L, blocks);
    if code.None? {
      Unbound(L, blocks);
      return None;
    }
    BoundBlocks(L, blocks, code.value);
    var zero := DefinesZero(code.value);
    if zero {
      return None;
    }
  }

  /** The assertion of insertPhis that no block defines x0. */
  method DefinesZero(code: map<Block, seq<Insn>>) returns (zero: bool)
    ensures zero <==> exists b :: b in code && WritesZero(code[b])
  {
    var todo := code.Keys;
    while todo != {}
      invariant todo <= code.Keys && forall b :: b in code && b !in todo ==> !WritesZero(code[b])
      decreases todo
    {
      var b, rest := Next(todo);
      for i := 0 to |code[b]|
        invariant forall j :: 0 <= j < i ==> Defines(code[b][j]) != Some(0)
      {
        if Defines(code[b][i]) == Some(0) {
          return true;
        }
      }
      todo := rest;
    }
    return false;
  }
}
