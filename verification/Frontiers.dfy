/** Dominance frontiers defined by paths, and what their computation rests on. */
module Frontiers {
  import opened Graphs

  /** x dominates a predecessor of y but does not strictly dominate y. */
  ghost predicate InFrontier(g: Graph, x: Block, y: Block) {
    && !StrictlyDominates(g, x, y)
    && exists p :: p in Preds(g, y) && Dominates(g, x, p)
  }

  /** df maps every block to its dominance frontier. */
  ghost predicate IsFrontierMap(g: Graph, df: map<Block, set<Block>>) {
    && df.Keys == g.nodes
    && forall x, y :: x in df ==> (y in df[x] <==> InFrontier(g, x, y))
  }

  /** A block whose only predecessor is p does not dominate p. */
  lemma OnlyPred(g: Graph, b: Block, p: Block)
    requires WellFormed(g) && b in g.nodes && b != g.entry && Preds(g, b) == {p}
    ensures !Dominates(g, b, p)
  {
    var q :| Leads(g, g.entry, q, b);
    var k := FirstAt(q, b);
    Cut(g, g.entry, q, b, k - 1);
    assert q[k] in Succs(g, q[k - 1]);
    assert q[k - 1] in Preds(g, b);
  }

  /** Blocks with fewer than two predecessors are in no frontier. */
  lemma FewPreds(g: Graph, x: Block, y: Block)
    requires WellFormed(g) && x in g.nodes && |Preds(g, y)| < 2
    ensures !InFrontier(g, x, y)
  {
    if InFrontier(g, x, y) {
      var p :| p in Preds(g, y) && Dominates(g, x, p);
      assert y in g.nodes && y != g.entry;
      assert Preds(g, y) == {p} by {
        assert |Preds(g, y) - {p}| == 0;
      }
      OnlyPred(g, y, p);
      DomJoin(g, x, y);
    }
  }

  /** The frontier entries that the walk from the predecessor p of y adds: the dominators of p that do not dominate
      n. */
  ghost predicate Walked(g: Graph, p: Block, n: Block, x: Block) {
    Dominates(g, x, p) && !Dominates(g, x, n)
  }

  /** One step of the walk. */
  lemma WalkStep(g: Graph, d: Block, p: Block, n: Block, x: Block)
    requires WellFormed(g) && n in g.nodes && Dominates(g, n, p) && IsIdom(g, d, n) && x in g.nodes
    ensures Walked(g, p, d, x) <==> Walked(g, p, n, x) || x == n
  {
    DomsOfIdom(g, d, n);
    assert x in Doms(g, d) <==> x in Doms(g, n) - {n};
    if Dominates(g, x, n) {
      DomTrans(g, x, n, p);
    }
  }

  /** When the walk has reached the immediate dominator of y it has entered exactly p's share of the frontiers. */
  lemma WalkDone(g: Graph, d: Block, p: Block, y: Block, x: Block)
    requires WellFormed(g) && y in g.nodes && IsIdom(g, d, y) && p in Preds(g, y)
    ensures Walked(g, p, d, x) <==> Dominates(g, x, p) && !StrictlyDominates(g, x, y)
  {
    StrictViaIdom(g, d, x, y);
  }

  /** The entries that the predecessors outside todo contribute for y. */
  ghost predicate Partial(g: Graph, y: Block, todo: set<Block>, x: Block) {
    && !StrictlyDominates(g, x, y)
    && exists p :: p in Preds(g, y) && p !in todo && Dominates(g, x, p)
  }

  /** The part of the iterated frontier that a set S of blocks must contain. */
  ghost predicate Covers(df: map<Block, set<Block>>, defs: set<Block>, S: set<Block>) {
    forall d :: d in df && (d in defs || d in S) ==> df[d] <= S
  }

  /** S is the iterated dominance frontier of defs: the least set that contains the frontiers of defs and of itself. */
  ghost predicate IsIterated(df: map<Block, set<Block>>, defs: set<Block>, S: set<Block>) {
    && Covers(df, defs, S)
    && forall T :: Covers(df, defs, T) ==> S <= T
  }
}
