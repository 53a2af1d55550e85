/** The depth-first spanning tree that LengauerTarjanDominators::DFS builds, and its path lemma. */
module DfsTrees {
  import opened Graphs

  /** num: preorder numbers from 1; parent: tree edges; anc: for each block its tree ancestors, itself included. */
  datatype Tree = Tree(num: map<Block, int>, parent: map<Block, Block>, anc: map<Block, set<Block>>)

  function Num(t: Tree, b: Block): int {
    if b in t.num then t.num[b] else 0
  }

  /** x is a tree ancestor of v, or v itself. */
  ghost predicate Anc(t: Tree, x: Block, v: Block) {
    v in t.anc && x in t.anc[v]
  }

  ghost predicate TreeEdge(g: Graph, t: Tree, b: Block) {
    && b in t.parent && t.parent[b] in t.num
    && b in Succs(g, t.parent[b])
    && Num(t, t.parent[b]) < Num(t, b)
    && b in t.anc && t.parent[b] in t.anc
    && t.anc[b] == t.anc[t.parent[b]] + {b}
  }

  /** The numbers 1 .. count - 1 are given out, the entry's first; ndfs is the inverse of num. */
  ghost predicate Numbers(g: Graph, t: Tree, ndfs: map<int, Block>, count: int) {
    && t.num.Keys <= g.nodes && t.anc.Keys == t.num.Keys
    && (forall b :: b in t.num ==> 1 <= Num(t, b) < count && Num(t, b) in ndfs && ndfs[Num(t, b)] == b)
    && (forall i :: 1 <= i < count ==> i in ndfs && ndfs[i] in t.num && Num(t, ndfs[i]) == i)
    && (count > 1 ==> ndfs[1] == g.entry)
  }

  /** Every visited block but the entry hangs below its parent. */
  ghost predicate Hangs(g: Graph, t: Tree) {
    && (forall b {:trigger TreeEdge(g, t, b)} :: b in t.num && b != g.entry ==> TreeEdge(g, t, b))
    && (g.entry in t.anc ==> t.anc[g.entry] == {g.entry})
    && g.entry !in t.parent
  }

  /** Ancestors are a partial order along which numbers grow. */
  ghost predicate Ancestry(t: Tree) {
    && (forall v :: v in t.anc ==> Anc(t, v, v))
    && (forall x, v :: Anc(t, x, v) ==> x in t.num && x in t.anc && Num(t, x) <= Num(t, v))
    && (forall x, y, v :: Anc(t, x, y) && Anc(t, y, v) ==> Anc(t, x, v))
  }

  /** The descendants of a block are numbered without gaps. */
  ghost predicate Intervals(t: Tree) {
    forall x, y, v :: Anc(t, x, v) && y in t.num && Num(t, x) <= Num(t, y) <= Num(t, v) ==> Anc(t, x, y)
  }

  /** An edge to a larger number leads down the tree. */
  ghost predicate NoCross(g: Graph, t: Tree) {
    forall x, y :: x in t.num && y in t.num && y in Succs(g, x) && Num(t, x) < Num(t, y) ==> Anc(t, x, y)
  }

  /** Blocks outside gray are finished; what is numbered after a gray block lies below it. */
  ghost predicate Active(g: Graph, t: Tree, gray: set<Block>) {
    && (forall x, y :: x in t.num && x !in gray && y in Succs(g, x) ==> y in t.num)
    && (forall x, y :: x in gray && y in t.num && Num(t, x) <= Num(t, y) ==> Anc(t, x, y))
    && gray <= t.num.Keys
  }

  ghost predicate Walked(g: Graph, t: Tree, ndfs: map<int, Block>, count: int, gray: set<Block>) {
    && Numbers(g, t, ndfs, count)
    && Hangs(g, t)
    && Ancestry(t)
    && Intervals(t)
    && NoCross(g, t)
    && Active(g, t, gray)
  }

  /** The finished tree. */
  ghost predicate Spanning(g: Graph, t: Tree, ndfs: map<int, Block>, count: int) {
    && WellFormed(g)
    && Walked(g, t, ndfs, count, {})
    && t.num.Keys == g.nodes
  }

  /** Entering b below via; gray holds the ancestors of via, or nothing when b is the entry. */
  ghost function Enter(t: Tree, b: Block, via: Block, gray: set<Block>, count: int): Tree {
    Tree(t.num[b := count], if gray == {} then t.parent else t.parent[b := via], t.anc[b := gray + {b}])
  }

  ghost predicate CanEnter(g: Graph, t: Tree, count: int, gray: set<Block>, b: Block, via: Block) {
    && b in g.nodes && b !in t.num && count >= 1
    && if count == 1 then b == g.entry && gray == {}
       else b != g.entry && via in t.num && via in t.anc && b in Succs(g, via) && gray == t.anc[via]
  }

  /** What Enter does to the ancestor relation. */
  lemma EnterAnc(g: Graph, t: Tree, ndfs: map<int, Block>, count: int, gray: set<Block>, b: Block, via: Block)
    requires Numbers(g, t, ndfs, count) && Ancestry(t) && CanEnter(g, t, count, gray, b, via)
    ensures var u := Enter(t, b, via, gray, count);
            forall x, v :: Anc(u, x, v) <==> if v == b then x in gray || x == b else Anc(t, x, v)
    ensures forall x, v :: Anc(t, x, v) ==> x != b && v != b
    ensures forall x :: x in gray ==> count > 1 && Anc(t, x, via)
    ensures count > 1 ==> via in gray
  {
  }

  lemma EnterNumbers(g: Graph, t: Tree, ndfs: map<int, Block>, count: int, gray: set<Block>, b: Block, via: Block)
    requires Numbers(g, t, ndfs, count) && Hangs(g, t) && Ancestry(t) && CanEnter(g, t, count, gray, b, via)
    ensures var u := Enter(t, b, via, gray, count);
            Numbers(g, u, ndfs[count := b], count + 1) && Hangs(g, u)
  {
    var u := Enter(t, b, via, gray, count);
    assert count > 1 ==> Anc(t, via, via);
    forall c | c in u.num && c != g.entry
      ensures TreeEdge(g, u, c)
    {
      if c != b {
        assert TreeEdge(g, t, c);
      }
    }
  }

  lemma EnterAncestry(g: Graph, t: Tree, ndfs: map<int, Block>, count: int, gray: set<Block>, b: Block, via: Block)
    requires Numbers(g, t, ndfs, count) && Ancestry(t) && CanEnter(g, t, count, gray, b, via)
    ensures Ancestry(Enter(t, b, via, gray, count))
  {
    var u := Enter(t, b, via, gray, count);
    EnterAnc(g, t, ndfs, count, gray, b, via);
    assert forall x :: x in t.num ==> Num(u, x) == Num(t, x) && Num(t, x) < count;
    hide Enter;
  }

  lemma EnterIntervals(g: Graph, t: Tree, ndfs: map<int, Block>, count: int, gray: set<Block>, b: Block, via: Block)
    requires Walked(g, t, ndfs, count, gray) && CanEnter(g, t, count, gray, b, via)
    ensures Intervals(Enter(t, b, via, gray, count))
  {
    var u := Enter(t, b, via, gray, count);
    EnterAnc(g, t, ndfs, count, gray, b, via);
    assert forall x :: x in t.num ==> Num(u, x) == Num(t, x) && Num(t, x) < count;
    assert Num(u, b) == count;
    hide Anc, Num, Enter, Succs, Hangs, NoCross;
  }

  lemma EnterActive(g: Graph, t: Tree, ndfs: map<int, Block>, count: int, gray: set<Block>, b: Block, via: Block)
    requires Walked(g, t, ndfs, count, gray) && CanEnter(g, t, count, gray, b, via)
    ensures NoCross(g, Enter(t, b, via, gray, count)) && Active(g, Enter(t, b, via, gray, count), gray + {b})
  {
    var u := Enter(t, b, via, gray, count);
    EnterAnc(g, t, ndfs, count, gray, b, via);
    assert forall x :: x in t.num ==> Num(u, x) == Num(t, x) && Num(t, x) < count;
    assert Num(u, b) == count && u.num.Keys == t.num.Keys + {b};
    hide Anc, Num, Enter, Succs, Hangs, Intervals, Ancestry;
  }

  lemma EnterWalks(g: Graph, t: Tree, ndfs: map<int, Block>, count: int, gray: set<Block>, b: Block, via: Block)
    requires Walked(g, t, ndfs, count, gray) && CanEnter(g, t, count, gray, b, via)
    ensures Walked(g, Enter(t, b, via, gray, count), ndfs[count := b], count + 1, gray + {b})
  {
    EnterNumbers(g, t, ndfs, count, gray, b, via);
    EnterAncestry(g, t, ndfs, count, gray, b, via);
    EnterIntervals(g, t, ndfs, count, gray, b, via);
    EnterActive(g, t, ndfs, count, gray, b, via);
  }

  /** Once all its successors are numbered, b is finished. */
  lemma Finish(g: Graph, t: Tree, ndfs: map<int, Block>, count: int, gray: set<Block>, b: Block)
    requires Walked(g, t, ndfs, count, gray + {b})
    requires forall y :: y in Succs(g, b) ==> y in t.num
    ensures Walked(g, t, ndfs, count, gray)
  {
    hide Numbers, Hangs, Ancestry, Intervals, NoCross;
  }
}
