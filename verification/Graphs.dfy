/** Control-flow graphs of a region, paths through them, and dominance defined by paths.

    A region graph has one entry without predecessors from which every block is reachable:
    allBlocksReachable checks the second part, and analyzeGraph adds the entry block. */
module Graphs {
  /** The identity of a block: a cfgBasicBlock pointer, of which only equality is used. */
  type Block(==,!new)

  datatype Graph = Graph(nodes: set<Block>, entry: Block,
                         succs: map<Block, set<Block>>, preds: map<Block, set<Block>>)

  function Succs(g: Graph, x: Block): set<Block> {
    if x in g.succs then g.succs[x] else {}
  }

  function Preds(g: Graph, x: Block): set<Block> {
    if x in g.preds then g.preds[x] else {}
  }

  /** The edge sets stay inside the region and mirror each other, which addSuccessor keeps. */
  ghost predicate Linked(g: Graph) {
    && (forall x, y :: y in Succs(g, x) ==> x in g.nodes && y in g.nodes && x in Preds(g, y))
    && (forall x, y :: x in Preds(g, y) ==> y in Succs(g, x))
  }

  ghost predicate WellFormed(g: Graph) {
    && Linked(g)
    && g.entry in g.nodes
    && Preds(g, g.entry) == {}
    && forall b :: b in g.nodes ==> Reachable(g, b)
  }

  /** The next element of an iteration over a std::set, whose order (by address) is left open. */
  method Next<T>(s: set<T>) returns (b: T, rest: set<T>)
    requires s != {}
    ensures b in s && rest == s - {b}
  {
    b :| b in s;
    rest := s - {b};
  }

  /** No edge leads to the entry. */
  lemma NotEntry(g: Graph, x: Block, y: Block)
    requires WellFormed(g) && y in Succs(g, x)
    ensures y != g.entry && y in g.nodes && x in g.nodes && x in Preds(g, y)
  {
  }

  // ---------- paths ----------

  ghost predicate IsPath(g: Graph, p: seq<Block>)
  {
    && |p| > 0
    && (forall i :: 0 <= i < |p| ==> p[i] in g.nodes)
    && forall i, j :: 0 <= i < j < |p| && j == i + 1 ==> p[j] in Succs(g, p[i])
  }

  function Last(p: seq<Block>): Block
    requires |p| > 0
  {
    p[|p| - 1]
  }

  /** p leads from a to b. */
  ghost predicate Leads(g: Graph, a: Block, p: seq<Block>, b: Block)
  {
    IsPath(g, p) && p[0] == a && Last(p) == b
  }

  ghost predicate Reachable(g: Graph, b: Block)
  {
    exists p :: Leads(g, g.entry, p, b)
  }

  /** Appends a step along an edge. */
  lemma Extend(g: Graph, a: Block, p: seq<Block>, b: Block, c: Block)
    requires Linked(g) && Leads(g, a, p, b) && c in Succs(g, b)
    ensures Leads(g, a, p + [c], c)
  {
    var r := p + [c];
    forall i | 0 < i < |r|
      ensures r[i] in Succs(g, r[i - 1])
    {
      assert r[i - 1] == p[i - 1];
    }
  }

  /** Joins a path ending in b with one starting there. */
  lemma Join(g: Graph, a: Block, p: seq<Block>, b: Block, q: seq<Block>, c: Block)
    requires Linked(g) && Leads(g, a, p, b) && Leads(g, b, q, c)
    ensures Leads(g, a, p + q[1..], c)
    ensures forall x :: x in p + q[1..] <==> x in p || x in q
  {
    var r := p + q[1..];
    forall i | 0 < i < |r|
      ensures r[i] in Succs(g, r[i - 1])
    {
      if i >= |p| {
        assert r[i] == q[i - |p| + 1];
        assert r[i - 1] == q[i - |p|];
      }
    }
    assert q == [q[0]] + q[1..];
  }

  /** Cuts a path at position k. */
  lemma Cut(g: Graph, a: Block, p: seq<Block>, b: Block, k: nat)
    requires Linked(g) && Leads(g, a, p, b) && k < |p|
    ensures Leads(g, a, p[..k + 1], p[k])
    ensures Leads(g, p[k], p[k..], b)
  {
    var r := p[k..];
    forall i | 0 < i < |r|
      ensures r[i] in Succs(g, r[i - 1])
    {
      assert r[i - 1] == p[k + i - 1];
    }
  }

  /** The first position of x in p. */
  lemma FirstAt(p: seq<Block>, x: Block) returns (k: nat)
    requires x in p
    ensures k < |p| && p[k] == x && x !in p[..k]
  {
    if p[0] == x {
      k := 0;
    } else {
      k := FirstAt(p[1..], x);
      k := k + 1;
      assert p[..k] == [p[0]] + p[1..][..k - 1];
    }
  }

  /** The last position in p of an element of S. */
  lemma LastIn(p: seq<Block>, S: set<Block>) returns (k: nat)
    requires exists x :: x in p && x in S
    ensures k < |p| && p[k] in S && forall i :: k < i < |p| ==> p[i] !in S
  {
    k := |p| - 1;
    while p[k] !in S
      invariant k < |p| && forall i :: k < i < |p| ==> p[i] !in S
      decreases k
    {
      var x :| x in p && x in S;
      var i :| 0 <= i < |p| && p[i] == x;
      assert i < k;
      k := k - 1;
    }
  }

  // ---------- dominance ----------

  /** a lies on every path from the entry to b. */
  ghost predicate Dominates(g: Graph, a: Block, b: Block)
  {
    forall p :: Leads(g, g.entry, p, b) ==> a in p
  }

  ghost predicate StrictlyDominates(g: Graph, a: Block, b: Block)
  {
    a != b && Dominates(g, a, b)
  }

  /** d is the strict dominator of b that every other strict dominator of b dominates. */
  ghost predicate IsIdom(g: Graph, d: Block, b: Block)
  {
    && d in g.nodes
    && StrictlyDominates(g, d, b)
    && forall a :: StrictlyDominates(g, a, b) ==> Dominates(g, a, d)
  }

  /** The set of dominators of b. */
  ghost function Doms(g: Graph, b: Block): (s: set<Block>)
  {
    set a | a in g.nodes && Dominates(g, a, b)
  }

  /** idom is the immediate-dominator map of g. */
  ghost predicate IsIdomMap(g: Graph, idom: map<Block, Block>)
  {
    && idom.Keys == g.nodes - {g.entry}
    && forall b :: b in idom ==> IsIdom(g, idom[b], b)
  }

  /** dtree lists, for each block, the blocks it immediately dominates. */
  ghost predicate IsDTree(g: Graph, idom: map<Block, Block>, dtree: map<Block, set<Block>>) {
    && dtree.Keys == g.nodes
    && forall d, b :: d in dtree ==> (b in dtree[d] <==> b in idom && idom[b] == d)
  }

  /** addDTreeSucc for one more block. */
  lemma DTreeGrows(g: Graph, idom: map<Block, Block>, dtree: map<Block, set<Block>>, b: Block, d: Block)
    requires IsDTree(g, idom, dtree) && b !in idom && d in dtree
    ensures IsDTree(g, idom[b := d], dtree[d := dtree[d] + {b}])
  {
  }

  lemma DomInNodes(g: Graph, a: Block, b: Block)
    requires WellFormed(g) && b in g.nodes && Dominates(g, a, b)
    ensures a in g.nodes
  {
    var p :| Leads(g, g.entry, p, b);
    assert a in p;
  }

  lemma DomRefl(g: Graph, b: Block)
    requires WellFormed(g) && b in g.nodes
    ensures Dominates(g, b, b) && Dominates(g, g.entry, b)
  {
  }

  lemma DomTrans(g: Graph, a: Block, b: Block, c: Block)
    requires WellFormed(g) && Dominates(g, a, b) && Dominates(g, b, c)
    ensures Dominates(g, a, c)
  {
    forall p | Leads(g, g.entry, p, c)
      ensures a in p
    {
      assert b in p;
      var k :| 0 <= k < |p| && p[k] == b;
      Cut(g, g.entry, p, c, k);
      assert a in p[..k + 1];
    }
  }

  lemma DomAntisym(g: Graph, a: Block, b: Block)
    requires WellFormed(g) && a in g.nodes && Dominates(g, a, b) && Dominates(g, b, a)
    ensures a == b
  {
    var p :| Leads(g, g.entry, p, a);
    var k := FirstAt(p, a);
    Cut(g, g.entry, p, a, k);
    var q := p[..k + 1];
    assert b in q;
    if a != b {
      var j :| 0 <= j < |q| && q[j] == b;
      assert a !in q[..j + 1];
      Cut(g, g.entry, q, a, j);
      assert false;
    }
  }

  /** A path around a: the witness that a does not dominate b. */
  lemma Bypass(g: Graph, a: Block, b: Block) returns (p: seq<Block>)
    requires Linked(g) && !Dominates(g, a, b)
    ensures Leads(g, g.entry, p, b) && a !in p
  {
    p :| Leads(g, g.entry, p, b) && a !in p;
  }

  /** Two dominators of one block are comparable. */
  lemma DomChain(g: Graph, a: Block, b: Block, c: Block)
    requires WellFormed(g) && c in g.nodes && Dominates(g, a, c) && Dominates(g, b, c)
    ensures Dominates(g, a, b) || Dominates(g, b, a)
  {
    if !Dominates(g, a, b) && !Dominates(g, b, a) {
      var q := Bypass(g, a, b);
      var r := Bypass(g, b, a);
      var p :| Leads(g, g.entry, p, c);
      assert a in p;
      var k := LastIn(p, {a, b});
      Cut(g, g.entry, p, c, k);
      var t := p[k..];
      assert forall i :: 0 < i < |t| ==> t[i] == p[k + i] && t[i] != a && t[i] != b;
      if p[k] == a {
        assert b !in t;
        Join(g, g.entry, r, a, t, c);
        assert false;
      } else {
        assert a !in t;
        Join(g, g.entry, q, b, t, c);
        assert false;
      }
    }
  }

  /** A dominator of b other than b dominates each predecessor of b. */
  lemma DomPred(g: Graph, a: Block, b: Block, p: Block)
    requires WellFormed(g) && b in g.nodes && p in Preds(g, b) && StrictlyDominates(g, a, b)
    ensures Dominates(g, a, p)
  {
    forall q | Leads(g, g.entry, q, p)
      ensures a in q
    {
      Extend(g, g.entry, q, p, b);
      assert a in q + [b];
    }
  }

  /** A block that dominates all predecessors of b dominates b. */
  lemma DomJoin(g: Graph, a: Block, b: Block)
    requires WellFormed(g) && b in g.nodes && b != g.entry
    requires forall p :: p in Preds(g, b) ==> Dominates(g, a, p)
    ensures Dominates(g, a, b)
  {
    forall q | Leads(g, g.entry, q, b)
      ensures a in q
    {
      var k := |q| - 2;
      Cut(g, g.entry, q, b, k);
      assert q[k + 1] in Succs(g, q[k]);
      assert q[k] in Preds(g, b);
      assert a in q[..k + 1];
    }
  }

  /** The immediate dominator of b dominates the predecessors of b. */
  lemma IdomPred(g: Graph, d: Block, b: Block, p: Block)
    requires WellFormed(g) && b in g.nodes && p in Preds(g, b) && IsIdom(g, d, b)
    ensures Dominates(g, d, p)
  {
    DomPred(g, d, b, p);
  }

  lemma IdomUnique(g: Graph, d: Block, e: Block, b: Block)
    requires WellFormed(g) && IsIdom(g, d, b) && IsIdom(g, e, b)
    ensures d == e
  {
    DomAntisym(g, d, e);
  }

  /** Two immediate-dominator maps are the same map. */
  lemma IdomMapUnique(g: Graph, m: map<Block, Block>, n: map<Block, Block>)
    requires WellFormed(g) && IsIdomMap(g, m) && IsIdomMap(g, n)
    ensures m == n
  {
    forall b | b in m
      ensures m[b] == n[b]
    {
      IdomUnique(g, m[b], n[b], b);
    }
  }

  /** Climbing to the immediate dominator loses exactly the block itself. */
  lemma DomsOfIdom(g: Graph, d: Block, b: Block)
    requires WellFormed(g) && b in g.nodes && IsIdom(g, d, b)
    ensures Doms(g, d) == Doms(g, b) - {b} && b in Doms(g, b)
  {
    DomRefl(g, b);
    forall a | a in Doms(g, d)
      ensures a in Doms(g, b) - {b}
    {
      DomTrans(g, a, d, b);
      if a == b {
        DomAntisym(g, d, b);
      }
    }
  }

  /** Only the entry dominates the entry. */
  lemma DomEntry(g: Graph, a: Block)
    requires WellFormed(g) && Dominates(g, a, g.entry)
    ensures a == g.entry
  {
    assert Leads(g, g.entry, [g.entry], g.entry);
  }

  /** A set of blocks that holds the entry and is closed under edges holds every block. */
  lemma ClosedIsAll(g: Graph, S: set<Block>)
    requires WellFormed(g) && g.entry in S
    requires forall x, y :: x in S && y in Succs(g, x) ==> y in S
    ensures g.nodes <= S
  {
    forall b | b in g.nodes
      ensures b in S
    {
      var p :| Leads(g, g.entry, p, b);
      var i := 0;
      while i < |p| - 1
        invariant 0 <= i < |p| && p[i] in S
      {
        assert p[i + 1] in Succs(g, p[i]);
        i := i + 1;
      }
    }
  }

  // ---------- the dominator tree ----------

  /** Strict dominance climbs to the immediate dominator. */
  lemma StrictViaIdom(g: Graph, d: Block, a: Block, b: Block)
    requires WellFormed(g) && b in g.nodes && IsIdom(g, d, b)
    ensures StrictlyDominates(g, a, b) <==> Dominates(g, a, d)
  {
    if Dominates(g, a, d) {
      DomTrans(g, a, d, b);
      if a == b {
        DomAntisym(g, d, b);
      }
    }
  }

  /** A child c of b in the dominator tree dominates each block that b strictly dominates and no other child does. */
  lemma {:induction false} ChildOver(g: Graph, idom: map<Block, Block>, b: Block, x: Block) returns (c: Block)
    requires WellFormed(g) && IsIdomMap(g, idom) && x in g.nodes && StrictlyDominates(g, b, x)
    ensures c in idom && idom[c] == b && Dominates(g, c, x)
    decreases Doms(g, x)
  {
    if x == g.entry {
      DomEntry(g, b);
    }
    var d := idom[x];
    DomRefl(g, x);
    if d == b {
      c := x;
    } else {
      DomsOfIdom(g, d, x);
      c := ChildOver(g, idom, b, d);
      DomTrans(g, c, d, x);
    }
  }

  /** The subtrees of two children of one block are disjoint. */
  lemma ChildrenDisjoint(g: Graph, idom: map<Block, Block>, c: Block, d: Block, x: Block)
    requires WellFormed(g) && IsIdomMap(g, idom) && c in idom && d in idom && idom[c] == idom[d] && c != d
    requires x in g.nodes && Dominates(g, c, x)
    ensures !Dominates(g, d, x)
  {
    if Dominates(g, d, x) {
      DomChain(g, c, d, x);
      var b := idom[c];
      if Dominates(g, c, d) {
        StrictViaIdom(g, b, c, d);
        DomAntisym(g, b, c);
      } else {
        StrictViaIdom(g, b, d, c);
        DomAntisym(g, b, d);
      }
    }
  }
}
