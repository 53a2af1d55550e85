/** Semidominators and the theorems of Lengauer and Tarjan (TOPLAS 1979) that the algorithm rests on. */
module Semidominators {
  import opened Graphs
  import opened DfsTrees

  // ---------- paths and the tree ----------

  /** A path downwards in the tree, through blocks numbered at least Num(x). */
  lemma {:induction false} TreePath(g: Graph, t: Tree, ndfs: map<int, Block>, count: int, x: Block, v: Block)
    returns (p: seq<Block>)
    requires Spanning(g, t, ndfs, count) && Anc(t, x, v)
    ensures Leads(g, x, p, v)
    ensures forall y :: y in p ==> Anc(t, y, v) && Num(t, x) <= Num(t, y)
    decreases Num(t, v)
  {
    hide Intervals, NoCross, Active, WellFormed;
    if x == v {
      p := [v];
    } else {
      assert v != g.entry;
      assert TreeEdge(g, t, v);
      p := TreePath(g, t, ndfs, count, x, t.parent[v]);
      LinkedOf(g);
      Extend(g, x, p, t.parent[v], v);
      p := p + [v];
    }
  }

  lemma LinkedOf(g: Graph)
    requires WellFormed(g)
    ensures Linked(g)
  {
  }

  /** The lowest-numbered block of a path is a tree ancestor of everything after it. */
  lemma {:induction false} LowestOnPath(g: Graph, t: Tree, ndfs: map<int, Block>, count: int, a: Block, p: seq<Block>,
                                        b: Block)
    returns (k: nat)
    requires Spanning(g, t, ndfs, count) && Leads(g, a, p, b)
    ensures k < |p|
    ensures forall i :: 0 <= i < k ==> Num(t, p[i]) > Num(t, p[k])
    ensures forall i :: k <= i < |p| ==> Num(t, p[k]) <= Num(t, p[i]) && Anc(t, p[k], p[i])
    decreases |p|
  {
    if |p| == 1 {
      k := 0;
    } else {
      var n := |p| - 1;
      Cut(g, a, p, b, n - 1);
      var q := p[..n];
      k := LowestOnPath(g, t, ndfs, count, a, q, p[n - 1]);
      assert forall i :: 0 <= i < n ==> q[i] == p[i];
      assert p[n] in Succs(g, p[n - 1]);
      StepDown(g, t, ndfs, count, p[k], p[n - 1], p[n]);
      hide *;
      if Num(t, p[n]) < Num(t, p[k]) {
        k := n;
        SelfAnc(g, t, ndfs, count, p[n]);
      }
    }
  }

  lemma SelfAnc(g: Graph, t: Tree, ndfs: map<int, Block>, count: int, v: Block)
    requires Spanning(g, t, ndfs, count) && v in g.nodes
    ensures Anc(t, v, v)
  {
  }

  /** An edge from a descendant y of x stays below x, or goes to a smaller number. */
  lemma StepDown(g: Graph, t: Tree, ndfs: map<int, Block>, count: int, x: Block, y: Block, z: Block)
    requires Spanning(g, t, ndfs, count) && Anc(t, x, y) && z in Succs(g, y)
    ensures z in g.nodes && (Num(t, z) < Num(t, x) || Anc(t, x, z))
  {
    NotEntry(g, y, z);
    assert y in t.num && z in t.num;
    if Num(t, y) < Num(t, z) {
      assert Anc(t, y, z);
    }
  }

  /** Two ancestors of one block are ordered by their numbers. */
  lemma AncChain(g: Graph, t: Tree, ndfs: map<int, Block>, count: int, x: Block, y: Block, v: Block)
    requires Spanning(g, t, ndfs, count) && Anc(t, x, v) && Anc(t, y, v) && Num(t, x) <= Num(t, y)
    ensures Anc(t, x, y)
  {
    hide WellFormed, NoCross, Active, Hangs;
  }

  lemma SameNumber(g: Graph, t: Tree, ndfs: map<int, Block>, count: int, x: Block, y: Block)
    requires Spanning(g, t, ndfs, count) && x in g.nodes && y in g.nodes && Num(t, x) == Num(t, y)
    ensures x == y
  {
    hide WellFormed, NoCross, Active, Hangs, Intervals, Ancestry;
  }

  lemma DistinctNumbers(g: Graph, t: Tree, ndfs: map<int, Block>, count: int, x: Block, y: Block)
    requires Spanning(g, t, ndfs, count) && x in g.nodes && y in g.nodes && x != y
    ensures Num(t, x) != Num(t, y)
  {
    hide WellFormed, NoCross, Active, Hangs, Intervals, Ancestry;
  }

  /** Every dominator is a tree ancestor. */
  lemma DomIsAncestor(g: Graph, t: Tree, ndfs: map<int, Block>, count: int, a: Block, w: Block)
    requires Spanning(g, t, ndfs, count) && w in g.nodes && Dominates(g, a, w)
    ensures Anc(t, a, w)
  {
    EntryAnc(g, t, ndfs, count, w);
    var p := TreePath(g, t, ndfs, count, g.entry, w);
    assert a in p;
  }

  lemma {:induction false} EntryAnc(g: Graph, t: Tree, ndfs: map<int, Block>, count: int, w: Block)
    requires Spanning(g, t, ndfs, count) && w in g.nodes
    ensures Anc(t, g.entry, w)
    decreases Num(t, w)
  {
    if w != g.entry {
      assert TreeEdge(g, t, w);
      EntryAnc(g, t, ndfs, count, t.parent[w]);
    }
  }

  // ---------- semidominators ----------

  /** A path from v to w whose inner blocks are numbered above w. */
  ghost predicate HighPath(g: Graph, t: Tree, v: Block, p: seq<Block>, w: Block) {
    && Leads(g, v, p, w)
    && |p| >= 2
    && forall i :: 0 < i < |p| - 1 ==> Num(t, p[i]) > Num(t, w)
  }

  /** s is the lowest-numbered block with such a path to w. */
  ghost predicate IsSemi(g: Graph, t: Tree, s: Block, w: Block) {
    && (exists p :: HighPath(g, t, s, p, w))
    && forall v, p :: HighPath(g, t, v, p, w) ==> Num(t, s) <= Num(t, v)
  }

  /** The semidominator of w is a proper ancestor of w. */
  lemma SemiIsAncestor(g: Graph, t: Tree, ndfs: map<int, Block>, count: int, s: Block, w: Block)
    requires Spanning(g, t, ndfs, count) && w in g.nodes && w != g.entry && IsSemi(g, t, s, w)
    ensures s in g.nodes && Anc(t, s, w) && Num(t, s) < Num(t, w)
  {
    assert TreeEdge(g, t, w);
    var q := [t.parent[w], w];
    assert HighPath(g, t, t.parent[w], q, w);
    var p :| HighPath(g, t, s, p, w);
    var k := LowestOnPath(g, t, ndfs, count, s, p, w);
    assert p[0] == s && p[|p| - 1] == w;
  }

  /** No strict dominator of w lies below its semidominator. */
  lemma DomAboveSemi(g: Graph, t: Tree, ndfs: map<int, Block>, count: int, s: Block, a: Block, w: Block)
    requires Spanning(g, t, ndfs, count) && w in g.nodes && w != g.entry && IsSemi(g, t, s, w)
    requires StrictlyDominates(g, a, w)
    ensures Num(t, a) <= Num(t, s)
  {
    SemiIsAncestor(g, t, ndfs, count, s, w);
    DomIsAncestor(g, t, ndfs, count, a, w);
    if Num(t, a) > Num(t, s) {
      EntryAnc(g, t, ndfs, count, s);
      var q := TreePath(g, t, ndfs, count, g.entry, s);
      var p :| HighPath(g, t, s, p, w);
      AncBelow(g, t, ndfs, count, a, w);
      assert forall y :: y in q ==> Num(t, y) <= Num(t, s) by {
        hide WellFormed, NoCross, Active, Hangs, Intervals;
      }
      assert a !in q;
      assert a !in p[1..];
      Join(g, g.entry, q, s, p, w);
      assert false;
    }
  }

  lemma AncBelow(g: Graph, t: Tree, ndfs: map<int, Block>, count: int, x: Block, v: Block)
    requires Spanning(g, t, ndfs, count) && Anc(t, x, v)
    ensures x in g.nodes && v in g.nodes && Num(t, x) <= Num(t, v) && (x != v ==> Num(t, x) < Num(t, v))
  {
    if Num(t, x) == Num(t, v) {
      SameNumber(g, t, ndfs, count, x, v);
    }
  }

  // ---------- computing semidominators from predecessors ----------

  /** sd gives the number of the semidominator of every block numbered above i. */
  ghost predicate SemisAbove(g: Graph, t: Tree, sd: map<Block, int>, i: int) {
    forall b :: b in g.nodes && Num(t, b) > i ==> b in sd && HasSemi(g, t, sd[b], b)
  }

  /** The semidominator of b is the block numbered n. */
  ghost predicate HasSemi(g: Graph, t: Tree, n: int, b: Block) {
    exists s :: s in g.nodes && Num(t, s) == n && IsSemi(g, t, s, b)
  }

  /** The block u offers to w, through its predecessor v, the number c: v itself when v is numbered below w,
      otherwise the semidominator of an ancestor u of v above w. */
  ghost predicate Offers(t: Tree, sd: map<Block, int>, w: Block, v: Block, u: Block, c: int) {
    if Num(t, v) <= Num(t, w) then u == v && c == Num(t, v)
      else Anc(t, u, v) && Num(t, u) > Num(t, w) && u in sd && c == sd[u]
  }

  /** A high path to u, continued down the tree to v and over an edge to w, is a high path to w. */
  lemma HighJoin(g: Graph, t: Tree, s: Block, q: seq<Block>, u: Block, r: seq<Block>, v: Block, w: Block)
    requires Linked(g) && HighPath(g, t, s, q, u) && Leads(g, u, r, v) && w in Succs(g, v)
    requires Num(t, u) > Num(t, w) && forall y :: y in r ==> Num(t, y) >= Num(t, u)
    ensures HighPath(g, t, s, q + r[1..] + [w], w)
  {
    var p := q + r[1..];
    Join(g, s, q, u, r, v);
    Extend(g, s, p, v, w);
    assert q[|q| - 1] == u;
    hide Leads, Num;
    forall i | 0 < i < |p|
      ensures Num(t, (p + [w])[i]) > Num(t, w)
    {
      if i < |q| {
        assert p[i] == q[i];
      } else {
        assert p[i] == r[1..][i - |q|];
        assert p[i] in r;
      }
    }
  }

  /** A number offered to w is the start of a high path to w. */
  lemma OfferIsPath(g: Graph, t: Tree, ndfs: map<int, Block>, count: int, sd: map<Block, int>, w: Block, v: Block,
                    u: Block, c: int)
    returns (s: Block, p: seq<Block>)
    requires Spanning(g, t, ndfs, count) && w in g.nodes && SemisAbove(g, t, sd, Num(t, w))
    requires v in Preds(g, w) && Offers(t, sd, w, v, u, c)
    ensures s in g.nodes && Num(t, s) == c && HighPath(g, t, s, p, w)
  {
    LinkedOf(g);
    assert w in Succs(g, v);
    hide WellFormed, Walked, Reachable;
    if Num(t, v) <= Num(t, w) {
      s, p := v, [v, w];
    } else {
      AncBelow(g, t, ndfs, count, u, v);
      assert HasSemi(g, t, sd[u], u);
      s :| s in g.nodes && Num(t, s) == sd[u] && IsSemi(g, t, s, u);
      var q :| HighPath(g, t, s, q, u);
      var r := TreePath(g, t, ndfs, count, u, v);
      HighJoin(g, t, s, q, u, r, v, w);
      p := q + r[1..] + [w];
    }
  }

  /** The lowest inner block of a high path is an ancestor of the last inner one, and the path reaches it high. */
  lemma LowestInner(g: Graph, t: Tree, ndfs: map<int, Block>, count: int, w: Block, x: Block, p: seq<Block>)
    returns (u: Block, h: seq<Block>)
    requires Spanning(g, t, ndfs, count) && w in g.nodes && HighPath(g, t, x, p, w) && |p| > 2
    ensures Anc(t, u, p[|p| - 2]) && Num(t, u) > Num(t, w) && HighPath(g, t, x, h, u)
  {
    LinkedOf(g);
    var k := |p| - 2;
    var v := p[k];
    Cut(g, x, p, w, 1);
    Cut(g, p[1], p[1..], w, k - 1);
    var r := p[1..][..k];
    assert forall i :: 0 <= i < |r| ==> r[i] == p[i + 1];
    var j := LowestOnPath(g, t, ndfs, count, p[1], r, v);
    u := r[j];
    Cut(g, x, p, w, j + 1);
    h := p[..j + 2];
    hide Spanning, Leads, Anc;
    assert forall i :: 0 < i < |h| - 1 ==> h[i] == r[i - 1];
  }

  /** Every high path to w from below w starts at or above something that some predecessor offers. */
  lemma PathIsOffered(g: Graph, t: Tree, ndfs: map<int, Block>, count: int, sd: map<Block, int>, w: Block, x: Block,
                      p: seq<Block>)
    returns (v: Block, u: Block, c: int)
    requires Spanning(g, t, ndfs, count) && w in g.nodes && SemisAbove(g, t, sd, Num(t, w))
    requires HighPath(g, t, x, p, w) && Num(t, x) < Num(t, w)
    ensures v in Preds(g, w) && Offers(t, sd, w, v, u, c) && c <= Num(t, x)
  {
    LinkedOf(g);
    var k := |p| - 2;
    v := p[k];
    assert p[k + 1] in Succs(g, p[k]);
    hide WellFormed, Walked, Reachable;
    if k == 0 {
      u, c := v, Num(t, v);
    } else {
      var h;
      u, h := LowestInner(g, t, ndfs, count, w, x, p);
      AncBelow(g, t, ndfs, count, u, v);
      assert HasSemi(g, t, sd[u], u);
      c := sd[u];
      var s :| s in g.nodes && Num(t, s) == sd[u] && IsSemi(g, t, s, u);
    }
  }

  /** c is offered to w by a predecessor. */
  ghost predicate Offered(g: Graph, t: Tree, sd: map<Block, int>, w: Block, c: int) {
    exists v, u :: v in Preds(g, w) && Offers(t, sd, w, v, u, c)
  }

  /** The least offer is the semidominator: the recursion that the algorithm evaluates. */
  lemma LeastOfferIsSemi(g: Graph, t: Tree, ndfs: map<int, Block>, count: int, sd: map<Block, int>, w: Block, n: int)
    requires Spanning(g, t, ndfs, count) && w in g.nodes && w != g.entry && SemisAbove(g, t, sd, Num(t, w))
    requires Offered(g, t, sd, w, n)
    requires forall v, u, c :: v in Preds(g, w) && Offers(t, sd, w, v, u, c) ==> n <= c
    ensures HasSemi(g, t, n, w) && n < Num(t, w)
  {
    var v, u :| v in Preds(g, w) && Offers(t, sd, w, v, u, n);
    var s, p := OfferIsPath(g, t, ndfs, count, sd, w, v, u, n);
    ParentOffers(g, t, ndfs, count, sd, w);
    hide Spanning, HighPath, Offers;
    forall x, q | HighPath(g, t, x, q, w)
      ensures Num(t, s) <= Num(t, x)
    {
      if Num(t, x) < Num(t, w) {
        var v', u', c' := PathIsOffered(g, t, ndfs, count, sd, w, x, q);
      }
    }
  }

  /** The tree parent of w offers its own number, which is below w. */
  lemma ParentOffers(g: Graph, t: Tree, ndfs: map<int, Block>, count: int, sd: map<Block, int>, w: Block)
    requires Spanning(g, t, ndfs, count) && w in g.nodes && w != g.entry
    ensures w in t.parent && t.parent[w] in Preds(g, w) && Num(t, t.parent[w]) < Num(t, w)
    ensures Offers(t, sd, w, t.parent[w], t.parent[w], Num(t, t.parent[w]))
  {
    LinkedOf(g);
    assert TreeEdge(g, t, w);
  }

  // ---------- from semidominators to immediate dominators ----------

  /** Where a path that misses d is last among the blocks numbered below d. */
  lemma LastBelow(g: Graph, t: Tree, ndfs: map<int, Block>, count: int, d: Block, p: seq<Block>, w: Block)
    returns (k: nat)
    requires Spanning(g, t, ndfs, count) && d in g.nodes && w in g.nodes && Num(t, d) < Num(t, w)
    requires Leads(g, g.entry, p, w) && d !in p
    ensures k < |p| - 1 && Num(t, p[k]) < Num(t, d)
    ensures forall i :: k < i < |p| ==> Num(t, d) < Num(t, p[i])
  {
    var low := set y | y in g.nodes && Num(t, y) < Num(t, d);
    EntryLow(g, t, ndfs, count, d);
    assert p[0] in low;
    k := LastIn(p, low);
    assert forall i :: 0 <= i < |p| ==> p[i] in g.nodes && p[i] in p;
    forall i | k < i < |p|
      ensures Num(t, d) < Num(t, p[i])
    {
      DistinctNumbers(g, t, ndfs, count, p[i], d);
    }
  }

  /** On a path to w that misses the ancestor d of w, the lowest block m after the last visit below d
      is an ancestor of w below d, and the block x left there reaches m high. */
  lemma LowPoint(g: Graph, t: Tree, ndfs: map<int, Block>, count: int, d: Block, p: seq<Block>, w: Block)
    returns (x: Block, m: Block, j: nat, h: seq<Block>)
    requires Spanning(g, t, ndfs, count) && d in g.nodes && w in g.nodes && Num(t, d) < Num(t, w)
    requires Leads(g, g.entry, p, w) && d !in p && Anc(t, d, w)
    ensures Num(t, x) < Num(t, d) < Num(t, m) && Anc(t, m, w) && Anc(t, d, m)
    ensures HighPath(g, t, x, h, m)
    ensures j < |p| && p[j] == m
  {
    var k := LastBelow(g, t, ndfs, count, d, p, w);
    LinkedOf(g);
    hide WellFormed, Walked;
    x := p[k];
    Cut(g, g.entry, p, w, k + 1);
    var q := p[k + 1..];
    var i := LowestOnPath(g, t, ndfs, count, q[0], q, w);
    j := k + 1 + i;
    m := q[i];
    assert Anc(t, m, q[|q| - 1]);
    AncChain(g, t, ndfs, count, d, m, w);
    Cut(g, g.entry, p, w, k);
    Cut(g, x, p[k..], w, j - k);
    h := p[k..][..j - k + 1];
    hide Spanning, Leads, Anc;
    assert forall l :: 0 < l < |h| ==> h[l] == q[l - 1];
  }

  /** Blocks other than the entry are numbered above it. */
  lemma EntryLow(g: Graph, t: Tree, ndfs: map<int, Block>, count: int, d: Block)
    requires Spanning(g, t, ndfs, count) && d in g.nodes
    ensures Num(t, g.entry) == 1 && (d != g.entry ==> Num(t, d) > 1)
  {
  }

  /** No block strictly between s and w, or w itself, has a semidominator numbered below n. */
  ghost predicate NoLower(t: Tree, sd: map<Block, int>, s: Block, w: Block, n: int) {
    forall u :: Anc(t, u, w) && Num(t, s) < Num(t, u) ==> u in sd && n <= sd[u]
  }

  /** The least-semidominator property of m on a high path: it is at most where the path starts. */
  lemma SemiAtMost(g: Graph, t: Tree, sd: map<Block, int>, x: Block, h: seq<Block>, m: Block)
    requires m in sd && HasSemi(g, t, sd[m], m) && HighPath(g, t, x, h, m)
    ensures sd[m] <= Num(t, x)
  {
    var s :| s in g.nodes && Num(t, s) == sd[m] && IsSemi(g, t, s, m);
  }

  /** A path from the entry that misses a, continued from s to w high, still misses a. */
  lemma DomOfSemi(g: Graph, t: Tree, ndfs: map<int, Block>, count: int, s: Block, a: Block, w: Block)
    requires Spanning(g, t, ndfs, count) && w in g.nodes && w != g.entry
    requires IsSemi(g, t, s, w) && StrictlyDominates(g, a, w)
    ensures Dominates(g, a, s)
  {
    LinkedOf(g);
    DomAboveSemi(g, t, ndfs, count, s, a, w);
    SemiIsAncestor(g, t, ndfs, count, s, w);
    if !Dominates(g, a, s) {
      var q := Bypass(g, a, s);
      var p :| HighPath(g, t, s, p, w);
      hide Spanning;
      assert a !in p[1..];
      assert Leads(g, s, p, w);
      Join(g, g.entry, q, s, p, w);
      assert false;
    }
  }

  /** If no block strictly below the semidominator s of w, down to w, has a lower semidominator, s is the immediate
      dominator. */
  lemma DirectIdom(g: Graph, t: Tree, ndfs: map<int, Block>, count: int, sd: map<Block, int>, s: Block, w: Block)
    requires Spanning(g, t, ndfs, count) && w in g.nodes && w != g.entry && SemisAbove(g, t, sd, 1)
    requires IsSemi(g, t, s, w) && NoLower(t, sd, s, w, Num(t, s))
    ensures IsIdom(g, s, w)
  {
    LinkedOf(g);
    SemiIsAncestor(g, t, ndfs, count, s, w);
    forall p | Leads(g, g.entry, p, w)
      ensures s in p
    {
      if s !in p {
        var x, m, j, h := LowPoint(g, t, ndfs, count, s, p, w);
        AncBelow(g, t, ndfs, count, m, w);
        EntryLow(g, t, ndfs, count, s);
        hide Spanning, HighPath, Leads;
        assert HasSemi(g, t, sd[m], m);
        SemiAtMost(g, t, sd, x, h, m);
        assert false;
      }
    }
    forall a | StrictlyDominates(g, a, w)
      ensures Dominates(g, a, s)
    {
      DomOfSemi(g, t, ndfs, count, s, a, w);
    }
  }

  /** A path to u, continued down the tree to w, stays at or above u. */
  lemma DownFrom(g: Graph, t: Tree, ndfs: map<int, Block>, count: int, a: Block, q: seq<Block>, u: Block, w: Block)
    returns (p: seq<Block>)
    requires Spanning(g, t, ndfs, count) && Anc(t, u, w) && Leads(g, g.entry, q, u) && a !in q && Num(t, a) < Num(t, u)
    ensures Leads(g, g.entry, p, w) && a !in p
  {
    LinkedOf(g);
    var r := TreePath(g, t, ndfs, count, u, w);
    hide Spanning;
    assert a !in r;
    Join(g, g.entry, q, u, r, w);
    p := q + r[1..];
  }

  /** u has the least semidominator strictly below s down to w. */
  ghost predicate Least(t: Tree, sd: map<Block, int>, s: Block, w: Block, u: Block) {
    && Anc(t, u, w) && Num(t, s) < Num(t, u)
    && u in sd
    && NoLower(t, sd, s, w, sd[u])
  }

  /** If u has the least semidominator strictly below s down to w, and it is below s, then u and w have the same
      immediate dominator. */
  lemma DeferredIdom(g: Graph, t: Tree, ndfs: map<int, Block>, count: int, sd: map<Block, int>, s: Block, w: Block,
                     u: Block, d: Block)
    requires Spanning(g, t, ndfs, count) && w in g.nodes && w != g.entry && SemisAbove(g, t, sd, 1)
    requires IsSemi(g, t, s, w) && Least(t, sd, s, w, u) && sd[u] < Num(t, s)
    requires IsIdom(g, d, u)
    ensures IsIdom(g, d, w)
  {
    LinkedOf(g);
    SemiIsAncestor(g, t, ndfs, count, s, w);
    AncBelow(g, t, ndfs, count, u, w);
    EntryLow(g, t, ndfs, count, u);
    EntryLow(g, t, ndfs, count, s);
    assert HasSemi(g, t, sd[u], u);
    IdomAboveSemi(g, t, ndfs, count, sd, d, u);
    forall p | Leads(g, g.entry, p, w)
      ensures d in p
    {
      if d !in p {
        DeferredPath(g, t, ndfs, count, sd, s, w, u, d, p);
      }
    }
    forall a | StrictlyDominates(g, a, w)
      ensures Dominates(g, a, d)
    {
      DomAboveSemi(g, t, ndfs, count, s, a, w);
      if !Dominates(g, a, u) {
        var q := Bypass(g, a, u);
        var p := DownFrom(g, t, ndfs, count, a, q, u, w);
      }
    }
  }

  lemma IdomAboveSemi(g: Graph, t: Tree, ndfs: map<int, Block>, count: int, sd: map<Block, int>, d: Block, u: Block)
    requires Spanning(g, t, ndfs, count) && u in g.nodes && u != g.entry && u in sd && HasSemi(g, t, sd[u], u)
    requires IsIdom(g, d, u)
    ensures Num(t, d) <= sd[u] && Anc(t, d, u)
  {
    var s :| s in g.nodes && Num(t, s) == sd[u] && IsSemi(g, t, s, u);
    DomAboveSemi(g, t, ndfs, count, s, d, u);
    DomIsAncestor(g, t, ndfs, count, d, u);
  }

  /** There is no path to w around the immediate dominator of u. */
  lemma DeferredPath(g: Graph, t: Tree, ndfs: map<int, Block>, count: int, sd: map<Block, int>, s: Block, w: Block,
                     u: Block, d: Block, p: seq<Block>)
    requires Spanning(g, t, ndfs, count) && w in g.nodes && u in g.nodes && SemisAbove(g, t, sd, 1)
    requires Anc(t, s, w) && Least(t, sd, s, w, u) && sd[u] < Num(t, s) && Num(t, s) >= 1
    requires IsIdom(g, d, u) && Num(t, d) <= sd[u] && Anc(t, d, u)
    requires Leads(g, g.entry, p, w)
    ensures d in p
  {
    if d !in p {
      LinkedOf(g);
      AncBelow(g, t, ndfs, count, u, w);
      AncTrans(g, t, ndfs, count, d, u, w);
      var x, m, j, h := LowPoint(g, t, ndfs, count, d, p, w);
      AncBelow(g, t, ndfs, count, m, w);
      if Num(t, s) < Num(t, m) {
        assert HasSemi(g, t, sd[m], m);
        hide Spanning, HighPath, Leads;
        SemiAtMost(g, t, sd, x, h, m);
        assert false;
      } else {
        AncChain(g, t, ndfs, count, m, u, w);
        Cut(g, g.entry, p, w, j);
        assert d !in p[..j + 1];
        var q := DownFrom(g, t, ndfs, count, d, p[..j + 1], m, u);
        hide Spanning;
        assert false;
      }
    }
  }

  lemma AncTrans(g: Graph, t: Tree, ndfs: map<int, Block>, count: int, x: Block, y: Block, z: Block)
    requires Spanning(g, t, ndfs, count) && Anc(t, x, y) && Anc(t, y, z)
    ensures Anc(t, x, z)
  {
    hide WellFormed, NoCross, Active, Hangs, Intervals;
  }
}
