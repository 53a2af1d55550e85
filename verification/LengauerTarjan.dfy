/** LengauerTarjanDominators: the dominator algorithm used for regions of 512 blocks or more.
    A null pointer stored in Parent, Ancestor or idom is modelled by an absent key. */
module LengauerTarjan {
  import opened Graphs
  import opened DfsTrees
  import opened Semidominators

  // ---------- the link-eval forest ----------

  /** l has the least sd among the ancestors of b below a, b included, and all of these are linked. */
  ghost predicate BestBelow(t: Tree, sd: map<Block, int>, i: int, a: Block, b: Block, l: Block) {
    && Anc(t, l, b) && Num(t, a) < Num(t, l) && l in sd
    && forall y :: Anc(t, y, b) && Num(t, a) < Num(t, y) ==> y in sd && Num(t, y) > i && sd[l] <= sd[y]
  }

  /** Blocks numbered above i are linked: Ancestor is some proper tree ancestor, and Label the best block below it. */
  ghost predicate Compressed(t: Tree, sd: map<Block, int>, ancestor: map<Block, Block>, lbl: map<Block, Block>, i: int,
                             b: Block) {
    && b in lbl
    && if Num(t, b) <= i then b !in ancestor && lbl[b] == b
       else && b in ancestor && Anc(t, ancestor[b], b) && (Num(t, ancestor[b]) < Num(t, b))
            && BestBelow(t, sd, i, ancestor[b], b, lbl[b])
  }

  ghost predicate Forest(t: Tree, sd: map<Block, int>, ancestor: map<Block, Block>, lbl: map<Block, Block>, i: int) {
    forall b :: b in t.num ==> Compressed(t, sd, ancestor, lbl, i, b)
  }

  /** What Eval(v) must return, stated on the tree and not on the compressed forest: the forest path of v consists of
      its tree ancestors numbered above i, and u has the least sd on it. A root is returned itself. */
  ghost predicate EvalOf(t: Tree, sd: map<Block, int>, i: int, v: Block, u: Block) {
    if Num(t, v) <= i then u == v
    else Anc(t, u, v) && Num(t, u) > i && u in sd && forall y :: Anc(t, y, v) && Num(t, y) > i ==>
      y in sd && sd[u] <= sd[y]
  }

  /** Merging the label of the ancestor and skipping it keeps b's entry right. */
  lemma CompressStep(g: Graph, t: Tree, ndfs: map<int, Block>, count: int, sd: map<Block, int>, i: int, a: Block,
                     a2: Block, b: Block, l: Block, la: Block)
    requires Spanning(g, t, ndfs, count)
    requires Anc(t, a, b) && Num(t, a) < Num(t, b) && BestBelow(t, sd, i, a, b, l)
    requires Anc(t, a2, a) && Num(t, a2) < Num(t, a) && BestBelow(t, sd, i, a2, a, la)
    ensures Anc(t, a2, b) && BestBelow(t, sd, i, a2, b, if sd[la] < sd[l] then la else l)
  {
    AncTrans(g, t, ndfs, count, a2, a, b);
    AncTrans(g, t, ndfs, count, la, a, b);
    forall y | Anc(t, y, b) && Num(t, y) <= Num(t, a)
      ensures Anc(t, y, a)
    {
      AncChain(g, t, ndfs, count, y, a, b);
    }
    hide Spanning, Anc, Num;
  }

  lemma BestIsEval(t: Tree, sd: map<Block, int>, i: int, a: Block, b: Block, l: Block)
    requires Num(t, b) > i && Num(t, a) <= i && BestBelow(t, sd, i, a, b, l)
    ensures EvalOf(t, sd, i, b, l)
  {
  }

  /** sd of unlinked blocks does not matter to the forest. */
  lemma ForestFrame(t: Tree, sd: map<Block, int>, sd2: map<Block, int>, ancestor: map<Block, Block>,
                    lbl: map<Block, Block>, i: int)
    requires Forest(t, sd, ancestor, lbl, i)
    requires forall b :: b in sd && Num(t, b) > i ==> b in sd2 && sd2[b] == sd[b]
    ensures Forest(t, sd2, ancestor, lbl, i)
  {
    forall b | b in t.num
      ensures Compressed(t, sd2, ancestor, lbl, i, b)
    {
      assert Compressed(t, sd, ancestor, lbl, i, b);
      if Num(t, b) > i {
        hide Anc;
        assert BestBelow(t, sd2, i, ancestor[b], b, lbl[b]);
      }
    }
  }

  /** The ancestors of w below its parent are w alone. */
  lemma ParentIsNext(g: Graph, t: Tree, ndfs: map<int, Block>, count: int, w: Block)
    requires Spanning(g, t, ndfs, count) && w in g.nodes && w != g.entry && w in t.parent
    ensures Anc(t, t.parent[w], w) && Num(t, t.parent[w]) < Num(t, w)
    ensures forall y :: Anc(t, y, w) && Num(t, t.parent[w]) < Num(t, y) ==> y == w
  {
    assert TreeEdge(g, t, w);
    SelfAnc(g, t, ndfs, count, t.parent[w]);
    forall y | Anc(t, y, w) && y != w
      ensures Num(t, y) <= Num(t, t.parent[w])
    {
      AncBelow(g, t, ndfs, count, y, t.parent[w]);
    }
  }

  /** Linking w leaves the entry of another block as it was. */
  lemma LinkOther(t: Tree, sd: map<Block, int>, ancestor: map<Block, Block>, lbl: map<Block, Block>, w: Block, p: Block,
                  b: Block)
    requires Compressed(t, sd, ancestor, lbl, Num(t, w), b) && Num(t, b) != Num(t, w)
    ensures Compressed(t, sd, ancestor[w := p], lbl, Num(t, w) - 1, b)
  {
    hide Anc, Num;
  }

  lemma LinkSelf(t: Tree, sd: map<Block, int>, ancestor: map<Block, Block>, lbl: map<Block, Block>, w: Block, p: Block)
    requires Compressed(t, sd, ancestor, lbl, Num(t, w), w) && w in sd
    requires Anc(t, w, w) && Anc(t, p, w) && Num(t, p) < Num(t, w) && forall y ::
      Anc(t, y, w) && Num(t, p) < Num(t, y) ==> y == w
    ensures Compressed(t, sd, ancestor[w := p], lbl, Num(t, w) - 1, w)
  {
    hide Anc, Num;
  }

  /** Link(parent of w, w) takes the next lower block into the forest. */
  lemma LinkStep(g: Graph, t: Tree, ndfs: map<int, Block>, count: int, sd: map<Block, int>,
                 ancestor: map<Block, Block>, lbl: map<Block, Block>, w: Block)
    requires Spanning(g, t, ndfs, count) && w in g.nodes && w != g.entry && w in sd
    requires Forest(t, sd, ancestor, lbl, Num(t, w))
    requires w in t.parent
    ensures Forest(t, sd, ancestor[w := t.parent[w]], lbl, Num(t, w) - 1)
  {
    var p := t.parent[w];
    ParentIsNext(g, t, ndfs, count, w);
    SelfAnc(g, t, ndfs, count, w);
    hide Compressed, WellFormed, Walked;
    forall b | b in t.num
      ensures Compressed(t, sd, ancestor[w := p], lbl, Num(t, w) - 1, b)
    {
      if b == w {
        LinkSelf(t, sd, ancestor, lbl, w, p);
      } else {
        DistinctNumbers(g, t, ndfs, count, b, w);
        LinkOther(t, sd, ancestor, lbl, w, p, b);
      }
    }
  }

  /** The entry of one block read out of the forest. */
  lemma ForestAt(t: Tree, sd: map<Block, int>, ancestor: map<Block, Block>, lbl: map<Block, Block>, i: int, b: Block)
    requires Forest(t, sd, ancestor, lbl, i) && b in t.num
    ensures Compressed(t, sd, ancestor, lbl, i, b)
  {
  }

  /** Replacing the entry of a linked block by another right one. */
  lemma ForestUpdate(t: Tree, sd: map<Block, int>, ancestor: map<Block, Block>, lbl: map<Block, Block>, i: int,
                     b: Block, a: Block, l: Block)
    requires Forest(t, sd, ancestor, lbl, i) && Num(t, b) > i
    requires Anc(t, a, b) && Num(t, a) < Num(t, b) && BestBelow(t, sd, i, a, b, l)
    ensures Forest(t, sd, ancestor[b := a], lbl[b := l], i)
  {
    hide Anc, Num, BestBelow;
    forall c | c in t.num
      ensures Compressed(t, sd, ancestor[b := a], lbl[b := l], i, c)
    {
      ForestAt(t, sd, ancestor, lbl, i, c);
    }
  }

  /** The entries of blocks numbered above n are the same. */
  ghost predicate SameAbove(t: Tree, n: int, ancestor: map<Block, Block>, lbl: map<Block, Block>,
                            ancestor': map<Block, Block>, lbl': map<Block, Block>) {
    && ancestor'.Keys == ancestor.Keys && lbl'.Keys == lbl.Keys
    && (forall b :: b in ancestor && Num(t, b) > n ==> ancestor'[b] == ancestor[b])
    && (forall b :: b in lbl && Num(t, b) > n ==> lbl'[b] == lbl[b])
  }

  // ---------- semidominators by Eval ----------

  /** Blocks above i have their semidominator's number in sd, the others still their own. */
  ghost predicate Semis(g: Graph, t: Tree, sd: map<Block, int>, i: int) {
    && sd.Keys == g.nodes
    && SemisAbove(g, t, sd, i)
    && forall b :: b in g.nodes && Num(t, b) <= i ==> sd[b] == Num(t, b)
  }

  /** cur is the least offer to w of the predecessors outside todo, or w's own number. */
  ghost predicate LeastSoFar(g: Graph, t: Tree, sd: map<Block, int>, w: Block, todo: set<Block>, cur: int) {
    && (cur == Num(t, w) || (cur < Num(t, w) && Offered(g, t, sd, w, cur)))
    && forall v, u, c :: v in Preds(g, w) && v !in todo && Offers(t, sd, w, v, u, c) ==> cur <= c
  }

  /** One more predecessor v evaluated. */
  lemma EvalStep(g: Graph, t: Tree, sd: map<Block, int>, w: Block, todo: set<Block>, cur: int, v: Block, u: Block)
    requires WellFormed(g) && Semis(g, t, sd, Num(t, w)) && w in g.nodes && v in g.nodes
    requires v in Preds(g, w) && v in todo && LeastSoFar(g, t, sd, w, todo, cur)
    requires EvalOf(t, sd[w := cur], Num(t, w), v, u)
    requires v != w ==> Num(t, v) != Num(t, w)
    ensures u in sd
    ensures var c := sd[w := cur][u]; LeastSoFar(g, t, sd, w, todo - {v}, if c < cur then c else cur)
  {
    var c := sd[w := cur][u];
    var cur' := if c < cur then c else cur;
    hide Anc;
    if v != w {
      assert u != w && Offers(t, sd, w, v, u, c);
    } else {
      assert c == cur && cur <= Num(t, w);
    }
    forall v', u', c' | v' in Preds(g, w) && v' !in todo - {v} && Offers(t, sd, w, v', u', c')
      ensures cur' <= c'
    {
      if v' == v && Num(t, v) > Num(t, w) {
        assert Anc(t, u', v) && u' != w;
      }
    }
  }

  lemma LeastIsSemi(g: Graph, t: Tree, ndfs: map<int, Block>, count: int, sd: map<Block, int>, w: Block, cur: int)
    requires Spanning(g, t, ndfs, count) && w in g.nodes && w != g.entry && Semis(g, t, sd, Num(t, w))
    requires LeastSoFar(g, t, sd, w, {}, cur)
    ensures HasSemi(g, t, cur, w) && cur < Num(t, w) && Semis(g, t, sd[w := cur], Num(t, w) - 1)
  {
    hide Spanning, Offers, HasSemi, SemisAbove, Offered;
    ParentOffers(g, t, ndfs, count, sd, w);
    SpanningKeys(g, t, ndfs, count);
    LeastOfferIsSemi(g, t, ndfs, count, sd, w, cur);
    forall b | b in g.nodes && b != w
      ensures Num(t, b) != Num(t, w)
    {
      DistinctNumbers(g, t, ndfs, count, b, w);
    }
    SemisStep(g, t, sd, w, cur);
  }

  lemma SemisStep(g: Graph, t: Tree, sd: map<Block, int>, w: Block, cur: int)
    requires Semis(g, t, sd, Num(t, w)) && w in g.nodes && HasSemi(g, t, cur, w)
    requires forall b :: b in g.nodes && b != w ==> Num(t, b) != Num(t, w)
    ensures Semis(g, t, sd[w := cur], Num(t, w) - 1)
  {
    hide HasSemi, Num;
  }

  // ---------- buckets ----------

  /** v hangs in the bucket of its semidominator x, until x's child towards v has been processed. */
  ghost predicate Waits(t: Tree, x: Block, v: Block, i: int) {
    exists c :: Anc(t, c, v) && c in t.parent && t.parent[c] == x && Num(t, c) <= i
  }

  ghost predicate InBucket(g: Graph, t: Tree, sd: map<Block, int>, x: Block, v: Block, i: int, k: int) {
    v in g.nodes && Num(t, v) > i && v in sd && sd[v] == Num(t, x) && Waits(t, x, v, k)
  }

  ghost predicate Pending(g: Graph, t: Tree, sd: map<Block, int>, buckets: map<Block, set<Block>>, i: int, k: int) {
    && buckets.Keys == g.nodes
    && forall x, v :: x in buckets && v in buckets[x] ==> InBucket(g, t, sd, x, v, i, k)
  }

  /** Every tree ancestor of v strictly below s has been processed. */
  ghost predicate AllAbove(t: Tree, s: Block, v: Block, i: int) {
    forall y :: Anc(t, y, v) && Num(t, s) < Num(t, y) ==> Num(t, y) > i
  }

  /** v's idom field holds its semidominator s, and that is its immediate dominator, or a block of smaller number
      with the same immediate dominator. */
  ghost predicate Decided(t: Tree, sd: map<Block, int>, idom: map<Block, Block>, s: Block, v: Block, i: int) {
    && v in idom && v in sd && sd[v] == Num(t, s)
    && AllAbove(t, s, v, i)
    && ((idom[v] == s && NoLower(t, sd, s, v, sd[v])) || (Least(t, sd, s, v, idom[v]) && sd[idom[v]] < sd[v]))
  }

  ghost predicate Settled(g: Graph, t: Tree, ndfs: map<int, Block>, sd: map<Block, int>,
                          buckets: map<Block, set<Block>>,
                          idom: map<Block, Block>, i: int) {
    forall v :: v in g.nodes && Num(t, v) > i ==> Settled1(t, ndfs, sd, buckets, idom, v, i)
  }

  ghost predicate Settled1(t: Tree, ndfs: map<int, Block>, sd: map<Block, int>, buckets: map<Block, set<Block>>,
                           idom: map<Block, Block>, v: Block, i: int) {
    && v in sd && sd[v] in ndfs
    && var s := ndfs[sd[v]];
       (s in buckets && v in buckets[s]) || Decided(t, sd, idom, s, v, i)
  }

  /** When w, a child of p, is processed, all ancestors below p of a block waiting in p's bucket have been. */
  lemma WaitsForChild(g: Graph, t: Tree, ndfs: map<int, Block>, count: int, p: Block, w: Block, v: Block, c: Block)
    requires Spanning(g, t, ndfs, count) && w in g.nodes && v in g.nodes && Num(t, w) <= Num(t, v)
    requires w in t.parent && t.parent[w] == p && c in t.parent && t.parent[c] == p && Anc(t, c, v)
    ensures AllAbove(t, p, v, Num(t, w) - 1) && Anc(t, p, v) && Num(t, p) < Num(t, w)
  {
    AncBelow(g, t, ndfs, count, c, v);
    assert c != g.entry && w != g.entry;
    assert TreeEdge(g, t, c) && TreeEdge(g, t, w);
    ParentIsNext(g, t, ndfs, count, c);
    ParentIsNext(g, t, ndfs, count, w);
    AncTrans(g, t, ndfs, count, p, c, v);
    if Num(t, c) < Num(t, w) {
      BetweenIsBelow(g, t, ndfs, count, c, w, v);
    }
    forall y | Anc(t, y, v) && Num(t, p) < Num(t, y)
      ensures Num(t, c) <= Num(t, y)
    {
      if Num(t, y) < Num(t, c) {
        AncChain(g, t, ndfs, count, y, c, v);
      }
    }
  }

  /** The numbers between a block and its descendant belong to its descendants. */
  lemma BetweenIsBelow(g: Graph, t: Tree, ndfs: map<int, Block>, count: int, x: Block, y: Block, v: Block)
    requires Spanning(g, t, ndfs, count) && Anc(t, x, v) && y in g.nodes && Num(t, x) <= Num(t, y) <= Num(t, v)
    ensures Anc(t, x, y)
  {
    hide WellFormed, NoCross, Active, Hangs, Ancestry, Numbers;
  }

  /** What Eval tells about a block v of p's bucket decides it. */
  lemma Decide(t: Tree, sd: map<Block, int>, idom: map<Block, Block>, p: Block, v: Block, u: Block, i: int)
    requires Anc(t, p, v) && AllAbove(t, p, v, i) && Num(t, p) <= i < Num(t, v)
    requires v in sd && sd[v] == Num(t, p) && EvalOf(t, sd, i, v, u)
    ensures u in sd && Decided(t, sd, idom[v := if sd[u] < sd[v] then u else p], p, v, i)
  {
    hide Anc, Num;
    assert Anc(t, u, v) && Num(t, p) < Num(t, u);
    assert NoLower(t, sd, p, v, sd[u]);
    if sd[u] >= sd[v] {
      assert NoLower(t, sd, p, v, sd[v]);
    } else {
      assert Least(t, sd, p, v, u);
    }
  }

  /** The child of x on the tree path to v. */
  lemma {:induction false} ChildTowards(g: Graph, t: Tree, ndfs: map<int, Block>, count: int, x: Block, v: Block)
    requires Spanning(g, t, ndfs, count) && Anc(t, x, v) && Num(t, x) < Num(t, v)
    ensures Waits(t, x, v, Num(t, v))
    decreases Num(t, v)
  {
    AncBelow(g, t, ndfs, count, x, v);
    EntryLow(g, t, ndfs, count, x);
    SpanningKeys(g, t, ndfs, count);
    assert v != g.entry;
    assert TreeEdge(g, t, v);
    SelfAnc(g, t, ndfs, count, v);
    var p := t.parent[v];
    hide Spanning;
    if p != x {
      assert Anc(t, x, p);
      AncBelow(g, t, ndfs, count, x, p);
      ChildTowards(g, t, ndfs, count, x, p);
      var c :| Anc(t, c, p) && c in t.parent && t.parent[c] == x && Num(t, c) <= Num(t, p);
      assert Anc(t, c, v);
    }
  }

  /** sd changes at w only, which no decided block depends on. */
  lemma DecidedFrame(t: Tree, sd: map<Block, int>, idom: map<Block, Block>, s: Block, v: Block, i: int, w: Block,
                     n: int)
    requires Decided(t, sd, idom, s, v, i) && Num(t, w) <= i < Num(t, v)
    ensures Decided(t, sd[w := n], idom, s, v, i - 1)
  {
    hide Anc, Num;
    if Least(t, sd, s, v, idom[v]) {
      assert Least(t, sd[w := n], s, v, idom[v]);
    }
  }

  lemma ByNumber(g: Graph, t: Tree, ndfs: map<int, Block>, count: int, b: Block)
    requires Spanning(g, t, ndfs, count) && b in g.nodes
    ensures Num(t, b) in ndfs && ndfs[Num(t, b)] == b
  {
    hide WellFormed, Hangs, Ancestry, Intervals, NoCross, Active;
  }

  lemma InsertPending(g: Graph, t: Tree, sd: map<Block, int>, buckets: map<Block, set<Block>>, w: Block, s: Block)
    requires w in g.nodes && s in g.nodes && Waits(t, s, w, Num(t, w))
    requires Pending(g, t, sd, buckets, Num(t, w), Num(t, w))
    ensures Pending(g, t, sd[w := Num(t, s)], buckets[s := buckets[s] + {w}], Num(t, w) - 1, Num(t, w))
  {
    hide Num, Waits;
    var i := Num(t, w);
    var buckets' := buckets[s := buckets[s] + {w}];
    forall x, v | x in buckets' && v in buckets'[x]
      ensures InBucket(g, t, sd[w := Num(t, s)], x, v, i - 1, i)
    {
      if v != w || x != s {
        assert InBucket(g, t, sd, x, v, i, i);
      }
    }
  }

  lemma InsertSettled(g: Graph, t: Tree, ndfs: map<int, Block>, sd: map<Block, int>, buckets: map<Block, set<Block>>,
                      idom: map<Block, Block>, w: Block, s: Block)
    requires w in g.nodes && s in buckets && Num(t, s) in ndfs && ndfs[Num(t, s)] == s
    requires forall b :: b in g.nodes && b != w ==> Num(t, b) != Num(t, w)
    requires Settled(g, t, ndfs, sd, buckets, idom, Num(t, w))
    ensures Settled(g, t, ndfs, sd[w := Num(t, s)], buckets[s := buckets[s] + {w}], idom, Num(t, w) - 1)
  {
    hide Num, Decided;
    var i := Num(t, w);
    forall v | v in g.nodes && Num(t, v) > i - 1
      ensures Settled1(t, ndfs, sd[w := Num(t, s)], buckets[s := buckets[s] + {w}], idom, v, i - 1)
    {
      if v != w {
        assert Settled1(t, ndfs, sd, buckets, idom, v, i);
        var s' := ndfs[sd[v]];
        if Decided(t, sd, idom, s', v, i) {
          DecidedFrame(t, sd, idom, s', v, i, w, Num(t, s));
        }
      }
    }
  }

  /** w enters the bucket of its semidominator s. */
  lemma Insert(g: Graph, t: Tree, ndfs: map<int, Block>, count: int, sd: map<Block, int>,
               buckets: map<Block, set<Block>>,
               idom: map<Block, Block>, w: Block, n: int) returns (s: Block)
    requires Spanning(g, t, ndfs, count) && w in g.nodes && w != g.entry && HasSemi(g, t, n, w)
    requires Pending(g, t, sd, buckets, Num(t, w), Num(t, w)) && Settled(g, t, ndfs, sd, buckets, idom, Num(t, w))
    ensures n in ndfs && s == ndfs[n] && s in buckets
    ensures Pending(g, t, sd[w := n], buckets[s := buckets[s] + {w}], Num(t, w) - 1, Num(t, w))
    ensures Settled(g, t, ndfs, sd[w := n], buckets[s := buckets[s] + {w}], idom, Num(t, w) - 1)
  {
    hide Spanning, IsSemi, Anc, Num, Waits, InBucket, Settled;
    s :| s in g.nodes && Num(t, s) == n && IsSemi(g, t, s, w);
    SemiIsAncestor(g, t, ndfs, count, s, w);
    ChildTowards(g, t, ndfs, count, s, w);
    ByNumber(g, t, ndfs, count, s);
    forall b | b in g.nodes && b != w
      ensures Num(t, b) != Num(t, w)
    {
      DistinctNumbers(g, t, ndfs, count, b, w);
    }
    InsertPending(g, t, sd, buckets, w, s);
    InsertSettled(g, t, ndfs, sd, buckets, idom, w, s);
  }

  lemma EmptySettled(g: Graph, t: Tree, ndfs: map<int, Block>, sd: map<Block, int>, buckets: map<Block, set<Block>>,
                     idom: map<Block, Block>, p: Block, i: int)
    requires Settled(g, t, ndfs, sd, buckets, idom, i) && p in buckets
    requires forall v :: v in buckets[p] ==> Decided(t, sd, idom, p, v, i)
    ensures Settled(g, t, ndfs, sd, buckets[p := {}], idom, i)
  {
    hide Decided, Num;
    forall v | v in g.nodes && Num(t, v) > i
      ensures Settled1(t, ndfs, sd, buckets[p := {}], idom, v, i)
    {
      assert Settled1(t, ndfs, sd, buckets, idom, v, i);
    }
  }

  /** Emptying p's bucket once all its blocks are decided. */
  lemma Empty(g: Graph, t: Tree, ndfs: map<int, Block>, count: int, sd: map<Block, int>,
              buckets: map<Block, set<Block>>,
              idom: map<Block, Block>, w: Block, p: Block)
    requires Spanning(g, t, ndfs, count) && w in g.nodes && w in t.parent && t.parent[w] == p && p in g.nodes
    requires Pending(g, t, sd, buckets, Num(t, w) - 1, Num(t, w))
    requires Settled(g, t, ndfs, sd, buckets, idom, Num(t, w) - 1)
    requires forall v :: v in buckets[p] ==> Decided(t, sd, idom, p, v, Num(t, w) - 1)
    ensures Pending(g, t, sd, buckets[p := {}], Num(t, w) - 1, Num(t, w) - 1)
    ensures Settled(g, t, ndfs, sd, buckets[p := {}], idom, Num(t, w) - 1)
  {
    var i := Num(t, w);
    hide Spanning, Decided, Settled, Anc, Num, WellFormed;
    EmptySettled(g, t, ndfs, sd, buckets, idom, p, i - 1);
    forall x, v | x in buckets && v in buckets[x] && x != p
      ensures InBucket(g, t, sd, x, v, i - 1, i - 1)
    {
      assert InBucket(g, t, sd, x, v, i - 1, i);
      var c :| Anc(t, c, v) && c in t.parent && t.parent[c] == x && Num(t, c) <= i;
      AncBelow(g, t, ndfs, count, c, v);
      DistinctNumbers(g, t, ndfs, count, c, w);
    }
  }

  /** A block waiting for w in the bucket of w's parent has its forest path down from there. */
  lemma Waiting(g: Graph, t: Tree, ndfs: map<int, Block>, count: int, sd: map<Block, int>,
                buckets: map<Block, set<Block>>, w: Block, p: Block, v: Block)
    requires Spanning(g, t, ndfs, count) && w in g.nodes && w in t.parent && t.parent[w] == p && p in buckets
    requires v in buckets[p]
    requires Pending(g, t, sd, buckets, Num(t, w) - 1, Num(t, w))
    ensures v in g.nodes && Num(t, v) > Num(t, w) - 1 && v in sd && sd[v] == Num(t, p)
    ensures Anc(t, p, v) && AllAbove(t, p, v, Num(t, w) - 1) && Num(t, p) < Num(t, w)
  {
    hide Spanning, Anc, Num;
    assert InBucket(g, t, sd, p, v, Num(t, w) - 1, Num(t, w));
    var c :| Anc(t, c, v) && c in t.parent && t.parent[c] == p && Num(t, c) <= Num(t, w);
    WaitsForChild(g, t, ndfs, count, p, w, v, c);
  }

  /** Writing v's idom field while v is still in the bucket of its semidominator p. */
  lemma Assign(g: Graph, t: Tree, ndfs: map<int, Block>, sd: map<Block, int>, buckets: map<Block, set<Block>>,
               idom: map<Block, Block>, p: Block, v: Block, d: Block, i: int)
    requires Settled(g, t, ndfs, sd, buckets, idom, i) && p in buckets && v in buckets[p]
    requires Num(t, p) in ndfs && ndfs[Num(t, p)] == p && v in sd && sd[v] == Num(t, p)
    ensures Settled(g, t, ndfs, sd, buckets, idom[v := d], i)
  {
    hide Num, AllAbove, NoLower, Least;
    forall b | b in g.nodes && Num(t, b) > i
      ensures Settled1(t, ndfs, sd, buckets, idom[v := d], b, i)
    {
      assert Settled1(t, ndfs, sd, buckets, idom, b, i);
    }
  }

  /** After the last block nothing is left in the buckets. */
  lemma AllDecided(g: Graph, t: Tree, ndfs: map<int, Block>, count: int, sd: map<Block, int>,
                   buckets: map<Block, set<Block>>,
                   idom: map<Block, Block>, v: Block)
    requires Spanning(g, t, ndfs, count) && v in g.nodes && v != g.entry
    requires Pending(g, t, sd, buckets, 1, 1) && Settled(g, t, ndfs, sd, buckets, idom, 1)
    ensures v in sd && sd[v] in ndfs && Decided(t, sd, idom, ndfs[sd[v]], v, 1)
  {
    EntryLow(g, t, ndfs, count, v);
    NotParent(g, t, ndfs, count);
    hide Spanning, Decided, Anc, Num, Waits;
    assert Settled1(t, ndfs, sd, buckets, idom, v, 1);
    var s := ndfs[sd[v]];
    if s in buckets && v in buckets[s] {
      assert InBucket(g, t, sd, s, v, 1, 1);
      NoneWaits(g, t, ndfs, count, s, v);
    }
  }

  lemma NotParent(g: Graph, t: Tree, ndfs: map<int, Block>, count: int)
    requires Spanning(g, t, ndfs, count)
    ensures g.entry !in t.parent
  {
  }

  lemma NoneWaits(g: Graph, t: Tree, ndfs: map<int, Block>, count: int, x: Block, v: Block)
    requires Spanning(g, t, ndfs, count)
    ensures !Waits(t, x, v, 1)
  {
    NotParent(g, t, ndfs, count);
    hide Spanning;
    forall c | Anc(t, c, v) && c in t.parent && Num(t, c) <= 1
      ensures false
    {
      AncBelow(g, t, ndfs, count, c, v);
      EntryLow(g, t, ndfs, count, c);
    }
  }

  // ---------- the final pass ----------

  /** Blocks numbered below i have their immediate dominator, the others what the bucket pass left. */
  ghost predicate Resolving(g: Graph, t: Tree, ndfs: map<int, Block>, sd: map<Block, int>, idom: map<Block, Block>,
                            i: int) {
    && idom.Keys == g.nodes - {g.entry}
    && forall v :: v in idom ==> Resolved1(g, t, ndfs, sd, idom, v, i)
  }

  ghost predicate Resolved1(g: Graph, t: Tree, ndfs: map<int, Block>, sd: map<Block, int>, idom: map<Block, Block>,
                            v: Block, i: int) {
    && v in sd && sd[v] in ndfs
    && v in idom && if Num(t, v) < i then IsIdom(g, idom[v], v) else Decided(t, sd, idom, ndfs[sd[v]], v, 1)
  }

  /** The final correction of one block: its own semidominator stays, anything else is replaced by its idom. */
  ghost function Corrected(ndfs: map<int, Block>, sd: map<Block, int>, idom: map<Block, Block>, w: Block): Block
    requires w in idom && w in sd && sd[w] in ndfs && (idom[w] != ndfs[sd[w]] ==> idom[w] in idom)
  {
    if idom[w] != ndfs[sd[w]] then idom[idom[w]] else idom[w]
  }

  lemma SemiByNumber(g: Graph, t: Tree, ndfs: map<int, Block>, count: int, sd: map<Block, int>, w: Block)
    requires Spanning(g, t, ndfs, count) && SemisAbove(g, t, sd, 1) && w in g.nodes && w != g.entry && w in sd
    requires sd[w] in ndfs
    ensures var s := ndfs[sd[w]];
            s in g.nodes && Num(t, s) == sd[w] && IsSemi(g, t, s, w) && Num(t, s) < Num(t, w)
  {
    hide Spanning, IsSemi, Num;
    EntryLow(g, t, ndfs, count, w);
    assert HasSemi(g, t, sd[w], w);
    var s :| s in g.nodes && Num(t, s) == sd[w] && IsSemi(g, t, s, w);
    ByNumber(g, t, ndfs, count, s);
    SemiIsAncestor(g, t, ndfs, count, s, w);
  }

  /** What a decided block other than its semidominator's child points to. */
  lemma DecidedCases(t: Tree, sd: map<Block, int>, idom: map<Block, Block>, s: Block, v: Block, i: int)
    requires Decided(t, sd, idom, s, v, i)
    ensures sd[v] == Num(t, s)
    ensures idom[v] == s ==> NoLower(t, sd, s, v, Num(t, s))
    ensures idom[v] != s ==> Least(t, sd, s, v, idom[v]) && sd[idom[v]] < Num(t, s) && Anc(t, idom[v], v)
  {
  }

  lemma CorrectOne(g: Graph, t: Tree, ndfs: map<int, Block>, count: int, sd: map<Block, int>, idom: map<Block, Block>,
                   w: Block)
    requires Spanning(g, t, ndfs, count) && SemisAbove(g, t, sd, 1) && Resolving(g, t, ndfs, sd, idom, Num(t, w))
    requires w in idom
    ensures w in sd && sd[w] in ndfs && (idom[w] != ndfs[sd[w]] ==> idom[w] in idom)
    ensures IsIdom(g, Corrected(ndfs, sd, idom, w), w)
  {
    hide Spanning, IsSemi, IsIdom, Decided, Least, NoLower, Anc, Num, SemisAbove;
    SpanningKeys(g, t, ndfs, count);
    EntryLow(g, t, ndfs, count, w);
    assert Resolved1(g, t, ndfs, sd, idom, w, Num(t, w));
    SemiByNumber(g, t, ndfs, count, sd, w);
    var s := ndfs[sd[w]];
    DecidedCases(t, sd, idom, s, w, 1);
    if idom[w] == s {
      DirectIdom(g, t, ndfs, count, sd, s, w);
    } else {
      var u := idom[w];
      LeastIsLower(g, t, ndfs, count, sd, s, w, u);
      EntryLow(g, t, ndfs, count, u);
      assert Resolved1(g, t, ndfs, sd, idom, u, Num(t, w));
      DeferredIdom(g, t, ndfs, count, sd, s, w, u, idom[u]);
    }
  }

  /** A block with a smaller semidominator than w's is a proper ancestor of w, and not the entry. */
  lemma LeastIsLower(g: Graph, t: Tree, ndfs: map<int, Block>, count: int, sd: map<Block, int>, s: Block, w: Block,
                     u: Block)
    requires Spanning(g, t, ndfs, count) && s in g.nodes && w in sd && sd[w] == Num(t, s)
    requires Least(t, sd, s, w, u) && sd[u] < Num(t, s)
    ensures u in g.nodes && u != g.entry && Num(t, u) < Num(t, w)
  {
    AncBelow(g, t, ndfs, count, u, w);
    EntryLow(g, t, ndfs, count, s);
  }

  lemma CorrectStep(g: Graph, t: Tree, ndfs: map<int, Block>, count: int, sd: map<Block, int>, idom: map<Block, Block>,
                    w: Block, d: Block)
    requires Spanning(g, t, ndfs, count) && Resolving(g, t, ndfs, sd, idom, Num(t, w)) && w in idom && IsIdom(g, d, w)
    ensures Resolving(g, t, ndfs, sd, idom[w := d], Num(t, w) + 1)
  {
    hide Spanning, IsIdom, Num, AllAbove, Least, NoLower;
    SpanningKeys(g, t, ndfs, count);
    forall v | v in idom
      ensures Resolved1(g, t, ndfs, sd, idom[w := d], v, Num(t, w) + 1)
    {
      assert Resolved1(g, t, ndfs, sd, idom, v, Num(t, w));
      if v != w {
        DistinctNumbers(g, t, ndfs, count, v, w);
      }
    }
  }

  // ---------- the class ----------

  /** The ancestor sets already fixed stay as they are. */
  ghost predicate Kept(m: map<Block, set<Block>>, n: map<Block, set<Block>>) {
    forall b :: b in m ==> b in n && n[b] == m[b]
  }

  lemma KeptTrans(m: map<Block, set<Block>>, n: map<Block, set<Block>>, o: map<Block, set<Block>>)
    requires Kept(m, n) && Kept(n, o)
    ensures Kept(m, o)
  {
  }

  lemma KeptAdd(m: map<Block, set<Block>>, b: Block, s: set<Block>)
    requires b !in m
    ensures Kept(m, m[b := s])
  {
  }

  lemma KeptAt(m: map<Block, set<Block>>, n: map<Block, set<Block>>, b: Block)
    requires Kept(m, n) && b in m
    ensures b in n && n[b] == m[b]
  {
  }

  /** Depth-first search under way: numbers live in Sdno, zero for blocks not reached yet. */
  ghost predicate Search(g: Graph, t: Tree, ndfs: map<int, Block>, count: int, sdno: map<Block, int>,
                         lbl: map<Block, Block>, ancestor: map<Block, Block>, gray: set<Block>) {
    && Walked(g, t, ndfs, count, gray)
    && count >= 1
    && sdno.Keys == g.nodes
    && (forall b :: b in g.nodes ==> sdno[b] == Num(t, b))
    && lbl.Keys == t.num.Keys
    && (forall b :: b in lbl ==> lbl[b] == b)
    && ancestor == map[]
  }

  lemma Unreached(g: Graph, t: Tree, ndfs: map<int, Block>, count: int, sdno: map<Block, int>,
                  lbl: map<Block, Block>, ancestor: map<Block, Block>, gray: set<Block>)
    requires Search(g, t, ndfs, count, sdno, lbl, ancestor, gray)
    ensures sdno.Keys == g.nodes && forall b :: b in g.nodes ==> (sdno[b] == 0 <==> b !in t.num)
    ensures t.num.Keys <= g.nodes && t.anc.Keys == t.num.Keys
  {
  }

  lemma FinishSearch(g: Graph, t: Tree, ndfs: map<int, Block>, count: int, sdno: map<Block, int>,
                     lbl: map<Block, Block>, ancestor: map<Block, Block>, gray: set<Block>, b: Block)
    requires Search(g, t, ndfs, count, sdno, lbl, ancestor, gray + {b})
    requires forall y :: y in Succs(g, b) ==> y in t.num
    ensures Search(g, t, ndfs, count, sdno, lbl, ancestor, gray)
  {
    Finish(g, t, ndfs, count, gray, b);
  }

  class LengauerTarjanDominators {
    const g: Graph
    var dfsCounter: int
    var Parent: map<Block, Block>
    var Ancestor: map<Block, Block>
    var Label: map<Block, Block>
    var Buckets: map<Block, set<Block>>
    var Ndfs: map<int, Block>
    var Sdno: map<Block, int>
    /** The getIdom() fields of the blocks. */
    var idom: map<Block, Block>
    ghost var t: Tree

    constructor (g: Graph)
      requires WellFormed(g)
      ensures this.g == g && dfsCounter == 1 && t == Tree(map[], map[], map[])
      ensures Parent == map[] && Ancestor == map[] && Label == map[] && Ndfs == map[] && idom == map[]
    {
      this.g := g;
      dfsCounter := 1;
      Parent, Ancestor, Label, Buckets, Ndfs, Sdno, idom := map[], map[], map[], map[], map[], map[], map[];
      t := Tree(map[], map[], map[]);
    }

    ghost predicate Searching(gray: set<Block>)
      reads this
    {
      Search(g, t, Ndfs, dfsCounter, Sdno, Label, Ancestor, gray)
    }

    /** The first half of DFS(bb): bb gets its number and its initial label. */
    method Reach(bb: Block, ghost via: Block, ghost gray: set<Block>)
      requires WellFormed(g) && Searching(gray) && CanEnter(g, t, dfsCounter, gray, bb, via)
      modifies this`Sdno, this`Ndfs, this`Label, this`Ancestor, this`dfsCounter, this`t
      ensures Searching(gray + {bb}) && dfsCounter == old(dfsCounter) + 1
      ensures t == Enter(old(t), bb, via, gray, old(dfsCounter))
      ensures t.num.Keys == old(t.num.Keys) + {bb} && t.anc == old(t.anc)[bb := gray + {bb}]
    {
      hide Walked, WellFormed;
      EnterWalks(g, t, Ndfs, dfsCounter, gray, bb, via);
      t := Enter(t, bb, via, gray, dfsCounter);
      Sdno := Sdno[bb := dfsCounter];
      Ndfs := Ndfs[dfsCounter := bb];
      Label := Label[bb := bb];
      Ancestor := Ancestor - {bb};
      dfsCounter := dfsCounter + 1;
    }

    method Dfs(bb: Block, ghost via: Block, ghost gray: set<Block>)
      requires WellFormed(g) && Searching(gray) && CanEnter(g, t, dfsCounter, gray, bb, via)
      requires Parent == if gray == {} then t.parent else t.parent[bb := via]
      modifies this`Sdno, this`Ndfs, this`Label, this`Ancestor, this`Parent, this`dfsCounter, this`t
      ensures Searching(gray) && Parent == t.parent && dfsCounter > 1
      ensures old(t.num.Keys) + {bb} <= t.num.Keys
      ensures Kept(old(t.anc), t.anc)
      decreases g.nodes - t.num.Keys
    {
      hide Search, WellFormed, Kept;
      Unreached(g, t, Ndfs, dfsCounter, Sdno, Label, Ancestor, gray);
      KeptAdd(t.anc, bb, gray + {bb});
      Reach(bb, via, gray);
      var todo := Succs(g, bb);
      while todo != {}
        invariant todo <= Succs(g, bb)
        invariant Searching(gray + {bb}) && Parent == t.parent && dfsCounter > 1
        invariant forall y :: y in Succs(g, bb) ==> y in todo || y in t.num
        invariant old(t.num.Keys) + {bb} <= t.num.Keys
        invariant bb in t.anc && t.anc[bb] == gray + {bb}
        invariant Kept(old(t.anc), t.anc)
        decreases todo
      {
        var nbb;
        nbb, todo := Next(todo);
        NotEntry(g, bb, nbb);
        Unreached(g, t, Ndfs, dfsCounter, Sdno, Label, Ancestor, gray + {bb});
        if Sdno[nbb] == 0 {
          Parent := Parent[nbb := bb];
          ghost var was := t.anc;
          Dfs(nbb, bb, gray + {bb});
          KeptTrans(old(t.anc), was, t.anc);
          KeptAt(was, t.anc, bb);
        }
      }
      FinishSearch(g, t, Ndfs, dfsCounter, Sdno, Label, Ancestor, gray, bb);
    }

    ghost predicate Forested(i: int)
      reads this
    {
      Spanning(g, t, Ndfs, dfsCounter) && Forest(t, Sdno, Ancestor, Label, i)
    }

    /** Makes the Ancestor of bb a root, merging labels on the way; later answers of Eval stay the same. */
    method Compress(bb: Block, ghost i: int)
      requires Forested(i) && bb in g.nodes && bb in t.num && Num(t, bb) > i
      modifies this`Ancestor, this`Label
      ensures Forested(i) && SameAbove(t, Num(t, bb), old(Ancestor), old(Label), Ancestor, Label)
      ensures bb in Ancestor && Ancestor[bb] !in Ancestor && Num(t, Ancestor[bb]) <= i
      decreases Num(t, bb)
    {
      hide Spanning, Forest, BestBelow, Anc, Num;
      ForestAt(t, Sdno, Ancestor, Label, i, bb);
      var a := Ancestor[bb];
      AncBelow(g, t, Ndfs, dfsCounter, a, bb);
      SpanningKeys(g, t, Ndfs, dfsCounter);
      ForestAt(t, Sdno, Ancestor, Label, i, a);
      if a in Ancestor {
        Compress(a, i);
        ForestAt(t, Sdno, Ancestor, Label, i, bb);
        ForestAt(t, Sdno, Ancestor, Label, i, a);
        BestInSd(t, Sdno, i, a, bb, Label[bb]);
        BestInSd(t, Sdno, i, Ancestor[a], a, Label[a]);
        CompressStep(g, t, Ndfs, dfsCounter, Sdno, i, a, Ancestor[a], bb, Label[bb], Label[a]);
        AncBelow(g, t, Ndfs, dfsCounter, Ancestor[a], bb);
        ForestUpdate(t, Sdno, Ancestor, Label, i, bb, Ancestor[a],
                     if Sdno[Label[a]] < Sdno[Label[bb]] then Label[a] else Label[bb]);
        if Sdno[Label[a]] < Sdno[Label[bb]] {
          Label := Label[bb := Label[a]];
        }
        assert Label == Label[bb := Label[bb]];
        Ancestor := Ancestor[bb := Ancestor[a]];
      }
    }

    method Eval(bb: Block, ghost i: int) returns (u: Block)
      requires Forested(i) && bb in g.nodes
      modifies this`Ancestor, this`Label
      ensures Forested(i) && EvalOf(t, Sdno, i, bb, u)
    {
      hide Spanning, Forest, BestBelow, Anc, Num;
      SpanningKeys(g, t, Ndfs, dfsCounter);
      ForestAt(t, Sdno, Ancestor, Label, i, bb);
      if bb !in Ancestor {
        u := bb;
      } else {
        Compress(bb, i);
        ForestAt(t, Sdno, Ancestor, Label, i, bb);
        BestIsEval(t, Sdno, i, Ancestor[bb], bb, Label[bb]);
        u := Label[bb];
      }
    }

    /** The first half of the loop body: Sdno[w] becomes the number of w's semidominator. */
    method Semidominate(w: Block)
      requires w in g.nodes && w != g.entry && Forested(Num(t, w)) && Semis(g, t, Sdno, Num(t, w))
      modifies this`Sdno, this`Ancestor, this`Label
      ensures Forested(Num(t, w))
      ensures w in Sdno && Sdno == old(Sdno)[w := Sdno[w]]
      ensures HasSemi(g, t, Sdno[w], w) && Sdno[w] < Num(t, w) && Semis(g, t, Sdno, Num(t, w) - 1)
    {
      hide Spanning, WellFormed, Forest, EvalOf, LeastSoFar, HasSemi;
      SpanningKeys(g, t, Ndfs, dfsCounter);
      var todo := Preds(g, w);
      LeastStart(g, t, Sdno, w);
      while todo != {}
        invariant todo <= Preds(g, w) && w in Sdno
        invariant Forested(Num(t, w)) && Sdno == old(Sdno)[w := Sdno[w]]
        invariant LeastSoFar(g, t, old(Sdno), w, todo, Sdno[w])
        decreases todo
      {
        var pbb, rest := Next(todo);
        PredInNodes(g, w, pbb);
        var u := Eval(pbb, Num(t, w));
        if pbb != w {
          DistinctNumbers(g, t, Ndfs, dfsCounter, pbb, w);
        }
        EvalStep(g, t, old(Sdno), w, todo, Sdno[w], pbb, u);
        var sdom := Sdno[u];
        if sdom < Sdno[w] {
          ForestFrame(t, Sdno, Sdno[w := sdom], Ancestor, Label, Num(t, w));
          Sdno := Sdno[w := sdom];
        }
        todo := rest;
      }
      LeastIsSemi(g, t, Ndfs, dfsCounter, old(Sdno), w, Sdno[w]);
    }

    /** Decides every block in the bucket of w's parent p, then empties it. */
    method DrainBucket(w: Block, p: Block)
      requires w in g.nodes && w in t.parent && t.parent[w] == p && p in g.nodes
      requires Forested(Num(t, w) - 1) && idom.Keys <= g.nodes - {g.entry} && w != g.entry
      requires Pending(g, t, Sdno, Buckets, Num(t, w) - 1, Num(t, w))
      requires Settled(g, t, Ndfs, Sdno, Buckets, idom, Num(t, w) - 1)
      modifies this`Ancestor, this`Label, this`Buckets, this`idom
      ensures Forested(Num(t, w) - 1) && idom.Keys <= g.nodes - {g.entry}
      ensures Pending(g, t, Sdno, Buckets, Num(t, w) - 1, Num(t, w) - 1)
      ensures Settled(g, t, Ndfs, Sdno, Buckets, idom, Num(t, w) - 1)
    {
      hide Spanning, Forest, Settled, Decided, InBucket, EvalOf, AllAbove, Anc, Num;
      ghost var i := Num(t, w) - 1;
      ByNumber(g, t, Ndfs, dfsCounter, p);
      EntryLow(g, t, Ndfs, dfsCounter, w);
      var todo := Buckets[p];
      while todo != {}
        invariant Buckets == old(Buckets) && todo <= Buckets[p] && idom.Keys <= g.nodes - {g.entry}
        invariant Forested(i) && Settled(g, t, Ndfs, Sdno, Buckets, idom, i)
        invariant forall v :: v in Buckets[p] && v !in todo ==> Decided(t, Sdno, idom, p, v, i)
        decreases todo
      {
        var v, rest := Next(todo);
        Waiting(g, t, Ndfs, dfsCounter, Sdno, Buckets, w, p, v);
        var u := Eval(v, i);
        Decide(t, Sdno, idom, p, v, u, i);
        var d := if Sdno[u] < Sdno[v] then u else p;
        Assign(g, t, Ndfs, Sdno, Buckets, idom, p, v, d, i);
        forall v' | v' in Buckets[p] && v' !in rest && v' != v
          ensures Decided(t, Sdno, idom[v := d], p, v', i)
        {
          DecidedOther(t, Sdno, idom, p, v', i, v, d);
        }
        idom := idom[v := d];
        todo := rest;
      }
      Empty(g, t, Ndfs, dfsCounter, Sdno, Buckets, idom, w, p);
      Buckets := Buckets[p := {}];
    }

    /** The state of the main loop before the block numbered i is processed. */
    ghost predicate Processing(i: int)
      reads this
    {
      && Forested(i) && Semis(g, t, Sdno, i) && Parent == t.parent
      && Pending(g, t, Sdno, Buckets, i, i) && Settled(g, t, Ndfs, Sdno, Buckets, idom, i)
      && idom.Keys <= g.nodes - {g.entry}
    }

    /** One turn of the main loop. */
    method Process(w: Block)
      requires w in g.nodes && w != g.entry && Processing(Num(t, w))
      modifies this`Sdno, this`Ancestor, this`Label, this`Buckets, this`idom
      ensures Processing(Num(t, w) - 1)
    {
      hide Spanning, Forest, Semis, Pending, Settled, HasSemi, Num;
      SpanningKeys(g, t, Ndfs, dfsCounter);
      ParentIn(g, t, Ndfs, dfsCounter, w);
      ghost var sd := Sdno;
      Semidominate(w);
      ghost var s' := Insert(g, t, Ndfs, dfsCounter, sd, Buckets, idom, w, Sdno[w]);
      var s := Ndfs[Sdno[w]];
      Buckets := Buckets[s := Buckets[s] + {w}];
      LinkStep(g, t, Ndfs, dfsCounter, Sdno, Ancestor, Label, w);
      Ancestor := Ancestor[w := Parent[w]];
      DrainBucket(w, Parent[w]);
    }

    /** Clears Sdno and finds the root, the one block without predecessors. */
    method FindRoot() returns (root: Block)
      requires WellFormed(g)
      modifies this`Sdno
      ensures root == g.entry && Sdno == map b | b in g.nodes :: 0
    {
      assert g.entry in g.nodes;
      hide WellFormed;
      root := g.entry;
      var todo := g.nodes;
      Sdno := map[];
      while todo != {}
        invariant todo <= g.nodes && root == g.entry && Sdno == map b | b in g.nodes - todo :: 0
        decreases todo
      {
        var bb;
        bb, todo := Next(todo);
        if bb != g.entry {
          HasPred(g, bb);
        }
        if Preds(g, bb) == {} {
          root := bb;
        }
        Sdno := Sdno[bb := 0];
      }
    }

    /** operator() up to the search, which numbers the blocks. */
    method Initialize()
      requires WellFormed(g) && dfsCounter == 1 && t == Tree(map[], map[], map[])
      requires Parent == map[] && Ancestor == map[] && Label == map[] && Ndfs == map[] && idom == map[]
      modifies this
      ensures dfsCounter > 1 && Processing(dfsCounter - 1)
    {
      hide WellFormed, Search, CanEnter, Spanning, Forest, Semis, Pending, Settled;
      SearchStart(g);
      var root := FindRoot();
      Dfs(root, root, {});
      Buckets := map b | b in g.nodes :: {};
      SearchDone(g, t, Ndfs, dfsCounter, Sdno, Label, Ancestor);
      Start(g, t, Ndfs, dfsCounter, Sdno, Label, Ancestor, Buckets, idom);
    }

    /** The main loop: blocks in decreasing order of their numbers. */
    method MainLoop()
      requires dfsCounter > 1 && Processing(dfsCounter - 1)
      modifies this`Sdno, this`Ancestor, this`Label, this`Buckets, this`idom
      ensures Processing(1)
    {
      hide Spanning, Forest, Semis, Pending, Settled, Num;
      var i := dfsCounter - 1;
      while i > 1
        invariant 1 <= i < dfsCounter && Processing(i)
      {
        NumberedAt(g, t, Ndfs, dfsCounter, i);
        Process(Ndfs[i]);
        i := i - 1;
      }
    }

    /** The last pass: blocks whose idom field is not their semidominator take over the idom of that block. */
    method FinalPass()
      requires Processing(1)
      modifies this`idom
      ensures IsIdomMap(g, idom)
    {
      hide Spanning, Forest, SemisAbove, Pending, Settled, Resolving, IsIdom, Num;
      SpanningKeys(g, t, Ndfs, dfsCounter);
      ResolvingStart(g, t, Ndfs, dfsCounter, Sdno, Buckets, idom);
      var i := 2;
      while i < dfsCounter
        invariant 2 <= i && (i <= dfsCounter || dfsCounter < 2)
        invariant Resolving(g, t, Ndfs, Sdno, idom, i)
      {
        NumberedAt(g, t, Ndfs, dfsCounter, i);
        var w := Ndfs[i];
        ResolvingKeys(g, t, Ndfs, Sdno, idom, i);
        CorrectOne(g, t, Ndfs, dfsCounter, Sdno, idom, w);
        CorrectStep(g, t, Ndfs, dfsCounter, Sdno, idom, w, Corrected(Ndfs, Sdno, idom, w));
        if idom[w] != Ndfs[Sdno[w]] {
          idom := idom[w := idom[idom[w]]];
        } else {
          assert idom == idom[w := idom[w]];
        }
        i := i + 1;
      }
      ResolvingDone(g, t, Ndfs, dfsCounter, Sdno, idom, i);
    }

    /** Enters every block but the root below its immediate dominator in the dominator tree. */
    method AddDTreeSuccs() returns (dtree: map<Block, set<Block>>)
      requires WellFormed(g) && IsIdomMap(g, idom)
      ensures IsDTree(g, idom, dtree)
    {
      EntryHasNoIdom(g, idom);
      hide WellFormed, IsIdomMap, Preds;
      dtree := map b | b in g.nodes :: {};
      var todo := g.nodes;
      while todo != {}
        invariant todo <= g.nodes && dtree.Keys == g.nodes
        invariant forall d, b :: d in dtree ==> (b in dtree[d] <==> b in idom && b !in todo && idom[b] == d)
        decreases todo
      {
        var bb;
        bb, todo := Next(todo);
        if bb != g.entry {
          HasPred(g, bb);
        }
        if Preds(g, bb) != {} {
          IdomInNodes(g, idom, bb);
          dtree := dtree[idom[bb] := dtree[idom[bb]] + {bb}];
        }
      }
    }

    /** The whole algorithm. */
    method Run() returns (dtree: map<Block, set<Block>>)
      requires WellFormed(g) && dfsCounter == 1 && t == Tree(map[], map[], map[])
      requires Parent == map[] && Ancestor == map[] && Label == map[] && Ndfs == map[] && idom == map[]
      modifies this
      ensures IsIdomMap(g, idom) && IsDTree(g, idom, dtree)
    {
      hide *;
      Initialize();
      MainLoop();
      FinalPass();
      dtree := AddDTreeSuccs();
    }
  }

  lemma EntryHasNoIdom(g: Graph, idom: map<Block, Block>)
    requires WellFormed(g) && IsIdomMap(g, idom)
    ensures g.entry !in idom && idom.Keys <= g.nodes && Preds(g, g.entry) == {}
  {
  }

  lemma IdomInNodes(g: Graph, idom: map<Block, Block>, b: Block)
    requires WellFormed(g) && IsIdomMap(g, idom) && b in g.nodes && Preds(g, b) != {}
    ensures b in idom && idom[b] in g.nodes
  {
  }

  /** Only the entry has no predecessors. */
  lemma HasPred(g: Graph, b: Block)
    requires WellFormed(g) && b in g.nodes && b != g.entry
    ensures Preds(g, b) != {}
  {
    var p :| Leads(g, g.entry, p, b);
    assert p[|p| - 1] in Succs(g, p[|p| - 2]);
    assert p[|p| - 2] in Preds(g, b);
  }

  /** Before the search. */
  lemma SearchStart(g: Graph)
    requires WellFormed(g)
    ensures var t := Tree(map[], map[], map[]);
            Search(g, t, map[], 1, map b | b in g.nodes :: 0, map[], map[], {})
              && CanEnter(g, t, 1, {}, g.entry, g.entry)
  {
  }

  lemma SearchDone(g: Graph, t: Tree, ndfs: map<int, Block>, count: int, sdno: map<Block, int>,
                   lbl: map<Block, Block>, ancestor: map<Block, Block>)
    requires WellFormed(g) && Search(g, t, ndfs, count, sdno, lbl, ancestor, {}) && g.entry in t.num
    ensures Spanning(g, t, ndfs, count)
  {
    hide Reachable, Hangs, Ancestry, Intervals, NoCross;
    assert forall x, y :: x in t.num.Keys && y in Succs(g, x) ==> y in t.num.Keys;
    ClosedIsAll(g, t.num.Keys);
  }

  /** Before the main loop no block is linked. */
  lemma Start(g: Graph, t: Tree, ndfs: map<int, Block>, count: int, sd: map<Block, int>, lbl: map<Block, Block>,
              ancestor: map<Block, Block>, buckets: map<Block, set<Block>>, idom: map<Block, Block>)
    requires Spanning(g, t, ndfs, count) && Search(g, t, ndfs, count, sd, lbl, ancestor, {})
    requires buckets.Keys == g.nodes && forall b :: b in buckets ==> buckets[b] == {}
    ensures Forest(t, sd, ancestor, lbl, count - 1) && Semis(g, t, sd, count - 1)
    ensures Pending(g, t, sd, buckets, count - 1, count - 1) && Settled(g, t, ndfs, sd, buckets, idom, count - 1)
  {
    SpanningKeys(g, t, ndfs, count);
    hide WellFormed, Walked;
  }

  lemma NumberedAt(g: Graph, t: Tree, ndfs: map<int, Block>, count: int, i: int)
    requires Spanning(g, t, ndfs, count) && 1 < i < count
    ensures i in ndfs && ndfs[i] in g.nodes && Num(t, ndfs[i]) == i && ndfs[i] != g.entry
  {
    SpanningKeys(g, t, ndfs, count);
    EntryLow(g, t, ndfs, count, g.entry);
  }

  /** After the main loop every block but the entry is decided. */
  lemma ResolvingStart(g: Graph, t: Tree, ndfs: map<int, Block>, count: int, sd: map<Block, int>,
                       buckets: map<Block, set<Block>>, idom: map<Block, Block>)
    requires Spanning(g, t, ndfs, count) && idom.Keys <= g.nodes - {g.entry}
    requires Pending(g, t, sd, buckets, 1, 1) && Settled(g, t, ndfs, sd, buckets, idom, 1)
    ensures Resolving(g, t, ndfs, sd, idom, 2)
  {
    SpanningKeys(g, t, ndfs, count);
    hide Spanning, Num, Anc, NoLower, Least, AllAbove, Pending, Settled;
    forall v | v in g.nodes - {g.entry}
      ensures v in idom && Resolved1(g, t, ndfs, sd, idom, v, 2)
    {
      AllDecided(g, t, ndfs, count, sd, buckets, idom, v);
      EntryLow(g, t, ndfs, count, v);
    }
  }

  lemma ResolvingKeys(g: Graph, t: Tree, ndfs: map<int, Block>, sd: map<Block, int>, idom: map<Block, Block>, i: int)
    requires Resolving(g, t, ndfs, sd, idom, i)
    ensures idom.Keys == g.nodes - {g.entry}
  {
  }

  lemma ResolvingDone(g: Graph, t: Tree, ndfs: map<int, Block>, count: int, sd: map<Block, int>,
                      idom: map<Block, Block>, i: int)
    requires Spanning(g, t, ndfs, count) && Resolving(g, t, ndfs, sd, idom, i) && i >= count
    ensures IsIdomMap(g, idom)
  {
    SpanningKeys(g, t, ndfs, count);
    hide Spanning, IsIdom, Num, Decided;
    forall v | v in idom
      ensures IsIdom(g, idom[v], v)
    {
      assert Resolved1(g, t, ndfs, sd, idom, v, i);
    }
  }

  lemma ParentIn(g: Graph, t: Tree, ndfs: map<int, Block>, count: int, w: Block)
    requires Spanning(g, t, ndfs, count) && w in g.nodes && w != g.entry
    ensures w in t.parent && t.parent[w] in g.nodes
  {
    assert TreeEdge(g, t, w);
  }

  /** Writing another block's idom field changes nothing for v. */
  lemma DecidedOther(t: Tree, sd: map<Block, int>, idom: map<Block, Block>, s: Block, v: Block, i: int, b: Block,
                     d: Block)
    requires Decided(t, sd, idom, s, v, i) && b != v
    ensures Decided(t, sd, idom[b := d], s, v, i)
  {
    hide Anc, Num, Least, NoLower, AllAbove;
  }

  lemma LeastStart(g: Graph, t: Tree, sd: map<Block, int>, w: Block)
    requires w in g.nodes && Semis(g, t, sd, Num(t, w))
    ensures LeastSoFar(g, t, sd, w, Preds(g, w), sd[w])
  {
  }

  lemma PredInNodes(g: Graph, w: Block, p: Block)
    requires WellFormed(g) && p in Preds(g, w)
    ensures p in g.nodes && w in Succs(g, p)
  {
  }

  lemma SpanningKeys(g: Graph, t: Tree, ndfs: map<int, Block>, count: int)
    requires Spanning(g, t, ndfs, count)
    ensures t.num.Keys == g.nodes && g.entry in g.nodes && WellFormed(g)
    ensures forall b :: b in g.nodes ==> 1 <= Num(t, b) < count
  {
  }

  lemma BestInSd(t: Tree, sd: map<Block, int>, i: int, a: Block, b: Block, l: Block)
    requires BestBelow(t, sd, i, a, b, l)
    ensures l in sd
  {
  }
}
