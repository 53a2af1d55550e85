/** computeDominance: the bit-vector fixpoint used for regions of fewer than 512 blocks,
    and the in-place extraction of immediate dominators from its solution.
    A dynamic_bitset is modelled by the set of its set bits. */
module BitsetDominance {
  import opened Graphs

  /** Numbering and per-block bit sets: the equation solved by the fixpoint, at block b. */
  ghost predicate Solves(g: Graph, num: map<Block, int>, dm: map<Block, set<int>>, b: Block)
    requires num.Keys == g.nodes && dm.Keys == g.nodes && b in g.nodes
  {
    forall x :: x in dm[b] ==> x == num[b] || (b != g.entry && forall p :: p in Preds(g, b) ==> p in dm && x in dm[p])
  }

  /** Every solution is below the path dominators, so the solution reached from above is the greatest one. */
  lemma {:induction false} SolutionOnPath(g: Graph, num: map<Block, int>, dm: map<Block, set<int>>,
                                          a: Block, p: seq<Block>, b: Block)
    requires WellFormed(g) && num.Keys == g.nodes && dm.Keys == g.nodes
    requires forall c :: c in g.nodes ==> Solves(g, num, dm, c)
    requires forall c, d :: c in g.nodes && d in g.nodes && num[c] == num[d] ==> c == d
    requires a in g.nodes && b in g.nodes && num[a] in dm[b] && Leads(g, g.entry, p, b)
    ensures a in p
    decreases |p|
  {
    assert Solves(g, num, dm, b);
    if num[a] == num[b] {
      assert b in p;
    } else {
      var k := |p| - 2;
      assert b != g.entry && p[0] == g.entry;
      assert p[k + 1] in Succs(g, p[k]);
      Cut(g, g.entry, p, b, k);
      assert p[k] in Preds(g, b);
      SolutionOnPath(g, num, dm, a, p[..k + 1], p[k]);
    }
  }

  /** The number of set bits over all blocks: what strictly falls on every changing pass. */
  ghost function TotalBits(order: seq<Block>, dm: map<Block, set<int>>): nat
    requires forall i :: 0 <= i < |order| ==> order[i] in dm
  {
    if order == [] then 0 else |dm[order[0]]| + TotalBits(order[1..], dm)
  }

  lemma Smaller(a: set<int>, b: set<int>)
    requires a <= b
    ensures |a| <= |b| && (a != b ==> |a| < |b|)
  {
    if a != b {
      assert |b - a| > 0 && b == a + (b - a);
    }
  }

  lemma {:induction false} BitsFall(order: seq<Block>, dm: map<Block, set<int>>, b: Block, s: set<int>)
    requires forall i :: 0 <= i < |order| ==> order[i] in dm
    requires b in dm && s <= dm[b]
    ensures TotalBits(order, dm[b := s]) <= TotalBits(order, dm)
    ensures b in order && s != dm[b] ==> TotalBits(order, dm[b := s]) < TotalBits(order, dm)
  {
    if order != [] {
      Smaller(s, dm[b]);
      BitsFall(order[1..], dm, b, s);
    }
  }

  /** The bit set of n set bits. */
  function AllBits(n: nat): (s: set<int>)
    ensures forall x :: x in s <==> 0 <= x < n
  {
    if n == 0 then {} else AllBits(n - 1) + {n - 1}
  }

  /** The intersection of s with the sets of the blocks ps. */
  method Intersect(dm: map<Block, set<int>>, s: set<int>, ps: set<Block>) returns (tdd: set<int>)
    requires ps <= dm.Keys
    ensures forall x :: x in tdd <==> x in s && forall p :: p in ps ==> x in dm[p]
  {
    tdd := s;
    var todo := ps;
    while todo != {}
      invariant todo <= ps
      invariant forall x :: x in tdd <==> x in s && forall p :: p in ps && p !in todo ==> x in dm[p]
      decreases todo
    {
      var p, rest := Next(todo);
      ghost var was := tdd;
      tdd := tdd * dm[p];
      forall x | x in s && forall q :: q in ps && q !in rest ==> x in dm[q]
        ensures x in was && x in dm[p]
      {
        assert p in ps && p !in rest;
      }
      todo := rest;
    }
  }

  /** The first set bit at or after lo, or n when there is none: find_first and find_next. */
  method FindFrom(s: set<int>, lo: nat, n: nat) returns (j: nat)
    requires lo <= n && forall x :: x in s ==> x < n
    ensures lo <= j <= n
    ensures j < n ==> j in s
    ensures forall x :: x in s && lo <= x ==> j <= x
  {
    j := lo;
    while j < n && j !in s
      invariant lo <= j <= n
      invariant forall x :: x in s && lo <= x ==> j <= x
    {
      j := j + 1;
    }
  }

  /** b was reached from an already numbered predecessor. */
  ghost predicate TreeEdge(g: Graph, num: map<Block, int>, parent: map<Block, Block>, b: Block)
  {
    && b in num && b in parent && parent[b] in num && parent[b] in g.nodes
    && b in Succs(g, parent[b])
    && num[parent[b]] < num[b]
  }

  /** A depth-first numbering under way: order lists the numbered blocks, each but the entry has a
      predecessor numbered before it, and the successors of a block outside gray are numbered. */
  ghost predicate Numbered(g: Graph, order: seq<Block>, num: map<Block, int>, parent: map<Block, Block>,
                           gray: set<Block>)
  {
    && (forall i :: 0 <= i < |order| ==> order[i] in num && num[order[i]] == i)
    && (forall b :: b in num ==> b in g.nodes && 0 <= num[b] < |order| && order[num[b]] == b)
    && (forall b {:trigger TreeEdge(g, num, parent, b)} :: b in num && b != g.entry ==> TreeEdge(g, num, parent, b))
    && (order != [] ==> order[0] == g.entry)
    && (forall x, y :: x in num && x !in gray && y in Succs(g, x) ==> y in num)
  }

  /** Numbering one more block, reached over a tree edge, leaves only that block unfinished. */
  lemma VisitNumbers(g: Graph, order: seq<Block>, num: map<Block, int>, parent: map<Block, Block>, gray: set<Block>,
                     b: Block, via: Block)
    requires WellFormed(g) && Numbered(g, order, num, parent, gray) && b in g.nodes && b !in num
    requires if order == [] then b == g.entry else b != g.entry && via in num && b in Succs(g, via)
    ensures Numbered(g, order + [b], num[b := |order|], parent[b := via], gray + {b})
  {
    var num1, parent1 := num[b := |order|], parent[b := via];
    forall c | c in num1 && c != g.entry
      ensures TreeEdge(g, num1, parent1, c)
    {
      assert c != b ==> TreeEdge(g, num, parent, c);
    }
  }

  /** The numbering covers the region. */
  ghost predicate Complete(g: Graph, order: seq<Block>, num: map<Block, int>, parent: map<Block, Block>) {
    && WellFormed(g)
    && Numbered(g, order, num, parent, {})
    && num.Keys == g.nodes
    && order != []
  }

  lemma NumberedIsComplete(g: Graph, order: seq<Block>, num: map<Block, int>, parent: map<Block, Block>)
    requires WellFormed(g) && Numbered(g, order, num, parent, {}) && g.entry in num
    ensures Complete(g, order, num, parent)
  {
    ClosedIsAll(g, num.Keys);
  }

  /** A strict dominator is numbered before the block it dominates: it lies on the tree path. */
  lemma {:induction false} DominatorsDescend(g: Graph, order: seq<Block>, num: map<Block, int>,
                                             parent: map<Block, Block>,
                                             a: Block, b: Block)
    requires Complete(g, order, num, parent) && a in g.nodes && b in g.nodes && StrictlyDominates(g, a, b)
    ensures num[a] < num[b]
    decreases num[b]
  {
    if b == g.entry {
      DomEntry(g, a);
    } else {
      assert TreeEdge(g, num, parent, b);
      var p := parent[b];
      assert p in Preds(g, b);
      DomPred(g, a, b, p);
      if a != p {
        DominatorsDescend(g, order, num, parent, a, p);
      }
    }
  }

  /** Every set holds at least the dominators of its block. */
  ghost predicate Above(g: Graph, num: map<Block, int>, dm: map<Block, set<int>>)
    requires num.Keys == g.nodes
  {
    && dm.Keys == g.nodes
    && forall a, b :: a in g.nodes && b in g.nodes && Dominates(g, a, b) ==> num[a] in dm[b]
  }

  /** The right-hand side of the dominator equation at b. */
  ghost function Meet(g: Graph, num: map<Block, int>, dm: map<Block, set<int>>, b: Block): set<int>
    requires num.Keys == g.nodes && dm.Keys == g.nodes && b in g.nodes
  {
    (set x | x in dm[b] && forall p :: p in Preds(g, b) ==> p in dm && x in dm[p]) + {num[b]}
  }

  lemma MeetIsAbove(g: Graph, num: map<Block, int>, dm: map<Block, set<int>>, b: Block)
    requires WellFormed(g) && num.Keys == g.nodes && Above(g, num, dm) && b in g.nodes
    ensures Meet(g, num, dm, b) <= dm[b]
    ensures Above(g, num, dm[b := Meet(g, num, dm, b)])
  {
    DomRefl(g, b);
    var s := Meet(g, num, dm, b);
    forall a | a in g.nodes && Dominates(g, a, b)
      ensures num[a] in s
    {
      if a != b {
        forall p | p in Preds(g, b)
          ensures num[a] in dm[p]
        {
          DomPred(g, a, b, p);
        }
      }
    }
  }

  /** Every set element is the number of a block. */
  ghost predicate InRange(s: set<int>, n: int) {
    forall x :: x in s ==> 0 <= x < n
  }

  ghost predicate AllInRange(dm: map<Block, set<int>>, n: int) {
    forall b :: b in dm ==> InRange(dm[b], n)
  }

  /** b's set is what its predecessors' sets say. */
  ghost predicate Stable(g: Graph, num: map<Block, int>, dm: map<Block, set<int>>, b: Block)
    requires num.Keys == g.nodes && dm.Keys == g.nodes && b in g.nodes
  {
    dm[b] == Meet(g, num, dm, b)
  }

  lemma IntersectionIsMeet(g: Graph, num: map<Block, int>, dm: map<Block, set<int>>, b: Block, tdd: set<int>)
    requires WellFormed(g) && num.Keys == g.nodes && dm.Keys == g.nodes && b in g.nodes
    requires forall x :: x in tdd <==> x in dm[b] && forall p :: p in Preds(g, b) ==> x in dm[p]
    ensures tdd + {num[b]} == Meet(g, num, dm, b)
  {
    forall x
      ensures x in tdd + {num[b]} <==> x in Meet(g, num, dm, b)
    {
    }
  }

  /** A stable assignment above the dominators holds exactly the dominators. */
  lemma StableIsDominance(g: Graph, order: seq<Block>, num: map<Block, int>, parent: map<Block, Block>,
                          dm: map<Block, set<int>>, a: Block, b: Block)
    requires Complete(g, order, num, parent) && Above(g, num, dm) && dm[g.entry] <= {0}
    requires forall c :: c in g.nodes ==> Stable(g, num, dm, c)
    requires a in g.nodes && b in g.nodes
    ensures num[a] in dm[b] <==> Dominates(g, a, b)
  {
    forall c | c in g.nodes
      ensures Solves(g, num, dm, c)
    {
      assert Stable(g, num, dm, c);
    }
    if num[a] in dm[b] {
      forall p | Leads(g, g.entry, p, b)
        ensures a in p
      {
        SolutionOnPath(g, num, dm, a, p, b);
      }
    }
  }

  /** Every set holds exactly the dominators of its block. */
  ghost predicate Exact(g: Graph, num: map<Block, int>, dm: map<Block, set<int>>)
    requires num.Keys == g.nodes
  {
    && dm.Keys == g.nodes
    && forall a, b :: a in g.nodes && b in g.nodes ==> (num[a] in dm[b] <==> Dominates(g, a, b))
  }

  lemma FixpointReached(g: Graph, order: seq<Block>, num: map<Block, int>, parent: map<Block, Block>,
                        dm: map<Block, set<int>>)
    requires Complete(g, order, num, parent) && Above(g, num, dm) && dm[g.entry] <= {0}
    requires forall i :: 0 <= i < |order| ==> Stable(g, num, dm, order[i])
    ensures Exact(g, num, dm)
  {
    forall c | c in g.nodes
      ensures Stable(g, num, dm, c)
    {
      assert order[num[c]] == c;
    }
    forall a, b | a in g.nodes && b in g.nodes
      ensures num[a] in dm[b] <==> Dominates(g, a, b)
    {
      StableIsDominance(g, order, num, parent, dm, a, b);
    }
  }

  // ---------- extraction of the immediate dominators ----------

  /** Number x names a strict dominator of the block numbered i. */
  ghost predicate Strict(g: Graph, order: seq<Block>, x: int, i: int) {
    0 <= x < i < |order| && Dominates(g, order[x], order[i])
  }

  /** b's set has been collapsed to its immediate dominator (the entry's to the entry itself). */
  ghost predicate Collapsed(g: Graph, num: map<Block, int>, dm: map<Block, set<int>>, b: Block) {
    && b in dm
    && if b == g.entry then dm[b] == {0} else exists d :: d in num && IsIdom(g, d, b) && dm[b] == {num[d]}
  }

  /** dom keeps the strict dominators of i except those with another one between them and j. */
  ghost predicate Filtered(g: Graph, order: seq<Block>, i: int, dom: set<int>, j: int) {
    forall x :: x in dom <==> Strict(g, order, x, i) && forall y :: x < y < j ==> !Strict(g, order, y, i)
  }

  /** The immediate dominator of a strict dominator j of i is the next strict dominator of i below j. */
  lemma ChainStep(g: Graph, order: seq<Block>, num: map<Block, int>, parent: map<Block, Block>, i: int, j: int,
                  d: Block)
    requires Complete(g, order, num, parent) && Strict(g, order, j, i) && IsIdom(g, d, order[j])
    ensures Strict(g, order, num[d], i) && num[d] < j
    ensures forall y :: num[d] < y < j ==> !Strict(g, order, y, i)
  {
    var k := num[d];
    DominatorsDescend(g, order, num, parent, d, order[j]);
    DomTrans(g, d, order[j], order[i]);
    forall y | k < y < j && Strict(g, order, y, i)
      ensures false
    {
      DomChain(g, order[y], order[j], order[i]);
      if Dominates(g, order[j], order[y]) {
        DominatorsDescend(g, order, num, parent, order[j], order[y]);
      } else {
        if order[y] != d {
          DominatorsDescend(g, order, num, parent, order[y], d);
        }
      }
    }
  }

  /** Dropping the bits of j's collapsed set filters one strict dominator further. */
  lemma FilterStep(g: Graph, order: seq<Block>, num: map<Block, int>, parent: map<Block, Block>,
                   dm: map<Block, set<int>>,
                   i: int, dom: set<int>, j: int, dom': set<int>)
    requires Complete(g, order, num, parent)
    requires Filtered(g, order, i, dom, j) && j in dom
    requires Collapsed(g, num, dm, order[j])
    requires forall x :: x in dom' <==> x in dom && (x == j || x !in dm[order[j]])
    ensures Filtered(g, order, i, dom', j + 1)
  {
    assert Strict(g, order, j, i);
    if order[j] == g.entry {
      assert j == 0;
    } else {
      var d :| d in num && IsIdom(g, d, order[j]) && dm[order[j]] == {num[d]};
      ChainStep(g, order, num, parent, i, j, d);
    }
    forall x
      ensures x in dom' <==> Strict(g, order, x, i) && forall y :: x < y < j + 1 ==> !Strict(g, order, y, i)
    {
    }
  }

  /** The set of the block numbered m lists its dominators. */
  ghost predicate Listed(g: Graph, order: seq<Block>, dm: map<Block, set<int>>, m: int)
    requires 0 <= m < |order|
  {
    && order[m] in dm
    && forall x :: x in dm[order[m]] <==> 0 <= x < |order| && Dominates(g, order[x], order[m])
  }

  /** Sets before i are collapsed, the others still list the dominators. */
  ghost predicate Partly(g: Graph, order: seq<Block>, num: map<Block, int>, dm: map<Block, set<int>>, i: int) {
    && dm.Keys == g.nodes
    && (forall m :: 0 <= m < i && m < |order| ==> Collapsed(g, num, dm, order[m]))
    && (forall m :: 0 <= m && i <= m < |order| ==> Listed(g, order, dm, m))
  }

  lemma ExactIsPartly(g: Graph, order: seq<Block>, num: map<Block, int>, parent: map<Block, Block>,
                      dm: map<Block, set<int>>)
    requires Complete(g, order, num, parent) && Exact(g, num, dm)
    requires AllInRange(dm, |order|)
    ensures Partly(g, order, num, dm, 1)
  {
    forall m | 0 <= m < |order|
      ensures Listed(g, order, dm, m)
    {
      assert InRange(dm[order[m]], |order|);
      assert forall x :: 0 <= x < |order| ==> num[order[x]] == x;
    }
    assert Listed(g, order, dm, 0);
    DomRefl(g, g.entry);
    forall x | x in dm[g.entry]
      ensures x == 0
    {
      assert Dominates(g, order[x], g.entry);
      DomEntry(g, order[x]);
    }
    assert 0 in dm[order[0]];
  }

  lemma FilteredRange(g: Graph, order: seq<Block>, i: int, dom: set<int>, j: int)
    requires Filtered(g, order, i, dom, j)
    ensures InRange(dom, |order|)
  {
  }

  /** Moving j over positions outside dom filters nothing more. */
  lemma FilterSkip(g: Graph, order: seq<Block>, i: int, dom: set<int>, j: int, k: int)
    requires Filtered(g, order, i, dom, j) && j <= k
    requires forall x :: x in dom && j <= x ==> k <= x
    ensures Filtered(g, order, i, dom, k)
  {
    forall y | j <= y < k
      ensures !Strict(g, order, y, i)
    {
      assert y !in dom;
    }
  }

  lemma CollapsedRange(g: Graph, order: seq<Block>, num: map<Block, int>, parent: map<Block, Block>,
                       dm: map<Block, set<int>>, b: Block)
    requires Complete(g, order, num, parent) && Collapsed(g, num, dm, b)
    ensures InRange(dm[b], |order|)
  {
    if b != g.entry {
      var d :| d in num && IsIdom(g, d, b) && dm[b] == {num[d]};
      assert order[num[d]] == d;
    }
  }

  /** The set of i without i itself lists the strict dominators of i. */
  lemma StrictSet(g: Graph, order: seq<Block>, num: map<Block, int>, parent: map<Block, Block>,
                  dm: map<Block, set<int>>, i: int)
    requires Complete(g, order, num, parent) && Partly(g, order, num, dm, i) && 0 < i < |order|
    ensures Filtered(g, order, i, dm[order[i]] - {i}, 0)
  {
    assert Listed(g, order, dm, i);
    forall x
      ensures x in dm[order[i]] - {i} <==> Strict(g, order, x, i)
    {
      if 0 <= x < |order| && x != i && Dominates(g, order[x], order[i]) {
        assert num[order[x]] == x && num[order[i]] == i;
        DominatorsDescend(g, order, num, parent, order[x], order[i]);
      }
    }
  }

  lemma ExtractStep(g: Graph, order: seq<Block>, num: map<Block, int>, parent: map<Block, Block>,
                    dm: map<Block, set<int>>,
                    i: int, m: int)
    requires Complete(g, order, num, parent) && Partly(g, order, num, dm, i) && 0 < i < |order|
    requires 0 <= m < i && IsIdom(g, order[m], order[i])
    ensures Partly(g, order, num, dm[order[i] := {m}], i + 1)
  {
    var dm' := dm[order[i] := {m}];
    forall k | 0 <= k < |order|
      ensures if k <= i then Collapsed(g, num, dm', order[k]) else Listed(g, order, dm', k)
    {
      assert num[order[k]] == k && num[order[i]] == i;
      if k < i {
        assert Collapsed(g, num, dm, order[k]);
      } else if k == i {
        assert order[m] in num && num[order[m]] == m;
      } else {
        assert Listed(g, order, dm, k);
      }
    }
  }

  /** The blocks numbered below i have their immediate dominators recorded. */
  ghost predicate Recorded(g: Graph, num: map<Block, int>, i: int, idom: map<Block, Block>,
                           dtree: map<Block, set<Block>>) {
    && (forall b :: b in idom <==> b in num && 0 < num[b] < i)
    && (forall b :: b in idom ==> IsIdom(g, idom[b], b))
    && IsDTree(g, idom, dtree)
  }

  lemma RecordedAll(g: Graph, order: seq<Block>, num: map<Block, int>, parent: map<Block, Block>,
                    idom: map<Block, Block>, dtree: map<Block, set<Block>>)
    requires Complete(g, order, num, parent) && Recorded(g, num, |order|, idom, dtree)
    ensures IsIdomMap(g, idom) && IsDTree(g, idom, dtree)
  {
    hide WellFormed, IsIdom, IsDTree;
    forall b
      ensures b in idom <==> b in g.nodes - {g.entry}
    {
      assert b in num && num[b] == 0 ==> b == order[0];
      assert num[order[0]] == 0;
    }
  }

  lemma DTreeKeys(g: Graph, idom: map<Block, Block>, dtree: map<Block, set<Block>>)
    requires IsDTree(g, idom, dtree)
    ensures dtree.Keys == g.nodes
  {
  }

  lemma RecordStep(g: Graph, order: seq<Block>, num: map<Block, int>, parent: map<Block, Block>,
                   i: int, idom: map<Block, Block>, dtree: map<Block, set<Block>>, d: Block)
    requires Complete(g, order, num, parent) && 0 < i < |order|
    requires Recorded(g, num, i, idom, dtree) && IsIdom(g, d, order[i])
    ensures d in dtree
    ensures Recorded(g, num, i + 1, idom[order[i] := d], dtree[d := dtree[d] + {order[i]}])
  {
    assert num[order[i]] == i;
    assert forall b :: b in num && num[b] == i ==> b == order[i];
    assert d in g.nodes && order[i] in num;
    DTreeKeys(g, idom, dtree);
    DTreeGrows(g, idom, dtree, order[i], d);
    hide WellFormed, IsIdom, Numbered, Complete, IsDTree;
  }

  /** Once j has passed the last strict dominator, the survivor is the immediate dominator. */
  lemma FilteredIsIdom(g: Graph, order: seq<Block>, num: map<Block, int>, parent: map<Block, Block>,
                       i: int, dom: set<int>, j: int, m: int)
    requires Complete(g, order, num, parent) && 0 < i < |order|
    requires Filtered(g, order, i, dom, j) && i <= j
    requires forall x :: x in dom ==> m <= x
    requires dom != {} ==> m in dom
    ensures 0 <= m < i && IsIdom(g, order[m], order[i]) && dom == {m}
  {
    DomRefl(g, order[i]);
    assert order[0] == g.entry;
    assert Strict(g, order, 0, i);
    var top := i - 1;
    while !Strict(g, order, top, i)
      invariant 0 <= top < i
      invariant forall y :: top < y < i ==> !Strict(g, order, y, i)
      decreases top
    {
      top := top - 1;
    }
    assert top in dom;
    assert Strict(g, order, m, i) && m == top;
    forall x | x in dom
      ensures x == m
    {
      assert Strict(g, order, x, i);
    }
    assert dom == {m};
    forall a | StrictlyDominates(g, a, order[i])
      ensures Dominates(g, a, order[m])
    {
      DomInNodes(g, a, order[i]);
      DominatorsDescend(g, order, num, parent, a, order[i]);
      assert Strict(g, order, num[a], i);
      DomChain(g, a, order[m], order[i]);
      if a != order[m] && Dominates(g, order[m], a) {
        DominatorsDescend(g, order, num, parent, order[m], a);
      }
    }
  }

  /** Clears in dom the bits of ddom other than j. */
  method ClearOthers(dom: set<int>, ddom: set<int>, j: int, n: nat) returns (res: set<int>)
    requires InRange(ddom, n)
    ensures forall x :: x in res <==> x in dom && (x == j || x !in ddom)
  {
    res := dom;
    var k := FindFrom(ddom, 0, n);
    while k < n
      invariant 0 <= k <= n && (k < n ==> k in ddom)
      invariant forall x :: x in res <==> x in dom && (x == j || x !in ddom || x >= k)
      decreases n - k
    {
      if k != j {
        res := res - {k};
      }
      var k' := FindFrom(ddom, k + 1, n);
      k := k';
    }
  }

  class BitsetDominators {
    const g: Graph
    var preOrderVisit: seq<Block>
    var blockToNum: map<Block, int>
    var domMap: map<Block, set<int>>
    /** The depth-first tree. */
    ghost var parent: map<Block, Block>

    constructor (g: Graph)
      requires WellFormed(g)
      ensures this.g == g && preOrderVisit == [] && Valid({})
    {
      this.g := g;
      preOrderVisit, blockToNum, domMap, parent := [], map[], map[], map[];
    }

    ghost predicate Valid(gray: set<Block>)
      reads this
    {
      WellFormed(g) && Numbered(g, preOrderVisit, blockToNum, parent, gray)
    }

    /** Numbers b and everything newly reachable from it, in preorder. */
    method Dfs(b: Block, ghost via: Block, ghost gray: set<Block>)
      requires Valid(gray) && b in g.nodes && b !in blockToNum
      requires if preOrderVisit == [] then b == g.entry else b != g.entry && via in blockToNum && b in Succs(g, via)
      modifies this`preOrderVisit, this`blockToNum, this`parent
      ensures Valid(gray)
      ensures old(blockToNum.Keys) + {b} <= blockToNum.Keys && preOrderVisit != []
      decreases g.nodes - blockToNum.Keys
    {
      VisitNumbers(g, preOrderVisit, blockToNum, parent, gray, b, via);
      blockToNum := blockToNum[b := |preOrderVisit|];
      preOrderVisit := preOrderVisit + [b];
      parent := parent[b := via];
      var todo := Succs(g, b);
      while todo != {}
        invariant todo <= Succs(g, b)
        invariant Valid(gray + {b})
        invariant forall y :: y in Succs(g, b) ==> y in todo || y in blockToNum
        invariant old(blockToNum.Keys) + {b} <= blockToNum.Keys && preOrderVisit != []
        decreases todo
      {
        var nbb;
        nbb, todo := Next(todo);
        NotEntry(g, b, nbb);
        if nbb !in blockToNum {
          Dfs(nbb, b, gray + {b});
        }
      }
    }

    ghost predicate Ready()
      reads this
    {
      && blockToNum.Keys == g.nodes && domMap.Keys == g.nodes
      && g.entry in g.nodes && domMap[g.entry] <= {0}
      && (forall i :: 0 <= i < |preOrderVisit| ==> preOrderVisit[i] in g.nodes)
      && Complete(g, preOrderVisit, blockToNum, parent)
      && Above(g, blockToNum, domMap)
      && AllInRange(domMap, |preOrderVisit|)
    }

    /** Numbers the blocks and sets every bit except in the entry's set, which holds the entry alone. */
    method Initialize()
      requires Valid({}) && preOrderVisit == []
      modifies this
      ensures Ready()
    {
      Dfs(g.entry, g.entry, {});
      NumberedIsComplete(g, preOrderVisit, blockToNum, parent);
      domMap := (map b | b in blockToNum :: AllBits(|preOrderVisit|))[g.entry := {0}];
      forall a | a in g.nodes && Dominates(g, a, g.entry)
        ensures a == g.entry
      {
        DomEntry(g, a);
      }
    }

    /** Recomputes the set of the block numbered bId. */
    method Refine(bId: int) returns (changed: bool)
      requires Ready() && 0 <= bId < |preOrderVisit|
      modifies this`domMap
      ensures Ready()
      ensures if changed then TotalBits(preOrderVisit, domMap) < TotalBits(preOrderVisit, old(domMap))
              else domMap == old(domMap) && Stable(g, blockToNum, domMap, preOrderVisit[bId])
    {
      var cbb := preOrderVisit[bId];
      var tdd := Intersect(domMap, domMap[cbb], Preds(g, cbb));
      IntersectionIsMeet(g, blockToNum, domMap, cbb, tdd);
      tdd := tdd + {bId};
      MeetIsAbove(g, blockToNum, domMap, cbb);
      changed := tdd != domMap[cbb];
      if changed {
        BitsFall(preOrderVisit, domMap, cbb, tdd);
        domMap := domMap[cbb := tdd];
      }
    }

    /** One pass over the blocks in preorder. */
    method Pass() returns (changed: bool)
      requires Ready()
      modifies this`domMap
      ensures Ready()
      ensures if changed then TotalBits(preOrderVisit, domMap) < TotalBits(preOrderVisit, old(domMap))
              else domMap == old(domMap) && forall i :: 0 <= i < |preOrderVisit| ==>
                Stable(g, blockToNum, domMap, preOrderVisit[i])
    {
      hide Complete, Above, AllInRange, Stable, TotalBits;
      changed := false;
      var bId := 0;
      while bId < |preOrderVisit|
        invariant 0 <= bId <= |preOrderVisit|
        invariant Ready()
        invariant if changed then TotalBits(preOrderVisit, domMap) < TotalBits(preOrderVisit, old(domMap))
                  else domMap == old(domMap) && forall i :: 0 <= i < bId ==>
                    Stable(g, blockToNum, domMap, preOrderVisit[i])
      {
        var hit := Refine(bId);
        changed := changed || hit;
        bId := bId + 1;
      }
    }

    /** Repeats the pass until nothing changes; a changing pass removes at least one bit. */
    method Fixpoint()
      requires Ready()
      modifies this`domMap
      ensures Ready()
      ensures Exact(g, blockToNum, domMap)
    {
      hide Complete, Above, AllInRange, Stable, TotalBits, Exact;
      var changed := true;
      while changed
        invariant Ready()
        invariant !changed ==> forall i :: 0 <= i < |preOrderVisit| ==> Stable(g, blockToNum, domMap, preOrderVisit[i])
        decreases TotalBits(preOrderVisit, domMap), changed
      {
        changed := Pass();
      }
      FixpointReached(g, preOrderVisit, blockToNum, parent, domMap);
    }

    ghost predicate Extracting(i: int)
      reads this
    {
      && Complete(g, preOrderVisit, blockToNum, parent)
      && Partly(g, preOrderVisit, blockToNum, domMap, i)
    }

    /** One step of the scan over dom: the bits of j's own set are cleared and j moves to the next set bit. */
    method FilterOne(i: int, dom: set<int>, j: int) returns (dom': set<int>, j': int)
      requires 0 <= j < i < |preOrderVisit| && Extracting(i)
      requires Filtered(g, preOrderVisit, i, dom, j) && j in dom
      ensures Filtered(g, preOrderVisit, i, dom', j')
      ensures j < j' <= |preOrderVisit| && (j' < |preOrderVisit| ==> j' in dom' && j' < i)
    {
      var n := |preOrderVisit|;
      var cbb := preOrderVisit[j];
      CollapsedRange(g, preOrderVisit, blockToNum, parent, domMap, cbb);
      dom' := ClearOthers(dom, domMap[cbb], j, n);
      FilterStep(g, preOrderVisit, blockToNum, parent, domMap, i, dom, j, dom');
      FilteredRange(g, preOrderVisit, i, dom', j + 1);
      j' := FindFrom(dom', j + 1, n);
      FilterSkip(g, preOrderVisit, i, dom', j + 1, j');
    }

    /** Reduces dom, the strict dominators of the block numbered i, to the immediate one. */
    method Filter(i: int, strict: set<int>) returns (dom: set<int>, m: int)
      requires 0 < i < |preOrderVisit| && Extracting(i)
      requires Filtered(g, preOrderVisit, i, strict, 0)
      ensures 0 <= m < i && IsIdom(g, preOrderVisit[m], preOrderVisit[i]) && dom == {m}
    {
      var n := |preOrderVisit|;
      dom := strict;
      FilteredRange(g, preOrderVisit, i, dom, 0);
      var j := FindFrom(dom, 0, n);
      FilterSkip(g, preOrderVisit, i, dom, 0, j);
      assert j < n ==> j < i;
      while j < n
        invariant 0 <= j <= n && (j < n ==> j in dom && j < i)
        invariant Filtered(g, preOrderVisit, i, dom, j)
        decreases n - j
      {
        hide *;
        dom, j := FilterOne(i, dom, j);
      }
      FilteredRange(g, preOrderVisit, i, dom, j);
      m := FindFrom(dom, 0, n);
      FilteredIsIdom(g, preOrderVisit, blockToNum, parent, i, dom, j, m);
    }

    /** Finds and records the immediate dominator of the block numbered i. */
    method ExtractOne(i: int, idom: map<Block, Block>, dtree: map<Block, set<Block>>)
      returns (idom': map<Block, Block>, dtree': map<Block, set<Block>>)
      requires 0 < i < |preOrderVisit| && Extracting(i) && Recorded(g, blockToNum, i, idom, dtree)
      modifies this`domMap
      ensures Extracting(i + 1) && Recorded(g, blockToNum, i + 1, idom', dtree')
    {
      var cbb := preOrderVisit[i];
      StrictSet(g, preOrderVisit, blockToNum, parent, domMap, i);
      var dom, m := Filter(i, domMap[cbb] - {i});
      ExtractStep(g, preOrderVisit, blockToNum, parent, domMap, i, m);
      domMap := domMap[cbb := dom];
      var d := preOrderVisit[m];
      RecordStep(g, preOrderVisit, blockToNum, parent, i, idom, dtree, d);
      idom' := idom[cbb := d];
      dtree' := dtree[d := dtree[d] + {cbb}];
    }

    /** Reads the immediate dominators off the solution, collapsing each set in place. */
    method Extract() returns (idom: map<Block, Block>, dtree: map<Block, set<Block>>)
      requires Extracting(1)
      modifies this`domMap
      ensures IsIdomMap(g, idom) && IsDTree(g, idom, dtree)
    {
      idom := map[];
      dtree := map b | b in g.nodes :: {};
      var i := 1;
      while i < |preOrderVisit|
        invariant 1 <= i <= |preOrderVisit| && Extracting(i)
        invariant Recorded(g, blockToNum, i, idom, dtree)
      {
        hide *;
        idom, dtree := ExtractOne(i, idom, dtree);
        i := i + 1;
      }
      hide *;
      RecordedAll(g, preOrderVisit, blockToNum, parent, idom, dtree);
    }

    /** computeDominance: from no numbering to the immediate dominators. */
    method Run() returns (idom: map<Block, Block>, dtree: map<Block, set<Block>>)
      requires Valid({}) && preOrderVisit == []
      modifies this
      ensures IsIdomMap(g, idom) && IsDTree(g, idom, dtree)
    {
      Initialize();
      Fixpoint();
      ExactIsPartly(g, preOrderVisit, blockToNum, parent, domMap);
      idom, dtree := Extract();
    }
  }
}
