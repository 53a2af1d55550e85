/** The blocks that a region takes in beyond those of its traces: aug_dfs and the modes of augmentation. */
module Augmentation {
  import opened Graphs
  import opened BlockHeap
  import opened BlockStores

  /** cfgAugEnum: which pairs of blocks the search looks for paths between. */
  datatype CfgAug = NoAug | HeadAug | AggressiveAug | InsaneAug

  const MAXDEPTH: nat := 1024

  // ---------- paths ----------

  /** p leads from u to v, and through blocks that the search passes. */
  ghost predicate Route(succs: map<Block, set<Block>>, flags: map<Block, Flags>, u: Block, v: Block, p: seq<Block>) {
    && |p| > 0 && p[0] == u && p[|p| - 1] == v
    && forall i, j :: 0 <= i < j < |p| && j == i + 1 ==> Hop(succs, flags, p[i], p[j])
  }

  ghost predicate Hop(succs: map<Block, set<Block>>, flags: map<Block, Flags>, x: Block, y: Block) {
    Edge(succs, x, y) && Passes(FlagsAt(flags, x))
  }

  /** The search stops at a return or an indirect call, unless there is a call in the same block. */
  predicate Passes(f: Flags) {
    f.jal || !(f.jr || f.jalr || f.monitor)
  }

  ghost predicate Within(t: seq<Block>, blocks: set<Block>) {
    forall x :: x in t ==> x in blocks
  }

  /** x is on a route from u to v, of at most len edges, inside V. */
  ghost predicate OnRoute(succs: map<Block, set<Block>>, flags: map<Block, Flags>, u: Block, v: Block, V: set<Block>,
                          x: Block, len: nat) {
    exists p :: Route(succs, flags, u, v, p) && x in p && Within(p, V) && |p| <= len + 1
  }

  /** Where the search goes on for sure: at a block without flags, or one with a call that has itself, the target or a
      block of seen for a successor. */
  ghost predicate Goes(succs: map<Block, set<Block>>, flags: map<Block, Flags>, target: Block, seen: set<Block>,
    x: Block) {
    || FlagsAt(flags, x) == NOFLAGS
    || (FlagsAt(flags, x).jal && exists y :: Edge(succs, x, y) && (y == target || y == x || y in seen))
  }

  /** v can be reached from u through such blocks. */
  ghost predicate Open(succs: map<Block, set<Block>>, flags: map<Block, Flags>, u: Block, v: Block) {
    exists p :: OpenRoute(succs, flags, u, v, p)
  }

  ghost predicate OpenRoute(succs: map<Block, set<Block>>, flags: map<Block, Flags>, u: Block, v: Block,
                            p: seq<Block>) {
    && |p| > 0 && p[0] == u && p[|p| - 1] == v
    && forall i, j :: 0 <= i < j < |p| && j == i + 1 ==> Edge(succs, p[i], p[j]) && Goes(succs, flags, v, {}, p[i])
  }

  lemma RouteHere(succs: map<Block, set<Block>>, flags: map<Block, Flags>, u: Block, V: set<Block>, len: nat)
    requires u in V
    ensures OnRoute(succs, flags, u, u, V, u, len)
  {
    assert Route(succs, flags, u, u, [u]);
  }

  lemma RouteFrom(succs: map<Block, set<Block>>, flags: map<Block, Flags>, w: Block, u: Block, v: Block, V: set<Block>,
                  x: Block, len: nat)
    requires OnRoute(succs, flags, u, v, V, x, len) && Edge(succs, w, u) && Passes(FlagsAt(flags, w)) && w in V
    ensures OnRoute(succs, flags, w, v, V, x, len + 1) && OnRoute(succs, flags, w, v, V, w, len + 1)
  {
    hide Edge, Passes, FlagsAt, Route;
    var p :| Route(succs, flags, u, v, p) && x in p && Within(p, V) && |p| <= len + 1;
    RouteLonger(succs, flags, w, u, v, p);
    var q := [w] + p;
    assert w in q && x in q && Within(q, V);
  }

  lemma RouteLonger(succs: map<Block, set<Block>>, flags: map<Block, Flags>, w: Block, u: Block, v: Block,
                    p: seq<Block>)
    requires Route(succs, flags, u, v, p) && Edge(succs, w, u) && Passes(FlagsAt(flags, w))
    ensures Route(succs, flags, w, v, [w] + p)
  {
    var q := [w] + p;
    assert Hop(succs, flags, w, u);
    hide Hop;
    forall i, j | 0 <= i < j < |q| && j == i + 1
      ensures Hop(succs, flags, q[i], q[j])
    {
      assert q[j] == p[j - 1] && (i > 0 ==> q[i] == p[i - 1]);
    }
  }

  lemma RouteWider(succs: map<Block, set<Block>>, flags: map<Block, Flags>, u: Block, v: Block, V: set<Block>,
                   W: set<Block>, x: Block, len: nat)
    requires OnRoute(succs, flags, u, v, V, x, len) && V <= W
    ensures OnRoute(succs, flags, u, v, W, x, len)
  {
    hide Route;
  }

  // ---------- the search ----------

  /** Edges lead from block to block. */
  ghost predicate SuccsInside(succs: map<Block, set<Block>>) {
    forall x, y :: Edge(succs, x, y) ==> y in succs
  }

  /** The blocks that the search has been to beyond those of seen0: all that follows one where it goes on, but for the
      target. */
  ghost predicate Explored(succs: map<Block, set<Block>>, flags: map<Block, Flags>, target: Block, seen0: set<Block>,
                           seen: set<Block>) {
    forall x, y :: x in seen && x !in seen0 && Goes(succs, flags, target, seen0, x) && Edge(succs, x, y) ==>
      y in seen || y == target
  }

  /** None of them is the target, or has it for a successor. */
  ghost predicate Missed(succs: map<Block, set<Block>>, flags: map<Block, Flags>, target: Block, seen0: set<Block>,
                         seen: set<Block>) {
    forall x :: x in seen && x !in seen0 ==>
      x != target && (Goes(succs, flags, target, seen0, x) ==> !Edge(succs, x, target))
  }

  /** There are not enough blocks left for the search to get too deep. */
  ghost predicate Roomy(succs: map<Block, set<Block>>, seen: set<Block>, currLen: nat, maxLen: nat) {
    |succs.Keys - seen| + currLen <= maxLen
  }

  lemma NotViable(succs: map<Block, set<Block>>, flags: map<Block, Flags>, target: Block, seen: set<Block>, node: Block)
    requires FlagsAt(flags, node).jal && node in succs
    requires !exists nn :: nn in succs[node] && (nn == target || nn in seen + {node})
    ensures !Goes(succs, flags, target, seen, node)
  {
    SuccsAre(succs, node);
    hide FlagsAt, Edge;
  }

  lemma NothingNew(succs: map<Block, set<Block>>, flags: map<Block, Flags>, target: Block, seen: set<Block>)
    ensures Explored(succs, flags, target, seen, seen) && Missed(succs, flags, target, seen, seen)
  {
  }

  /** A block where the search stops. */
  lemma NodeStops(succs: map<Block, set<Block>>, flags: map<Block, Flags>, target: Block, seen: set<Block>, node: Block)
    requires !Goes(succs, flags, target, seen, node) && node != target
    ensures Explored(succs, flags, target, seen, seen + {node}) && Missed(succs, flags, target, seen, seen + {node})
  {
    hide Goes, Edge;
  }

  lemma Deeper(succs: map<Block, set<Block>>, node: Block, seen0: set<Block>, seen: set<Block>, currLen: nat,
               maxLen: nat)
    requires node in succs && node !in seen0 && seen0 + {node} <= seen
    ensures Roomy(succs, seen0, currLen, maxLen) ==> Roomy(succs, seen, currLen + 1, maxLen)
    ensures succs.Keys - seen < succs.Keys - seen0
  {
    var all, left := succs.Keys - seen0, succs.Keys - seen;
    assert node in all && node !in left;
    Smaller(left + {node}, all);
  }

  lemma Smaller<T>(A: set<T>, B: set<T>)
    requires A <= B
    ensures |A| <= |B|
  {
    assert B == A + (B - A);
  }

  lemma GoesMore(succs: map<Block, set<Block>>, flags: map<Block, Flags>, target: Block, seen0: set<Block>,
                 seen1: set<Block>)
    requires seen0 <= seen1
    ensures forall x :: Goes(succs, flags, target, seen0, x) ==> Goes(succs, flags, target, seen1, x)
  {
    hide FlagsAt, Edge;
  }

  lemma ExploredOn(succs: map<Block, set<Block>>, flags: map<Block, Flags>, target: Block, seen0: set<Block>,
                   seen1: set<Block>, seen: set<Block>)
    requires Explored(succs, flags, target, seen0, seen1) && Explored(succs, flags, target, seen1, seen)
    requires seen0 <= seen1 <= seen
    ensures Explored(succs, flags, target, seen0, seen)
  {
    GoesMore(succs, flags, target, seen0, seen1);
    hide Goes, Edge;
  }

  lemma MissedOn(succs: map<Block, set<Block>>, flags: map<Block, Flags>, target: Block, seen0: set<Block>,
                 seen1: set<Block>, seen: set<Block>)
    requires Missed(succs, flags, target, seen0, seen1) && Missed(succs, flags, target, seen1, seen) && seen0 <= seen1
    ensures Missed(succs, flags, target, seen0, seen)
  {
    GoesMore(succs, flags, target, seen0, seen1);
    hide Goes, Edge;
  }

  lemma ExploredNode(succs: map<Block, set<Block>>, flags: map<Block, Flags>, target: Block, seen0: set<Block>,
                     node: Block, seen: set<Block>)
    requires Explored(succs, flags, target, seen0 + {node}, seen)
    requires forall y :: Edge(succs, node, y) ==> y in seen || y == target
    ensures Explored(succs, flags, target, seen0, seen)
  {
    GoesMore(succs, flags, target, seen0, seen0 + {node});
    hide Goes, Edge;
  }

  lemma MissedNode(succs: map<Block, set<Block>>, flags: map<Block, Flags>, target: Block, seen0: set<Block>,
                   node: Block, seen: set<Block>)
    requires Missed(succs, flags, target, seen0 + {node}, seen) && !Edge(succs, node, target) && node != target
    ensures Missed(succs, flags, target, seen0, seen)
  {
    GoesMore(succs, flags, target, seen0, seen0 + {node});
    hide Goes, Edge;
  }

  /** The routes from a block, with those through one more of its successors. */
  lemma RoutesOn(succs: map<Block, set<Block>>, flags: map<Block, Flags>, node: Block, n: Block, target: Block,
                 visited0: set<Block>, visited1: set<Block>, visited: set<Block>, len: nat, found: bool, below: bool)
    requires len > 0 && Edge(succs, node, n) && Passes(FlagsAt(flags, node)) && visited0 <= visited1 <= visited
    requires forall x :: x in visited1 && x !in visited0 ==> OnRoute(succs, flags, node, target, visited1, x, len)
    requires forall x :: x in visited && x !in visited1 ==> OnRoute(succs, flags, n, target, visited, x, len - 1)
    requires found ==> OnRoute(succs, flags, node, target, visited1, node, len)
    requires if below then OnRoute(succs, flags, n, target, visited, n, len - 1) else visited == visited1
    ensures var W := if below then visited + {node} else visited;
            && (forall x :: x in W && x !in visited0 ==> OnRoute(succs, flags, node, target, W, x, len))
            && (found || below ==> OnRoute(succs, flags, node, target, W, node, len))
  {
    hide OnRoute, Edge, Passes, FlagsAt;
    if below {
      var W := visited + {node};
      RouteWider(succs, flags, n, target, visited, W, n, len - 1);
      RouteFrom(succs, flags, node, n, target, W, n, len - 1);
      forall x | x in W && x !in visited0
        ensures OnRoute(succs, flags, node, target, W, x, len)
      {
        if x in visited1 {
          RouteWider(succs, flags, node, target, visited1, W, x, len);
        } else if x in visited {
          RouteWider(succs, flags, n, target, visited, W, x, len - 1);
          RouteFrom(succs, flags, node, n, target, W, x, len - 1);
        }
      }
    }
  }

  // The order in which the search enters blocks, and what it demands of a block with a call.

  function Elems(s: seq<Block>): set<Block> {
    set x | x in s
  }

  /** A block with a call is only passed if it has the target, itself or a block entered before for a successor. */
  ghost predicate ViableAt(succs: map<Block, set<Block>>, flags: map<Block, Flags>, target: Block, before: set<Block>,
                           x: Block) {
    FlagsAt(flags, x).jal ==> exists y :: Edge(succs, x, y) && (y == target || y == x || y in before)
  }

  /** The blocks entered in this order are new, and whatever was added is one of them or the target. */
  ghost predicate Entered(target: Block, seen0: set<Block>, order: seq<Block>, seen: set<Block>, visited0: set<Block>,
                          visited: set<Block>) {
    && seen == seen0 + Elems(order)
    && (forall x :: x in order ==> x !in seen0 && x != target)
    && forall x :: x in visited ==> x in visited0 || x in order || x == target
  }

  ghost predicate AllViable(succs: map<Block, set<Block>>, flags: map<Block, Flags>, target: Block, seen0: set<Block>,
                            order: seq<Block>, visited0: set<Block>, visited: set<Block>) {
    forall i :: 0 <= i < |order| && order[i] in visited && order[i] !in visited0 ==>
                  ViableAt(succs, flags, target, seen0 + Elems(order[..i]), order[i])
  }

  lemma ViableMore(succs: map<Block, set<Block>>, flags: map<Block, Flags>, target: Block, node: Block,
                   seen0: set<Block>, order: seq<Block>, seen1: set<Block>, visited0: set<Block>, visited1: set<Block>,
                   order1: seq<Block>, seen: set<Block>, visited: set<Block>)
    requires node in order && Entered(target, seen0, order, seen1, visited0, visited1)
    requires AllViable(succs, flags, target, seen0, order, visited0, visited1 + {node})
    requires Entered(target, seen1, order1, seen, visited1, visited)
    requires AllViable(succs, flags, target, seen1, order1, visited1, visited)
    ensures Entered(target, seen0, order + order1, seen, visited0, visited)
    ensures AllViable(succs, flags, target, seen0, order + order1, visited0, visited + {node})
  {
    hide ViableAt;
    var all := order + order1;
    assert seen == seen0 + Elems(all);
    forall i | 0 <= i < |all| && all[i] in visited + {node} && all[i] !in visited0
      ensures ViableAt(succs, flags, target, seen0 + Elems(all[..i]), all[i])
    {
      if i < |order| {
        assert all[..i] == order[..i] && all[i] == order[i];
        assert order[i] in order && order[i] in seen1;
        assert order[i] in visited1 + {node};
      } else {
        var k := i - |order|;
        assert seen0 + Elems(all[..i]) == seen1 + Elems(order1[..k]) by {
          assert all[..i] == order + order1[..k];
        }
        assert order1[k] in order1 && order1[k] == all[i];
        assert node in seen1 && order1[k] in visited && order1[k] !in visited1;
      }
    }
  }

  lemma NodeEntered(target: Block, seen0: set<Block>, order: seq<Block>, seen: set<Block>, visited0: set<Block>,
                    visited: set<Block>, node: Block)
    requires node in order && Entered(target, seen0, order, seen, visited0, visited)
    ensures Entered(target, seen0, order, seen, visited0, visited + {node})
    ensures visited + {node} + {node} == visited + {node}
  {
  }

  lemma ViableLess(succs: map<Block, set<Block>>, flags: map<Block, Flags>, target: Block, seen0: set<Block>,
                   order: seq<Block>, visited0: set<Block>, visited: set<Block>, node: Block)
    requires AllViable(succs, flags, target, seen0, order, visited0, visited + {node})
    ensures AllViable(succs, flags, target, seen0, order, visited0, visited)
  {
    hide ViableAt;
  }

  lemma NothingEntered(succs: map<Block, set<Block>>, flags: map<Block, Flags>, target: Block, seen0: set<Block>,
                       visited0: set<Block>)
    ensures Entered(target, seen0, [], seen0, visited0, visited0 + {target})
    ensures Entered(target, seen0, [], seen0, visited0, visited0)
    ensures AllViable(succs, flags, target, seen0, [], visited0, visited0)
    ensures AllViable(succs, flags, target, seen0, [], visited0, visited0 + {target})
  {
    assert Elems([]) == {};
  }

  lemma ViableNode(succs: map<Block, set<Block>>, flags: map<Block, Flags>, target: Block, node: Block,
                   seen0: set<Block>, visited0: set<Block>)
    requires node !in seen0 && node != target
    ensures Entered(target, seen0, [node], seen0 + {node}, visited0, visited0)
    ensures AllViable(succs, flags, target, seen0, [node], visited0, visited0)
    ensures ViableAt(succs, flags, target, seen0, node) ==>
              AllViable(succs, flags, target, seen0, [node], visited0, visited0 + {node})
  {
    hide ViableAt;
    assert Elems([node]) == {node} && Elems([]) == {};
    assert [node][..0] == [];
    assert seen0 + {} == seen0;
  }

  /** aug_dfs. What is added to visited lies on routes to the target; nothing is added where none is found; and while
      the search does not get too deep, it goes on from every block without flags, and from every block with a call that
      has the target, itself or a block seen before for a successor. */
  method AugDfs(succs: map<Block, set<Block>>, flags: map<Block, Flags>, node: Block, target: Block, seen0: set<Block>,
                visited0: set<Block>, currLen: nat, maxLen: nat)
    returns (found: bool, seen: set<Block>, visited: set<Block>, ghost order: seq<Block>)
    requires node in succs && SuccsInside(succs) && currLen <= maxLen
    ensures seen0 <= seen && visited0 <= visited && (!found ==> visited == visited0)
    ensures found ==> OnRoute(succs, flags, node, target, visited, node, maxLen - currLen)
    ensures forall x :: x in visited && x !in visited0 ==>
      OnRoute(succs, flags, node, target, visited, x, maxLen - currLen)
    ensures Roomy(succs, seen0, currLen, maxLen) ==>
      (if node == target then found else node in seen) && Explored(succs, flags, target, seen0, seen)
    ensures Roomy(succs, seen0, currLen, maxLen) && !found ==> Missed(succs, flags, target, seen0, seen)
    ensures Entered(target, seen0, order, seen, visited0, visited)
    ensures AllViable(succs, flags, target, seen0, order, visited0, visited)
    decreases succs.Keys - seen0
  {
    hide OnRoute, FlagsAt, Explored, Missed, Entered, AllViable;
    NothingNew(succs, flags, target, seen0);
    NothingEntered(succs, flags, target, seen0, visited0);
    found, seen, visited, order := false, seen0, visited0, [];
    if node == target {
      visited := visited + {node};
      RouteHere(succs, flags, node, visited, maxLen - currLen);
      return true, seen, visited, [];
    }
    if currLen >= maxLen {
      if node !in seen0 {
        assert node in succs.Keys - seen0;
      }
      return;
    }
    if node in seen {
      return;
    }
    seen, order := seen + {node}, [node];
    SuccsAre(succs, node);
    ViableNode(succs, flags, target, node, seen0, visited0);
    var f := FlagsAt(flags, node);
    if f.jal {
      if !exists nn :: nn in succs[node] && (nn == target || nn in seen) {
        NotViable(succs, flags, target, seen0, node);
        NodeStops(succs, flags, target, seen0, node);
        return;
      }
    } else if f.jr || f.jalr {
      NodeStops(succs, flags, target, seen0, node);
      return;
    } else if f.monitor {
      NodeStops(succs, flags, target, seen0, node);
      return;
    }
    ghost var open := seen;
    assert ViableAt(succs, flags, target, seen0, node);
    NothingNew(succs, flags, target, open);
    var todo := succs[node];
    while todo != {}
      invariant todo <= succs[node] && seen0 + {node} == open <= seen && visited0 <= visited
        && (!found ==> visited == visited0)
      invariant found ==> OnRoute(succs, flags, node, target, visited, node, maxLen - currLen)
      invariant forall x :: x in visited && x !in visited0 ==>
        OnRoute(succs, flags, node, target, visited, x, maxLen - currLen)
      invariant Roomy(succs, seen0, currLen, maxLen) ==> Explored(succs, flags, target, open, seen)
      invariant Roomy(succs, seen0, currLen, maxLen) ==> forall y :: y in succs[node] - todo ==>
        y in seen || y == target
      invariant Roomy(succs, seen0, currLen, maxLen) && !found ==>
        Missed(succs, flags, target, open, seen) && target !in succs[node] - todo
      invariant node in order && Entered(target, seen0, order, seen, visited0, visited)
      invariant AllViable(succs, flags, target, seen0, order, visited0, visited + {node})
      invariant found ==> node in visited
      decreases todo
    {
      var n, rest := Next(todo);
      ghost var seen1, visited1 := seen, visited;
      Deeper(succs, node, seen0, seen, currLen, maxLen);
      var below;
      ghost var order1;
      below, seen, visited, order1 := AugDfs(succs, flags, n, target, seen, visited, currLen + 1, maxLen);
      ViableMore(succs, flags, target, node, seen0, order, seen1, visited0, visited1, order1, seen, visited);
      order := order + order1;
      RoutesOn(succs, flags, node, n, target, visited0, visited1, visited, maxLen - currLen, found, below);
      if below {
        NodeEntered(target, seen0, order, seen, visited0, visited, node);
        visited := visited + {node};
        found := true;
      }
      if Roomy(succs, seen0, currLen, maxLen) {
        ExploredOn(succs, flags, target, open, seen1, seen);
        if !found {
          MissedOn(succs, flags, target, open, seen1, seen);
        }
      }
      todo := rest;
    }
    ViableLess(succs, flags, target, seen0, order, visited0, visited, node);
    if Roomy(succs, seen0, currLen, maxLen) {
      ExploredNode(succs, flags, target, seen0, node, seen);
      if !found {
        MissedNode(succs, flags, target, seen0, node, seen);
      }
    }
  }

  /** Everything on an open route has been seen, up to the block before the target. */
  lemma {:induction false} OpenSeen(succs: map<Block, set<Block>>, flags: map<Block, Flags>, u: Block, v: Block,
                                    p: seq<Block>, seen: set<Block>, i: nat)
    requires OpenRoute(succs, flags, u, v, p) && Explored(succs, flags, v, {}, seen)
    requires Missed(succs, flags, v, {}, seen)
    requires u in seen && i < |p|
    ensures p[i] in seen
  {
    hide Goes, Edge;
    if i > 0 {
      OpenSeen(succs, flags, u, v, p, seen, i - 1);
      assert Edge(succs, p[i - 1], p[i]) && Goes(succs, flags, v, {}, p[i - 1]);
    }
  }

  /** If there are not more blocks than the search may go deep, then an open route from u to v means a route inside
      V. */
  ghost predicate Covered(succs: map<Block, set<Block>>, flags: map<Block, Flags>, V: set<Block>, u: Block, v: Block) {
    |succs| <= 1024 && Open(succs, flags, u, v) ==> OnRoute(succs, flags, u, v, V, u, 1024)
  }

  /** What is visited was entered in this order, or is the target, and every block with a call among it has the target,
      itself or an earlier block for a successor. */
  ghost predicate PassedInOrder(succs: map<Block, set<Block>>, flags: map<Block, Flags>, v: Block, order: seq<Block>,
                                visited: set<Block>) {
    && (forall x :: x in visited ==> x in order || x == v)
    && forall i :: 0 <= i < |order| && order[i] in visited && FlagsAt(flags, order[i]).jal ==>
         exists y :: Edge(succs, order[i], y) && (y == v || y == order[i] || y in order[..i])
  }

  lemma FromStart(succs: map<Block, set<Block>>, flags: map<Block, Flags>, v: Block, order: seq<Block>,
                  seen: set<Block>, visited: set<Block>)
    requires Entered(v, {}, order, seen, {}, visited) && AllViable(succs, flags, v, {}, order, {}, visited)
    ensures PassedInOrder(succs, flags, v, order, visited)
  {
    hide Edge, FlagsAt;
    forall i | 0 <= i < |order| && order[i] in visited && FlagsAt(flags, order[i]).jal
      ensures exists y :: Edge(succs, order[i], y) && (y == v || y == order[i] || y in order[..i])
    {
      assert ViableAt(succs, flags, v, {} + Elems(order[..i]), order[i]);
      var y :| Edge(succs, order[i], y) && (y == v || y == order[i] || y in {} + Elems(order[..i]));
    }
  }

  /** aug_dfs from a fresh start: the blocks visited lie on routes from u to v, and where there is an open one, a route
      is found. */
  method FindPaths(succs: map<Block, set<Block>>, flags: map<Block, Flags>, u: Block, v: Block)
    returns (found: bool, visited: set<Block>)
    requires u in succs && SuccsInside(succs)
    ensures found <==> visited != {}
    ensures found ==> OnRoute(succs, flags, u, v, visited, u, 1024)
    ensures forall x :: x in visited ==> OnRoute(succs, flags, u, v, visited, x, 1024)
    ensures Covered(succs, flags, visited, u, v)
    ensures exists order :: PassedInOrder(succs, flags, v, order, visited)
  {
    hide OnRoute, OpenRoute, Explored, Missed;
    var seen;
    ghost var order;
    found, seen, visited, order := AugDfs(succs, flags, u, v, {}, {}, 0, MAXDEPTH);
    FromStart(succs, flags, v, order, seen, visited);
    if found {
      RouteStart(succs, flags, u, v, visited, u, MAXDEPTH);
    }
    if |succs| <= MAXDEPTH && Open(succs, flags, u, v) && !found {
      assert succs.Keys - {} == succs.Keys && |succs.Keys| == |succs|;
      var p :| OpenRoute(succs, flags, u, v, p);
      NoneMissed(succs, flags, u, v, p, seen);
    }
  }

  lemma RouteStart(succs: map<Block, set<Block>>, flags: map<Block, Flags>, u: Block, v: Block, V: set<Block>, x: Block,
                   len: nat)
    requires OnRoute(succs, flags, u, v, V, x, len)
    ensures u in V && v in V && x in V
  {
  }

  lemma NoneMissed(succs: map<Block, set<Block>>, flags: map<Block, Flags>, u: Block, v: Block, p: seq<Block>,
                   seen: set<Block>)
    requires OpenRoute(succs, flags, u, v, p) && u in seen
    ensures !(Explored(succs, flags, v, {}, seen) && Missed(succs, flags, v, {}, seen))
  {
    if Explored(succs, flags, v, {}, seen) && Missed(succs, flags, v, {}, seen) {
      OpenSeen(succs, flags, u, v, p, seen, |p| - 1);
      assert false;
    }
  }

  // ---------- regions ----------

  /** Every block is reached from h along edges inside valid. */
  ghost predicate Connected(succs: map<Block, set<Block>>, h: Block, valid: set<Block>) {
    forall S: set<Block> :: h in S && ClosedIn(succs, valid, S) ==> valid <= S
  }

  /** Edges inside valid do not lead out of S. */
  ghost predicate ClosedIn(succs: map<Block, set<Block>>, valid: set<Block>, S: set<Block>) {
    forall x, y :: x in S && Edge(succs, x, y) && y in valid ==> y in S
  }

  /** What buildCFG relies on: inside the set every block is reached from the head and goes on, and the head is come
      back to. */
  ghost predicate Rooted(succs: map<Block, set<Block>>, h: Block, blocks: set<Block>) {
    && h in blocks && Connected(succs, h, blocks) && (forall x :: x in blocks ==> GoesOn(succs, blocks, x))
    && exists p :: p in blocks && Edge(succs, p, h)
  }

  ghost predicate GoesOn(succs: map<Block, set<Block>>, blocks: set<Block>, x: Block) {
    exists y :: y in blocks && Edge(succs, x, y)
  }

  /** The blocks of V lie on routes between two blocks of the set, inside V. */
  lemma RootedMore(succs: map<Block, set<Block>>, flags: map<Block, Flags>, h: Block, blocks: set<Block>, u: Block,
                   v: Block, V: set<Block>, len: nat)
    requires Rooted(succs, h, blocks) && u in blocks && v in blocks
    requires forall x :: x in V ==> OnRoute(succs, flags, u, v, V, x, len)
    ensures Rooted(succs, h, blocks + V)
  {
    hide Edge, OnRoute, Connected, GoesOn;
    var all := blocks + V;
    ConnectedMore(succs, flags, h, blocks, u, v, V, len);
    forall x | x in all
      ensures GoesOn(succs, all, x)
    {
      if x in blocks {
        GoesOnMore(succs, blocks, all, x);
      } else {
        NextOnRoute(succs, flags, u, v, V, x, len);
        GoesOnMore(succs, V, all, x);
      }
    }
    var p :| p in blocks && Edge(succs, p, h);
    assert p in all;
  }

  lemma GoesOnMore(succs: map<Block, set<Block>>, A: set<Block>, B: set<Block>, x: Block)
    requires GoesOn(succs, A, x) && A <= B
    ensures GoesOn(succs, B, x)
  {
    hide Edge;
  }

  lemma ConnectedMore(succs: map<Block, set<Block>>, flags: map<Block, Flags>, h: Block, blocks: set<Block>, u: Block,
                      v: Block, V: set<Block>, len: nat)
    requires Connected(succs, h, blocks) && u in blocks
    requires forall x :: x in V ==> OnRoute(succs, flags, u, v, V, x, len)
    ensures Connected(succs, h, blocks + V)
  {
    hide OnRoute, ClosedIn;
    var all := blocks + V;
    forall S: set<Block> | h in S && ClosedIn(succs, all, S)
      ensures all <= S
    {
      ClosedLess(succs, all, S, blocks);
      forall x | x in V
        ensures x in S
      {
        OnRouteInside(succs, flags, u, v, V, all, S, x, len);
      }
    }
  }

  lemma ClosedLess(succs: map<Block, set<Block>>, all: set<Block>, S: set<Block>, blocks: set<Block>)
    requires ClosedIn(succs, all, S) && blocks <= all
    ensures ClosedIn(succs, blocks, S)
  {
    hide Edge;
  }

  lemma OnRouteInside(succs: map<Block, set<Block>>, flags: map<Block, Flags>, u: Block, v: Block, V: set<Block>,
                      all: set<Block>, S: set<Block>, x: Block, len: nat)
    requires OnRoute(succs, flags, u, v, V, x, len) && V <= all && u in S && ClosedIn(succs, all, S)
    ensures x in S
  {
    hide Route, Within, ClosedIn;
    var p :| Route(succs, flags, u, v, p) && x in p && Within(p, V) && |p| <= len + 1;
    var i :| 0 <= i < |p| && p[i] == x;
    RouteInside(succs, flags, u, v, p, V, all, S, i);
  }

  lemma {:induction false} RouteInside(succs: map<Block, set<Block>>, flags: map<Block, Flags>, u: Block, v: Block,
                                       p: seq<Block>, V: set<Block>, all: set<Block>, S: set<Block>, i: nat)
    requires Route(succs, flags, u, v, p) && Within(p, V) && V <= all && u in S && i < |p|
    requires ClosedIn(succs, all, S)
    ensures p[i] in S
  {
    hide Edge, Passes, FlagsAt;
    if i > 0 {
      RouteInside(succs, flags, u, v, p, V, all, S, i - 1);
      assert Hop(succs, flags, p[i - 1], p[i]);
    }
  }

  lemma NextOnRoute(succs: map<Block, set<Block>>, flags: map<Block, Flags>, u: Block, v: Block, V: set<Block>,
                    x: Block, len: nat)
    requires OnRoute(succs, flags, u, v, V, x, len) && x != v
    ensures GoesOn(succs, V, x)
  {
    hide Edge, Passes, FlagsAt;
    var p :| Route(succs, flags, u, v, p) && x in p && Within(p, V) && |p| <= len + 1;
    var i :| 0 <= i < |p| && p[i] == x;
    assert Hop(succs, flags, p[i], p[i + 1]);
  }

  // ---------- the modes ----------

  /** The pairs of blocks that the mode looks for paths between, blocks being those of the traces and all those found so
      far. */
  ghost predicate Pair(aug: CfgAug, h: Block, blocks: set<Block>, all: set<Block>, u: Block, v: Block) {
    match aug
    case NoAug => false
    case HeadAug => u == h && v in blocks
    case AggressiveAug => u in blocks && v in blocks && u != v
    case InsaneAug => u in all && v in all && u != v
  }

  /** What is added to the blocks of the traces lies on routes between such pairs, and leaves no block without a way
      on. */
  ghost predicate Gathered(aug: CfgAug, succs: map<Block, set<Block>>, flags: map<Block, Flags>, h: Block,
                           blocks: set<Block>, all: set<Block>) {
    && blocks <= all <= succs.Keys && Rooted(succs, h, all)
    && forall x :: x in all && x !in blocks ==> exists u, v ::
       Pair(aug, h, blocks, all, u, v) && OnRoute(succs, flags, u, v, all, x, MAXDEPTH)
  }

  /** The blocks of a region: those of the traces and what augmentation adds. For each pair of blocks that an open route
      connects they hold a route between the two. */
  ghost predicate Augmented(aug: CfgAug, succs: map<Block, set<Block>>, flags: map<Block, Flags>, h: Block,
                            blocks: set<Block>, all: set<Block>) {
    && Gathered(aug, succs, flags, h, blocks, all) && (aug.NoAug? ==> all == blocks)
    && forall u, v :: Pair(aug, h, blocks, blocks, u, v) ==> Covered(succs, flags, all, u, v)
  }

  lemma AugmentedParts(aug: CfgAug, succs: map<Block, set<Block>>, flags: map<Block, Flags>, h: Block,
                       blocks: set<Block>,
                       all: set<Block>)
    requires Augmented(aug, succs, flags, h, blocks, all)
    ensures Rooted(succs, h, all) && blocks <= all <= succs.Keys && (aug.NoAug? ==> all == blocks)
  {
    hide Rooted, Covered, OnRoute, Pair;
  }

  lemma GatheredMore(aug: CfgAug, succs: map<Block, set<Block>>, flags: map<Block, Flags>, h: Block, blocks: set<Block>,
                     all: set<Block>, u: Block, v: Block, V: set<Block>)
    requires Gathered(aug, succs, flags, h, blocks, all) && Pair(aug, h, blocks, all, u, v) && SuccsInside(succs)
    requires forall x :: x in V ==> OnRoute(succs, flags, u, v, V, x, MAXDEPTH)
    ensures Gathered(aug, succs, flags, h, blocks, all + V)
  {
    hide Rooted, OnRoute;
    var more := all + V;
    RootHead(succs, h, all);
    RootedMore(succs, flags, h, all, u, v, V, MAXDEPTH);
    forall x | x in more
      ensures x in succs.Keys
    {
      if x in V {
        RouteInStore(succs, flags, u, v, V, x, MAXDEPTH);
      }
    }
    forall x | x in more && x !in blocks
      ensures exists y, z :: Pair(aug, h, blocks, more, y, z) && OnRoute(succs, flags, y, z, more, x, MAXDEPTH)
    {
      if x in all {
        var y, z :| Pair(aug, h, blocks, all, y, z) && OnRoute(succs, flags, y, z, all, x, MAXDEPTH);
        RouteWider(succs, flags, y, z, all, more, x, MAXDEPTH);
        assert Pair(aug, h, blocks, more, y, z);
      } else {
        RouteWider(succs, flags, u, v, V, more, x, MAXDEPTH);
        assert Pair(aug, h, blocks, more, u, v);
      }
    }
  }

  lemma RootHead(succs: map<Block, set<Block>>, h: Block, all: set<Block>)
    requires Rooted(succs, h, all)
    ensures h in all
  {
  }

  lemma RouteInStore(succs: map<Block, set<Block>>, flags: map<Block, Flags>, u: Block, v: Block, V: set<Block>,
                     x: Block, len: nat)
    requires OnRoute(succs, flags, u, v, V, x, len) && u in succs && SuccsInside(succs)
    ensures x in succs
  {
    hide Passes, FlagsAt;
    var p :| Route(succs, flags, u, v, p) && x in p && Within(p, V) && |p| <= len + 1;
    var i :| 0 <= i < |p| && p[i] == x;
    if i > 0 {
      assert Hop(succs, flags, p[i - 1], p[i]);
    }
  }

  lemma CoveredMore(succs: map<Block, set<Block>>, flags: map<Block, Flags>, V: set<Block>, W: set<Block>)
    requires V <= W
    ensures forall u, v :: Covered(succs, flags, V, u, v) ==> Covered(succs, flags, W, u, v)
  {
    hide OnRoute, Open;
    forall u, v | Covered(succs, flags, V, u, v)
      ensures Covered(succs, flags, W, u, v)
    {
      if OnRoute(succs, flags, u, v, V, u, MAXDEPTH) {
        RouteWider(succs, flags, u, v, V, W, u, MAXDEPTH);
      }
    }
  }

  lemma GatheredNone(aug: CfgAug, succs: map<Block, set<Block>>, flags: map<Block, Flags>, h: Block, blocks: set<Block>)
    requires Rooted(succs, h, blocks) && blocks <= succs.Keys
    ensures Gathered(aug, succs, flags, h, blocks, blocks)
  {
    hide Rooted;
  }

  /** What buildCFG adds to the blocks of the traces. */
  method Augment(aug: CfgAug, succs: map<Block, set<Block>>, flags: map<Block, Flags>, h: Block, blocks: set<Block>)
    returns (all: set<Block>)
    requires Rooted(succs, h, blocks) && blocks <= succs.Keys && SuccsInside(succs)
    ensures Augmented(aug, succs, flags, h, blocks, all)
  {
    hide Gathered, Covered, Rooted, SuccsInside;
    RootHead(succs, h, blocks);
    GatheredNone(aug, succs, flags, h, blocks);
    match aug {
      case NoAug =>
        all := blocks;
      case HeadAug =>
        var discovered := AugmentHead(succs, flags, h, blocks);
        all := blocks + discovered;
      case AggressiveAug =>
        var discovered := AugmentPairs(aug, succs, flags, h, blocks);
        all := blocks + discovered;
      case InsaneAug =>
        var discovered := AugmentPairs(aug, succs, flags, h, blocks);
        all := blocks + discovered;
    }
  }

  lemma FoundMore(aug: CfgAug, succs: map<Block, set<Block>>, flags: map<Block, Flags>, h: Block, blocks: set<Block>,
                  discovered: set<Block>, u: Block, v: Block, V: set<Block>)
    requires Gathered(aug, succs, flags, h, blocks, blocks + discovered) && SuccsInside(succs)
    requires Pair(aug, h, blocks, blocks + discovered, u, v) && Covered(succs, flags, V, u, v)
    requires forall x :: x in V ==> OnRoute(succs, flags, u, v, V, x, MAXDEPTH)
    ensures var all := blocks + (discovered + V);
            && Gathered(aug, succs, flags, h, blocks, all) && Covered(succs, flags, all, u, v)
            && forall y, z :: Covered(succs, flags, blocks + discovered, y, z) ==> Covered(succs, flags, all, y, z)
  {
    hide Gathered, Covered, SuccsInside, OnRoute, Pair;
    GatheredMore(aug, succs, flags, h, blocks, blocks + discovered, u, v, V);
    assert blocks + discovered + V == blocks + (discovered + V);
    CoveredMore(succs, flags, blocks + discovered, blocks + (discovered + V));
    CoveredMore(succs, flags, V, blocks + (discovered + V));
  }

  /** Paths from the head to every block. */
  method AugmentHead(succs: map<Block, set<Block>>, flags: map<Block, Flags>, h: Block, blocks: set<Block>)
    returns (discovered: set<Block>)
    requires Gathered(HeadAug, succs, flags, h, blocks, blocks) && SuccsInside(succs) && h in succs
    ensures Gathered(HeadAug, succs, flags, h, blocks, blocks + discovered)
    ensures forall v :: v in blocks ==> Covered(succs, flags, blocks + discovered, h, v)
  {
    hide Gathered, Covered, SuccsInside, OnRoute;
    discovered := {};
    assert blocks + {} == blocks;
    var todo := blocks;
    while todo != {}
      invariant todo <= blocks && Gathered(HeadAug, succs, flags, h, blocks, blocks + discovered)
      invariant forall v :: v in blocks - todo ==> Covered(succs, flags, blocks + discovered, h, v)
      decreases todo
    {
      var bb, rest := Next(todo);
      var found, visited := FindPaths(succs, flags, h, bb);
      FoundMore(HeadAug, succs, flags, h, blocks, discovered, h, bb, visited);
      assert !found ==> discovered + visited == discovered;
      if found {
        discovered := discovered + visited;
      }
      todo := rest;
    }
  }

  /** Paths from every block of the traces to every other, or, for the insane mode, between all blocks found so far. */
  method AugmentPairs(aug: CfgAug, succs: map<Block, set<Block>>, flags: map<Block, Flags>, h: Block,
                      blocks: set<Block>)
    returns (discovered: set<Block>)
    requires aug.AggressiveAug? || aug.InsaneAug?
    requires Gathered(aug, succs, flags, h, blocks, blocks) && SuccsInside(succs)
    ensures Gathered(aug, succs, flags, h, blocks, blocks + discovered)
    ensures forall u, v :: u in blocks && v in blocks && u != v ==> Covered(succs, flags, blocks + discovered, u, v)
  {
    hide Gathered, Covered, SuccsInside, OnRoute;
    InStore(aug, succs, flags, h, blocks, blocks);
    discovered := if aug.InsaneAug? then blocks else {};
    assert blocks + discovered == blocks;
    var todo := blocks;
    ghost var done: set<Block> := {};
    while todo != {}
      invariant todo <= blocks + discovered <= succs.Keys && done !! todo && done <= blocks + discovered
        && blocks <= done + todo
      invariant if aug.InsaneAug? then blocks <= discovered else todo <= blocks
      invariant Gathered(aug, succs, flags, h, blocks, blocks + discovered)
      invariant forall u, v :: u in blocks && v in blocks && v in done && u != v ==>
        Covered(succs, flags, blocks + discovered, u, v)
      decreases succs.Keys - done
    {
      var bb, rest := Next(todo);
      ghost var done1 := done + {bb};
      assert bb in succs.Keys - done && bb !in succs.Keys - done1;
      var discovered1 := PathsTo(aug, succs, flags, h, blocks, discovered, bb);
      InStore(aug, succs, flags, h, blocks, blocks + discovered1);
      var later := Later(aug, discovered, discovered1);
      todo := rest + later;
      discovered := discovered1;
      done := done1;
    }
  }

  /** The inner loop: paths to bb. */
  method PathsTo(aug: CfgAug, succs: map<Block, set<Block>>, flags: map<Block, Flags>, h: Block, blocks: set<Block>,
                 discovered0: set<Block>, bb: Block)
    returns (discovered: set<Block>)
    requires aug.AggressiveAug? || (aug.InsaneAug? && blocks <= discovered0)
    requires Gathered(aug, succs, flags, h, blocks, blocks + discovered0) && SuccsInside(succs)
    requires bb in if aug.InsaneAug? then discovered0 else blocks
    ensures Gathered(aug, succs, flags, h, blocks, blocks + discovered) && discovered0 <= discovered
    ensures forall u :: u in blocks && u != bb ==> Covered(succs, flags, blocks + discovered, u, bb)
    ensures forall y, z :: Covered(succs, flags, blocks + discovered0, y, z) ==>
      Covered(succs, flags, blocks + discovered, y, z)
  {
    hide Gathered, Covered, SuccsInside, OnRoute;
    InStore(aug, succs, flags, h, blocks, blocks + discovered0);
    discovered := discovered0;
    var todo := if aug.InsaneAug? then discovered else blocks;
    ghost var done: set<Block> := {};
    while todo != {}
      invariant todo <= blocks + discovered <= succs.Keys && done !! todo && done <= blocks + discovered
        && blocks <= done + todo
      invariant aug.AggressiveAug? ==> todo <= blocks
      invariant Gathered(aug, succs, flags, h, blocks, blocks + discovered) && discovered0 <= discovered
      invariant forall u :: u in blocks && u in done && u != bb ==> Covered(succs, flags, blocks + discovered, u, bb)
      invariant forall y, z :: Covered(succs, flags, blocks + discovered0, y, z) ==>
        Covered(succs, flags, blocks + discovered, y, z)
      decreases succs.Keys - done
    {
      var nbb, rest := Next(todo);
      ghost var done1 := done + {nbb};
      assert nbb in succs.Keys - done && nbb !in succs.Keys - done1;
      todo := rest;
      if nbb != bb {
        var found, visited := FindPaths(succs, flags, nbb, bb);
        FoundMore(aug, succs, flags, h, blocks, discovered, nbb, bb, visited);
        InStore(aug, succs, flags, h, blocks, blocks + (discovered + visited));
        var later := Later(aug, discovered, discovered + visited);
        todo := rest + later;
        discovered := discovered + visited;
      }
      done := done1;
    }
  }

  /** The new blocks that a loop over the set still comes to: in the insane mode, those with addresses behind that of
      the current one. */
  method Later(aug: CfgAug, before: set<Block>, after: set<Block>) returns (later: set<Block>)
    ensures later <= after - before && (!aug.InsaneAug? ==> later == {})
  {
    later := {};
    if aug.InsaneAug? {
      later :| later <= after - before;
    }
  }

  lemma InStore(aug: CfgAug, succs: map<Block, set<Block>>, flags: map<Block, Flags>, h: Block, blocks: set<Block>,
                all: set<Block>)
    requires Gathered(aug, succs, flags, h, blocks, all)
    ensures blocks <= all <= succs.Keys
  {
    hide Rooted, OnRoute;
  }
}
