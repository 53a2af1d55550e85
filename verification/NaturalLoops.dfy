/** Natural loops defined by paths. */
module NaturalLoops {
  import opened Graphs

  /** x reaches the latch l without passing the header h. */
  ghost predicate Body(g: Graph, h: Block, l: Block, x: Block) {
    exists p :: Leads(g, x, p, l) && h !in p
  }

  /** The natural loop of the edge from l to h: the header and what reaches the latch without it. */
  ghost predicate InLoop(g: Graph, h: Block, l: Block, x: Block) {
    x == h || Body(g, h, l, x)
  }

  ghost predicate BackEdge(g: Graph, l: Block, h: Block) {
    h in Succs(g, l) && Dominates(g, h, l)
  }

  /** A predecessor of a body block other than the header is in the body. */
  lemma BodyPred(g: Graph, h: Block, l: Block, x: Block, p: Block)
    requires Linked(g) && Body(g, h, l, x) && p in Preds(g, x) && p != h
    ensures Body(g, h, l, p)
  {
    var q :| Leads(g, x, q, l) && h !in q;
    var r := [p] + q;
    assert forall i, j :: 0 <= i < j < |r| && j == i + 1 ==> r[j] in Succs(g, r[i]) by {
      forall i, j | 0 <= i < j < |r| && j == i + 1
        ensures r[j] in Succs(g, r[i])
      {
        if i > 0 {
          assert r[i] == q[i - 1] && r[j] == q[j - 1];
        }
      }
    }
    assert Leads(g, p, r, l);
  }

  /** A set that holds the latch and the predecessors of its blocks other than the header holds the body. */
  lemma {:induction false} BodyInside(g: Graph, h: Block, l: Block, S: set<Block>, x: Block, p: seq<Block>)
    requires WellFormed(g) && l in S && forall c, q :: c in S && c != h && q in Preds(g, c) ==> q in S
    requires Leads(g, x, p, l) && h !in p
    ensures x in S
    decreases |p|
  {
    if |p| > 1 {
      Cut(g, x, p, l, 1);
      assert p[1] in Succs(g, p[0]) && p[1] in p;
      assert h !in p[1..];
      BodyInside(g, h, l, S, p[1], p[1..]);
    }
  }

  /** ... and, when the header dominates the latch, the header too. */
  lemma HeaderInside(g: Graph, h: Block, l: Block, S: set<Block>)
    requires WellFormed(g) && l in S && l in g.nodes && forall c, q :: c in S && c != h && q in Preds(g, c) ==> q in S
    requires Dominates(g, h, l)
    ensures h in S
  {
    var p :| Leads(g, g.entry, p, l);
    assert h in p;
    var k := LastIn(p, {h});
    if k < |p| - 1 {
      Cut(g, g.entry, p, l, k + 1);
      assert p[k + 1] in Succs(g, p[k]);
      var q := p[k + 1..];
      assert h !in q;
      BodyInside(g, h, l, S, p[k + 1], q);
    }
  }

  /** The header dominates its whole loop. */
  lemma LoopDominated(g: Graph, h: Block, l: Block, x: Block)
    requires WellFormed(g) && h in g.nodes && Dominates(g, h, l) && InLoop(g, h, l, x)
    ensures Dominates(g, h, x)
  {
    if x != h && !Dominates(g, h, x) {
      var q := Bypass(g, h, x);
      var p :| Leads(g, x, p, l) && h !in p;
      Join(g, g.entry, q, x, p, l);
    }
  }

  // ---------- the stack of findLoop ----------

  /** Duplicates on the stack are harmless: a block already in the loop has its predecessors there or nearer the top. */
  ghost predicate Nearer(g: Graph, h: Block, loop: set<Block>, stack: seq<Block>) {
    forall i, q :: 0 <= i < |stack| && stack[i] in loop && stack[i] != h && q in Preds(g, stack[i]) ==>
      q in loop || q in stack[..i]
  }

  /** The predecessors of what is in the loop are in it or on the stack. */
  ghost predicate Closing(g: Graph, h: Block, loop: set<Block>, stack: seq<Block>) {
    forall c, q :: c in loop && c != h && q in Preds(g, c) ==> q in loop || q in stack
  }

  lemma NearerStep(g: Graph, h: Block, loop: set<Block>, stack: seq<Block>, pushed: seq<Block>)
    requires stack != [] && Nearer(g, h, loop, stack)
    requires forall q :: q in pushed ==> q !in loop + {stack[0]}
    requires stack[0] != h ==> forall q :: q in Preds(g, stack[0]) ==> q in loop + {stack[0]} || q in pushed
    ensures Nearer(g, h, loop + {stack[0]}, pushed + stack[1..])
  {
    var c := stack[0];
    var next := pushed + stack[1..];
    assert forall i :: 0 <= i < |pushed| ==> next[i] in pushed;
    forall i, q | 0 <= i < |next| && next[i] in loop + {c} && next[i] != h && q in Preds(g, next[i])
      ensures q in loop + {c} || q in next[..i]
    {
      if i >= |pushed| {
        var j := i - |pushed| + 1;
        assert next[i] == stack[j];
        assert next[..i] == pushed + stack[1..j];
        if next[i] != c {
          assert stack[..j] == [c] + stack[1..j];
        }
      }
    }
  }
}
