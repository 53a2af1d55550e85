/** Where phis are needed: what the iterated dominance frontier says about paths. */
module PhiPlacement {
  import opened Graphs
  import opened Frontiers

  /** S contains the frontiers of defs and of itself. */
  ghost predicate ClosedOver(g: Graph, defs: set<Block>, S: set<Block>) {
    forall x, y :: x in g.nodes && (x in defs || x in S) && InFrontier(g, x, y) ==> y in S
  }

  /** The set that inducePhis computes is the least closed one. */
  lemma IteratedIsClosed(g: Graph, df: map<Block, set<Block>>, defs: set<Block>, S: set<Block>)
    requires IsFrontierMap(g, df)
    ensures Covers(df, defs, S) <==> ClosedOver(g, defs, S)
  {
    hide InFrontier;
    if Covers(df, defs, S) {
      forall x, y | x in g.nodes && (x in defs || x in S) && InFrontier(g, x, y)
        ensures y in S
      {
        assert y in df[x] && df[x] <= S;
      }
    }
    if ClosedOver(g, defs, S) {
      forall d | d in df && (d in defs || d in S)
        ensures df[d] <= S
      {
        forall y | y in df[d]
          ensures y in S
        {
          assert InFrontier(g, d, y);
        }
      }
    }
  }

  /** Along a path from a definition, the definition or a phi on the path dominates the end: the end itself if it has a
      phi. */
  lemma {:induction false} Carrier(g: Graph, defs: set<Block>, S: set<Block>, p: seq<Block>) returns (w: Block)
    requires WellFormed(g) && ClosedOver(g, defs, S) && IsPath(g, p) && p[0] in defs + S
    ensures w in p && w in defs + S && Dominates(g, w, Last(p))
    ensures w == Last(p) && |p| > 1 ==> w in S
    decreases |p|
  {
    if |p| == 1 {
      w := p[0];
      DomRefl(g, w);
    } else {
      var q := p[..|p| - 1];
      assert forall i, j :: 0 <= i < j < |q| && j == i + 1 ==> q[i] == p[i] && q[j] == p[j];
      w := Carrier(g, defs, S, q);
      var n, m := Last(q), Last(p);
      assert m in Succs(g, n) && n in Preds(g, m);
      if !StrictlyDominates(g, w, m) {
        assert InFrontier(g, w, m);
        w := m;
        DomRefl(g, w);
      }
      assert forall x :: x in q ==> x in p;
    }
  }

  /** On a path from the immediate dominator of b to b that does not come back to it, every block is below it. */
  lemma BelowIdom(g: Graph, d: Block, b: Block, p: seq<Block>, k: nat)
    requires WellFormed(g) && b in g.nodes && IsIdom(g, d, b) && Leads(g, d, p, b)
    requires d !in p[1..] && 0 < k < |p|
    ensures StrictlyDominates(g, d, p[k])
  {
    assert p[k] == p[1..][k - 1];
    if !Dominates(g, d, p[k]) {
      var q := Bypass(g, d, p[k]);
      Cut(g, d, p, b, k);
      Join(g, g.entry, q, p[k], p[k..], b);
    }
  }

  /** A block without a phi cannot be reached from a definition below its immediate dominator without passing that
      dominator. */
  lemma NoPhiNoWrite(g: Graph, defs: set<Block>, S: set<Block>, d: Block, b: Block, p: seq<Block>, k: nat)
    requires WellFormed(g) && ClosedOver(g, defs, S) && b in g.nodes && b !in S
    requires IsIdom(g, d, b) && Leads(g, d, p, b) && d !in p[1..] && 0 < k < |p| - 1
    ensures p[k] !in defs
  {
    if p[k] in defs {
      Cut(g, d, p, b, k);
      var w := Carrier(g, defs, S, p[k..]);
      var i :| 0 <= i < |p| - k && p[k..][i] == w;
      BelowIdom(g, d, b, p, k + i);
      if w != b {
        StrictViaIdom(g, d, w, b);
        DomAntisym(g, d, w);
      }
      assert false;
    }
  }

  /** A block that dominates z cannot be bypassed by going through another of its dominators. */
  lemma NotAround(g: Graph, v: Block, w: Block, p: seq<Block>, z: Block)
    requires WellFormed(g) && z in g.nodes && Dominates(g, w, z) && Leads(g, v, p, z) && w !in p
    ensures Dominates(g, w, v)
  {
    if !Dominates(g, w, v) {
      var q := Bypass(g, w, v);
      Join(g, g.entry, q, v, p, z);
    }
  }

  /** Where two paths from two definitions first meet there is a phi. */
  lemma MeetHasPhi(g: Graph, defs: set<Block>, S: set<Block>, p: seq<Block>, q: seq<Block>, z: Block)
    requires WellFormed(g) && ClosedOver(g, defs, S) && z in g.nodes
    requires |p| > 1 && |q| > 1 && p[0] in defs && q[0] in defs && Leads(g, p[0], p, z) && Leads(g, q[0], q, z)
    requires z !in p[..|p| - 1] && z !in q[..|q| - 1]
    requires forall x :: x in p && x in q ==> x == z
    ensures z in S
  {
    var v := Carrier(g, defs, S, p);
    var w := Carrier(g, defs, S, q);
    if z !in S {
      var i :| 0 <= i < |p| && p[i] == v;
      var j :| 0 <= j < |q| && q[j] == w;
      Cut(g, p[0], p, z, i);
      Cut(g, q[0], q, z, j);
      assert forall x :: x in p[i..] ==> x in p;
      assert forall x :: x in q[j..] ==> x in q;
      NotAround(g, v, w, p[i..], z);
      NotAround(g, w, v, q[j..], z);
      DomAntisym(g, v, w);
    }
  }
}
