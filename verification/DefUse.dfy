/** Which blocks define a register, which registers are read, and the phis that follow from it. */
module DefUse {
  import opened Graphs
  import opened Frontiers
  import opened PhiPlacement
  import opened RegionCfgs
  import opened Rv32
  import opened CodeGen
  import opened SsaForm
  import opened Vars

  // ---------- what has been recorded ----------

  ghost predicate ReadUpTo(R: Region, b: Block, k: int, r: int) {
    exists i :: 0 <= i < k && i < |Insns(R, b)| && Reads(Insns(R, b)[i], r)
  }

  ghost predicate DefinedUpTo(R: Region, b: Block, k: int, r: int) {
    exists i :: 0 <= i < k && i < |Insns(R, b)| && Defines(Insns(R, b)[i]) == Some(r)
  }

  /** gprRead after the first k instructions of b. */
  ghost predicate ReadsOf(R: Region, b: Block, k: int, rd: seq<bool>) {
    |rd| == 32 && forall r :: 0 <= r < 32 ==> (rd[r] <==> ReadUpTo(R, b, k, r))
  }

  /** allGprRead after the blocks in done. */
  ghost predicate ReadsKnown(R: Region, done: set<Block>, rd: seq<bool>) {
    |rd| == 32 && forall r :: 0 <= r < 32 ==> (rd[r] <==> exists b :: b in done && ReadUpTo(R, b, |Insns(R, b)|, r))
  }

  /** gprDefinitionBlocks after the blocks in done and the first k instructions of b. */
  ghost predicate DefsKnown(R: Region, done: set<Block>, b: Block, k: int, ds: seq<set<Block>>) {
    |ds| == 32 && forall r, x {:trigger x in ds[r]} :: 0 <= r < 32 ==>
      (x in ds[r] <==> (x in done && DefinedUpTo(R, x, |Insns(R, x)|, r)) || (x == b && DefinedUpTo(R, b, k, r)))
  }

  /** The finished records. */
  ghost predicate Recorded(R: Region, rd: seq<bool>, ds: seq<set<Block>>) {
    && |rd| == 32 && |ds| == 32
    && (forall r :: 0 <= r < 32 ==> (rd[r] <==> IsRead(R, Gpr(r))))
    && forall r, x {:trigger x in ds[r]} :: 0 <= r < 32 ==> (x in ds[r] <==> x in R.g.nodes && DefinesVar(R, x, Gpr(r)))
  }

  /** gprDefinitionBlocks once insertPhis has added the entry block to every register that is written. */
  ghost predicate DefBlocks(R: Region, ds: seq<set<Block>>) {
    |ds| == 32 && forall r :: 0 <= r < 32 ==> ds[r] == Defs(R, Gpr(r))
  }

  /** A block whose instructions are all translatable; the entry, which has none, is one too. */
  ghost predicate CodeOk(R: Region, b: Block) {
    forall i :: 0 <= i < |Insns(R, b)| ==> Translatable(Insns(R, b)[i])
  }

  /** recUses. */
  method RecUses(i: Insn, rd0: seq<bool>) returns (rd: seq<bool>)
    requires |rd0| == 32 && Translatable(i)
    ensures |rd| == 32 && forall r :: 0 <= r < 32 ==> (rd[r] <==> rd0[r] || Reads(i, r))
  {
    match i
    case AluImm(_, _, rs1, _) => rd := rd0[rs1 := true];
    case Alu(_, _, rs1, rs2) => rd := rd0[rs1 := true][rs2 := true];
    case Load(_, _, rs1, _) => rd := rd0[rs1 := true];
    case Store(_, rs1, rs2, _) => rd := rd0[rs1 := true][rs2 := true];
    case Branch(_, rs1, rs2, _) => rd := rd0[rs1 := true][rs2 := true];
    case Jalr(_, rs1, _) => rd := rd0[rs1 := true];
    case _ => rd := rd0;
  }

  /** recDefines. */
  method RecDefines(i: Insn, b: Block, ds0: seq<set<Block>>) returns (ds: seq<set<Block>>)
    requires |ds0| == 32 && Translatable(i)
    ensures |ds| == 32 && forall r, x :: 0 <= r < 32 ==>
      (x in ds[r] <==> x in ds0[r] || (x == b && Defines(i) == Some(r)))
  {
    match Defines(i)
    case Some(rd) => ds := ds0[rd := ds0[rd] + {b}];
    case None => ds := ds0;
  }

  lemma UpToStep(R: Region, b: Block, k: int, r: int)
    requires 0 <= k < |Insns(R, b)|
    ensures ReadUpTo(R, b, k + 1, r) <==> ReadUpTo(R, b, k, r) || Reads(Insns(R, b)[k], r)
    ensures DefinedUpTo(R, b, k + 1, r) <==> DefinedUpTo(R, b, k, r) || Defines(Insns(R, b)[k]) == Some(r)
  {
    hide Reads, Defines;
  }

  /** The uses and definitions of one block. */
  method RecordBlock(R: Region, b: Block, ghost done: set<Block>, ds0: seq<set<Block>>)
    returns (rd: seq<bool>, ds: seq<set<Block>>)
    requires CodeOk(R, b) && DefsKnown(R, done, b, 0, ds0)
    ensures ReadsOf(R, b, |Insns(R, b)|, rd) && DefsKnown(R, done, b, |Insns(R, b)|, ds)
  {
    hide ReadUpTo, DefinedUpTo, Reads, Defines, Translatable;
    rd := seq(32, i => false);
    ds := ds0;
    NothingYet(R, b);
    for k := 0 to |Insns(R, b)|
      invariant ReadsOf(R, b, k, rd) && DefsKnown(R, done, b, k, ds)
    {
      assert Translatable(Insns(R, b)[k]);
      forall r
        ensures ReadUpTo(R, b, k + 1, r) <==> ReadUpTo(R, b, k, r) || Reads(Insns(R, b)[k], r)
        ensures DefinedUpTo(R, b, k + 1, r) <==> DefinedUpTo(R, b, k, r) || Defines(Insns(R, b)[k]) == Some(r)
      {
        UpToStep(R, b, k, r);
      }
      ds := RecDefines(Insns(R, b)[k], b, ds);
      rd := RecUses(Insns(R, b)[k], rd);
    }
  }

  lemma NothingYet(R: Region, b: Block)
    ensures forall r :: !ReadUpTo(R, b, 0, r) && !DefinedUpTo(R, b, 0, r)
  {
  }

  /** getRegDefBlocks: records every instruction of every block. */
  method GetRegDefBlocks(R: Region) returns (allRead: seq<bool>, ds: seq<set<Block>>)
    requires forall b :: b in R.g.nodes ==> CodeOk(R, b)
    ensures Recorded(R, allRead, ds)
  {
    hide ReadUpTo, DefinedUpTo, CodeOk;
    allRead := seq(32, i => false);
    ds := seq(32, i => {});
    var todo := R.g.nodes;
    ghost var done: set<Block> := {};
    while todo != {}
      invariant todo <= R.g.nodes && done == R.g.nodes - todo
      invariant ReadsKnown(R, done, allRead)
      invariant |ds| == 32 && forall r, x {:trigger x in ds[r]} :: 0 <= r < 32 ==>
        (x in ds[r] <==> x in done && DefinedUpTo(R, x, |Insns(R, x)|, r))
      decreases todo
    {
      var cbb;
      cbb, todo := Next(todo);
      NothingYet(R, cbb);
      var gprRead;
      gprRead, ds := RecordBlock(R, cbb, done, ds);
      ghost var before := allRead;
      for i := 0 to 32
        invariant |allRead| == 32
        invariant forall r :: 0 <= r < 32 ==> allRead[r] == (if r < i then before[r] || gprRead[r] else before[r])
      {
        allRead := allRead[i := allRead[i] || gprRead[i]];
      }
      done := done + {cbb};
    }
    assert done == R.g.nodes;
    AllRecorded(R, allRead, ds);
  }

  lemma AllRecorded(R: Region, rd: seq<bool>, ds: seq<set<Block>>)
    requires ReadsKnown(R, R.g.nodes, rd)
    requires |ds| == 32 && forall r, x {:trigger x in ds[r]} :: 0 <= r < 32 ==>
      (x in ds[r] <==> x in R.g.nodes && DefinedUpTo(R, x, |Insns(R, x)|, r))
    ensures Recorded(R, rd, ds)
  {
    hide Reads, Defines;
    forall r | 0 <= r < 32
      ensures rd[r] <==> IsRead(R, Gpr(r))
    {
      if IsRead(R, Gpr(r)) {
        var b, i :| b in R.g.nodes && 0 <= i < |Insns(R, b)| && Reads(Insns(R, b)[i], r);
        assert ReadUpTo(R, b, |Insns(R, b)|, r);
      }
      if rd[r] {
        var b :| b in R.g.nodes && ReadUpTo(R, b, |Insns(R, b)|, r);
        var i :| 0 <= i < |Insns(R, b)| && Reads(Insns(R, b)[i], r);
      }
    }
    forall r, x {:trigger x in ds[r]} | 0 <= r < 32
      ensures x in ds[r] <==> x in R.g.nodes && DefinesVar(R, x, Gpr(r))
    {
      assert DefinedUpTo(R, x, |Insns(R, x)|, r) <==> DefinesVar(R, x, Gpr(r));
    }
  }

  // ---------- phis ----------

  /** The entry block counts as a definition of every register that is written. */
  method AddEntry(R: Region, ghost rd: seq<bool>, ds0: seq<set<Block>>) returns (ds: seq<set<Block>>)
    requires Recorded(R, rd, ds0) && ds0[0] == {}
    ensures DefBlocks(R, ds)
  {
    ds := ds0;
    for gpr := 1 to 32
      invariant |ds| == 32 && ds[0] == {}
      invariant forall r :: gpr <= r < 32 ==> ds[r] == ds0[r]
      invariant forall r :: 1 <= r < gpr ==> ds[r] == if ds0[r] == {} then {} else ds0[r] + {R.g.entry}
    {
      if ds[gpr] != {} {
        ds := ds[gpr := ds[gpr] + {R.g.entry}];
      }
    }
    forall r | 0 <= r < 32
      ensures ds[r] == Defs(R, Gpr(r))
    {
      var d := set b | b in R.g.nodes && DefinesVar(R, b, Gpr(r));
      assert ds0[r] == d;
    }
  }

  lemma RecordedAt(R: Region, rd: seq<bool>, ds: seq<set<Block>>, r: int, x: Block)
    requires Recorded(R, rd, ds) && 0 <= r < 32 && x in ds[r]
    ensures x in R.g.nodes && exists i :: 0 <= i < |Insns(R, x)| && Defines(Insns(R, x)[i]) == Some(r)
  {
    assert DefinesVar(R, x, Gpr(r));
  }

  /** No instruction of a well-formed region writes x0, so the assertion in insertPhis holds. */
  lemma NoZeroDefs(R: Region, rd: seq<bool>, ds: seq<set<Block>>)
    requires Recorded(R, rd, ds) && forall b :: b in R.g.nodes ==> CodeOk(R, b)
    ensures ds[0] == {}
  {
    forall x
      ensures x !in ds[0]
    {
      if x in ds[0] {
        RecordedAt(R, rd, ds, 0, x);
      }
    }
  }

  /** The phis placed so far are those of the variables in vs. */
  ghost predicate PhisFor(R: Region, phis: map<Block, set<Var>>, vs: set<Var>) {
    && phis.Keys == R.g.nodes
    && (forall b, v :: b in phis && v in phis[b] ==> v in vs && Tracked(R, v) && Defs(R, v) != {})
    && forall x, y, v :: v in vs && x in phis && InFrontier(R.g, x, y) && (x in Defs(R, v) || v in phis[x]) ==>
       y in phis && v in phis[y]
  }

  lemma NoPhisYet(R: Region, phis: map<Block, set<Var>>)
    requires phis == map b | b in R.g.nodes :: {}
    ensures PhisFor(R, phis, {})
  {
  }

  /** Placing the phis of one more variable. */
  lemma PhisMore(R: Region, df: map<Block, set<Block>>, phis: map<Block, set<Var>>, vs: set<Var>, v: Var, S: set<Block>)
    requires IsFrontierMap(R.g, df) && PhisFor(R, phis, vs) && v !in vs && S <= R.g.nodes
    requires IsIterated(df, Defs(R, v), S) && (Defs(R, v) != {} ==> Tracked(R, v))
    ensures PhisFor(R, WithPhis(phis, S, v), vs + {v})
  {
    hide *;
    NotYet(R, phis, vs, v);
    OnlyNew(phis, S, v);
    NoDefsNoPhis(df, Defs(R, v), S);
    IteratedIsClosed(R.g, df, Defs(R, v), S);
    PhisAdd(R, phis, vs, v, S, WithPhis(phis, S, v));
  }

  lemma NotYet(R: Region, phis: map<Block, set<Var>>, vs: set<Var>, v: Var)
    requires PhisFor(R, phis, vs) && v !in vs
    ensures forall b :: b in phis ==> v !in phis[b]
  {
    hide InFrontier, Tracked, Defs;
  }

  lemma PhisAdd(R: Region, phis: map<Block, set<Var>>, vs: set<Var>, v: Var, S: set<Block>, m: map<Block, set<Var>>)
    requires PhisFor(R, phis, vs) && ClosedOver(R.g, Defs(R, v), S) && S <= R.g.nodes
    requires (Defs(R, v) != {} ==> Tracked(R, v)) && (Defs(R, v) == {} ==> S == {})
    requires m.Keys == phis.Keys
    requires forall x :: x in phis ==> (v in m[x] <==> x in S)
    requires forall x, u :: x in phis && u != v ==> (u in m[x] <==> u in phis[x])
    ensures PhisFor(R, m, vs + {v})
  {
    hide InFrontier, Tracked, Defs;
    forall x, y, u | u in vs + {v} && x in m && InFrontier(R.g, x, y) && (x in Defs(R, u) || u in m[x])
      ensures y in m && u in m[y]
    {
      if u != v {
        assert y in phis && u in phis[y];
      }
    }
  }

  lemma OnlyNew(phis: map<Block, set<Var>>, S: set<Block>, v: Var)
    requires forall b :: b in phis ==> v !in phis[b]
    ensures WithPhis(phis, S, v).Keys == phis.Keys
    ensures forall x :: x in phis ==> (v in WithPhis(phis, S, v)[x] <==> x in S)
    ensures forall x, u :: x in phis && u != v ==> (u in WithPhis(phis, S, v)[x] <==> u in phis[x])
  {
  }

  lemma NoDefsNoPhis(df: map<Block, set<Block>>, defs: set<Block>, S: set<Block>)
    requires IsIterated(df, defs, S)
    ensures Covers(df, defs, S) && (defs == {} ==> S == {})
  {
    if defs == {} {
      assert Covers(df, {}, {});
    }
  }

  lemma AllPhis(R: Region, phis: map<Block, set<Var>>, vs: set<Var>)
    requires PhisFor(R, phis, vs) && forall v :: Defs(R, v) != {} ==> v in vs
    ensures PhisClosed(R, phis)
  {
    hide InFrontier, Tracked, Defs;
    forall x, y, v | x in phis && InFrontier(R.g, x, y) && (x in Defs(R, v) || v in phis[x])
      ensures y in phis && v in phis[y]
    {
      assert v in vs;
    }
  }

  /** The blocks with a phi for v. */
  ghost function PhiBlocks(phis: map<Block, set<Var>>, v: Var): set<Block> {
    set b | b in phis && v in phis[b]
  }

  /** For each of the variables, these blocks are the iterated frontier of its definitions: not one more. */
  ghost predicate Least(R: Region, df: map<Block, set<Block>>, phis: map<Block, set<Var>>, vs: set<Var>) {
    forall v :: v in vs ==> IsIterated(df, Defs(R, v), PhiBlocks(phis, v))
  }

  lemma LeastMore(R: Region, df: map<Block, set<Block>>, phis: map<Block, set<Var>>, vs: set<Var>, v: Var,
                  S: set<Block>)
    requires PhisFor(R, phis, vs) && Least(R, df, phis, vs) && v !in vs && S <= phis.Keys
    requires IsIterated(df, Defs(R, v), S)
    ensures Least(R, df, WithPhis(phis, S, v), vs + {v})
  {
    hide IsIterated, Defs, WithPhis;
    NotYet(R, phis, vs, v);
    OnlyNew(phis, S, v);
    var m := WithPhis(phis, S, v);
    assert PhiBlocks(m, v) == S;
    forall u | u in vs
      ensures PhiBlocks(m, u) == PhiBlocks(phis, u)
    {
      assert forall x :: x in m && u in m[x] <==> x in phis && u in phis[x];
    }
  }

  /** A variable without definitions has no phis. */
  lemma LeastAll(R: Region, df: map<Block, set<Block>>, phis: map<Block, set<Var>>, vs: set<Var>, v: Var)
    requires PhisFor(R, phis, vs) && Least(R, df, phis, vs) && (Defs(R, v) != {} ==> v in vs)
    ensures IsIterated(df, Defs(R, v), PhiBlocks(phis, v))
  {
    hide Defs, Tracked, InFrontier;
    if v !in vs {
      assert PhiBlocks(phis, v) == {};
    }
  }

  lemma DefsTracked(R: Region, v: Var)
    requires Defs(R, v) != {} && forall b :: b in R.g.nodes ==> CodeOk(R, b)
    ensures Tracked(R, v) && Defs(R, v) <= R.g.nodes + {R.g.entry} && (v.Icnt? || 1 <= v.r < 32)
  {
    if v.Gpr? {
      var d := set b | b in R.g.nodes && DefinesVar(R, b, v);
      var b :| b in d;
      var i :| 0 <= i < |Insns(R, b)| && Defines(Insns(R, b)[i]) == Some(v.r);
      assert Translatable(Insns(R, b)[i]);
    }
  }

  lemma CountDefs(R: Region)
    requires R.g.entry in R.g.nodes
    ensures Defs(R, Icnt) == R.g.nodes
  {
    var d := set b | b in R.g.nodes && DefinesVar(R, b, Icnt);
    assert d == R.g.nodes;
  }

  lemma FrontiersFit(g: Graph, df: map<Block, set<Block>>)
    requires WellFormed(g) && IsFrontierMap(g, df)
    ensures FrontiersInside(g, df)
  {
    hide WellFormed, InFrontier;
    forall x, y | x in df && y in df[x]
      ensures y in g.nodes
    {
      FrontierInNodes(g, x, y);
    }
  }

  /** insertPhis: the phis of every register that is written, and of the instruction count, where they are needed and
      nowhere else. */
  method InsertPhis(R: Region, cfg: RegionCfg, ds: seq<set<Block>>)
    requires WellFormed(R.g) && cfg.g == R.g && DefBlocks(R, ds) && forall b :: b in R.g.nodes ==> CodeOk(R, b)
    requires IsFrontierMap(R.g, cfg.dfrontier) && cfg.phis == map b | b in R.g.nodes :: {}
    modifies cfg`phis
    ensures PhisClosed(R, cfg.phis)
    ensures forall v :: IsIterated(cfg.dfrontier, Defs(R, v), PhiBlocks(cfg.phis, v))
  {
    hide WellFormed, CodeOk, IsFrontierMap, PhisFor, Defs, Tracked, IsIterated, WithPhis, FrontiersInside, Least;
    EntryIn(R.g);
    FrontiersFit(R.g, cfg.dfrontier);
    NoPhisYet(R, cfg.phis);
    ghost var vs: set<Var> := {};
    assert Least(R, cfg.dfrontier, cfg.phis, vs) by { NothingLeast(R, cfg.dfrontier, cfg.phis); }
    for gpr := 1 to 32
      invariant forall v :: v in vs <==> v.Gpr? && 1 <= v.r < gpr
      invariant PhisFor(R, cfg.phis, vs) && Least(R, cfg.dfrontier, cfg.phis, vs)
    {
      PlaceReady(R, Gpr(gpr), cfg.phis, vs);
      ghost var phis := cfg.phis;
      ghost var S := cfg.InducePhis(ds[gpr], Gpr(gpr));
      PhisMore(R, cfg.dfrontier, phis, vs, Gpr(gpr), S);
      LeastMore(R, cfg.dfrontier, phis, vs, Gpr(gpr), S);
      vs := vs + {Gpr(gpr)};
    }
    CountDefs(R);
    PlaceReady(R, Icnt, cfg.phis, vs);
    ghost var phis := cfg.phis;
    ghost var S := cfg.InducePhis(R.g.nodes, Icnt);
    PhisMore(R, cfg.dfrontier, phis, vs, Icnt, S);
    LeastMore(R, cfg.dfrontier, phis, vs, Icnt, S);
    vs := vs + {Icnt};
    forall v | Defs(R, v) != {}
      ensures v in vs
    {
      DefsTracked(R, v);
    }
    AllPhis(R, cfg.phis, vs);
    forall v
      ensures IsIterated(cfg.dfrontier, Defs(R, v), PhiBlocks(cfg.phis, v))
    {
      LeastAll(R, cfg.dfrontier, cfg.phis, vs, v);
    }
  }

  lemma NothingLeast(R: Region, df: map<Block, set<Block>>, phis: map<Block, set<Var>>)
    ensures Least(R, df, phis, {})
  {
  }

  lemma EntryIn(g: Graph)
    requires WellFormed(g)
    ensures g.entry in g.nodes
  {
  }

  lemma PlaceReady(R: Region, v: Var, phis: map<Block, set<Var>>, vs: set<Var>)
    requires R.g.entry in R.g.nodes && (forall b :: b in R.g.nodes ==> CodeOk(R, b)) && PhisFor(R, phis, vs)
    ensures phis.Keys == R.g.nodes && Defs(R, v) <= R.g.nodes && (Defs(R, v) != {} ==> Tracked(R, v))
  {
    hide CodeOk, Tracked, Defs;
    if Defs(R, v) != {} {
      DefsTracked(R, v);
    }
  }
}
