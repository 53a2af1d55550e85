/** A linking jalr whose target is not the plain value of its base register: the generated code goes elsewhere. */
module LinkFailure {
  import opened Graphs
  import opened Vars
  import opened Rv32
  import opened SsaIr
  import opened CodeGen
  import opened SsaForm
  import opened SsaRun
  import opened Refinement
  import opened Meaning

  /** jalr x1, 4(x5). */
  const LINK: Insn := Jalr(1, 5, 4)

  /** A region of one block at 0x40, which holds nothing else and has itself for a successor. */
  function OneJalr(b: Block, entry: Block): Region {
    Region(Graph({entry, b}, entry, map[entry := {b}, b := {b}], map[b := {entry, b}]), b, map[b := 0x40],
      map[b := [LINK]])
  }

  /** x5 holds an even address. */
  function Before(): State {
    State(0x40, seq(32, r => if r == 5 then 0x100 else 0), map[], 0, false)
  }

  /** The interpreter's state after the jump. */
  function After(): State {
    State(0x104, seq(32, r => if r == 1 then 0x44 else if r == 5 then 0x100 else 0), map[], 1, false)
  }

  function TableAfter(b: Block): Table {
    map[Gpr(1) := Const(0x44), Gpr(5) := EntryLoad(Gpr(5)), Icnt := Count(b)]
  }

  function EnvAfter(b: Block): Env {
    map[EntryLoad(Gpr(5)) := 0x100, Count(b) := 1]
  }

  ghost function Chained(b: Block, entry: Block): Term {
    var base := RegVal(TableAfter(b), 5);
    Chain(base, [(0x40, b)], Abort(base, Saves(OneJalr(b, entry), TableAfter(b))))
  }

  lemma Jumps()
    ensures Exec(LINK, Before()) == Some(After().(icnt := 0)) && !LinkOk(LINK, Before()) && ValidState(Before())
    ensures ValidState(After())
  {
    assert SetReg(Before(), 1, 0x44).gpr == After().gpr;
  }

  lemma TableFull(b: Block, entry: Block)
    requires b != entry
    ensures FullTable(OneJalr(b, entry), TableAfter(b))
    ensures forall v :: Defs(OneJalr(b, entry), v) != {} <==> v == Gpr(1) || v == Icnt
  {
    var R := OneJalr(b, entry);
    assert Insns(R, b) == [LINK] && Insns(R, entry) == [];
    forall v
      ensures Defs(R, v) != {} <==> v == Gpr(1) || v == Icnt
      ensures Tracked(R, v) <==> v == Gpr(1) || v == Gpr(5) || v == Icnt
    {
      DefsOfOne(b, entry, v);
      ReadsOfOne(b, entry, v);
    }
  }

  lemma DefsOfOne(b: Block, entry: Block, v: Var)
    requires b != entry
    ensures Defs(OneJalr(b, entry), v) != {} <==> v == Gpr(1) || v == Icnt
  {
    var R := OneJalr(b, entry);
    assert Insns(R, b) == [LINK] && Insns(R, entry) == [];
    var d := set x | x in R.g.nodes && DefinesVar(R, x, v);
    assert DefinesVar(R, b, v) <==> v == Gpr(1) || v == Icnt by {
      assert Defines(Insns(R, b)[0]) == Some(1);
    }
    assert b in d <==> v == Gpr(1) || v == Icnt;
    assert v.Gpr? ==> entry !in d;
  }

  lemma ReadsOfOne(b: Block, entry: Block, v: Var)
    requires b != entry
    ensures IsRead(OneJalr(b, entry), v) <==> v == Gpr(5)
  {
    var R := OneJalr(b, entry);
    assert Insns(R, b) == [LINK] && Insns(R, entry) == [];
    assert Reads(Insns(R, b)[0], 5);
  }

  lemma EndsWell(b: Block, entry: Block)
    requires b != entry
    ensures AtEnd(OneJalr(b, entry), Before(), TableAfter(b), EnvAfter(b), After())
  {
    var R := OneJalr(b, entry);
    Jumps();
    TableFull(b, entry);
    hide FullTable, Defs, ValidState;
    forall r | 0 <= r < 32 && Defs(R, Gpr(r)) == {}
      ensures Reg(After(), r) == Reg(Before(), r)
    {
    }
  }

  lemma BlockFine(b: Block, entry: Block)
    requires b != entry
    ensures BlockOk(OneJalr(b, entry), b) && LastStep(OneJalr(b, entry), b, Before(), After())
    ensures IsTerm(OneJalr(b, entry), b, TableAfter(b), Chained(b, entry))
  {
    assert Insns(OneJalr(b, entry), b) == [LINK];
    Jumps();
    hide Saves, ValidState, Exec, LinkOk;
  }

  /** The interpreter goes to 0x104, and the code leaves for 0x100. */
  lemma LinkGoesWrong(b: Block, entry: Block)
    requires b != entry
    ensures var R := OneJalr(b, entry);
            && BlockOk(R, b) && AtEnd(R, Before(), TableAfter(b), EnvAfter(b), After())
               && LastStep(R, b, Before(), After())
            && IsTerm(R, b, TableAfter(b), Chained(b, entry))
            && RunTerm(Before(), b, Chained(b, entry), EnvAfter(b), map[], 1) == Exited(After().(pc := 0x100), b, 1)
  {
    EndsWell(b, entry);
    BlockFine(b, entry);
    Strays(b, entry);
    hide *;
  }

  lemma Strays(b: Block, entry: Block)
    requires b != entry
    ensures RunTerm(Before(), b, Chained(b, entry), EnvAfter(b), map[], 1) == Exited(After().(pc := 0x100), b, 1)
  {
    var R, tbl, env := OneJalr(b, entry), TableAfter(b), EnvAfter(b);
    TableFull(b, entry);
    hide Defs, FullTable, OneJalr;
    var saves := Saves(R, tbl);
    assert saves.Keys == {Gpr(1), Icnt};
    assert SavesReady(env, saves);
    assert Eval(env, RegVal(tbl, 5)) == Some(0x100);
    assert Stored(Before(), 0x100, env, saves, map[]) == After().(pc := 0x100) by {
      assert Stored(Before(), 0x100, env, saves, map[]).gpr == After().gpr;
    }
    assert [(0x40, b)][1..] == [];
    assert Pick(0x100, [(0x40, b)]).None?;
  }
}
