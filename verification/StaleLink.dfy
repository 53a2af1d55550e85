/** A region that dies: a block that augmentation has added to it is split, and then compiled code leaves that block for
    an address where no block starts. */
module StaleLink {
  import opened Graphs
  import opened Rv32
  import opened TraceRecorder
  import opened BlockHeap
  import opened BlockStores
  import opened Augmentation
  import opened FindBlocks
  import opened CompiledCode
  import opened Dispatcher
  import CodeGen
  import SsaForm
  import SsaRun
  import Refinement
  import Meaning
  import RegionBuilder
  import Translator
  import Guests
  import Simulator

  // ---------- the guest ----------

  /** The block h branches to b or falls into j, which jumps to t; b goes on to t or branches to an address where
      nothing has been executed yet; t jumps back to h. */
  function StaleCode(a: int): int {
    if a == 0x1000 then 0x3_0463            // h: beq x6, x0, b
    else if a == 0x1004 then 0x2_8067       // j: jalr x0, 0(x5)
    else if a == 0x1008 then 0x10_0093      // b: addi x1, x0, 1
    else if a == 0x100c then 0x3_8463       //    beq x7, x0, 0x1014
    else if a == 0x1010 then 0xff1f_f06f    // t: jal x0, h
    else 0x6f                               //    jal x0, itself
  }

  /** The i-th byte of a word. */
  function ByteOf(w: int, i: int): int {
    if i == 0 then w % 256 else if i == 1 then w / 256 % 256 else if i == 2 then w / 256 / 256 % 256
    else w / 256 / 256 / 256 % 256
  }

  function Memory(): map<int, int> {
    map a: int | 0x1000 <= a < 0x1018 :: ByteOf(StaleCode(a - a % 4), a % 4)
  }

  lemma Powers()
    ensures Pow2(0) == 1 && Pow2(1) == 2 && Pow2(3) == 8 && Pow2(4) == 16 && Pow2(5) == 32 && Pow2(6) == 64
    ensures Pow2(7) == 128 && Pow2(8) == 256 && Pow2(10) == 1024 && Pow2(11) == 2048 && Pow2(12) == 4096
    ensures Pow2(13) == 0x2000 && Pow2(15) == 0x8000 && Pow2(20) == 0x10_0000 && Pow2(21) == 0x20_0000
    ensures Pow2(25) == 0x200_0000 && Pow2(31) == 0x8000_0000
  {
    assert Pow2(3) == 8 && Pow2(5) == 32 && Pow2(7) == 128;
    assert Pow2(8) == 256 && Pow2(10) == 1024;
    assert Pow2(12) == 4096;
    assert Pow2(15) == 0x8000 by { assert Pow2(14) == 0x4000; }
    assert Pow2(18) == 0x4_0000 by { assert Pow2(16) == 0x1_0000; }
    assert Pow2(21) == 0x20_0000;
    assert Pow2(25) == 0x200_0000 by { assert Pow2(23) == 0x80_0000; }
    assert Pow2(31) == 0x8000_0000 by { assert Pow2(28) == 0x1000_0000; }
  }

  lemma Branches()
    ensures Decode(0x3_0463) == Some(Branch(Eq, 6, 0, 8)) && Decode(0x3_8463) == Some(Branch(Eq, 7, 0, 8))
  {
    Powers();
    hide Pow2;
    assert Field(0x3_0463, 0, 7) == 0x63 && Field(0x3_0463, 12, 3) == 0 && Field(0x3_0463, 15, 5) == 6;
    assert Field(0x3_0463, 20, 5) == 0 && Field(0x3_0463, 8, 4) == 4 && Field(0x3_0463, 25, 6) == 0;
    assert Field(0x3_0463, 7, 1) == 0 && Field(0x3_0463, 31, 1) == 0;
    assert BImm(0x3_0463) == 8;
    assert Field(0x3_8463, 0, 7) == 0x63 && Field(0x3_8463, 12, 3) == 0 && Field(0x3_8463, 15, 5) == 7;
    assert Field(0x3_8463, 20, 5) == 0 && Field(0x3_8463, 8, 4) == 4 && Field(0x3_8463, 25, 6) == 0;
    assert Field(0x3_8463, 7, 1) == 0 && Field(0x3_8463, 31, 1) == 0;
    assert BImm(0x3_8463) == 8;
  }

  lemma Jumps()
    ensures Decode(0x2_8067) == Some(Jalr(0, 5, 0)) && Decode(0xff1f_f06f) == Some(Jal(0, WORD - 16))
    ensures Decode(0x6f) == Some(Jal(0, 0))
  {
    Guests.SpinDecodes();
    Powers();
    hide Pow2;
    assert Field(0x2_8067, 0, 7) == 0x67 && Field(0x2_8067, 7, 5) == 0 && Field(0x2_8067, 15, 5) == 5;
    assert Field(0x2_8067, 20, 12) == 0;
    assert IImm(0x2_8067) == 0;
    assert Field(0xff1f_f06f, 0, 7) == 0x6f && Field(0xff1f_f06f, 7, 5) == 0 && Field(0xff1f_f06f, 21, 10) == 0x3f8;
    assert Field(0xff1f_f06f, 20, 1) == 1 && Field(0xff1f_f06f, 12, 8) == 0xff && Field(0xff1f_f06f, 31, 1) == 1;
    assert JImm(0xff1f_f06f) == WORD - 16;
  }

  /** What the instructions of the blocks are. */
  lemma Decoded()
    ensures Decode(0x3_0463) == Some(Branch(Eq, 6, 0, 8)) && Decode(0x3_8463) == Some(Branch(Eq, 7, 0, 8))
    ensures Decode(0x2_8067) == Some(Jalr(0, 5, 0)) && Decode(0xff1f_f06f) == Some(Jal(0, WORD - 16))
    ensures Decode(0x10_0093) == Some(AluImm(Add, 1, 0, 1)) && Decode(0x6f) == Some(Jal(0, 0))
  {
    Branches();
    Jumps();
    Guests.TwoDecode();
  }

  lemma ByteAt(a: int, i: nat)
    requires 0x1000 <= a < 0x1018 && a % 4 == 0 && i < 4
    ensures a + i in Memory() && Memory()[a + i] == ByteOf(StaleCode(a), i)
  {
    hide StaleCode, ByteOf;
    assert (a + i) % 4 == i && (a + i) - (a + i) % 4 == a;
  }

  /** The memory holds the code. */
  lemma Words(a: int)
    requires 0x1000 <= a < 0x1018 && a % 4 == 0
    ensures ReadN(Memory(), a, 4) == StaleCode(a)
  {
    hide ReadN, StaleCode, Memory;
    ByteAt(a, 0);
    ByteAt(a, 1);
    ByteAt(a, 2);
    ByteAt(a, 3);
    InWord(a);
    Guests.WordAt(Memory(), a, StaleCode(a));
  }

  lemma InWord(a: int)
    ensures 0 <= StaleCode(a) < WORD
  {
  }

  /** The guest at the address pc, with x1 and the instruction count. */
  function Here(pc: int, x1: int, icnt: int): State {
    State(pc, seq(32, i => if i == 1 then x1 else 0), Memory(), icnt, false)
  }

  lemma Fetched(pc: int, x1: int, icnt: int)
    requires 0x1000 <= pc < 0x1018 && pc % 4 == 0
    ensures Fetch(Here(pc, x1, icnt)) == Decode(StaleCode(pc)) && ReadN(Memory(), pc, 4) == StaleCode(pc)
  {
    Words(pc);
    hide Decode, ReadN, Memory, StaleCode;
  }

  lemma StepOf(s: State, i: Insn, t: State)
    requires Fetch(s) == Some(i) && Exec(i, s) == Some(t) && ReadN(s.mem, s.pc, 4) == StaleCode(s.pc)
    requires !i.ReadCycle? && Refinement.LinkOk(i, s)
    ensures Interpret(s) == Some(t.(icnt := (s.icnt + 1) % DWORD)) && GoodStep(s)
  {
    hide Fetch, Exec, ReadN, StaleCode, Refinement.LinkOk;
  }

  lemma CodeIs()
    ensures StaleCode(0x1000) == 0x3_0463 && StaleCode(0x1008) == 0x10_0093 && StaleCode(0x100c) == 0x3_8463
    ensures StaleCode(0x1014) == 0x6f && StaleCode(0x1004) == 0x2_8067 && StaleCode(0x1010) == 0xff1f_f06f
  {
  }

  /** What the guest fetches on its way. */
  lemma FetchedInsns(x1: int, icnt: int)
    ensures Fetch(Here(0x1000, x1, icnt)) == Some(Branch(Eq, 6, 0, 8))
    ensures Fetch(Here(0x1008, x1, icnt)) == Some(AluImm(Add, 1, 0, 1))
    ensures Fetch(Here(0x100c, x1, icnt)) == Some(Branch(Eq, 7, 0, 8))
    ensures Fetch(Here(0x1014, x1, icnt)) == Some(Jal(0, 0))
  {
    hide *;
    CodeIs();
    Decoded();
    Fetched(0x1000, x1, icnt);
    Fetched(0x1008, x1, icnt);
    Fetched(0x100c, x1, icnt);
    Fetched(0x1014, x1, icnt);
  }

  lemma BranchTaken(pc: int, r: int, x1: int, icnt: int)
    requires Fetch(Here(pc, x1, icnt)) == Some(Branch(Eq, r, 0, 8)) && 2 <= r < 32
    requires 0 <= pc < 0x2000 && 0 <= icnt < 8 && ReadN(Memory(), pc, 4) == StaleCode(pc)
    ensures Interpret(Here(pc, x1, icnt)) == Some(Here(pc + 8, x1, icnt + 1)) && GoodStep(Here(pc, x1, icnt))
  {
    hide Memory, StaleCode, Fetch, ReadN, Interpret, GoodStep;
    StepOf(Here(pc, x1, icnt), Branch(Eq, r, 0, 8), Here(pc + 8, x1, icnt));
  }

  lemma AddDone()
    requires Fetch(Here(0x1008, 0, 1)) == Some(AluImm(Add, 1, 0, 1)) && ReadN(Memory(), 0x1008, 4) == StaleCode(0x1008)
    ensures Interpret(Here(0x1008, 0, 1)) == Some(Here(0x100c, 1, 2)) && GoodStep(Here(0x1008, 0, 1))
  {
    hide Memory, StaleCode, Fetch, ReadN, Interpret, GoodStep;
    assert Here(0x1008, 0, 1).gpr[1 := 1] == Here(0x100c, 1, 1).gpr;
    StepOf(Here(0x1008, 0, 1), AluImm(Add, 1, 0, 1), Here(0x100c, 1, 1));
  }

  lemma SpinsOn(icnt: int)
    requires Fetch(Here(0x1014, 1, icnt)) == Some(Jal(0, 0)) && ReadN(Memory(), 0x1014, 4) == StaleCode(0x1014)
    ensures Interpret(Here(0x1014, 1, icnt)) == Some(Here(0x1014, 1, (icnt + 1) % DWORD))
    ensures GoodStep(Here(0x1014, 1, icnt))
  {
    hide Memory, StaleCode, Fetch, ReadN, Interpret, GoodStep;
    StepOf(Here(0x1014, 1, icnt), Jal(0, 0), Here(0x1014, 1, icnt));
  }

  /** From h it goes through b to the address without a block, and stays there. */
  lemma Steps(c: int)
    ensures Interpret(Here(0x1000, 0, 0)) == Some(Here(0x1008, 0, 1))
    ensures Interpret(Here(0x1008, 0, 1)) == Some(Here(0x100c, 1, 2))
    ensures Interpret(Here(0x100c, 1, 2)) == Some(Here(0x1014, 1, 3))
    ensures Interpret(Here(0x1014, 1, c)) == Some(Here(0x1014, 1, (c + 1) % DWORD))
    ensures GoodStep(Here(0x1000, 0, 0)) && GoodStep(Here(0x1008, 0, 1)) && GoodStep(Here(0x100c, 1, 2))
    ensures GoodStep(Here(0x1014, 1, c))
  {
    hide Interpret, Here, GoodStep, Fetch, ReadN, Memory, StaleCode;
    Words(0x1000);
    Words(0x1008);
    Words(0x100c);
    Words(0x1014);
    FetchedInsns(0, 0);
    FetchedInsns(0, 1);
    FetchedInsns(1, 2);
    FetchedInsns(1, c);
    BranchTaken(0x1000, 6, 0, 0);
    AddDone();
    BranchTaken(0x100c, 7, 1, 2);
    SpinsOn(c);
  }

  ghost predicate GoodStep(s: State) {
    TameStep(StaleCode, s) && Refinement.LinkStep(s)
  }

  lemma {:induction false} Runs(k: nat)
    ensures k == 0 ==> InterpretN(Here(0x1000, 0, 0), k) == Some(Here(0x1000, 0, 0))
    ensures k == 1 ==> InterpretN(Here(0x1000, 0, 0), k) == Some(Here(0x1008, 0, 1))
    ensures k == 2 ==> InterpretN(Here(0x1000, 0, 0), k) == Some(Here(0x100c, 1, 2))
    ensures k >= 3 ==> InterpretN(Here(0x1000, 0, 0), k).Some?
    ensures k >= 3 ==> exists c :: InterpretN(Here(0x1000, 0, 0), k).value == Here(0x1014, 1, c)
  {
    hide Interpret, InterpretN, Here, GoodStep;
    NoSteps(Here(0x1000, 0, 0));
    Steps(0);
    if k > 0 {
      Runs(k - 1);
      Simulator.NextOf(Here(0x1000, 0, 0), k - 1);
      if k > 3 {
        var c :| InterpretN(Here(0x1000, 0, 0), k - 1).value == Here(0x1014, 1, c);
        Steps(c);
      }
    }
  }

  lemma StaleTame(been: set<int>)
    ensures Tame(StaleCode, been, Here(0x1000, 0, 0)) && Sane(Here(0x1000, 0, 0))
  {
    forall k: nat | InterpretN(Here(0x1000, 0, 0), k).Some?
      ensures GoodStep(InterpretN(Here(0x1000, 0, 0), k).value)
    {
      RunsWell(k);
    }
    hide InterpretN, TameStep, Refinement.LinkStep, Tame;
    AlwaysTame(StaleCode, been, Here(0x1000, 0, 0));
  }

  lemma RunsWell(k: nat)
    ensures InterpretN(Here(0x1000, 0, 0), k).Some? && GoodStep(InterpretN(Here(0x1000, 0, 0), k).value)
  {
    hide Interpret, InterpretN, Here, GoodStep;
    Runs(k);
    Steps(0);
    if k >= 3 {
      var c :| InterpretN(Here(0x1000, 0, 0), k).value == Here(0x1014, 1, c);
      Steps(c);
    }
  }

  // ---------- the store ----------

  datatype Four = Four(h: Block, j: Block, b: Block, t: Block)

  ghost predicate Apart(q: Four) {
    q.h != q.j && q.h != q.b && q.h != q.t && q.j != q.b && q.j != q.t && q.b != q.t
  }

  function Insns0(q: Four): map<Block, Insns> {
    map[q.h := [(0x3_0463, 0x1000)], q.j := [(0x2_8067, 0x1004)],
        q.b := [(0x10_0093, 0x1008), (0x3_8463, 0x100c)], q.t := [(0xff1f_f06f, 0x1010)]]
  }

  function Entries0(q: Four): map<Block, int> {
    map[q.h := 0x1000, q.j := 0x1004, q.b := 0x1008, q.t := 0x1010]
  }

  function Terms0(q: Four): map<Block, int> {
    map[q.h := 0x1000, q.j := 0x1004, q.b := 0x100c, q.t := 0x1010]
  }

  function All0(q: Four): set<Block> {
    {q.h, q.j, q.b, q.t}
  }

  /** j alone has a flag: that of a return. */
  function Flags0(q: Four): map<Block, Flags> {
    map[q.h := NOFLAGS, q.j := Flags(true, false, false, false), q.b := NOFLAGS, q.t := NOFLAGS]
  }

  function Listing0(q: Four): Listing {
    Listing(Entries0(q), Insns0(q), Terms0(q), All0(q), Flags0(q))
  }

  function Succs0(q: Four): map<Block, set<Block>> {
    map[q.h := {q.j, q.b}, q.j := {q.t}, q.b := {q.t}, q.t := {q.h}]
  }

  function Preds0(q: Four): map<Block, set<Block>> {
    map[q.h := {q.t}, q.j := {q.h}, q.b := {q.h}, q.t := {q.j, q.b}]
  }

  function SuccsMap0(q: Four): map<Block, map<int, Block>> {
    map[q.h := map[0x1004 := q.j, 0x1008 := q.b], q.j := map[0x1010 := q.t], q.b := map[0x1010 := q.t],
        q.t := map[0x1000 := q.h]]
  }

  function Links0(q: Four): Links {
    Links(Succs0(q), Preds0(q), SuccsMap0(q))
  }

  function Counts0(q: Four): Counts {
    Counts(map x | x in All0(q) :: multiset{}, map x | x in All0(q) :: 0)
  }

  function Regions0(q: Four): Regions {
    Regions(map x | x in All0(q) :: [], map x | x in All0(q) :: map[], map x | x in All0(q) :: {},
            map x | x in All0(q) :: {})
  }

  function BbMap0(q: Four): map<int, Block> {
    map[0x1000 := q.h, 0x1004 := q.j, 0x1008 := q.b, 0x1010 := q.t]
  }

  function InsMap0(q: Four): map<int, Block> {
    map[0x1000 := q.h, 0x1004 := q.j, 0x1008 := q.b, 0x100c := q.b, 0x1010 := q.t]
  }

  /** A block of one instruction that transfers control. */
  lemma OneInsn(e: int, w: int)
    requires StaleCode(e) == w && 0 <= e < WORD && Normal(w) && Transfers(w)
    ensures Laid(StaleCode, e, [(w, e)]) && Sized(e, [(w, e)], e)
  {
    hide Normal, Transfers, StaleCode;
    assert AddrOf(e, 0) == e;
  }

  lemma TwoInsns(e: int, w: int, w': int)
    requires StaleCode(e) == w && StaleCode(e + 4) == w' && 0 <= e < WORD - 4
    requires Normal(w) && !Transfers(w) && Normal(w')
    ensures Laid(StaleCode, e, [(w, e), (w', e + 4)]) && Sized(e, [(w, e), (w', e + 4)], e + 4)
  {
    hide Normal, Transfers, StaleCode;
    assert AddrOf(e, 0) == e && AddrOf(e, 1) == e + 4;
  }

  lemma WordKinds()
    ensures Normal(0x3_0463) && Transfers(0x3_0463) && Normal(0x2_8067) && Transfers(0x2_8067)
    ensures Normal(0x10_0093) && !Transfers(0x10_0093) && Normal(0x3_8463) && Transfers(0x3_8463)
    ensures Normal(0xff1f_f06f) && Transfers(0xff1f_f06f)
  {
    Decoded();
    hide Decode;
  }

  lemma CodeFine(q: Four)
    requires Apart(q)
    ensures CodeOk(StaleCode, Entries0(q), Insns0(q), Terms0(q), All0(q))
  {
    CodeIs();
    WordKinds();
    hide Laid, Sized, Growing, StaleCode, Normal, Transfers;
    OneInsn(0x1000, 0x3_0463);
    OneInsn(0x1004, 0x2_8067);
    TwoInsns(0x1008, 0x10_0093, 0x3_8463);
    OneInsn(0x1010, 0xff1f_f06f);
  }

  lemma SuccsOf(q: Four)
    requires Apart(q)
    ensures forall x, y :: Edge(Succs0(q), x, y) <==>
      (x == q.h && (y == q.j || y == q.b)) || ((x == q.j || x == q.b) && y == q.t) || (x == q.t && y == q.h)
  {
  }

  lemma PredsOf(q: Four)
    requires Apart(q)
    ensures forall x, y :: Edge(Preds0(q), y, x) <==>
      (x == q.h && (y == q.j || y == q.b)) || ((x == q.j || x == q.b) && y == q.t) || (x == q.t && y == q.h)
  {
  }

  lemma FindsOf(q: Four)
    requires Apart(q)
    ensures forall x, a, y :: Finds(SuccsMap0(q), x, a, y) <==>
      (x == q.h && ((a == 0x1004 && y == q.j) || (a == 0x1008 && y == q.b)))
      || ((x == q.j || x == q.b) && a == 0x1010 && y == q.t) || (x == q.t && a == 0x1000 && y == q.h)
  {
  }

  lemma EntriesOf(q: Four)
    requires Apart(q)
    ensures Entry(Entries0(q), q.h) == 0x1000 && Entry(Entries0(q), q.j) == 0x1004
    ensures Entry(Entries0(q), q.b) == 0x1008 && Entry(Entries0(q), q.t) == 0x1010
    ensures forall x :: x in Entries0(q) <==> x in All0(q)
    ensures Dom(Entries0(q), Succs0(q)) && Dom(Entries0(q), Preds0(q)) && Dom(Entries0(q), SuccsMap0(q))
    ensures Dom(Entries0(q), Insns0(q)) && Dom(Entries0(q), Terms0(q))
  {
  }

  lemma EdgesFine(q: Four)
    requires Apart(q)
    ensures EdgesOk(Entries0(q), Succs0(q), Preds0(q), SuccsMap0(q))
  {
    SuccsOf(q);
    PredsOf(q);
    FindsOf(q);
    EntriesOf(q);
    hide Edge, Finds, Entry, Succs0, Preds0, SuccsMap0, Entries0, Dom;
  }

  lemma FlowFine(q: Four)
    requires Apart(q)
    ensures FlowOk(Entries0(q), Insns0(q), All0(q), Succs0(q))
  {
    Decoded();
    hide Decode;
  }

  lemma ContainsOf(q: Four)
    requires Apart(q)
    ensures forall x, a :: Contains(Code(Insns0(q), x), a) <==>
      (x == q.h && a == 0x1000) || (x == q.j && a == 0x1004) || (x == q.b && (a == 0x1008 || a == 0x100c))
      || (x == q.t && a == 0x1010)
  {
    forall x, a
      ensures Contains(Code(Insns0(q), x), a) <==>
        (x == q.h && a == 0x1000) || (x == q.j && a == 0x1004) || (x == q.b && (a == 0x1008 || a == 0x100c))
        || (x == q.t && a == 0x1010)
    {
      var v := Code(Insns0(q), x);
      assert |v| > 0 && v[0].1 == a ==> Contains(v, a);
      assert |v| > 1 && v[1].1 == a ==> Contains(v, a);
    }
  }

  lemma IndexFine(q: Four)
    requires Apart(q)
    ensures IndexOk(Entries0(q), Insns0(q), BbMap0(q), InsMap0(q))
  {
    ContainsOf(q);
    EntriesOf(q);
    hide Contains, Code, Entry, Entries0, Insns0, Dom;
  }

  lemma FlagsFine(q: Four)
    requires Apart(q)
    ensures FlagsOk(Insns0(q), All0(q), Flags0(q))
  {
    Decoded();
    hide Decode;
  }

  lemma RegionsFine(q: Four, key: seq<Block> -> int)
    requires Apart(q)
    ensures RegionsOk(Entries0(q), Succs0(q), Regions0(q).bbRegions, Regions0(q).compiled, Regions0(q).cfgInRegions)
    ensures SolidOk(All0(q), Regions0(q).cfgInRegions) && KeysOk(key, Regions0(q))
    ensures CountsOk(Entries0(q), Counts0(q).edgeCnts, Counts0(q).totalEdges)
  {
  }

  lemma StoreFine(q: Four, key: seq<Block> -> int)
    requires Apart(q)
    ensures StoreOk(StaleCode, Listing0(q), Links0(q), Counts0(q), Regions0(q), BbMap0(q), InsMap0(q))
    ensures KeysOk(key, Regions0(q))
  {
    CodeFine(q);
    EdgesFine(q);
    FlowFine(q);
    IndexFine(q);
    FlagsFine(q);
    RegionsFine(q, key);
    hide CodeOk, EdgesOk, FlowOk, IndexOk, FlagsOk, RegionsOk, SolidOk, CountsOk, KeysOk;
  }

  // ---------- the region ----------

  /** The trace. */
  function Trace(q: Four): seq<Block> {
    [q.h, q.j, q.t]
  }

  lemma TraceIsWalk(q: Four)
    requires Apart(q)
    ensures ClosedWalk(Succs0(q), q.h, Trace(q)) && Union([Trace(q)]) == {q.h, q.j, q.t}
  {
    SuccsOf(q);
    hide Edge, Succs0;
    var traces := [Trace(q)];
    forall x
      ensures x in Union(traces) <==> x in {q.h, q.j, q.t}
    {
      assert x in Union(traces) <==> x in traces[0];
      assert traces[0][0] == q.h && traces[0][1] == q.j && traces[0][2] == q.t;
    }
  }

  lemma FlagsOf0(q: Four)
    requires Apart(q)
    ensures FlagsAt(Flags0(q), q.h) == NOFLAGS && FlagsAt(Flags0(q), q.b) == NOFLAGS
    ensures !Passes(FlagsAt(Flags0(q), q.j))
  {
  }

  /** The only routes from h to t lead over b, and the search finds one. */
  lemma TakesInB(q: Four, all: set<Block>)
    requires Apart(q) && Augmented(HeadAug, Succs0(q), Flags0(q), q.h, {q.h, q.j, q.t}, all)
    ensures all == All0(q)
  {
    hide Augmented, OnRoute, Flags0, Rooted;
    AugmentedParts(HeadAug, Succs0(q), Flags0(q), q.h, {q.h, q.j, q.t}, all);
    assert Succs0(q).Keys == All0(q);
    RouteInside(q, all);
    RouteOverB(q, all);
  }

  lemma RouteInside(q: Four, all: set<Block>)
    requires Apart(q) && Augmented(HeadAug, Succs0(q), Flags0(q), q.h, {q.h, q.j, q.t}, all)
    ensures OnRoute(Succs0(q), Flags0(q), q.h, q.t, all, q.h, MAXDEPTH)
  {
    OpenToT(q);
    FewBlocks(q);
    hide OnRoute, Gathered, Open, Flags0, Succs0;
    assert Pair(HeadAug, q.h, {q.h, q.j, q.t}, {q.h, q.j, q.t}, q.h, q.t);
    assert Covered(Succs0(q), Flags0(q), all, q.h, q.t);
  }

  lemma FewBlocks(q: Four)
    requires Apart(q)
    ensures |Succs0(q)| <= MAXDEPTH
  {
    assert Succs0(q).Keys == All0(q) && |Succs0(q).Keys| == |Succs0(q)|;
    assert |All0(q)| <= 4;
  }

  lemma OpenToT(q: Four)
    requires Apart(q)
    ensures Open(Succs0(q), Flags0(q), q.h, q.t)
  {
    SuccsOf(q);
    FlagsOf0(q);
    hide Edge, Succs0, Flags0, FlagsAt;
    OverOne(Succs0(q), Flags0(q), q.h, q.b, q.t);
  }

  lemma OverOne(succs: map<Block, set<Block>>, flags: map<Block, Flags>, u: Block, x: Block, v: Block)
    requires Edge(succs, u, x) && Edge(succs, x, v) && Goes(succs, flags, v, {}, u) && Goes(succs, flags, v, {}, x)
    ensures Open(succs, flags, u, v)
  {
    hide Edge, Goes;
    assert OpenRoute(succs, flags, u, v, [u, x, v]);
  }

  lemma RouteOverB(q: Four, all: set<Block>)
    requires Apart(q) && OnRoute(Succs0(q), Flags0(q), q.h, q.t, all, q.h, MAXDEPTH)
    ensures q.b in all
  {
    SuccsOf(q);
    FlagsOf0(q);
    hide Edge, Succs0, Flags0, FlagsAt, Passes;
    var p :| Route(Succs0(q), Flags0(q), q.h, q.t, p) && q.h in p && Within(p, all) && |p| <= MAXDEPTH + 1;
    assert Hop(Succs0(q), Flags0(q), p[0], p[1]);
    assert Edge(Succs0(q), q.h, p[1]);
    if |p| > 2 {
      assert Hop(Succs0(q), Flags0(q), p[1], p[2]);
    }
    assert p[1] != q.j && p[1] in p;
  }

  lemma Translates(q: Four)
    requires Apart(q)
    ensures RegionBuilder.AllTranslatable(Listing0(q), All0(q))
  {
    Decoded();
    hide Decode;
  }

  // ---------- the run ----------

  /** What is known of the code: it is a translation of the region of the four blocks. */
  ghost predicate IsCode(q: Four, entry: Block, c: Compiled) {
    && entry !in All0(q) && Translator.IsCompiled(Listing0(q), Links0(q), q.h, entry, All0(q), c.R, c.T)
  }

  lemma RegionAt(q: Four, entry: Block, c: Compiled)
    requires Apart(q) && IsCode(q, entry, c)
    ensures RegionBlocks(c.R) == All0(q) && CodeGen.SuccAt(c.R, q.h, 0x1008, q.b)
    ensures CodeGen.Addr(c.R, q.h) == 0x1000 && CodeGen.Addr(c.R, q.j) == 0x1004
    ensures CodeGen.Addr(c.R, q.b) == 0x1008 && CodeGen.Addr(c.R, q.t) == 0x1010
    ensures |CodeGen.Insns(c.R, q.h)| == 1 && |CodeGen.Insns(c.R, q.j)| == 1 && |CodeGen.Insns(c.R, q.t)| == 1
    ensures |CodeGen.Insns(c.R, q.b)| == 2
  {
    hide SsaForm.WellFormedRegion, SsaForm.FallsInside, Meaning.PreservesMeaning, CodeGen.Insns, CodeGen.Addr, Decode;
    EntriesOf(q);
    SuccsOf(q);
    assert RegionBuilder.Inner(All0(q), Succs0(q), q.h, q.h, q.b);
    assert RegionBuilder.Arc(c.R.g, q.h, q.b);
    hide Edge, Succs0, Entries0, Entry;
    assert c.R.g.nodes == All0(q) + {entry};
    forall x | x in All0(q)
      ensures |CodeGen.Insns(c.R, x)| == |Code(Insns0(q), x)|
    {
      assert RegionBuilder.IsDecoded(Code(Insns0(q), x), CodeGen.Insns(c.R, x));
    }
  }

  /** The last instruction of each block. */
  lemma LastAddrs(q: Four, entry: Block, c: Compiled)
    requires Apart(q) && IsCode(q, entry, c)
    ensures forall x :: x in All0(q) ==>
      CodeGen.InsnAddr(c.R, x, |CodeGen.Insns(c.R, x)| - 1) == Entry(Terms0(q), x)
  {
    hide SsaForm.WellFormedRegion, SsaForm.FallsInside, Meaning.PreservesMeaning, CodeGen.Insns, CodeGen.Addr,
         RegionBuilder.IsRegionGraph, RegionBuilder.Mirrors;
    RegionAt(q, entry, c);
  }

  /** Where the guest is after k steps. */
  function PcAfter(k: nat): int {
    if k == 0 then 0x1000 else if k == 1 then 0x1008 else if k == 2 then 0x100c else 0x1014
  }

  lemma IsThere(k: nat)
    ensures InterpretN(Here(0x1000, 0, 0), k).Some? && InterpretN(Here(0x1000, 0, 0), k).value.pc == PcAfter(k)
  {
    hide InterpretN;
    Runs(k);
  }

  /** Of the last instructions of the blocks, only that of b is followed by a step to where the block has no
      successor. */
  lemma OnlyFromB(q: Four, R: CodeGen.Region, from: Block, n: nat)
    requires Apart(q) && from in All0(q) && n > 0 && PcAfter(n - 1) == Entry(Terms0(q), from)
    requires CodeGen.SuccAt(R, q.h, 0x1008, q.b) && Meaning.NoSuccAt(R, from, PcAfter(n))
    ensures from == q.b && PcAfter(n) == 0x1014
  {
    hide CodeGen.SuccAt;
  }

  /** The run leaves b for the address where no block starts. */
  lemma LeavesB(q: Four, entry: Block, c: Compiled, r: SsaRun.Config)
    requires Apart(q) && IsCode(q, entry, c) && Meaning.Faithful(c.R, Here(0x1000, 0, 0), r)
    requires (r.Running? ==> r.steps >= 3)
    ensures r.Exited? && r.from == q.b && r.state.pc == 0x1014
  {
    hide IsCode, Here, InterpretN, CodeGen.InsnAddr, CodeGen.Insns, CodeGen.Addr, CodeGen.SuccAt, Meaning.EndGoes,
         Meaning.NoSuccAt, ValidState, Terms0, Entry, PcAfter, RegionBlocks, All0;
    RegionAt(q, entry, c);
    RegionHas(c.R);
    IsThere(r.steps);
    if r.Running? {
      NotThere(q, c.R, r.to, r.steps);
    } else {
      IsThere(r.steps - 1);
      LastAddrs(q, entry, c);
      OnlyFromB(q, c.R, r.from, r.steps);
    }
  }

  lemma RegionHas(R: CodeGen.Region)
    ensures forall x :: x in RegionBlocks(R) <==> x in R.g.nodes && x != R.g.entry
  {
  }

  lemma NotThere(q: Four, R: CodeGen.Region, to: Block, n: nat)
    requires to in All0(q) && n >= 3
    requires CodeGen.Addr(R, q.h) == 0x1000 && CodeGen.Addr(R, q.j) == 0x1004
    requires CodeGen.Addr(R, q.b) == 0x1008 && CodeGen.Addr(R, q.t) == 0x1010
    ensures CodeGen.Addr(R, to) != PcAfter(n)
  {
    hide CodeGen.Addr;
  }

  lemma StartsAtH(q: Four, entry: Block, c: Compiled)
    requires Apart(q) && IsCode(q, entry, c)
    ensures Meaning.MayStart(c.R, Here(0x1000, 0, 0))
  {
    hide SsaForm.WellFormedRegion, SsaForm.FallsInside, Meaning.PreservesMeaning, CodeGen.Insns, CodeGen.Addr,
         RegionBuilder.IsRegionGraph;
    RegionAt(q, entry, c);
    hide RegionBuilder.Mirrors;
  }

  // ---------- the failure ----------

  /** The machine at h with the four blocks, nothing recorded and nothing compiled. */
  ghost predicate Ready(m: Machine, q: Four)
    reads m, m.bs, m.bs.finder
  {
    && m.bs.Valid() && m.bs.code == StaleCode && m.aug == HeadAug && m.cBB == q.h && m.s == Here(0x1000, 0, 0)
    && m.bs.listing == Listing0(q) && m.bs.links == Links0(q) && m.bs.regions == Regions0(q)
    && m.bs.bbMap == BbMap0(q) && m.bs.insMap == InsMap0(q)
  }

  method Build(q: Four, lgNumEntries: nat, hotThresh: int, enoughRegions: int, key: seq<Block> -> int)
    returns (m: Machine)
    requires Apart(q)
    ensures fresh(m) && fresh(m.bs) && fresh(m.bs.finder) && Ready(m, q)
  {
    hide StoreOk, KeysOk, Apart, Here, Listing0, Links0, Counts0, Regions0, BbMap0, InsMap0, AtBlock, CplrOk, Idle;
    PcIs();
    var finder := new RegionFinder(lgNumEntries, hotThresh);
    m := new Machine(StaleCode, finder, key, enoughRegions, HeadAug, Here(0x1000, 0, 0), q.h);
    m.bs.listing, m.bs.links, m.bs.counts := Listing0(q), Links0(q), Counts0(q);
    m.bs.regions, m.bs.bbMap, m.bs.insMap := Regions0(q), BbMap0(q), InsMap0(q);
    StoreFine(q, key);
  }

  lemma PcIs()
    ensures Here(0x1000, 0, 0).pc == 0x1000 && !Here(0x1000, 0, 0).brk
  {
  }

  lemma NothingRecorded(q: Four, key: seq<Block> -> int, aug: CfgAug, known: set<int>, cfgCplr: map<Block, Compiled>)
    ensures q.h in Regions0(q).bbRegions && Regions0(q).bbRegions[q.h] == []
    ensures WithTrace(key, [], Trace(q)) == [Trace(q)]
    ensures forall x, k :: !Edge(Regions0(q).cfgInRegions, x, k)
    ensures CplrOk(StaleCode, aug, known, Listing0(q), Regions0(q).compiled, cfgCplr)
  {
    NoKeys(key);
    hide Fits;
  }

  /** The trace is recorded, and its region compiled: augmentation adds b. */
  method CompileStale(m: Machine, q: Four, entry: Block)
    requires Apart(q) && Ready(m, q) && entry !in All0(q)
    modifies m.bs`regions, m`cfgCplr
    ensures m.bs.Valid() && CplrOk(StaleCode, HeadAug, m.bs.insMap.Keys, Listing0(q), m.bs.regions.compiled, m.cfgCplr)
    ensures q.h in m.cfgCplr && IsCode(q, entry, m.cfgCplr[q.h])
    ensures q.h in m.bs.regions.compiled && m.bs.regions.compiled[q.h] == {q.h, q.j, q.t}
    ensures forall k :: !Edge(m.bs.regions.cfgInRegions, q.b, k)
  {
    hide StoreOk, KeysOk, Here, Links0, Regions0, BbMap0, InsMap0, CplrOk, Edge, Augmented, Union, HasCode, ClosedWalk,
         RegionBuilder.AllTranslatable, Translator.IsCompiled, Taught, WithTrace, Entries0, Insns0, Terms0, Flags0;
    NothingRecorded(q, m.bs.key, HeadAug, m.bs.insMap.Keys, m.cfgCplr);
    StoreParts(q);
    TraceIsWalk(q);
    ghost var inRegions := m.bs.regions.cfgInRegions;
    m.bs.AddRegion(q.h, Trace(q));
    TaughtAll(inRegions, q.h, Trace(q), m.bs.regions.cfgInRegions);
    assert TracesOf(m.bs.regions, q.h) == [Trace(q)];
    var died;
    ghost var all;
    died, all := m.CompileRegion(entry);
    TakesInB(q, all);
    Translates(q);
    CodeOfRegion(q, entry, m.cfgCplr);
  }

  lemma StoreParts(q: Four)
    ensures q.h in Listing0(q).entryAddr && AllReadOnly(Listing0(q)) && Links0(q).succs == Succs0(q)
    ensures Listing0(q).flags == Flags0(q) && Listing0(q).entryAddr.Keys == All0(q) && Listing0(q).readOnly == All0(q)
  {
  }

  lemma CodeOfRegion(q: Four, entry: Block, cfgCplr: map<Block, Compiled>)
    requires HasCode(Listing0(q), Links0(q), q.h, entry, All0(q), cfgCplr) && entry !in All0(q)
    ensures q.h in cfgCplr && IsCode(q, entry, cfgCplr[q.h])
  {
    hide Translator.IsCompiled;
  }

  /** What holds after b has been split: the code of h is still there, and b is not the block that it was made from. */
  ghost predicate Stale(m: Machine, q: Four, c: Compiled)
    reads m, m.bs, m.bs.finder
  {
    && m.bs.Valid() && CplrOk(StaleCode, HeadAug, m.bs.insMap.Keys, m.bs.listing, m.bs.regions.compiled, m.cfgCplr)
    && q.h in m.cfgCplr && m.cfgCplr[q.h] == c && q.h in m.bs.regions.compiled && m.bs.regions.compiled[q.h] != {}
    && CutSince(m.bs.listing, c.R, q.b) && AtBlock(m.bs.listing, q.h, 0x1000) && q.h in m.bs.listing.readOnly
  }

  /** b is split before its branch. */
  method SplitStale(m: Machine, q: Four, entry: Block, n: Block)
    requires Apart(q) && n !in All0(q) && m.bs.Valid() && m.bs.code == StaleCode
    requires m.bs.listing == Listing0(q) && m.bs.bbMap == BbMap0(q)
    requires CplrOk(StaleCode, HeadAug, m.bs.insMap.Keys, Listing0(q), m.bs.regions.compiled, m.cfgCplr)
    requires q.h in m.cfgCplr && IsCode(q, entry, m.cfgCplr[q.h])
    requires q.h in m.bs.regions.compiled && m.bs.regions.compiled[q.h] == {q.h, q.j, q.t}
    requires forall k :: !Edge(m.bs.regions.cfgInRegions, q.b, k)
    modifies m.bs, m.bs.finder
    ensures Stale(m, q, m.cfgCplr[q.h]) && 0x1014 !in m.bs.bbMap
    ensures forall x :: x in m.bs.listing.entryAddr ==> x in All0(q) || x == n
  {
    hide StoreOk, KeysOk, CplrOk, Edge, IsCode, Listing0, SplitAt, Dropped, Without, Fits, CutSince, Grown, CodeKept,
         AtBlock, EndsInTransfer, Contains, AllEnded, EntriesKept, Code, Entry;
    BeforeSplit(q);
    ghost var L, E, C, G := m.bs.listing, m.bs.links, m.bs.counts, m.bs.regions;
    ghost var bbMap, insMap := m.bs.bbMap, m.bs.insMap;
    FitsNow(StaleCode, insMap.Keys, L, G.compiled, m.cfgCplr, q.h);
    InTheRegion(q, entry, m.cfgCplr[q.h]);
    m.bs.Split(q.b, 0x100c, n);
    SplitResult(L, E, C, bbMap, q.b, 0x100c, n, m.bs.listing, m.bs.links, m.bs.counts, m.bs.bbMap);
    SplitKeepsCompiled(StaleCode, L, E, C, G, bbMap, insMap, q.b, 0x100c, n, m.bs.listing, m.bs.links, m.bs.counts,
      m.bs.regions);
    StaleRegion(StaleCode, HeadAug, insMap.Keys, L, E, C, G, q.h, m.cfgCplr[q.h], q.b, 0x100c, n, m.bs.listing,
      m.bs.links, m.bs.counts, m.bs.regions);
    StillCompiled(m.bs.regions.compiled, q);
    CplrKept(StaleCode, HeadAug, insMap.Keys, L, G, bbMap, m.cfgCplr, m.bs.insMap.Keys, m.bs.listing, m.bs.regions,
      m.bs.bbMap);
    AtHead(q, L, m.bs.listing, n);
  }

  lemma BeforeSplit(q: Four)
    requires Apart(q)
    ensures q.b in Listing0(q).entryAddr && Contains(Code(Listing0(q).vecIns, q.b), 0x100c)
    ensures q.b in Listing0(q).readOnly
    ensures 0x100c !in BbMap0(q) && 0x1014 !in BbMap0(q) && AllEnded(Listing0(q))
    ensures forall x :: x in Listing0(q).entryAddr <==> x in All0(q)
    ensures Listing0(q).readOnly == All0(q) && q.h != q.b && Entry(Listing0(q).entryAddr, q.h) == 0x1000
    ensures q.h in All0(q) && q.b in All0(q)
  {
    ContainsOf(q);
    hide Contains;
  }

  lemma FitsNow(code: int -> int, known: set<int>, L: Listing, compiled: map<Block, set<Block>>,
                cfgCplr: map<Block, Compiled>, h: Block)
    requires CplrOk(code, HeadAug, known, L, compiled, cfgCplr) && h in compiled && compiled[h] != {}
    ensures h in cfgCplr && Fits(code, HeadAug, known, L, h, compiled[h], cfgCplr[h])
  {
    hide Fits;
  }

  lemma InTheRegion(q: Four, entry: Block, c: Compiled)
    requires Apart(q) && IsCode(q, entry, c)
    ensures q.b in RegionBlocks(c.R)
  {
    RegionAt(q, entry, c);
    hide IsCode;
  }

  lemma StillCompiled(compiled: map<Block, set<Block>>, q: Four)
    requires forall x :: Edge(compiled, q.h, x) <==> x in {q.h, q.j, q.t}
    ensures q.h in compiled && compiled[q.h] != {}
  {
    assert Edge(compiled, q.h, q.h);
  }

  lemma AtHead(q: Four, L: Listing, L': Listing, n: Block)
    requires L.readOnly == All0(q) && (forall x :: x in L.entryAddr <==> x in All0(q)) && q.h != q.b && q.h != n
    requires Entry(L.entryAddr, q.h) == 0x1000 && EntriesKept(L.entryAddr, L'.entryAddr)
    requires n in L'.readOnly && q.b in L'.readOnly
    requires forall x :: x in L'.entryAddr ==> x in L.entryAddr || x == n
    requires forall x :: x != q.b && x != n ==> (x in L'.readOnly <==> x in L.readOnly)
    ensures AtBlock(L', q.h, 0x1000) && q.h in L'.readOnly
  {
    hide Entry;
    assert q.h in L.entryAddr;
  }

  /** executeJIT on h dies: the four blocks keep the invariant of the store, the region is compiled and b split by the
      program's own operations, the guest is tame, and none of its instructions is without translation. */
  method DiesAtLink(q: Four, n: Block, entry: Block, spare: Block, lgNumEntries: nat, hotThresh: int,
                    enoughRegions: int, key: seq<Block> -> int, fuel: nat)
    returns (o: Outcome)
    requires Apart(q) && n !in All0(q) && entry !in All0(q) && spare !in All0(q) && spare != n && fuel >= 3
    ensures o.DiedAtLink?
  {
    hide StoreOk, KeysOk, CplrOk, Edge, IsCode, Listing0, Fits, CutSince, AtBlock, Tame, Sane, Here, Apart, All0,
         BbMap0,
         Entry, Regions0, Links0, InsMap0, StillInside, InterpretN, SsaRun.RunBlocks;
    var m := Build(q, lgNumEntries, hotThresh, enoughRegions, key);
    CompileStale(m, q, entry);
    ghost var c := m.cfgCplr[q.h];
    SplitStale(m, q, entry, n);
    PcIs();
    StaleTame(m.bs.insMap.Keys);
    ghost var L, bbMap := m.bs.listing, m.bs.bbMap;
    ghost var r := SsaRun.RunBlocks(c.R, c.T, Here(0x1000, 0, 0), fuel);
    RunIsFaithful(q, entry, c, m.bs.insMap.Keys, L, m.bs.regions.compiled, m.cfgCplr, fuel);
    LeavesB(q, entry, c, r);
    var nBB;
    ghost var k;
    o, nBB, k := m.RunCompiled(spare, fuel);
  }

  lemma RunIsFaithful(q: Four, entry: Block, c: Compiled, known: set<int>, L: Listing, compiled: map<Block, set<Block>>,
                      cfgCplr: map<Block, Compiled>, fuel: nat)
    requires Apart(q) && IsCode(q, entry, c) && CplrOk(StaleCode, HeadAug, known, L, compiled, cfgCplr)
    requires q.h in cfgCplr && cfgCplr[q.h] == c && q.h in compiled && compiled[q.h] != {} && fuel >= 3
    ensures var r := SsaRun.RunBlocks(c.R, c.T, Here(0x1000, 0, 0), fuel);
            Meaning.Faithful(c.R, Here(0x1000, 0, 0), r) && (r.Running? ==> r.steps >= 3)
  {
    StaleTame(known);
    StartsAtH(q, entry, c);
    FitsNow(StaleCode, known, L, compiled, cfgCplr, q.h);
    var s := Here(0x1000, 0, 0);
    TameGuarded(StaleCode, HeadAug, known, L, q.h, compiled[q.h], c, s, SsaRun.RunBlocks(c.R, c.T, s, fuel).steps);
    hide Here, Tame, Fits, CplrOk, SsaRun.RunBlocks, Refinement.Guarded, Meaning.MayStart, Meaning.Faithful,
         SsaForm.WellFormedRegion, SsaForm.FallsInside, RegionBuilder.IsRegionGraph, RegionBuilder.Mirrors;
  }
}
