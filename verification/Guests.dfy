/** Three guests and two words: the conditions of the main results can be met, and where they are needed. */
module Guests {
  import opened Rv32
  import opened BlockStores
  import opened CompiledCode
  import opened PlainMode
  import opened Dispatcher
  import opened Graphs
  import opened Simulator
  import opened Augmentation
  import SsaForm
  import Refinement

  // ---------- words in memory, and steps ----------

  /** The four bytes of a word make it up. */
  lemma WordAt(m: map<int, int>, a: int, w: int)
    requires a in m && a + 1 in m && a + 2 in m && a + 3 in m && 0 <= w < WORD
    requires m[a] == w % 256 && m[a + 1] == w / 256 % 256
    requires m[a + 2] == w / 256 / 256 % 256 && m[a + 3] == w / 256 / 256 / 256 % 256
    ensures ReadN(m, a, 4) == w
  {
    var w1 := w / 256;
    var w2 := w1 / 256;
    var w3 := w2 / 256;
    assert w3 < 256 && w2 == 256 * w3 + w2 % 256 && w1 == 256 * w2 + w1 % 256 && w == 256 * w1 + w % 256;
    ReadOn(m, a + 3, 0, w3, 0);
    ReadOn(m, a + 2, 1, w2, w3);
    ReadOn(m, a + 1, 2, w1, w2);
    ReadOn(m, a, 3, w, w1);
  }

  lemma ReadOn(m: map<int, int>, a: int, n: nat, w: int, rest: int)
    requires a in m && m[a] == w % 256 && ReadN(m, a + 1, n) == rest && w == 256 * rest + w % 256
    ensures ReadN(m, a, n + 1) == w
  {
  }

  /** One step of the interpreter, its instruction being known. */
  lemma ExecStep(s: State, i: Insn, t: State)
    requires Fetch(s) == Some(i) && Exec(i, s) == Some(t)
    ensures Interpret(s) == Some(t.(icnt := (s.icnt + 1) % DWORD))
  {
    hide Fetch, Exec;
  }

  // ---------- a guest that does not stop ----------

  /** A guest that jumps to its own address: the conditions on guests can be met. */
  function Spinning(icnt: int): State {
    State(0, seq(32, i => 0), map[0 := 0x6f, 1 := 0, 2 := 0, 3 := 0], icnt, false)
  }

  lemma SpinFetch(icnt: int)
    ensures Fetch(Spinning(icnt)) == Some(Jal(0, 0)) && ReadN(Spinning(icnt).mem, 0, 4) == 0x6f
  {
    SpinDecodes();
    WordAt(Spinning(icnt).mem, 0, 0x6f);
    hide Decode, ReadN;
  }

  lemma SpinStep(icnt: int)
    ensures Fetch(Spinning(icnt)) == Some(Jal(0, 0)) && ReadN(Spinning(icnt).mem, 0, 4) == 0x6f
    ensures Interpret(Spinning(icnt)) == Some(Spinning((icnt + 1) % DWORD))
  {
    SpinFetch(icnt);
    hide Fetch, ReadN, Interpret;
    ExecStep(Spinning(icnt), Jal(0, 0), Spinning(icnt));
  }

  lemma SpinDecodes()
    ensures Decode(0x6f) == Some(Jal(0, 0))
  {
    assert Pow2(0) == 1 && Pow2(1) == 2 && Pow2(5) == 32 && Pow2(7) == 128;
    assert Pow2(8) == 256 by { assert Pow2(6) == 64; }
    assert Pow2(10) == 1024;
    assert Pow2(12) == 4096;
    assert Pow2(20) == 0x10_0000 by { assert Pow2(14) == 0x4000 && Pow2(16) == 0x1_0000 && Pow2(18) == 0x4_0000; }
    assert Pow2(21) == 0x20_0000 && Pow2(31) == 0x8000_0000 by {
      assert Pow2(22) == 0x40_0000 && Pow2(24) == 0x100_0000 && Pow2(26) == 0x400_0000 && Pow2(28) == 0x1000_0000
        && Pow2(30) == 0x4000_0000;
    }
    hide Pow2;
    assert Field(0x6f, 0, 7) == 0x6f && Field(0x6f, 7, 5) == 0;
    assert JImm(0x6f) == 0;
  }

  lemma {:induction false} SpinRuns(n: nat)
    ensures InterpretN(Spinning(0), n).Some? && exists c :: InterpretN(Spinning(0), n).value == Spinning(c)
  {
    hide Interpret, Spinning;
    if n > 0 {
      SpinRuns(n - 1);
      var c :| InterpretN(Spinning(0), n - 1).value == Spinning(c);
      SpinStep(c);
    }
  }

  lemma SpinIsTame()
    ensures Tame(_ => 0x6f, {}, Spinning(0)) && Sane(Spinning(0)) && !Spinning(0).brk
  {
    var code: int -> int := _ => 0x6f;
    forall j: nat | InterpretN(Spinning(0), j).Some?
      ensures TameStep(code, InterpretN(Spinning(0), j).value) && Refinement.LinkStep(InterpretN(Spinning(0), j).value)
    {
      SpinRuns(j);
      var c :| InterpretN(Spinning(0), j).value == Spinning(c);
      SpinStep(c);
      hide Interpret, Fetch, ReadN, InterpretN;
    }
    AlwaysTame(code, {}, Spinning(0));
    hide Tame, Interpret, InterpretN;
  }

  /** The plain loop does not survive its first instruction. */
  lemma SpinThrows(maxIcnt: int)
    requires 0 < maxIcnt < DWORD
    ensures PlainN(Spinning(0), 1).None? && InterpretN(Spinning(0), 1).Some?
    ensures PlainRun(Spinning(0), maxIcnt, Threw, 0, Spinning(1))
  {
    SpinStep(0);
    SpinTransfers();
    SpinStarts();
    hide Interpret, TransfersAt, Spinning, PlainN, InterpretN, PlainRun, Fetch, ReadN;
    ThrowsAtOnce(Spinning(0), maxIcnt, Spinning(1));
  }

  lemma SpinTransfers()
    ensures TransfersAt(Spinning(0))
  {
    SpinStep(0);
    hide Fetch;
  }

  lemma SpinStarts()
    ensures Spinning(0).icnt == 0 && !Spinning(0).brk
  {
  }

  // ---------- a guest that stops ----------

  /** addi x1, x0, 1 and ecall. */
  const TWO: map<int, int> := map[0 := 0x93, 1 := 0, 2 := 0x10, 3 := 0, 4 := 0x73, 5 := 0, 6 := 0, 7 := 0]

  function TwoCode(a: int): int {
    if a == 0 then 0x10_0093 else 0x73
  }

  function Starting(): State {
    State(0, seq(32, i => 0), TWO, 0, false)
  }

  function AtEcall(icnt: int, brk: bool): State {
    State(4, seq(32, i => if i == 1 then 1 else 0), TWO, icnt, brk)
  }

  lemma TwoDecode()
    ensures Decode(0x10_0093) == Some(AluImm(Add, 1, 0, 1)) && Decode(0x73) == Some(Monitor)
  {
    assert Pow2(0) == 1 && Pow2(3) == 8 && Pow2(5) == 32 && Pow2(7) == 128;
    assert Pow2(12) == 4096 by { assert Pow2(8) == 256 && Pow2(10) == 1024; }
    assert Pow2(15) == 0x8000 by { assert Pow2(14) == 0x4000; }
    assert Pow2(20) == 0x10_0000 by { assert Pow2(18) == 0x4_0000; }
    assert Pow2(11) == 2048 by { assert Pow2(10) == 1024; }
    assert Pow2(25) == 0x200_0000 by { assert Pow2(22) == 0x40_0000; }
    hide Pow2;
    assert Field(0x10_0093, 0, 7) == 0x13 && Field(0x10_0093, 7, 5) == 1 && Field(0x10_0093, 12, 3) == 0;
    assert Field(0x10_0093, 15, 5) == 0 && Field(0x10_0093, 20, 12) == 1;
    assert IImm(0x10_0093) == 1;
    assert Field(0x73, 0, 7) == 0x73 && Field(0x73, 7, 25) == 0;
  }

  lemma TwoWords()
    ensures ReadN(TWO, 0, 4) == 0x10_0093 && ReadN(TWO, 4, 4) == 0x73
  {
    assert ReadN(TWO, 4, 0) == 0 && ReadN(TWO, 3, 1) == 0 && ReadN(TWO, 2, 2) == 0x10 && ReadN(TWO, 1, 3) == 0x1000;
    assert ReadN(TWO, 8, 0) == 0 && ReadN(TWO, 7, 1) == 0 && ReadN(TWO, 6, 2) == 0 && ReadN(TWO, 5, 3) == 0;
  }

  lemma StartStep()
    ensures Fetch(Starting()) == Some(AluImm(Add, 1, 0, 1)) && Interpret(Starting()) == Some(AtEcall(1, false))
  {
    TwoWords();
    TwoDecode();
    hide Decode, ReadN;
    assert Starting().gpr[1 := 1] == AtEcall(1, false).gpr;
  }

  lemma EcallStep(icnt: int, brk: bool)
    ensures Fetch(AtEcall(icnt, brk)) == Some(Monitor)
    ensures Interpret(AtEcall(icnt, brk)) == Some(AtEcall((icnt + 1) % DWORD, true))
  {
    TwoWords();
    TwoDecode();
    hide Decode, ReadN;
  }

  lemma {:induction false} TwoRuns(n: nat)
    requires n > 0
    ensures InterpretN(Starting(), n).Some? && exists c, brk :: InterpretN(Starting(), n).value == AtEcall(c, brk)
    ensures n == 1 ==> InterpretN(Starting(), n) == Some(AtEcall(1, false))
    ensures n == 2 ==> InterpretN(Starting(), n) == Some(AtEcall(2, true))
  {
    hide Interpret, InterpretN, Fetch, Starting, AtEcall;
    NoSteps(Starting());
    StartStep();
    if n == 1 {
      NextOf(Starting(), 0);
    } else {
      TwoRuns(n - 1);
      NextOf(Starting(), n - 1);
      var c, brk :| InterpretN(Starting(), n - 1).value == AtEcall(c, brk);
      EcallStep(c, brk);
      EcallStep(1, false);
    }
  }

  /** It is tame, its second instruction stops it, and none of its instructions transfers control. */
  lemma TwoStops()
    ensures Tame(TwoCode, {}, Starting()) && Sane(Starting()) && !Starting().brk && Starting().icnt == 0
    ensures Halts(Starting(), 2) && StraightLine(Starting(), 2)
  {
    TwoRuns(1);
    TwoRuns(2);
    StartStep();
    EcallStep(1, false);
    TwoBrk();
    forall j: nat | InterpretN(Starting(), j).Some?
      ensures TameStep(TwoCode, InterpretN(Starting(), j).value) && Refinement.LinkStep(InterpretN(Starting(), j).value)
    {
      TwoTame(j);
    }
    AlwaysTame(TwoCode, {}, Starting());
    hide Interpret, InterpretN, Fetch, Starting, AtEcall, Tame;
    assert InterpretN(Starting(), 0) == Some(Starting()) by { NoSteps(Starting()); }
    forall j | 0 <= j < 2
      ensures InterpretN(Starting(), j).Some? && !InterpretN(Starting(), j).value.brk
      ensures !TransfersAt(InterpretN(Starting(), j).value)
    {
      assert j == 0 || j == 1;
    }
  }

  /** The translator stops it after two instructions, in every mode. */
  method RunTwo(lgNumEntries: nat, hotThresh: int, enoughRegions: int, key: seq<Block> -> int, aug: CfgAug,
                first: Block,
                spares: seq<Block>, fuel: nat)
    returns (s: State, o: Outcome)
    requires first !in spares && forall j, k :: 0 <= j < k < |spares| ==> spares[j] != spares[k]
    requires |spares| >= 2 && fuel >= 2
    ensures s == AtEcall(2, true)
  {
    hide Tame, Sane, Interpret, InterpretN, Starting, AtEcall, StillInside, HasNoTranslation, Halts, StraightLine,
         Jumped,
         TwoCode;
    TwoStops();
    TwoRuns(2);
    TwoTranslates();
    ghost var n;
    s, o, n := Simulate(TwoCode, lgNumEntries, hotThresh, enoughRegions, key, aug, Starting(), first, spares, fuel);
    assert StopsAt(2, s, n, o);
    if o.DiedAtLink? {
      NoJump(Starting(), n, 2);
    }
  }

  lemma NoJump(s: State, n: nat, m: nat)
    requires InterpretN(s, n).Some? && !InterpretN(s, n).value.brk && Halts(s, m) && StraightLine(s, m)
    ensures !Jumped(s, n)
  {
    hide InterpretN, TransfersAt;
    if m <= n {
      NotBefore(s, n, m);
      assert false;
    }
  }

  lemma TwoTranslates()
    ensures forall a :: !HasNoTranslation(TwoCode(a))
  {
    TwoDecode();
    hide Decode;
  }

  lemma TwoBrk()
    ensures !Starting().brk && Sane(Starting()) && Starting().icnt == 0 && AtEcall(2, true).brk
    ensures !AtEcall(1, false).brk
  {
  }

  lemma TwoTame(j: nat)
    requires InterpretN(Starting(), j).Some?
    ensures TameStep(TwoCode, InterpretN(Starting(), j).value) && Refinement.LinkStep(InterpretN(Starting(), j).value)
  {
    TwoWords();
    if j == 0 {
      StartStep();
      hide Interpret, Fetch, ReadN;
    } else {
      TwoRuns(j);
      var c, brk :| InterpretN(Starting(), j).value == AtEcall(c, brk);
      EcallStep(c, brk);
      hide Interpret, Fetch, ReadN, InterpretN;
    }
  }

  // ---------- a guest with a call that compiled code would get wrong ----------

  /** jalr x1, 4(x5), and ecall at 0x104. */
  const CALL: map<int, int> :=
    map[0 := 0xe7, 1 := 0x80, 2 := 0x42, 3 := 0, 0x104 := 0x73, 0x105 := 0, 0x106 := 0, 0x107 := 0]

  function CallCode(a: int): int {
    if a == 0 then 0x42_80e7 else 0x73
  }

  function Calling(): State {
    State(0, seq(32, i => if i == 5 then 0x100 else 0), CALL, 0, false)
  }

  function Called(icnt: int, brk: bool): State {
    State(0x104, seq(32, i => if i == 1 then 4 else if i == 5 then 0x100 else 0), CALL, icnt, brk)
  }

  lemma CallDecode()
    ensures Decode(0x42_80e7) == Some(Jalr(1, 5, 4)) && Decode(0x73) == Some(Monitor)
  {
    TwoDecode();
    assert Pow2(0) == 1 && Pow2(3) == 8 && Pow2(5) == 32 && Pow2(7) == 128;
    assert Pow2(12) == 4096 by { assert Pow2(8) == 256 && Pow2(10) == 1024; }
    assert Pow2(15) == 0x8000 by { assert Pow2(14) == 0x4000; }
    assert Pow2(20) == 0x10_0000 by { assert Pow2(18) == 0x4_0000; }
    assert Pow2(11) == 2048;
    hide Pow2;
    assert Field(0x42_80e7, 0, 7) == 0x67 && Field(0x42_80e7, 7, 5) == 1 && Field(0x42_80e7, 15, 5) == 5;
    assert Field(0x42_80e7, 20, 12) == 4;
    assert IImm(0x42_80e7) == 4;
  }

  lemma CallWords()
    ensures ReadN(CALL, 0, 4) == 0x42_80e7 && ReadN(CALL, 0x104, 4) == 0x73
  {
    assert ReadN(CALL, 4, 0) == 0 && ReadN(CALL, 3, 1) == 0 && ReadN(CALL, 2, 2) == 0x42 && ReadN(CALL, 1, 3) == 0x4280;
    assert ReadN(CALL, 0x108, 0) == 0 && ReadN(CALL, 0x107, 1) == 0 && ReadN(CALL, 0x106, 2) == 0;
    assert ReadN(CALL, 0x105, 3) == 0;
  }

  lemma CallStep()
    ensures Fetch(Calling()) == Some(Jalr(1, 5, 4)) && Interpret(Calling()) == Some(Called(1, false))
    ensures !Refinement.LinkStep(Calling()) && TameStep(CallCode, Calling())
  {
    CallWords();
    CallDecode();
    hide Decode, ReadN;
    assert Calling().gpr[1 := 4] == Called(1, false).gpr;
  }

  lemma CalledStep(icnt: int, brk: bool)
    ensures Fetch(Called(icnt, brk)) == Some(Monitor)
    ensures Interpret(Called(icnt, brk)) == Some(Called((icnt + 1) % DWORD, true))
    ensures Refinement.LinkStep(Called(icnt, brk)) && TameStep(CallCode, Called(icnt, brk))
  {
    CallWords();
    CallDecode();
    hide Decode, ReadN;
  }

  lemma {:induction false} CallRuns(n: nat)
    requires n > 0
    ensures InterpretN(Calling(), n).Some? && exists c, brk :: InterpretN(Calling(), n).value == Called(c, brk)
  {
    hide Interpret, InterpretN, Fetch, Calling, Called, TameStep, Refinement.LinkStep;
    NoSteps(Calling());
    CallStep();
    if n == 1 {
      NextOf(Calling(), 0);
    } else {
      CallRuns(n - 1);
      NextOf(Calling(), n - 1);
      var c, brk :| InterpretN(Calling(), n - 1).value == Called(c, brk);
      CalledStep(c, brk);
    }
  }

  /** A call that is executed once is not compiled: the guest is tame, though compiled code would go elsewhere. */
  lemma OneCallIsTame()
    ensures Tame(CallCode, {}, Calling()) && !Refinement.LinkStep(Calling())
  {
    CallStep();
    NoSteps(Calling());
    hide Interpret, InterpretN, Fetch, Calling, Called, TameStep, Refinement.LinkStep;
    forall j: nat | InterpretN(Calling(), j).Some?
      ensures TameStep(CallCode, InterpretN(Calling(), j).value)
      ensures j > 0 ==> Refinement.LinkStep(InterpretN(Calling(), j).value)
    {
      if j > 0 {
        CallRuns(j);
        var c, brk :| InterpretN(Calling(), j).value == Called(c, brk);
        CalledStep(c, brk);
      }
    }
  }

  // ---------- a word that writes x0 ----------

  /** csrrs x0, cycle, x0, after seven instructions. */
  function Counting(): State {
    State(0, seq(32, i => 0), map[0 := 0x73, 1 := 0x20, 2 := 0, 3 := 0xc0], 7, false)
  }

  lemma CycleFetch()
    ensures Fetch(Counting()) == Some(ReadCycle(0))
  {
    CycleDecode();
    WordAt(Counting().mem, 0, 0xc000_2073);
    hide Decode, ReadN;
  }

  /** x0 was zero, and holds the count. */
  lemma CycleIntoZero()
    ensures Decode(0xc000_2073) == Some(ReadCycle(0)) && Fetch(Counting()) == Some(ReadCycle(0))
    ensures Sane(Counting()) && Interpret(Counting()).Some? && Reg(Interpret(Counting()).value, 0) == 7
  {
    CycleDecode();
    CycleFetch();
    hide Fetch, Interpret, Decode;
    ExecStep(Counting(), ReadCycle(0), Counting().(pc := 4, gpr := Counting().gpr[0 := 7]));
  }

  lemma CycleDecode()
    ensures Decode(0xc000_2073) == Some(ReadCycle(0))
  {
    assert Pow2(0) == 1 && Pow2(2) == 4 && Pow2(5) == 32 && Pow2(7) == 128;
    assert Pow2(12) == 4096 by { assert Pow2(8) == 256 && Pow2(10) == 1024; }
    assert Pow2(20) == 0x10_0000 by { assert Pow2(14) == 0x4000 && Pow2(18) == 0x4_0000; }
    assert Pow2(25) == 0x200_0000 by { assert Pow2(22) == 0x40_0000; }
    hide Pow2;
    assert Field(0xc000_2073, 0, 7) == 0x73 && Field(0xc000_2073, 7, 5) == 0 && Field(0xc000_2073, 7, 25) != 0;
    assert Field(0xc000_2073, 12, 2) == 2 && Field(0xc000_2073, 20, 12) == 0xc00;
  }

  // ---------- words that the filter lets pass ----------

  /** A fence: canCompileInstr accepts it, and getInsn has no class for it. */
  lemma FenceKills()
    ensures CanCompileInstr(0x0f) && HasNoTranslation(0x0f) && Decode(0x0f) == Some(Fence) && !SsaForm.CanBind(Fence)
  {
    assert Pow2(0) == 1 && Pow2(7) == 128;
    hide Pow2;
    assert Field(0x0f, 0, 7) == 0x0f;
  }

  /** addi x0, x0, 0, the canonical no-op: it is accepted and has a class, and insertPhis asserts that nothing defines
      x0. */
  lemma NopKills()
    ensures CanCompileInstr(0x13) && HasNoTranslation(0x13)
    ensures Decode(0x13) == Some(AluImm(Add, 0, 0, 0)) && SsaForm.CanBind(AluImm(Add, 0, 0, 0))
    ensures Defines(AluImm(Add, 0, 0, 0)) == Some(0)
  {
    assert Pow2(0) == 1 && Pow2(3) == 8 && Pow2(5) == 32 && Pow2(7) == 128;
    assert Pow2(12) == 4096 by { assert Pow2(8) == 256 && Pow2(10) == 1024; }
    assert Pow2(15) == 0x8000 by { assert Pow2(14) == 0x4000; }
    assert Pow2(20) == 0x10_0000 by { assert Pow2(18) == 0x4_0000; }
    assert Pow2(11) == 2048;
    hide Pow2;
    assert Field(0x13, 0, 7) == 0x13 && Field(0x13, 7, 5) == 0 && Field(0x13, 12, 3) == 0 && Field(0x13, 15, 5) == 0;
    assert Field(0x13, 20, 12) == 0;
    assert IImm(0x13) == 0;
  }
}
