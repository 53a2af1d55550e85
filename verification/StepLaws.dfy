/** What one interpreter step does, from the bits of the word at the pc and in arithmetic of its own: nothing here is
    stated through the decoder or the helpers of the interpreter. */
module StepLaws {
  import opened Rv32
  import opened Encoding

  function ByteAt(m: map<int, int>, a: int): int {
    if a in m then m[a] % 0x100 else 0
  }

  function HalfAt(m: map<int, int>, a: int): int {
    ByteAt(m, a) + 0x100 * ByteAt(m, a + 1)
  }

  function WordAt(m: map<int, int>, a: int): int {
    HalfAt(m, a) + 0x1_0000 * HalfAt(m, a + 2)
  }

  /** The number that a word means in two's complement. */
  function Value(x: int): int {
    (x + 0x8000_0000) % 0x1_0000_0000 - 0x8000_0000
  }

  /** The state after an instruction that writes no register. */
  function Moved(s: State, next: int): State {
    s.(pc := next % 0x1_0000_0000, icnt := (s.icnt + 1) % 0x1_0000_0000_0000_0000)
  }

  /** A state with a register written, where register 0 stays as it is. */
  function Put(s: State, r: int, x: int): State
    requires 0 <= r < |s.gpr|
  {
    if r == 0 then s else s.(gpr := s.gpr[r := x % 0x1_0000_0000])
  }

  /** w is the word that s executes next. */
  predicate At(s: State, w: int) {
    w == WordAt(s.mem, s.pc)
  }

  lemma Fetched(s: State, w: int)
    requires At(s, w)
    ensures Fetch(s) == Decode(w) && 0 <= w < 0x1_0000_0000
  {
    ReadWord(s.mem, s.pc);
    hide Decode, ReadN;
  }

  /** A step is the effect of the instruction, counted. */
  lemma Steps(s: State, w: int)
    requires At(s, w)
    ensures Interpret(s) == if Decode(w) == None || Exec(Decode(w).value, s) == None then None
      else Some(Exec(Decode(w).value, s).value.(icnt := (s.icnt + 1) % 0x1_0000_0000_0000_0000))
  {
    Fetched(s, w);
    hide Decode, Fetch, Exec, At;
  }

  lemma Sum(a: int, d: int)
    ensures Wrap(a + d % 0x1_0000_0000) == (a + d) % 0x1_0000_0000
  {
  }

  lemma ReadWord(m: map<int, int>, a: int)
    ensures ReadN(m, a, 1) == ByteAt(m, a) && ReadN(m, a, 2) == HalfAt(m, a) && ReadN(m, a, 4) == WordAt(m, a)
  {
    assert ReadN(m, a + 3, 1) == ByteAt(m, a + 3) && ReadN(m, a + 1, 1) == ByteAt(m, a + 1);
    assert ReadN(m, a + 2, 2) == HalfAt(m, a + 2);
  }

  lemma SignedIsValue(x: int)
    requires 0 <= x < 0x1_0000_0000
    ensures Signed(x) == Value(x)
  {
  }

  lemma Registers(w: int)
    ensures IsReg(Rd(w)) && IsReg(Rs1(w)) && IsReg(Rs2(w))
  {
  }

  // ---------- transfers of control ----------

  /** The condition of a branch with function code funct3. */
  predicate Meets(funct3: int, a: int, b: int) {
    || (funct3 == 0 && a == b) || (funct3 == 1 && a != b)
    || (funct3 == 4 && Value(a) < Value(b)) || (funct3 == 5 && Value(a) >= Value(b))
    || (funct3 == 6 && a < b) || (funct3 == 7 && a >= b)
  }

  lemma BranchEffect(s: State, cond: Cond, rs1: int, rs2: int, d: int)
    requires ValidState(s) && IsReg(rs1) && IsReg(rs2)
    ensures Exec(Branch(cond, rs1, rs2, d % 0x1_0000_0000), s)
         == Some(Moved(s, s.pc + if Meets(BranchFunct3(cond), s.gpr[rs1], s.gpr[rs2]) then d else 4).(icnt := s.icnt))
  {
    hide Taken, Meets, BranchFunct3;
    TakenMeets(cond, s.gpr[rs1], s.gpr[rs2]);
    Sum(s.pc, d);
  }

  /** A word with the branch opcode goes to the pc plus its displacement exactly if its two registers meet the condition
      that its bits 14 to 12 stand for, and to the word after it otherwise; the codes 2 and 3 are no branches. */
  lemma BranchLaw(s: State, w: int)
    requires ValidState(s) && At(s, w) && Opcode(w) == 0x63
    ensures Interpret(s)
         == if Funct3(w) == 2 || Funct3(w) == 3 then None
            else if Meets(Funct3(w), s.gpr[Rs1(w)], s.gpr[Rs2(w)]) then Some(Moved(s, s.pc + BDisp(w)))
            else Some(Moved(s, s.pc + 4))
  {
    hide Decode, At, Interpret, Exec, Opcode, Rd, Rs1, Rs2, Funct3, Meets, BranchFunct3, BDisp;
    Steps(s, w);
    BranchWord(w);
    Registers(w);
    if Funct3(w) != 2 && Funct3(w) != 3 {
      var cond :| BranchFunct3(cond) == Funct3(w)
                  && Decode(w) == Some(Branch(cond, Rs1(w), Rs2(w), BDisp(w) % 0x1_0000_0000));
      BranchEffect(s, cond, Rs1(w), Rs2(w), BDisp(w));
    }
  }

  lemma TakenMeets(cond: Cond, a: int, b: int)
    requires 0 <= a < 0x1_0000_0000 && 0 <= b < 0x1_0000_0000
    ensures Taken(cond, a, b) == Meets(BranchFunct3(cond), a, b)
  {
    SignedIsValue(a);
    SignedIsValue(b);
    hide Signed, Value;
  }

  lemma JumpEffect(s: State, rd: int, rs1: int, d: int)
    requires ValidState(s) && IsReg(rd) && IsReg(rs1)
    ensures Exec(Jal(rd, d % 0x1_0000_0000), s) == Some(Put(Moved(s, s.pc + d), rd, s.pc + 4).(icnt := s.icnt))
    ensures Exec(Jalr(rd, rs1, d % 0x1_0000_0000), s)
         == Some(Put(Moved(s, 2 * ((s.gpr[rs1] + d) / 2)), rd, s.pc + 4).(icnt := s.icnt))
  {
    hide JalrTarget;
    Sum(s.pc, d);
    JalrAddress(s.gpr[rs1], d);
  }

  lemma JalLaw(s: State, w: int)
    requires ValidState(s) && At(s, w) && Opcode(w) == 0x6f
    ensures Interpret(s) == Some(Put(Moved(s, s.pc + JDisp(w)), Rd(w), s.pc + 4))
  {
    hide Decode, At, Interpret, Exec, Opcode, Rd, Rs1, Rs2, Funct3, JDisp, IDisp;
    Steps(s, w);
    JumpWord(w);
    Registers(w);
    JumpEffect(s, Rd(w), Rs1(w), JDisp(w));
  }

  /** The target loses its lowest bit, and the register is read before the link is written. */
  lemma JalrLaw(s: State, w: int)
    requires ValidState(s) && At(s, w) && Opcode(w) == 0x67
    ensures Interpret(s) == Some(Put(Moved(s, 2 * ((s.gpr[Rs1(w)] + IDisp(w)) / 2)), Rd(w), s.pc + 4))
  {
    hide Decode, At, Interpret, Exec, Opcode, Rd, Rs1, Rs2, Funct3, JDisp, IDisp;
    Steps(s, w);
    JumpWord(w);
    Registers(w);
    JumpEffect(s, Rd(w), Rs1(w), IDisp(w));
  }

  lemma JalrAddress(base: int, disp: int)
    ensures JalrTarget(base, disp % 0x1_0000_0000) == 2 * ((base + disp) / 2) % 0x1_0000_0000
  {
    var t := base + disp;
    Sum(base, disp);
    EvenPart(t);
    assert 2 * (t / 2) == t - t % 2;
    hide Wrap;
  }

  lemma EvenPart(t: int)
    ensures t % 0x1_0000_0000 - t % 0x1_0000_0000 % 2 == (t - t % 2) % 0x1_0000_0000
  {
    var q, r := t / 0x1_0000_0000, t % 0x1_0000_0000;
    var h, e := r / 2, r % 2;
    Halved(t, q, h, e);
    Quotient(2 * h, 0x1_0000_0000, q);
  }

  lemma Halved(t: int, q: int, h: int, e: int)
    requires t == e + 2 * h + 0x1_0000_0000 * q && 0 <= e < 2
    ensures t % 2 == e && t - e == 2 * h + 0x1_0000_0000 * q
  {
    Quotient(e, 2, h + 0x8000_0000 * q);
  }

  // ---------- upper immediates and system instructions ----------

  /** What the instructions do once they are decoded. */
  lemma UpperEffect(s: State, rd: int, imm: int)
    requires ValidState(s) && IsReg(rd) && 0 <= imm < 0x1_0000_0000
    ensures Exec(Lui(rd, imm), s) == Some(Put(Moved(s, s.pc + 4), rd, imm).(icnt := s.icnt))
    ensures Exec(Auipc(rd, imm), s) == Some(Put(Moved(s, s.pc + 4), rd, imm + s.pc).(icnt := s.icnt))
  {
  }

  lemma IcntOnly(s: State, rd: int, x: int)
    requires |s.gpr| == 32 && IsReg(rd)
    ensures var t := Put(Moved(s, s.pc + 4), rd, x);
            t.(icnt := s.icnt).(icnt := (s.icnt + 1) % 0x1_0000_0000_0000_0000) == t
  {
  }

  lemma UpperLaw(s: State, w: int)
    requires ValidState(s) && At(s, w) && (Opcode(w) == 0x37 || Opcode(w) == 0x17)
    ensures Interpret(s)
         == Some(Put(Moved(s, s.pc + 4), Rd(w), w / 0x1000 * 0x1000 + (if Opcode(w) == 0x17 then s.pc else 0)))
  {
    hide Decode, At, WordAt, Interpret, Exec, Opcode, Rd, Rs1, Rs2, Funct3, Moved, Put;
    Fetched(s, w);
    Steps(s, w);
    UpperWord(w);
    Registers(w);
    var imm := w / 0x1000 * 0x1000;
    assert 0 <= imm < 0x1_0000_0000;
    UpperEffect(s, Rd(w), imm);
    IcntOnly(s, Rd(w), imm);
    IcntOnly(s, Rd(w), imm + s.pc);
  }

  lemma SystemEffect(s: State, rd: int)
    requires ValidState(s) && IsReg(rd)
    ensures Exec(Monitor, s) == Some(Moved(s, s.pc).(brk := true, icnt := s.icnt))
    ensures Exec(ReadCycle(rd), s)
         == Some(Moved(s, s.pc + 4).(gpr := s.gpr[rd := s.icnt % 0x1_0000_0000], icnt := s.icnt))
    ensures Exec(Fence, s) == Exec(OtherSystem, s) == Some(Moved(s, s.pc + 4).(icnt := s.icnt))
  {
  }

  /** The system opcode: only the word 0x73 itself stops the machine, and only a read of the cycle counter writes a
      register, register 0 like any other. Fences do nothing. */
  lemma SystemLaw(s: State, w: int)
    requires ValidState(s) && At(s, w) && (Opcode(w) == 0x73 || Opcode(w) == 0x0f)
    ensures Interpret(s)
         == if w == 0x73 then Some(Moved(s, s.pc).(brk := true))
            else if Opcode(w) == 0x73 && w / 0x1000 % 4 == 2 && w / 0x10_0000 == 0xc00
            then Some(Moved(s, s.pc + 4).(gpr := s.gpr[Rd(w) := s.icnt % 0x1_0000_0000]))
            else Some(Moved(s, s.pc + 4))
  {
    Fetched(s, w);
    hide Decode, At, Interpret, Exec, Opcode, Rd, Rs1, Rs2, Funct3;
    Steps(s, w);
    OtherWord(w);
    Registers(w);
    SystemEffect(s, Rd(w));
  }

  // ---------- memory ----------

  /** The word that a load with function code funct3 puts in its register; codes below 3 extend the sign. */
  function Loaded(m: map<int, int>, funct3: int, a: int): int {
    match funct3
    case 0 => ByteAt(m, a) - 0x100 * (ByteAt(m, a) / 0x80)
    case 1 => HalfAt(m, a) - 0x1_0000 * (ByteAt(m, a + 1) / 0x80)
    case 4 => ByteAt(m, a)
    case 5 => HalfAt(m, a)
    case _ => WordAt(m, a)
  }

  lemma LoadedFrom(m: map<int, int>, width: Width, a: int)
    ensures LoadFrom(m, width, a) == Loaded(m, LoadFunct3(width), a) % 0x1_0000_0000
  {
    ReadWord(m, a);
    ExtendByte(ByteAt(m, a));
    ExtendHalf(ByteAt(m, a), ByteAt(m, a + 1));
    hide ReadN, Pow2, Extend, ByteAt;
    BytesAt(m, a);
  }

  lemma BytesAt(m: map<int, int>, a: int)
    ensures 0 <= ByteAt(m, a) < 0x100 && 0 <= ByteAt(m, a + 1) < 0x100
    ensures 0 <= ByteAt(m, a + 2) < 0x100 && 0 <= ByteAt(m, a + 3) < 0x100
  {
  }

  lemma ExtendByte(b: int)
    ensures 0 <= b < 0x100 ==> Extend(b, 8) == (b - 0x100 * (b / 0x80)) % 0x1_0000_0000
  {
    if 0 <= b < 0x100 {
      Powers();
      SignBit(b % 0x80, b / 0x80, 8, 0x80);
    }
    hide Extend, Pow2;
  }

  lemma ExtendHalf(b: int, c: int)
    ensures 0 <= b < 0x100 && 0 <= c < 0x100 ==>
              Extend(b + 0x100 * c, 16) == (b + 0x100 * c - 0x1_0000 * (c / 0x80)) % 0x1_0000_0000
  {
    if 0 <= b < 0x100 && 0 <= c < 0x100 {
      Powers();
      SignBit(b + 0x100 * (c % 0x80), c / 0x80, 16, 0x8000);
    }
    hide Extend, Pow2;
  }

  lemma LoadEffect(s: State, width: Width, rd: int, rs1: int, d: int)
    requires ValidState(s) && IsReg(rd) && IsReg(rs1)
    ensures Exec(Load(width, rd, rs1, d % 0x1_0000_0000), s)
         == Some(Put(Moved(s, s.pc + 4), rd, Loaded(s.mem, LoadFunct3(width), (s.gpr[rs1] + d) % 0x1_0000_0000)).(
                 icnt := s.icnt))
  {
    hide LoadFrom, Loaded, LoadFunct3;
    Sum(s.gpr[rs1], d);
    LoadedFrom(s.mem, width, (s.gpr[rs1] + d) % 0x1_0000_0000);
  }

  lemma FenceEffect(s: State)
    ensures Exec(Fence, s) == Some(Moved(s, s.pc + 4).(icnt := s.icnt))
  {
  }

  lemma LoadLaw(s: State, w: int)
    requires ValidState(s) && At(s, w) && Opcode(w) == 0x03
    ensures Interpret(s)
         == if Funct3(w) in {0, 1, 2, 4, 5}
            then Some(Put(Moved(s, s.pc + 4), Rd(w),
                          Loaded(s.mem, Funct3(w), (s.gpr[Rs1(w)] + IDisp(w)) % 0x1_0000_0000)))
            else if Rd(w) == 0 then Some(Moved(s, s.pc + 4)) else None
  {
    hide Decode, At, Interpret, Exec, Opcode, Rd, Rs1, Rs2, Funct3, LoadFunct3, IDisp, Loaded;
    Steps(s, w);
    LoadWord(w);
    Registers(w);
    if Funct3(w) in {0, 1, 2, 4, 5} {
      var width :| LoadFunct3(width) == Funct3(w)
                   && Decode(w) == Some(Load(width, Rd(w), Rs1(w), IDisp(w) % 0x1_0000_0000));
      LoadEffect(s, width, Rd(w), Rs1(w), IDisp(w));
    } else {
      FenceEffect(s);
    }
  }

  /** The memory after a store of x with function code funct3: one, two or four bytes from a on, the lowest first. */
  function Stored(m: map<int, int>, funct3: int, a: int, x: int): map<int, int> {
    if funct3 == 0 then m[a := x % 0x100]
    else if funct3 == 1 then m[a := x % 0x100][a + 1 := x / 0x100 % 0x100]
    else m[a := x % 0x100][a + 1 := x / 0x100 % 0x100][a + 2 := x / 0x1_0000 % 0x100][a + 3 := x / 0x100_0000 % 0x100]
  }

  lemma StoredTo(m: map<int, int>, width: Width, a: int, x: int)
    requires width in {Byte, Half, Full}
    ensures StoreTo(m, width, a, x) == Stored(m, LoadFunct3(width), a, x)
  {
    var m1, m2 := m[a := x % 0x100], m[a := x % 0x100][a + 1 := x / 0x100 % 0x100];
    var m3 := m2[a + 2 := x / 0x1_0000 % 0x100];
    var m4 := m3[a + 3 := x / 0x100_0000 % 0x100];
    assert x / 0x100 / 0x100 == x / 0x1_0000 && x / 0x1_0000 / 0x100 == x / 0x100_0000;
    assert WriteN(m4, a + 4, 0, x / 0x100_0000 / 0x100) == m4;
    assert WriteN(m3, a + 3, 1, x / 0x100_0000) == m4;
    assert WriteN(m2, a + 2, 2, x / 0x1_0000) == m4;
    assert WriteN(m1, a + 1, 3, x / 0x100) == m4;
  }

  lemma StoreEffect(s: State, width: Width, rs1: int, rs2: int, d: int)
    requires ValidState(s) && IsReg(rs1) && IsReg(rs2) && width in {Byte, Half, Full}
    ensures Exec(Store(width, rs1, rs2, d % 0x1_0000_0000), s)
         == Some(Moved(s, s.pc + 4).(
                 mem := Stored(s.mem, LoadFunct3(width), (s.gpr[rs1] + d) % 0x1_0000_0000, s.gpr[rs2]), icnt := s.icnt))
  {
    hide StoreTo, Stored, LoadFunct3;
    Sum(s.gpr[rs1], d);
    StoredTo(s.mem, width, (s.gpr[rs1] + d) % 0x1_0000_0000, s.gpr[rs2]);
  }

  lemma StoreLaw(s: State, w: int)
    requires ValidState(s) && At(s, w) && Opcode(w) == 0x23
    ensures Interpret(s)
         == if Funct3(w) > 2 then None
            else Some(Moved(s, s.pc + 4).(
                mem := Stored(s.mem, Funct3(w), (s.gpr[Rs1(w)] + SDisp(w)) % 0x1_0000_0000, s.gpr[Rs2(w)])))
  {
    hide Decode, At, Interpret, Exec, Opcode, Rd, Rs1, Rs2, Funct3, LoadFunct3, SDisp, Stored;
    Steps(s, w);
    StoreWord(w);
    Registers(w);
    if Funct3(w) <= 2 {
      var width :| width in {Byte, Half, Full} && LoadFunct3(width) == Funct3(w)
                   && Decode(w) == Some(Store(width, Rs1(w), Rs2(w), SDisp(w) % 0x1_0000_0000));
      StoreEffect(s, width, Rs1(w), Rs2(w), SDisp(w));
    }
  }

  /** A store changes the bytes it covers and no others. */
  lemma StoreKeeps(m: map<int, int>, a: int, x: int, k: int)
    ensures k != a ==> ByteAt(StoreTo(m, Byte, a, x), k) == ByteAt(m, k)
    ensures !(a <= k < a + 2) ==> ByteAt(StoreTo(m, Half, a, x), k) == ByteAt(m, k)
    ensures !(a <= k < a + 4) ==> ByteAt(StoreTo(m, Full, a, x), k) == ByteAt(m, k)
  {
    StoredTo(m, Byte, a, x);
    StoredTo(m, Half, a, x);
    StoredTo(m, Full, a, x);
    hide StoreTo;
  }

  /** A load of the same width gives the stored number back: cut to the width, and extended by its sign or by zeros. */
  lemma StoreThenLoad(m: map<int, int>, a: int, x: int)
    requires 0 <= x < 0x1_0000_0000
    ensures LoadFrom(StoreTo(m, Byte, a, x), ByteU, a) == x % 0x100
    ensures LoadFrom(StoreTo(m, Half, a, x), HalfU, a) == x % 0x1_0000
    ensures LoadFrom(StoreTo(m, Full, a, x), Full, a) == x
    ensures Value(LoadFrom(StoreTo(m, Byte, a, x), Byte, a)) == (x + 0x80) % 0x100 - 0x80
    ensures Value(LoadFrom(StoreTo(m, Half, a, x), Half, a)) == (x + 0x8000) % 0x1_0000 - 0x8000
  {
    ByteBack(m, a, x);
    HalfBack(m, a, x);
    WordBack(m, a, x);
    hide LoadFrom, StoreTo;
  }

  lemma ByteBack(m: map<int, int>, a: int, x: int)
    ensures LoadFrom(StoreTo(m, Byte, a, x), ByteU, a) == x % 0x100
    ensures Value(LoadFrom(StoreTo(m, Byte, a, x), Byte, a)) == (x + 0x80) % 0x100 - 0x80
  {
    StoredTo(m, Byte, a, x);
    LoadedFrom(StoreTo(m, Byte, a, x), Byte, a);
    LoadedFrom(StoreTo(m, Byte, a, x), ByteU, a);
    assert ByteAt(Stored(m, 0, a, x), a) == x % 0x100;
    hide LoadFrom, StoreTo, Stored, ByteAt;
    ByteSign(x);
  }

  lemma ByteSign(x: int)
    ensures Value((x % 0x100 - 0x100 * (x % 0x100 / 0x80)) % 0x1_0000_0000) == (x + 0x80) % 0x100 - 0x80
  {
    var b := x % 0x100;
    assert (x + 0x80) % 0x100 == (b + 0x80) % 0x100;
    assert b / 0x80 == if b < 0x80 then 0 else 1;
  }

  lemma HalfBack(m: map<int, int>, a: int, x: int)
    ensures LoadFrom(StoreTo(m, Half, a, x), HalfU, a) == x % 0x1_0000
    ensures Value(LoadFrom(StoreTo(m, Half, a, x), Half, a)) == (x + 0x8000) % 0x1_0000 - 0x8000
  {
    var h := StoreTo(m, Half, a, x);
    StoredTo(m, Half, a, x);
    LoadedFrom(h, Half, a);
    LoadedFrom(h, HalfU, a);
    Cut(x);
    assert ByteAt(h, a) == x % 0x100 && ByteAt(h, a + 1) == x / 0x100 % 0x100;
    assert HalfAt(h, a) == x % 0x1_0000;
    hide LoadFrom, StoreTo, ByteAt, HalfAt, Stored;
    assert Loaded(h, 1, a) == x % 0x1_0000 - 0x1_0000 * (x / 0x100 % 0x100 / 0x80);
    HalfSign(x);
  }

  lemma HalfSign(x: int)
    ensures Value((x % 0x1_0000 - 0x1_0000 * (x / 0x100 % 0x100 / 0x80)) % 0x1_0000_0000)
         == (x + 0x8000) % 0x1_0000 - 0x8000
  {
    Cut(x);
    var h := x % 0x1_0000;
    assert (x + 0x8000) % 0x1_0000 == (h + 0x8000) % 0x1_0000;
    assert x / 0x100 % 0x100 / 0x80 == if h < 0x8000 then 0 else 1;
    Narrow(h);
  }

  lemma Narrow(h: int)
    requires 0 <= h < 0x1_0000
    ensures Value((h - if h < 0x8000 then 0 else 0x1_0000) % 0x1_0000_0000) == (h + 0x8000) % 0x1_0000 - 0x8000
  {
  }

  lemma WordBack(m: map<int, int>, a: int, x: int)
    requires 0 <= x < 0x1_0000_0000
    ensures LoadFrom(StoreTo(m, Full, a, x), Full, a) == x
  {
    StoredTo(m, Full, a, x);
    LoadedFrom(StoreTo(m, Full, a, x), Full, a);
    StoredBytes(m, a, x);
    Cut(x);
    hide LoadFrom, StoreTo, Stored, ByteAt;
  }

  lemma StoredBytes(m: map<int, int>, a: int, x: int)
    ensures var f := Stored(m, 2, a, x);
            && ByteAt(f, a) == x % 0x100 && ByteAt(f, a + 1) == x / 0x100 % 0x100
            && ByteAt(f, a + 2) == x / 0x1_0000 % 0x100 && ByteAt(f, a + 3) == x / 0x100_0000 % 0x100
  {
  }

  lemma Cut(x: int)
    ensures x % 0x1_0000 == x % 0x100 + 0x100 * (x / 0x100 % 0x100)
    ensures 0 <= x < 0x1_0000_0000 ==>
              x == x % 0x1_0000 + 0x1_0000 * (x / 0x1_0000 % 0x100 + 0x100 * (x / 0x100_0000 % 0x100))
  {
    assert x / 0x1_0000 == x / 0x100 / 0x100 && x / 0x100_0000 == x / 0x1_0000 / 0x100;
  }
}
