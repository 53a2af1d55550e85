/** The CRC of the trace keys as numbers: one bit step, and the check value that is known for it. States are computed in
    machine words here, which have the same bits. */
module CrcNumbers {
  import opened Rv32
  import opened TraceKeys
  import Polynomials
  import Crc

  // ---------- one bit step ----------

  lemma {:induction false} NumberOfXor(a: seq<bool>, b: seq<bool>)
    requires |a| == |b|
    ensures NumberOf(Polynomials.Xor(a, b)) == XorN(NumberOf(a), NumberOf(b), |a|)
  {
    if a != [] {
      var c, m, n := Polynomials.Xor(a, b), NumberOf(a[1..]), NumberOf(b[1..]);
      NumberOfXor(a[1..], b[1..]);
      assert c[1..] == Polynomials.Xor(a[1..], b[1..]);
      assert NumberOf(a) / 2 == m && NumberOf(b) / 2 == n;
      assert NumberOf(c) == (if a[0] != b[0] then 1 else 0) + 2 * XorN(m, n, |a| - 1);
    }
  }

  /** Clear bits at the top do not count. */
  lemma {:induction false} NumberOfLow(a: seq<bool>, z: seq<bool>)
    requires forall i :: 0 <= i < |z| ==> !z[i]
    ensures NumberOf(a + z) == NumberOf(a)
    decreases |a| + |z|
  {
    if a != [] {
      assert (a + z)[1..] == a[1..] + z;
      NumberOfLow(a[1..], z);
    } else if z != [] {
      NumberOfLow([], z[1..]);
      assert [] + z == z && [] + z[1..] == z[1..];
    }
  }

  /** A bit step halves the number, and adds the constant without carries exactly if the number is odd. */
  lemma BitNumber(c: seq<bool>)
    requires Crc.IsWord(c)
    ensures var x := NumberOf(c);
            NumberOf(Crc.Bit(c)) == if x % 2 == 1 then XorN(x / 2, 0x82f6_3b78, 32) else x / 2
  {
    PolyNumber();
    hide XorN, Crc.POLY;
    var x := NumberOf(c);
    assert x % 2 == (if c[0] then 1 else 0) && x / 2 == NumberOf(c[1..]);
    NumberOfLow(c[1..], [false]);
    assert Crc.Shr(c) == c[1..] + [false];
    if c[0] {
      NumberOfXor(Crc.Shr(c), Crc.POLY);
    }
  }

  // ---------- machine words ----------

  /** The n lowest bits of a machine word, the lowest first. */
  function BitsV(v: bv32, n: nat): (w: seq<bool>)
    ensures |w| == n
    decreases n
  {
    if n == 0 then [] else [v & 1 == 1] + BitsV(v >> 1, n - 1)
  }

  function Down(v: bv32, n: nat): bv32
    decreases n
  {
    if n == 0 then v else Down(v >> 1, n - 1)
  }

  lemma {:induction false} SplitV(v: bv32, m: nat, n: nat)
    ensures BitsV(v, m + n) == BitsV(v, m) + BitsV(Down(v, m), n)
    decreases m
  {
    if m == 0 {
      assert [] + BitsV(v, n) == BitsV(v, n);
    } else {
      SplitV(v >> 1, m - 1, n);
      assert m + n - 1 == m - 1 + n;
    }
  }

  lemma {:induction false} DownMore(v: bv32, m: nat, n: nat)
    ensures Down(v, m + n) == Down(Down(v, m), n)
    decreases m
  {
    if m > 0 {
      DownMore(v >> 1, m - 1, n);
      assert m + n - 1 == m - 1 + n;
    }
  }

  lemma DownFour(v: bv32)
    ensures Down(v, 4) == v >> 4
  {
  }

  lemma DownEight(v: bv32)
    ensures Down(v, 8) == v >> 8
  {
    DownMore(v, 4, 4);
    DownFour(v);
    DownFour(v >> 4);
  }

  lemma DownSixteen(v: bv32)
    ensures Down(v, 16) == v >> 16
  {
    DownMore(v, 8, 8);
    DownEight(v);
    DownEight(v >> 8);
  }

  /** Nothing is left of a word that has lost all its bits. */
  lemma DownAll(v: bv32)
    ensures Down(v >> 1, 31) == 0
  {
    DownMore(v, 16, 16);
    DownSixteen(v);
    DownSixteen(v >> 16);
    assert (v >> 16) >> 16 == 0;
    assert Down(v, 32) == Down(v >> 1, 31);
  }

  lemma {:induction false} ZerosV(n: nat)
    ensures BitsV(0, n) == Polynomials.Zeros(n)
    decreases n
  {
    if n > 0 {
      assert (0 as bv32) >> 1 == 0;
      ZerosV(n - 1);
    }
  }

  lemma XorBit(v: bv32, w: bv32)
    ensures (v ^ w) >> 1 == (v >> 1) ^ (w >> 1) && (((v ^ w) & 1 == 1) <==> (v & 1 == 1) != (w & 1 == 1))
  {
  }

  lemma BitsUp(v: bv32, n: nat)
    ensures BitsV(v, n + 1) == [v & 1 == 1] + BitsV(v >> 1, n)
  {
  }

  lemma XorUp(a: bool, s: seq<bool>, b: bool, t: seq<bool>)
    requires |s| == |t|
    ensures Polynomials.Xor([a] + s, [b] + t) == [a != b] + Polynomials.Xor(s, t)
  {
  }

  lemma {:induction false} XorV(v: bv32, w: bv32, n: nat)
    ensures BitsV(v ^ w, n) == Polynomials.Xor(BitsV(v, n), BitsV(w, n))
    decreases n
  {
    hide BitsV;
    if n > 0 {
      XorBit(v, w);
      XorV(v >> 1, w >> 1, n - 1);
      BitsUp(v, n - 1);
      BitsUp(w, n - 1);
      BitsUp(v ^ w, n - 1);
      XorUp(v & 1 == 1, BitsV(v >> 1, n - 1), w & 1 == 1, BitsV(w >> 1, n - 1));
    }
  }

  lemma ShiftV(v: bv32)
    ensures BitsV(v >> 1, 32) == Crc.Shr(BitsV(v, 32))
  {
    SplitV(v >> 1, 31, 1);
    DownAll(v);
    ZerosV(1);
    assert BitsV(v, 32)[1..] == BitsV(v >> 1, 31);
    hide Down, BitsV;
  }

  /** A byte, widened to a word. */
  lemma WideV(v: bv32)
    requires v < 0x100
    ensures BitsV(v, 32) == Crc.Widen(BitsV(v, 8))
  {
    SplitV(v, 8, 24);
    DownEight(v);
    assert v >> 8 == 0;
    ZerosV(24);
    hide Down, BitsV;
  }

  function LowBit(v: bv32): nat {
    if v & 1 == 1 then 1 else 0
  }

  lemma NumberUp(v: bv32, n: nat)
    ensures NumberOf(BitsV(v, n + 1)) == LowBit(v) + 2 * NumberOf(BitsV(v >> 1, n))
  {
    assert BitsV(v, n + 1)[1..] == BitsV(v >> 1, n);
  }

  /** The words that v becomes when its four lowest bits are shifted out. */
  predicate Shifts(v: bv32, a: bv32, b: bv32, c: bv32, u: bv32) {
    a == v >> 1 && b == a >> 1 && c == b >> 1 && u == c >> 1
  }

  lemma NibbleV(v: bv32, a: bv32, b: bv32, c: bv32, u: bv32, n: nat)
    requires Shifts(v, a, b, c, u)
    ensures NumberOf(BitsV(v, n + 4))
         == LowBit(v) + 2 * LowBit(a) + 4 * LowBit(b) + 8 * LowBit(c) + 0x10 * NumberOf(BitsV(u, n))
  {
    hide NumberOf, BitsV, LowBit;
    NumberUp(v, n + 3);
    NumberUp(a, n + 2);
    NumberUp(b, n + 1);
    NumberUp(c, n);
  }

  lemma NoBits(v: bv32)
    ensures NumberOf(BitsV(v, 0)) == 0
  {
  }

  lemma Nibbles()
    ensures NumberOf(BitsV(0x82f6_3b78, 32)) == 0x82f6_3b78
    ensures NumberOf(BitsV(0xe306_9283, 32)) == 0xe306_9283
  {
    hide NumberOf, BitsV;
    NoBits(0);
    NibbleV(0x8, 0x4, 0x2, 0x1, 0x0, 0);
    NibbleV(0x82, 0x41, 0x20, 0x10, 0x8, 4);
    NibbleV(0x82f, 0x417, 0x20b, 0x105, 0x82, 8);
    NibbleV(0x82f6, 0x417b, 0x20bd, 0x105e, 0x82f, 12);
    NibbleV(0x8_2f63, 0x4_17b1, 0x2_0bd8, 0x1_05ec, 0x82f6, 16);
    NibbleV(0x82_f63b, 0x41_7b1d, 0x20_bd8e, 0x10_5ec7, 0x8_2f63, 20);
    NibbleV(0x82f_63b7, 0x417_b1db, 0x20b_d8ed, 0x105_ec76, 0x82_f63b, 24);
    NibbleV(0x82f6_3b78, 0x417b_1dbc, 0x20bd_8ede, 0x105e_c76f, 0x82f_63b7, 28);
    NibbleV(0xe, 0x7, 0x3, 0x1, 0x0, 0);
    NibbleV(0xe3, 0x71, 0x38, 0x1c, 0xe, 4);
    NibbleV(0xe30, 0x718, 0x38c, 0x1c6, 0xe3, 8);
    NibbleV(0xe306, 0x7183, 0x38c1, 0x1c60, 0xe30, 12);
    NibbleV(0xe_3069, 0x7_1834, 0x3_8c1a, 0x1_c60d, 0xe306, 16);
    NibbleV(0xe3_0692, 0x71_8349, 0x38_c1a4, 0x1c_60d2, 0xe_3069, 20);
    NibbleV(0xe30_6928, 0x718_3494, 0x38c_1a4a, 0x1c6_0d25, 0xe3_0692, 24);
    NibbleV(0xe306_9283, 0x7183_4941, 0x38c1_a4a0, 0x1c60_d250, 0xe30_6928, 28);
  }

  /** w from place k on are the bits of v. */
  predicate BitsFrom(w: seq<bool>, k: nat, v: bv32) {
    k <= |w| && BitsV(v, |w| - k) == w[k..]
  }

  lemma OneBack(w: seq<bool>, k: nat, v: bv32, u: bv32)
    requires k < |w| && BitsFrom(w, k + 1, u) && u == v >> 1 && w[k] == (v & 1 == 1)
    ensures BitsFrom(w, k, v)
  {
    BitsUp(v, |w| - k - 1);
    hide BitsV;
    assert w[k..] == [w[k]] + w[k + 1..];
  }

  lemma PolyByte1()
    requires BitsFrom(Crc.POLY, 32, 0x0)
    ensures BitsFrom(Crc.POLY, 24, 0x82)
  {
    hide BitsFrom;
    OneBack(Crc.POLY, 31, 0x1, 0x0);
    OneBack(Crc.POLY, 30, 0x2, 0x1);
    OneBack(Crc.POLY, 29, 0x4, 0x2);
    OneBack(Crc.POLY, 28, 0x8, 0x4);
    OneBack(Crc.POLY, 27, 0x10, 0x8);
    OneBack(Crc.POLY, 26, 0x20, 0x10);
    OneBack(Crc.POLY, 25, 0x41, 0x20);
    OneBack(Crc.POLY, 24, 0x82, 0x41);
  }

  lemma PolyByte2()
    requires BitsFrom(Crc.POLY, 24, 0x82)
    ensures BitsFrom(Crc.POLY, 16, 0x82f6)
  {
    hide BitsFrom;
    OneBack(Crc.POLY, 23, 0x105, 0x82);
    OneBack(Crc.POLY, 22, 0x20b, 0x105);
    OneBack(Crc.POLY, 21, 0x417, 0x20b);
    OneBack(Crc.POLY, 20, 0x82f, 0x417);
    OneBack(Crc.POLY, 19, 0x105e, 0x82f);
    OneBack(Crc.POLY, 18, 0x20bd, 0x105e);
    OneBack(Crc.POLY, 17, 0x417b, 0x20bd);
    OneBack(Crc.POLY, 16, 0x82f6, 0x417b);
  }

  lemma PolyByte3()
    requires BitsFrom(Crc.POLY, 16, 0x82f6)
    ensures BitsFrom(Crc.POLY, 8, 0x82_f63b)
  {
    hide BitsFrom;
    OneBack(Crc.POLY, 15, 0x1_05ec, 0x82f6);
    OneBack(Crc.POLY, 14, 0x2_0bd8, 0x1_05ec);
    OneBack(Crc.POLY, 13, 0x4_17b1, 0x2_0bd8);
    OneBack(Crc.POLY, 12, 0x8_2f63, 0x4_17b1);
    OneBack(Crc.POLY, 11, 0x10_5ec7, 0x8_2f63);
    OneBack(Crc.POLY, 10, 0x20_bd8e, 0x10_5ec7);
    OneBack(Crc.POLY, 9, 0x41_7b1d, 0x20_bd8e);
    OneBack(Crc.POLY, 8, 0x82_f63b, 0x41_7b1d);
  }

  lemma PolyByte4()
    requires BitsFrom(Crc.POLY, 8, 0x82_f63b)
    ensures BitsFrom(Crc.POLY, 0, 0x82f6_3b78)
  {
    hide BitsFrom;
    OneBack(Crc.POLY, 7, 0x105_ec76, 0x82_f63b);
    OneBack(Crc.POLY, 6, 0x20b_d8ed, 0x105_ec76);
    OneBack(Crc.POLY, 5, 0x417_b1db, 0x20b_d8ed);
    OneBack(Crc.POLY, 4, 0x82f_63b7, 0x417_b1db);
    OneBack(Crc.POLY, 3, 0x105e_c76f, 0x82f_63b7);
    OneBack(Crc.POLY, 2, 0x20bd_8ede, 0x105e_c76f);
    OneBack(Crc.POLY, 1, 0x417b_1dbc, 0x20bd_8ede);
    OneBack(Crc.POLY, 0, 0x82f6_3b78, 0x417b_1dbc);
  }

  /** The constant of the code. */
  lemma PolyV()
    ensures BitsV(0x82f6_3b78, 32) == Crc.POLY
  {
    assert BitsFrom(Crc.POLY, 32, 0);
    PolyByte1();
    PolyByte2();
    PolyByte3();
    PolyByte4();
    assert |Crc.POLY| == 32;
    hide BitsV, Crc.POLY;
    assert Crc.POLY[0..] == Crc.POLY;
  }

  lemma PolyNumber()
    ensures |Crc.POLY| == 32 && NumberOf(Crc.POLY) == 0x82f6_3b78
  {
    PolyV();
    Nibbles();
    hide NumberOf, BitsV;
  }

  // ---------- the check value ----------

  function StepV(v: bv32): bv32 {
    if v & 1 == 1 then (v >> 1) ^ 0x82f6_3b78 else v >> 1
  }

  function ByteV(v: bv32): bv32 {
    StepV(StepV(StepV(StepV(StepV(StepV(StepV(StepV(v))))))))
  }

  lemma BitV(v: bv32)
    ensures Crc.Bit(BitsV(v, 32)) == BitsV(StepV(v), 32)
  {
    ShiftV(v);
    PolyV();
    XorV(v >> 1, 0x82f6_3b78, 32);
    assert BitsV(v, 32)[0] == (v & 1 == 1);
    hide BitsV, Crc.POLY;
  }

  lemma EightV(v: bv32)
    ensures Crc.Bits(BitsV(v, 32), 8) == BitsV(ByteV(v), 32)
  {
    hide Crc.Bit, StepV, BitsV;
    var c, v1 := BitsV(v, 32), StepV(v);
    var v2 := StepV(v1);
    var v3 := StepV(v2);
    var v4 := StepV(v3);
    var v5 := StepV(v4);
    var v6 := StepV(v5);
    var v7 := StepV(v6);
    BitV(v);
    BitV(v1);
    BitV(v2);
    BitV(v3);
    BitV(v4);
    BitV(v5);
    BitV(v6);
    BitV(v7);
    assert Crc.Bits(c, 2) == BitsV(v2, 32);
    assert Crc.Bits(c, 4) == BitsV(v4, 32);
    assert Crc.Bits(c, 6) == BitsV(v6, 32);
  }

  /** The bytes of the string "123456789". */
  const CHECK: seq<bv32> := [0x31, 0x32, 0x33, 0x34, 0x35, 0x36, 0x37, 0x38, 0x39]

  function CheckBytes(n: nat): (buf: seq<seq<bool>>)
    requires n <= 9
    ensures |buf| == n && Crc.AreBytes(buf)
  {
    seq(n, i requires 0 <= i < n => BitsV(CHECK[i], 8))
  }

  /** The state after one more of these bytes. */
  lemma CheckStep(n: nat, x: bv32, y: bv32)
    requires n < 9 && CHECK[n] < 0x100 && y == ByteV(x ^ CHECK[n])
    requires Crc.Update(Polynomials.Ones(32), CheckBytes(n)) == BitsV(x, 32)
    ensures Crc.Update(Polynomials.Ones(32), CheckBytes(n + 1)) == BitsV(y, 32)
  {
    hide BitsV, Crc.Bits, ByteV;
    assert CheckBytes(n + 1)[..n] == CheckBytes(n);
    WideV(CHECK[n]);
    XorV(x, CHECK[n], 32);
    EightV(x ^ CHECK[n]);
  }

  lemma OnesV()
    ensures BitsV(0xffff_ffff, 32) == Polynomials.Ones(32)
  {
    assert BitsV(0xf, 4) == Polynomials.Ones(4);
    assert BitsV(0xff, 8) == Polynomials.Ones(8);
    assert BitsV(0xfff, 12) == Polynomials.Ones(12);
    assert BitsV(0xffff, 16) == Polynomials.Ones(16);
    assert BitsV(0xf_ffff, 20) == Polynomials.Ones(20);
    assert BitsV(0xff_ffff, 24) == Polynomials.Ones(24);
    assert BitsV(0xfff_ffff, 28) == Polynomials.Ones(28);
  }

  lemma CheckThree1()
    requires Crc.Update(Polynomials.Ones(32), CheckBytes(0)) == BitsV(0xffff_ffff, 32)
    ensures Crc.Update(Polynomials.Ones(32), CheckBytes(3)) == BitsV(0xef84_d04d, 32)
  {
    hide BitsV, Crc.Update, CheckBytes;
    CheckStep(0, 0xffff_ffff, 0x6f0a_661c);
    CheckStep(1, 0x6f0a_661c, 0x8caa_3b9f);
    CheckStep(2, 0x8caa_3b9f, 0xef84_d04d);
  }

  lemma CheckThree2()
    requires Crc.Update(Polynomials.Ones(32), CheckBytes(3)) == BitsV(0xef84_d04d, 32)
    ensures Crc.Update(Polynomials.Ones(32), CheckBytes(6)) == BitsV(0xbeca_8e79, 32)
  {
    hide BitsV, Crc.Update, CheckBytes;
    CheckStep(3, 0xef84_d04d, 0x9c5_0b11);
    CheckStep(4, 0x9c5_0b11, 0xe72e_dcca);
    CheckStep(5, 0xe72e_dcca, 0xbeca_8e79);
  }

  lemma CheckThree3()
    requires Crc.Update(Polynomials.Ones(32), CheckBytes(6)) == BitsV(0xbeca_8e79, 32)
    ensures Crc.Update(Polynomials.Ones(32), CheckBytes(9)) == BitsV(0x1cf9_6d7c, 32)
  {
    hide BitsV, Crc.Update, CheckBytes;
    CheckStep(6, 0xbeca_8e79, 0xedbd_6815);
    CheckStep(7, 0xedbd_6815, 0x9f78_7f65);
    CheckStep(8, 0x9f78_7f65, 0x1cf9_6d7c);
  }

  lemma CheckState()
    ensures Crc.Update(Polynomials.Ones(32), CheckBytes(9)) == BitsV(0x1cf9_6d7c, 32)
  {
    OnesV();
    assert Crc.Update(Polynomials.Ones(32), CheckBytes(0)) == Polynomials.Ones(32);
    hide BitsV, Crc.Update, CheckBytes;
    CheckThree1();
    CheckThree2();
    CheckThree3();
  }

  /** The check value of CRC-32C: what the division of "123456789" from a state of ones leaves, complemented. */
  lemma CheckValue(key: seq<bool>)
    requires Crc.IsWord(key)
    requires Polynomials.IsRemainder(Crc.DIVISOR, Crc.Stream(Polynomials.Ones(32), Crc.Flat(CheckBytes(9))),
                                     Polynomials.Xor(key, Polynomials.Ones(32)))
    ensures NumberOf(key) == 0xe306_9283
  {
    CheckState();
    OnesV();
    Crc.DivisorIs();
    assert |Crc.DIVISOR| == 33;
    hide Polynomials.IsRemainder, Crc.DIVISOR, Crc.POLY, Crc.Stream, Crc.Flat, Crc.Update, NumberOf, CheckBytes, BitsV;
    var ones, buf := Polynomials.Ones(32), CheckBytes(9);
    var c := Crc.Update(ones, buf);
    Crc.IsUpdate(ones, buf);
    Polynomials.OneRemainder(Crc.DIVISOR, Crc.Stream(ones, Crc.Flat(buf)), c, Polynomials.Xor(key, ones));
    Polynomials.XorTwice(key, ones);
    XorV(0x1cf9_6d7c, 0xffff_ffff, 32);
    assert (0x1cf9_6d7c as bv32) ^ 0xffff_ffff == 0xe306_9283;
    Nibbles();
  }
}
