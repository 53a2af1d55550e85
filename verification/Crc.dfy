/** The CRC under which recorded traces are told apart: the software form of update_crc. A word is the sequence of its
    bits, the lowest first. */
module Crc {
  import opened Polynomials

  const WIDTH := 32

  ghost predicate IsWord(c: seq<bool>) {
    |c| == WIDTH
  }

  /** 0x82f63b78 */
  const POLY: seq<bool> :=
    [ false, false, false, true, true, true, true, false,
      true, true, false, true, true, true, false, false,
      false, true, true, false, true, true, true, true,
      false, true, false, false, false, false, false, true ]

  function Shr(c: seq<bool>): (d: seq<bool>)
    requires IsWord(c)
    ensures IsWord(d)
  {
    c[1..] + [false]
  }

  // ---------- one bit ----------

  function Bit(c: seq<bool>): (d: seq<bool>)
    requires IsWord(c)
    ensures IsWord(d)
  {
    if c[0] then Xor(Shr(c), POLY) else Shr(c)
  }

  /** The state before a bit step: the polynomial has its top bit set, so the top bit tells which case was taken. */
  function Unbit(d: seq<bool>): (c: seq<bool>)
    requires IsWord(d)
    ensures IsWord(c)
  {
    if d[31] then [true] + Xor(d, POLY)[..31] else [false] + d[..31]
  }

  lemma BitInverse(c: seq<bool>)
    requires IsWord(c)
    ensures Unbit(Bit(c)) == c && Bit(Unbit(c)) == c
  {
    var d := Bit(c);
    assert POLY[31];
    assert d[31] == c[0];
    if c[0] {
      assert Xor(d, POLY) == Shr(c);
    }
    assert Unbit(d) == c;
    var e := Unbit(c);
    if c[31] {
      assert Shr(e) == Xor(c, POLY);
      assert Bit(e) == c;
    } else {
      assert Shr(e) == c;
    }
  }

  /** The step is linear in what is to be added, as long as the lowest bit of that is clear. */
  lemma BitAdds(c: seq<bool>, z: seq<bool>)
    requires IsWord(c) && IsWord(z) && !z[0]
    ensures Bit(Xor(c, z)) == Xor(Bit(c), Shr(z))
  {
    assert Shr(Xor(c, z)) == Xor(Shr(c), Shr(z));
  }

  // ---------- several bits ----------

  function Bits(c: seq<bool>, n: nat): (d: seq<bool>)
    requires IsWord(c)
    ensures IsWord(d)
    decreases n
  {
    if n == 0 then c else Bit(Bits(c, n - 1))
  }

  function Unbits(c: seq<bool>, n: nat): (d: seq<bool>)
    requires IsWord(c)
    ensures IsWord(d)
    decreases n
  {
    if n == 0 then c else Unbits(Unbit(c), n - 1)
  }

  lemma {:induction false} BitsInverse(c: seq<bool>, n: nat)
    requires IsWord(c)
    ensures Unbits(Bits(c, n), n) == c
    decreases n
  {
    hide Bit, Unbit;
    if n > 0 {
      BitInverse(Bits(c, n - 1));
      BitsInverse(c, n - 1);
    }
  }

  lemma {:induction false} UnbitsInverse(c: seq<bool>, n: nat)
    requires IsWord(c)
    ensures Bits(Unbits(c, n), n) == c
    decreases n
  {
    hide Bit, Unbit;
    if n > 0 {
      UnbitsInverse(Unbit(c), n - 1);
      BitInverse(c);
    }
  }

  lemma {:induction false} BitsAdd(c: seq<bool>, m: nat, n: nat)
    requires IsWord(c)
    ensures Bits(c, m + n) == Bits(Bits(c, m), n)
    decreases n
  {
    hide Bit;
    if n > 0 {
      BitsAdd(c, m, n - 1);
      assert m + n - 1 == m + (n - 1);
    }
  }

  /** z shifted right by k. */
  function Down(z: seq<bool>, k: nat): (d: seq<bool>)
    requires IsWord(z) && k <= WIDTH
    ensures IsWord(d)
  {
    z[k..] + Zeros(k)
  }

  /** What is to be added after k bits can be added before them, k bits further up. */
  lemma {:induction false} AddEarly(c: seq<bool>, z: seq<bool>, k: nat)
    requires IsWord(c) && IsWord(z) && k <= WIDTH && forall i :: 0 <= i < k ==> !z[i]
    ensures Bits(Xor(c, z), k) == Xor(Bits(c, k), Down(z, k))
    decreases k
  {
    hide Bit;
    if k == 0 {
      assert Down(z, 0) == z;
    } else {
      AddEarly(c, z, k - 1);
      BitAdds(Bits(c, k - 1), Down(z, k - 1));
      assert Shr(Down(z, k - 1)) == Down(z, k);
    }
  }

  // ---------- bytes ----------

  ghost predicate AreBytes(buf: seq<seq<bool>>) {
    forall i :: 0 <= i < |buf| ==> |buf[i]| == 8
  }

  /** A byte in the low bits of a word. */
  function Widen(b: seq<bool>): (w: seq<bool>)
    requires |b| == 8
    ensures IsWord(w)
  {
    b + Zeros(24)
  }

  function ByteStep(c: seq<bool>, b: seq<bool>): (d: seq<bool>)
    requires IsWord(c) && |b| == 8
    ensures IsWord(d)
  {
    Bits(Xor(c, Widen(b)), 8)
  }

  /** The state after the bytes of buf. */
  function Update(crc: seq<bool>, buf: seq<seq<bool>>): (c: seq<bool>)
    requires IsWord(crc) && AreBytes(buf)
    ensures IsWord(c)
    decreases |buf|
  {
    if buf == [] then crc else ByteStep(Update(crc, buf[..|buf| - 1]), buf[|buf| - 1])
  }

  // ---------- the remainder of a division ----------

  /** The exponents of the polynomial of CRC-32C, as section 12.1 of RFC 3720 gives it in hexadecimal, 0x11edc6f41. */
  const EXPONENTS: set<int> := {32, 28, 27, 26, 25, 23, 22, 20, 19, 18, 14, 13, 11, 10, 9, 8, 6, 0}

  const DIVISOR: seq<bool> := seq(33, i => 32 - i in EXPONENTS)

  /** The constant of the code is this polynomial without its leading term: lowest bit first is highest coefficient
      first. */
  lemma DivisorIs()
    ensures DIVISOR == [true] + POLY
  {
  }

  function Flat(ss: seq<seq<bool>>): (m: seq<bool>)
    ensures AreBytes(ss) ==> |m| == 8 * |ss|
    ensures AreWords(ss) ==> |m| == 32 * |ss|
    decreases |ss|
  {
    if ss == [] then [] else Flat(ss[..|ss| - 1]) + ss[|ss| - 1]
  }

  /** The polynomial that is divided: the message, 32 places up, with the starting state added to its first 32
      coefficients. Every byte of the message comes with its lowest bit first. */
  function Stream(c: seq<bool>, m: seq<bool>): (s: seq<bool>)
    requires IsWord(c)
    ensures |s| == |m| + 32
  {
    Xor(c + Zeros(|m|), m + Zeros(32))
  }

  /** What a bit step leaves is what a division step leaves. */
  lemma BitDivides(c: seq<bool>, d: seq<bool>, t: seq<bool>, p: seq<bool>, n: nat)
    requires |c| == |d| == |p| == 32 && |t| == n + 32
    requires d == if c[0] then Xor(c[1..] + [false], p) else c[1..] + [false]
    ensures Xor(c + Zeros(n + 1), [false] + t) == Xor(Term(c[0], [true] + p, n), [false] + Xor(d + Zeros(n), t))
  {
    var s, m, u := Xor(c + Zeros(n + 1), [false] + t), Term(c[0], [true] + p, n), Xor(d + Zeros(n), t);
    forall i | 0 <= i < n + 33
      ensures s[i] == Xor(m, [false] + u)[i]
    {
      if 0 < i < 32 {
        assert u[i - 1] == (d[i - 1] != t[i - 1]) && s[i] == (c[i] != t[i - 1]);
        assert m[i] == (c[0] && p[i - 1]);
      } else if i == 32 {
        assert u[31] == (d[31] != t[31]) && s[32] == t[31];
        assert m[i] == (c[0] && p[31]);
      } else if i > 32 {
        assert u[i - 1] == t[i - 1] && s[i] == t[i - 1] && !m[i];
      }
    }
  }

  /** One bit step is one step of the division. */
  lemma BitRemainder(c: seq<bool>, t: seq<bool>, r: seq<bool>)
    requires IsWord(c) && |t| >= 32
    requires IsRemainder(DIVISOR, Xor(Bit(c) + Zeros(|t| - 32), t), r)
    ensures IsRemainder(DIVISOR, Xor(c + Zeros(|t| - 31), [false] + t), r)
  {
    assert |POLY| == 32;
    DivisorIs();
    hide IsRemainder, DIVISOR, POLY, Term;
    BitDivides(c, Bit(c), t, POLY, |t| - 32);
    DivisionStep(DIVISOR, Xor(c + Zeros(|t| - 31), [false] + t), Xor(Bit(c) + Zeros(|t| - 32), t), r);
  }

  lemma {:induction false} BitsRemainder(c: seq<bool>, k: nat, t: seq<bool>, r: seq<bool>)
    requires IsWord(c) && |t| >= 32
    requires IsRemainder(DIVISOR, Xor(Bits(c, k) + Zeros(|t| - 32), t), r)
    ensures IsRemainder(DIVISOR, Xor(c + Zeros(|t| + k - 32), Zeros(k) + t), r)
    decreases k
  {
    hide IsRemainder, DIVISOR, Bit;
    if k == 0 {
      assert Zeros(0) + t == t;
    } else {
      BitRemainder(Bits(c, k - 1), t, r);
      BitsRemainder(c, k - 1, [false] + t, r);
      assert Zeros(k - 1) + ([false] + t) == Zeros(k) + t;
    }
  }

  lemma ByteRemainder(c: seq<bool>, b: seq<bool>, m: seq<bool>, r: seq<bool>)
    requires IsWord(c) && |b| == 8
    requires IsRemainder(DIVISOR, Stream(ByteStep(c, b), m), r)
    ensures IsRemainder(DIVISOR, Stream(c, b + m), r)
  {
    hide IsRemainder, DIVISOR, Bits;
    BitsRemainder(Xor(c, Widen(b)), 8, m + Zeros(32), r);
    assert Xor(Xor(c, Widen(b)) + Zeros(|m| + 8), Zeros(8) + (m + Zeros(32))) == Stream(c, b + m);
  }

  lemma {:induction false} UpdateRemainder(c: seq<bool>, buf: seq<seq<bool>>, m: seq<bool>, r: seq<bool>)
    requires IsWord(c) && AreBytes(buf) && IsRemainder(DIVISOR, Stream(Update(c, buf), m), r)
    ensures IsRemainder(DIVISOR, Stream(c, Flat(buf) + m), r)
    decreases |buf|
  {
    hide IsRemainder, DIVISOR, ByteStep, Stream;
    if buf == [] {
      assert [] + m == m;
    } else {
      var rest, b := buf[..|buf| - 1], buf[|buf| - 1];
      ByteRemainder(Update(c, rest), b, m, r);
      UpdateRemainder(c, rest, b + m, r);
      assert Flat(rest) + (b + m) == Flat(buf) + m;
    }
  }

  /** The state itself is what is left at the end. */
  lemma NothingToDivide(c: seq<bool>)
    requires IsWord(c)
    ensures IsRemainder(DIVISOR, Stream(c, []), c)
  {
    OwnRemainder(DIVISOR, c);
    assert Stream(c, []) == c;
  }

  lemma IsUpdate(c: seq<bool>, buf: seq<seq<bool>>)
    requires IsWord(c) && AreBytes(buf)
    ensures IsRemainder(DIVISOR, Stream(c, Flat(buf)), Update(c, buf))
  {
    hide Update, IsRemainder, DIVISOR, Stream;
    NothingToDivide(Update(c, buf));
    UpdateRemainder(c, buf, [], Update(c, buf));
    assert Flat(buf) + [] == Flat(buf);
  }

  /** The state after the bytes of buf is the remainder of the division by the polynomial. */
  method UpdateCrc(crc: seq<bool>, buf: seq<seq<bool>>) returns (c: seq<bool>)
    requires IsWord(crc) && AreBytes(buf)
    ensures IsRemainder(DIVISOR, Stream(crc, Flat(buf)), c)
    ensures c == Update(crc, buf)
  {
    hide Bit, IsRemainder, DIVISOR, Stream, Flat;
    c := crc;
    for n := 0 to |buf|
      invariant c == Update(crc, buf[..n])
    {
      assert buf[..n + 1][..n] == buf[..n];
      c := Xor(c, Widen(buf[n]));
      ghost var start := c;
      for k := 0 to 8
        invariant IsWord(c) && c == Bits(start, k)
      {
        c := if c[0] then Xor(Shr(c), POLY) else Shr(c);
        BitIs(Bits(start, k));
      }
    }
    assert buf[..|buf|] == buf;
    IsUpdate(crc, buf);
  }

  lemma BitIs(c: seq<bool>)
    requires IsWord(c)
    ensures Bit(c) == if c[0] then Xor(Shr(c), POLY) else Shr(c)
  {
  }

  /** The state from which the bytes of buf lead to d. */
  function Undo(d: seq<bool>, buf: seq<seq<bool>>): (c: seq<bool>)
    requires IsWord(d) && AreBytes(buf)
    ensures IsWord(c)
    decreases |buf|
  {
    if buf == [] then d else Undo(Xor(Unbits(d, 8), Widen(buf[|buf| - 1])), buf[..|buf| - 1])
  }

  /** For fixed bytes the update is a bijection on the states. */
  lemma {:induction false} UpdateBijective(c: seq<bool>, buf: seq<seq<bool>>)
    requires IsWord(c) && AreBytes(buf)
    ensures Undo(Update(c, buf), buf) == c && Update(Undo(c, buf), buf) == c
    decreases |buf|
  {
    hide Bits, Unbits, Widen, Xor;
    if buf != [] {
      var rest, w := buf[..|buf| - 1], Widen(buf[|buf| - 1]);
      BitsInverse(Xor(Update(c, rest), w), 8);
      XorTwice(Update(c, rest), w);
      UpdateBijective(c, rest);
      UpdateBijective(Xor(Unbits(c, 8), w), rest);
      XorTwice(Unbits(c, 8), w);
      UnbitsInverse(c, 8);
    }
  }

  lemma UpdateInjective(c: seq<bool>, d: seq<bool>, buf: seq<seq<bool>>)
    requires IsWord(c) && IsWord(d) && AreBytes(buf) && Update(c, buf) == Update(d, buf)
    ensures c == d
  {
    hide Update, Undo;
    UpdateBijective(c, buf);
    UpdateBijective(d, buf);
  }

  // ---------- the four bytes of an address ----------

  /** The bytes of an address as they lie in memory. */
  function AddrBytes(a: seq<bool>): (buf: seq<seq<bool>>)
    requires IsWord(a)
    ensures AreBytes(buf) && |buf| == 4
  {
    [a[..8], a[8..16], a[16..24], a[24..]]
  }

  /** A byte step with the lowest byte of a leaves the rest of a to be added. */
  lemma ByteOf(c: seq<bool>, a: seq<bool>)
    requires IsWord(c) && IsWord(a)
    ensures Bits(Xor(c, a), 8) == Xor(ByteStep(c, a[..8]), Down(a, 8))
  {
    hide Bits;
    var low, high := Widen(a[..8]), Zeros(8) + a[8..];
    assert Xor(c, a) == Xor(Xor(c, low), high);
    AddEarly(Xor(c, low), high, 8);
    assert Down(high, 8) == Down(a, 8);
  }

  lemma DownFacts(a: seq<bool>)
    requires IsWord(a)
    ensures Down(a, 8)[..8] == a[8..16] && Down(a, 16)[..8] == a[16..24] && Down(a, 24)[..8] == a[24..]
    ensures Down(Down(a, 8), 8) == Down(a, 16) && Down(Down(a, 16), 8) == Down(a, 24)
    ensures Down(Down(a, 24), 8) == Zeros(32)
  {
  }

  lemma XorZeros(c: seq<bool>)
    ensures Xor(c, Zeros(|c|)) == c
  {
  }

  /** Four bytes are one step of 32 bits with the whole address. */
  lemma AddrStep(c: seq<bool>, a: seq<bool>)
    requires IsWord(c) && IsWord(a)
    ensures Update(c, AddrBytes(a)) == Bits(Xor(c, a), 32)
  {
    hide Bits, ByteStep, Down, Update;
    var s := AddrBytes(a);
    var c1 := ByteStep(c, a[..8]);
    var c2 := ByteStep(c1, a[8..16]);
    var c3 := ByteStep(c2, a[16..24]);
    var c4 := ByteStep(c3, a[24..]);
    UpdateFour(c, s);
    var a1, a2, a3 := Down(a, 8), Down(a, 16), Down(a, 24);
    DownFacts(a);
    ByteOf(c, a);
    ByteOf(c1, a1);
    ByteOf(c2, a2);
    ByteOf(c3, a3);
    XorZeros(c4);
    var x := Xor(c, a);
    BitsAdd(x, 8, 8);
    BitsAdd(x, 16, 8);
    BitsAdd(x, 24, 8);
  }

  lemma UpdateFour(c: seq<bool>, s: seq<seq<bool>>)
    requires IsWord(c) && |s| == 4 && AreBytes(s)
    ensures Update(c, s) == ByteStep(ByteStep(ByteStep(ByteStep(c, s[0]), s[1]), s[2]), s[3])
  {
    hide ByteStep;
    assert s[..3][..2] == s[..2] && s[..2][..1] == s[..1] && s[..1][..0] == [];
    assert Update(c, s[..1]) == ByteStep(c, s[0]);
    assert Update(c, s[..2]) == ByteStep(Update(c, s[..1]), s[1]);
    assert Update(c, s[..3]) == ByteStep(Update(c, s[..2]), s[2]);
  }

  /** Different addresses lead from one state to different states. */
  lemma AddrInjective(c: seq<bool>, a: seq<bool>, b: seq<bool>)
    requires IsWord(c) && IsWord(a) && IsWord(b) && Update(c, AddrBytes(a)) == Update(c, AddrBytes(b))
    ensures a == b
  {
    hide Bits, Unbits, Update, AddrBytes;
    AddrStep(c, a);
    AddrStep(c, b);
    BitsInverse(Xor(c, a), 32);
    BitsInverse(Xor(c, b), 32);
    XorCancel(c, a, b);
  }

  // ---------- keys of traces ----------

  ghost predicate AreWords(trace: seq<seq<bool>>) {
    forall i :: 0 <= i < |trace| ==> IsWord(trace[i])
  }

  /** The state after the entry addresses of the blocks of a trace. */
  function Fold(crc: seq<bool>, trace: seq<seq<bool>>): (c: seq<bool>)
    requires IsWord(crc) && AreWords(trace)
    ensures IsWord(c)
    decreases |trace|
  {
    if trace == [] then crc else Update(Fold(crc, trace[..|trace| - 1]), AddrBytes(trace[|trace| - 1]))
  }

  /** The key that addRegion computes from the entry addresses of a trace. */
  function Key(trace: seq<seq<bool>>): seq<bool>
    requires AreWords(trace)
  {
    Xor(Fold(Ones(32), trace), Ones(32))
  }

  /** The four bytes of an address are its bits in order. */
  lemma FlatAddr(a: seq<bool>)
    requires IsWord(a)
    ensures Flat(AddrBytes(a)) == a
  {
    var s := AddrBytes(a);
    assert s[..3][..2] == s[..2] && s[..2][..1] == s[..1] && s[..1][..0] == [];
    assert Flat(s[..1]) == a[..8];
    assert Flat(s[..2]) == a[..16];
    assert Flat(s[..3]) == a[..24];
  }

  lemma {:induction false} FoldRemainder(c: seq<bool>, trace: seq<seq<bool>>, m: seq<bool>, r: seq<bool>)
    requires IsWord(c) && AreWords(trace) && IsRemainder(DIVISOR, Stream(Fold(c, trace), m), r)
    ensures IsRemainder(DIVISOR, Stream(c, Flat(trace) + m), r)
    decreases |trace|
  {
    hide IsRemainder, DIVISOR, Update, AddrBytes, Stream;
    if trace == [] {
      assert [] + m == m;
    } else {
      var rest, a := trace[..|trace| - 1], trace[|trace| - 1];
      UpdateRemainder(Fold(c, rest), AddrBytes(a), m, r);
      FlatAddr(a);
      FoldRemainder(c, rest, a + m, r);
      assert Flat(rest) + (a + m) == Flat(trace) + m;
    }
  }

  /** The key is the complement of the remainder that the entry addresses leave, divided from a state of ones. */
  method TraceKey(trace: seq<seq<bool>>) returns (key: seq<bool>)
    requires AreWords(trace)
    ensures IsWord(key) && IsRemainder(DIVISOR, Stream(Ones(32), Flat(trace)), Xor(key, Ones(32)))
    ensures key == Key(trace)
  {
    hide Update, AddrBytes, IsRemainder, DIVISOR, Stream, Flat;
    var crc := Ones(32);
    for i := 0 to |trace|
      invariant crc == Fold(Ones(32), trace[..i])
    {
      assert trace[..i + 1][..i] == trace[..i];
      crc := UpdateCrc(crc, AddrBytes(trace[i]));
    }
    assert trace[..|trace|] == trace;
    key := Xor(crc, Ones(32));
    NothingToDivide(crc);
    FoldRemainder(Ones(32), trace, [], crc);
    assert Flat(trace) + [] == Flat(trace);
    XorTwice(crc, Ones(32));
  }

  /** Traces of the same length that differ in exactly one block lead from one state to different states. */
  lemma {:induction false} FoldsDiffer(c: seq<bool>, s: seq<seq<bool>>, t: seq<seq<bool>>, k: nat)
    requires IsWord(c) && AreWords(s) && AreWords(t)
    requires |s| == |t| && k < |s| && s[k] != t[k] && forall i :: 0 <= i < |s| && i != k ==> s[i] == t[i]
    ensures Fold(c, s) != Fold(c, t)
    decreases |s|
  {
    hide Update, AddrBytes;
    var n := |s| - 1;
    if k == n {
      assert s[..n] == t[..n];
      if Fold(c, s) == Fold(c, t) {
        AddrInjective(Fold(c, s[..n]), s[n], t[n]);
      }
    } else {
      FoldsDiffer(c, s[..n], t[..n], k);
      if Fold(c, s) == Fold(c, t) {
        UpdateInjective(Fold(c, s[..n]), Fold(c, t[..n]), AddrBytes(s[n]));
      }
    }
  }

  /** Two traces of the same length that differ in exactly one block have different keys. */
  lemma KeysDiffer(s: seq<seq<bool>>, t: seq<seq<bool>>, k: nat)
    requires AreWords(s) && AreWords(t)
    requires |s| == |t| && k < |s| && s[k] != t[k] && forall i :: 0 <= i < |s| && i != k ==> s[i] == t[i]
    ensures Key(s) != Key(t)
  {
    hide Fold;
    FoldsDiffer(Ones(32), s, t, k);
    if Key(s) == Key(t) {
      XorTwice(Fold(Ones(32), s), Ones(32));
      XorTwice(Fold(Ones(32), t), Ones(32));
    }
  }
}
