/** Polynomials over the field of two elements: the sequence of their coefficients, the highest first. */
module Polynomials {
  function Zeros(n: nat): (z: seq<bool>)
    ensures |z| == n && forall i :: 0 <= i < n ==> !z[i]
  {
    seq(n, i => false)
  }

  function Ones(n: nat): (z: seq<bool>)
    ensures |z| == n && forall i :: 0 <= i < n ==> z[i]
  {
    seq(n, i => true)
  }

  /** The sum of two polynomials. */
  function Xor(a: seq<bool>, b: seq<bool>): (c: seq<bool>)
    requires |a| == |b|
    ensures |c| == |a| && forall i :: 0 <= i < |a| ==> c[i] == (a[i] != b[i])
  {
    seq(|a|, i requires 0 <= i < |a| => a[i] != b[i])
  }

  /** One coefficient times a polynomial, n places up. */
  function Term(b: bool, d: seq<bool>, n: nat): (t: seq<bool>)
    ensures |t| == |d| + n
  {
    if b then d + Zeros(n) else Zeros(|d| + n)
  }

  /** The product, as the sum of the multiples of d that q stands for. */
  function Product(q: seq<bool>, d: seq<bool>): (p: seq<bool>)
    requires |d| > 0
    ensures |p| == |q| + |d| - 1
  {
    if q == [] then Zeros(|d| - 1) else Xor(Term(q[0], d, |q| - 1), [false] + Product(q[1..], d))
  }

  /** r is what is left of s after q times d is taken away. */
  predicate Divides(d: seq<bool>, s: seq<bool>, q: seq<bool>, r: seq<bool>) {
    |d| > 0 && |s| == |q| + |r| && |r| == |d| - 1 && Xor(s, Zeros(|q|) + r) == Product(q, d)
  }

  /** r is the remainder of s by d. */
  ghost predicate IsRemainder(d: seq<bool>, s: seq<bool>, r: seq<bool>) {
    exists q :: Divides(d, s, q, r)
  }

  lemma XorTwice(a: seq<bool>, b: seq<bool>)
    requires |a| == |b|
    ensures Xor(Xor(a, b), b) == a
  {
  }

  lemma XorCancel(c: seq<bool>, a: seq<bool>, b: seq<bool>)
    requires |a| == |b| == |c| && Xor(c, a) == Xor(c, b)
    ensures a == b
  {
    forall i | 0 <= i < |a|
      ensures a[i] == b[i]
    {
      assert Xor(c, a)[i] == Xor(c, b)[i];
    }
  }

  /** A polynomial of lower degree is its own remainder. */
  lemma OwnRemainder(d: seq<bool>, r: seq<bool>)
    requires |r| == |d| - 1
    ensures IsRemainder(d, r, r)
  {
    assert Xor(r, Zeros(0) + r) == Zeros(|r|);
    assert Divides(d, r, [], r);
  }

  lemma AddInside(m: seq<bool>, t: seq<bool>, z: seq<bool>)
    requires |m| == |t| + 1 == |z| + 1
    ensures Xor(Xor(m, [false] + t), [false] + z) == Xor(m, [false] + Xor(t, z))
  {
  }

  lemma MoreZeros(n: nat, r: seq<bool>)
    ensures Zeros(n + 1) + r == [false] + (Zeros(n) + r)
  {
    assert Zeros(n + 1) == [false] + Zeros(n);
  }

  /** A division step: the leading coefficient decides whether d is taken away. */
  lemma DivisionStep(d: seq<bool>, s: seq<bool>, t: seq<bool>, r: seq<bool>)
    requires |d| > 0 && |s| >= |d| && |t| == |s| - 1
    requires s == Xor(Term(s[0], d, |s| - |d|), [false] + t)
    requires IsRemainder(d, t, r)
    ensures IsRemainder(d, s, r)
  {
    hide Term;
    var q :| Divides(d, t, q, r);
    var p, m := [s[0]] + q, Term(s[0], d, |q|);
    assert p[1..] == q;
    MoreZeros(|q|, r);
    AddInside(m, t, Zeros(|q|) + r);
    assert Divides(d, s, p, r);
  }

  /** The quotient and the remainder are the only ones. */
  lemma {:induction false} OneDivision(d: seq<bool>, s: seq<bool>, q: seq<bool>, r: seq<bool>, p: seq<bool>,
                                       t: seq<bool>)
    requires |d| > 0 && d[0] && Divides(d, s, q, r) && Divides(d, s, p, t)
    ensures q == p && r == t
    decreases |q|
  {
    hide Product, Term, Rest;
    if q == [] {
      assert Zeros(0) + r == r && Zeros(0) + t == t;
      XorCancel(s, r, t);
    } else {
      Leading(d, s, q, r);
      Leading(d, s, p, t);
      OneDivision(d, Rest(d, s), q[1..], r, p[1..], t);
      assert q == [q[0]] + q[1..] && p == [p[0]] + p[1..];
    }
  }

  /** What is left of s after one division step. */
  function Rest(d: seq<bool>, s: seq<bool>): (t: seq<bool>)
    requires |s| >= |d| > 0
    ensures |t| == |s| - 1
  {
    Xor(Term(s[0], d, |s| - |d|), s)[1..]
  }

  lemma Leading(d: seq<bool>, s: seq<bool>, q: seq<bool>, r: seq<bool>)
    requires |d| > 0 && d[0] && Divides(d, s, q, r) && q != []
    ensures q[0] == s[0] && Divides(d, Rest(d, s), q[1..], r)
  {
    var m := Term(q[0], d, |q| - 1);
    assert m[0] == q[0];
    hide Term;
    MoreZeros(|q| - 1, r);
    Solve(s, Zeros(|q| - 1) + r, m, Product(q[1..], d));
  }

  lemma Solve(s: seq<bool>, z: seq<bool>, m: seq<bool>, p: seq<bool>)
    requires |s| == |m| == |z| + 1 == |p| + 1 && Xor(s, [false] + z) == Xor(m, [false] + p)
    ensures s[0] == m[0] && Xor(Xor(m, s)[1..], z) == p
  {
    var a, b := Xor(s, [false] + z), Xor(m, [false] + p);
    assert a[0] == s[0] && b[0] == m[0];
    forall i | 0 <= i < |p|
      ensures Xor(Xor(m, s)[1..], z)[i] == p[i]
    {
      assert a[i + 1] == (s[i + 1] != z[i]) && b[i + 1] == (m[i + 1] != p[i]);
    }
  }

  lemma OneRemainder(d: seq<bool>, s: seq<bool>, r: seq<bool>, t: seq<bool>)
    requires |d| > 0 && d[0] && IsRemainder(d, s, r) && IsRemainder(d, s, t)
    ensures r == t
  {
    var q :| Divides(d, s, q, r);
    var p :| Divides(d, s, p, t);
    OneDivision(d, s, q, r, p, t);
  }
}
