/** The loop of main with the translator off: plain interpretation, which throws at the first transfer of control. */
module PlainMode {
  import opened Rv32
  import opened MachineFacts

  /** The next instruction transfers control, so that execRiscv looks for the next block. */
  predicate TransfersAt(s: State) {
    match Fetch(s) case Some(i) => IsControl(i) case None => false
  }

  /** The n-th step transfers control. */
  ghost predicate Jumped(s: State, n: nat) {
    n > 0 && InterpretN(s, n - 1).Some? && TransfersAt(InterpretN(s, n - 1).value)
  }

  lemma JumpedLater(s: State, m: nat, n: nat)
    requires InterpretN(s, m).Some? && Jumped(InterpretN(s, m).value, n)
    ensures Jumped(s, m + n)
  {
    hide InterpretN, TransfersAt;
    RunsCompose(s, m, n - 1);
    assert m + n - 1 == m + (n - 1);
  }

  /** None of the first n steps transfers control. */
  ghost predicate StraightLine(s: State, n: nat) {
    forall j :: 0 <= j < n ==> InterpretN(s, j).Some? && !TransfersAt(InterpretN(s, j).value)
  }

  /** execRiscv<false> while no block is built: the block that the machine is in has no instructions, and addSuccessor
      asks for its last one, so that a transfer of control ends in an uncaught exception. None where it does, or the
      interpreter gives up. */
  function PlainStep(s: State): Option<State> {
    if TransfersAt(s) then None else Interpret(s)
  }

  function PlainN(s: State, n: nat): Option<State> {
    if n == 0 then Some(s)
    else match PlainN(s, n - 1)
      case None => None
      case Some(t) => PlainStep(t)
  }

  lemma PlainNone(s: State)
    ensures PlainN(s, 0) == Some(s)
  {
  }

  lemma PlainStepIs(s: State, n: nat, t: State, u: State)
    requires PlainN(s, n) == Some(t) && Interpret(t) == Some(u)
    ensures !TransfersAt(t) ==> PlainN(s, n + 1) == Some(u)
  {
    hide Interpret, TransfersAt;
  }

  /** n steps of the plain loop complete if and only if the interpreter takes n steps none of which transfers
      control. */
  lemma {:induction false} PlainExact(s: State, n: nat)
    ensures PlainN(s, n).Some? <==> InterpretN(s, n).Some? && StraightLine(s, n)
    ensures PlainN(s, n).Some? ==> PlainN(s, n) == InterpretN(s, n)
  {
    hide Interpret, TransfersAt;
    if n > 0 {
      PlainExact(s, n - 1);
      if PlainN(s, n).Some? {
        forall j | 0 <= j < n
          ensures InterpretN(s, j).Some? && !TransfersAt(InterpretN(s, j).value)
        {
        }
      }
      if InterpretN(s, n).Some? && StraightLine(s, n) {
        assert StraightLine(s, n - 1);
        assert !TransfersAt(InterpretN(s, n - 1).value);
      }
    }
  }

  lemma {:induction false} PlainBefore(s: State, n: nat, j: nat)
    requires PlainN(s, n).Some? && j <= n
    ensures PlainN(s, j).Some?
  {
    hide PlainStep;
    if j < n {
      PlainBefore(s, n - 1, j);
    }
  }

  /** The instruction count counts the steps. */
  lemma {:induction false} CountOf(s: State, n: nat)
    requires InterpretN(s, n).Some? && 0 <= s.icnt && s.icnt + n < DWORD
    ensures InterpretN(s, n).value.icnt == s.icnt + n
  {
    hide Interpret;
    if n > 0 {
      CountOf(s, n - 1);
      CountStep(InterpretN(s, n - 1).value, InterpretN(s, n).value);
    }
  }

  lemma CountStep(s: State, t: State)
    requires Interpret(s) == Some(t) && 0 <= s.icnt && s.icnt + 1 < DWORD
    ensures t.icnt == s.icnt + 1
  {
    hide Exec, Fetch;
  }

  // ---------- the loop ----------

  /** How the loop ends: by its condition, with the exception, or where the interpreter gives up. */
  datatype PlainEnd = Ended | Threw | GaveUp

  /** The condition of the loop. */
  predicate Continues(s: State, maxIcnt: int) {
    !s.brk && s.icnt < maxIcnt
  }

  /** The loop from s0 ends in e after n complete steps, in the state s. */
  ghost predicate PlainRun(s0: State, maxIcnt: int, e: PlainEnd, n: nat, s: State) {
    && PlainN(s0, n).Some? && (forall j :: 0 <= j < n ==>
       PlainN(s0, j).Some? && Continues(PlainN(s0, j).value, maxIcnt))
    && var t := PlainN(s0, n).value;
       match e
       case Ended => s == t && !Continues(t, maxIcnt)
       case Threw => Continues(t, maxIcnt) && TransfersAt(t) && Interpret(t) == Some(s)
       case GaveUp => s == t && Continues(t, maxIcnt) && Interpret(t).None?
  }

  /** The loop ends in one way. */
  lemma PlainRunOnce(s0: State, maxIcnt: int, e: PlainEnd, n: nat, s: State, e': PlainEnd, n': nat, s': State)
    requires PlainRun(s0, maxIcnt, e, n, s) && PlainRun(s0, maxIcnt, e', n', s')
    ensures e == e' && n == n' && s == s'
  {
    hide Interpret, TransfersAt;
    NotLonger(s0, maxIcnt, e, n, s, e', n', s');
    NotLonger(s0, maxIcnt, e', n', s', e, n, s);
  }

  lemma NotLonger(s0: State, maxIcnt: int, e: PlainEnd, n: nat, s: State, e': PlainEnd, n': nat, s': State)
    requires PlainRun(s0, maxIcnt, e, n, s) && PlainRun(s0, maxIcnt, e', n', s')
    ensures n' <= n
  {
    hide Interpret, TransfersAt;
    if n < n' {
      PlainBefore(s0, n', n + 1);
      assert false;
    }
  }

  lemma ThrowsAtOnce(s: State, maxIcnt: int, t: State)
    requires TransfersAt(s) && Interpret(s) == Some(t) && Continues(s, maxIcnt)
    ensures PlainN(s, 1).None? && InterpretN(s, 1) == Some(t) && PlainRun(s, maxIcnt, Threw, 0, t)
  {
    hide Interpret, TransfersAt;
    assert PlainN(s, 0) == Some(s) && InterpretN(s, 0) == Some(s);
  }
}
