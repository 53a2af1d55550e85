/** Why the block store survives the split of a block in the middle. */
module BlockSplit {
  import opened Graphs
  import opened Rv32
  import opened BlockHeap

  // ---------- the two halves ----------

  lemma ShiftAddr(e: int, i: int, j: int)
    ensures AddrOf(AddrOf(e, i), j) == AddrOf(e, i + j)
  {
  }

  lemma BackFour(e: int, i: int)
    ensures Wrap(AddrOf(e, i) - 4) == AddrOf(e, i - 1)
    ensures Wrap(AddrOf(e, i - 1) + 4) == AddrOf(e, i)
    ensures 0 <= AddrOf(e, i) < WORD
  {
  }

  lemma Halves(code: int -> int, e: int, v: Insns, i: int)
    requires Laid(code, e, v) && 0 < i < |v|
    ensures Laid(code, e, v[..i]) && Laid(code, AddrOf(e, i), v[i..])
    ensures !EndsInTransfer(v[..i]) && (EndsInTransfer(v[i..]) <==> EndsInTransfer(v))
  {
    hide Normal, Transfers, AddrOf;
    BackFour(e, i);
    var w := v[i..];
    forall j | 0 <= j < |w|
      ensures w[j].1 == AddrOf(AddrOf(e, i), j) && w[j].0 == code(AddrOf(AddrOf(e, i), j)) && Normal(w[j].0)
      ensures (j < |w| - 1 ==> !Transfers(w[j].0))
    {
      ShiftAddr(e, i, j);
      assert w[j] == v[i + j];
    }
    assert w[|w| - 1] == v[|v| - 1];
  }

  lemma HalvesSized(e: int, v: Insns, i: int, term: int)
    requires Sized(e, v, term) && 0 < i < |v|
    ensures Sized(e, v[..i], Wrap(AddrOf(e, i) - 4)) && Sized(AddrOf(e, i), v[i..], term)
  {
    hide AddrOf;
    BackFour(e, i);
    ShiftAddr(e, i, |v| - i - 1);
  }

  lemma PlainFollows(w: int, pc: int)
    requires Normal(w) && !Transfers(w)
    ensures Follows(w, pc, Wrap(pc + 4))
  {
    hide Decode;
  }

  /** Control falls from the first half into the second, and leaves the second for where it left the whole. */
  lemma HalvesFlow(code: int -> int, e: int, v: Insns, i: int)
    requires Laid(code, e, v) && 0 < i < |v|
    ensures CanGo(v[..i], AddrOf(e, i))
    ensures forall a :: CanGo(v[i..], a) <==> CanGo(v, a)
  {
    hide AddrOf, Wrap, Follows, Normal, Transfers;
    BackFour(e, i);
    assert v[i..][|v| - i - 1] == v[|v| - 1];
    assert v[..i][i - 1] == v[i - 1];
    PlainFollows(v[i - 1].0, v[i - 1].1);
  }

  lemma HalvesContain(v: Insns, i: int)
    requires 0 <= i <= |v|
    ensures forall k :: Contains(v, k) <==> Contains(v[..i], k) || Contains(v[i..], k)
  {
    forall k
      ensures Contains(v, k) <==> Contains(v[..i], k) || Contains(v[i..], k)
    {
      if Contains(v, k) {
        var j :| 0 <= j < |v| && v[j].1 == k;
        if j < i {
          assert v[..i][j].1 == k;
        } else {
          assert v[i..][j - i].1 == k;
        }
      }
      if Contains(v[i..], k) {
        var j :| 0 <= j < |v| - i && v[i..][j].1 == k;
        assert v[i + j].1 == k;
      }
    }
  }

  // ---------- the fields after the split of b, n being the second half ----------

  /** The edges: b goes to n only, and n goes where b went. */
  ghost predicate SplitSuccs(m: map<Block, set<Block>>, b: Block, n: Block, m': map<Block, set<Block>>) {
    forall u, v :: Edge(m', u, v) <==> if u == b then v == n else if u == n then Edge(m, b, v) else Edge(m, u, v)
  }

  ghost predicate SplitPreds(m: map<Block, set<Block>>, b: Block, n: Block, m': map<Block, set<Block>>) {
    forall u, v :: Edge(m', v, u) <==> if u == b then v == n else if u == n then Edge(m, v, b) else Edge(m, v, u)
  }

  ghost predicate SplitFinds(m: map<Block, map<int, Block>>, b: Block, n: Block, a: int,
                             m': map<Block, map<int, Block>>) {
    forall u, k, v :: Finds(m', u, k, v) <==>
      if u == b then k == a && v == n else if u == n then Finds(m, b, k, v) else Finds(m, u, k, v)
  }

  /** Every other block's code is as it was; b keeps the first i instructions, n gets the rest. */
  ghost predicate SplitCode(entry: map<Block, int>, ins: map<Block, Insns>, term: map<Block, int>, b: Block, n: Block,
                            i: int,
                            entry': map<Block, int>, ins': map<Block, Insns>, term': map<Block, int>)
    requires 0 <= i <= |Code(ins, b)|
  {
    && (forall y :: y != n ==> (y in entry' <==> y in entry) && Entry(entry', y) == Entry(entry, y))
    && (forall y :: y != n && y != b ==> Code(ins', y) == Code(ins, y) && Entry(term', y) == Entry(term, y))
    && n in entry' && Entry(entry', n) == AddrOf(Entry(entry, b), i)
    && Code(ins', b) == Code(ins, b)[..i] && Code(ins', n) == Code(ins, b)[i..]
    && Entry(term', b) == Wrap(AddrOf(Entry(entry, b), i) - 4) && Entry(term', n) == Entry(term, b)
  }

  lemma SplitKeepsCode(code: int -> int, entry: map<Block, int>, ins: map<Block, Insns>, term: map<Block, int>,
                       readOnly: set<Block>, b: Block, n: Block, i: int,
                       entry': map<Block, int>, ins': map<Block, Insns>, term': map<Block, int>, readOnly': set<Block>)
    requires CodeOk(code, entry, ins, term, readOnly) && b in entry && n !in entry && 0 < i < |Code(ins, b)|
    requires Sized(Entry(entry, b), Code(ins, b), Entry(term, b))
    requires SplitCode(entry, ins, term, b, n, i, entry', ins', term') && Dom(entry', ins') && Dom(entry', term')
    requires forall x :: x in readOnly' <==> x in readOnly || x == b || x == n
    ensures CodeOk(code, entry', ins', term', readOnly')
  {
    hide *;
    BlockOf(code, entry, ins, term, readOnly, b);
    Halves(code, Entry(entry, b), Code(ins, b), i);
    HalvesSized(Entry(entry, b), Code(ins, b), i, Entry(term, b));
    SplitParts(entry, ins, term, b, n, i, entry', ins', term');
    SomeBlock(code, entry, ins, term, readOnly);
    MakeCode(code, entry, ins, term, readOnly, b, n, entry', ins', term', readOnly');
  }

  lemma SplitParts(entry: map<Block, int>, ins: map<Block, Insns>, term: map<Block, int>, b: Block, n: Block, i: int,
                   entry': map<Block, int>, ins': map<Block, Insns>, term': map<Block, int>)
    requires 0 <= i <= |Code(ins, b)| && b in entry && n !in entry
    requires SplitCode(entry, ins, term, b, n, i, entry', ins', term')
    ensures EntriesKept(entry, entry') && b in entry' && n in entry' && Entry(entry', n) == AddrOf(Entry(entry, b), i)
    ensures Entry(entry', b) == Entry(entry, b)
    ensures Code(ins', b) == Code(ins, b)[..i] && Code(ins', n) == Code(ins, b)[i..]
    ensures Entry(term', b) == Wrap(AddrOf(Entry(entry, b), i) - 4) && Entry(term', n) == Entry(term, b)
    ensures forall y :: y != b && y != n ==>
      (y in entry' <==> y in entry) && Entry(entry', y) == Entry(entry, y) && Code(ins', y) == Code(ins, y)
      && Entry(term', y) == Entry(term, y)
  {
    hide Entry, Code, AddrOf, Wrap;
  }

  lemma SomeBlock(code: int -> int, entry: map<Block, int>, ins: map<Block, Insns>, term: map<Block, int>,
                  readOnly: set<Block>)
    requires CodeOk(code, entry, ins, term, readOnly)
    ensures forall x :: x in readOnly ==> x in entry && Sized(Entry(entry, x), Code(ins, x), Entry(term, x))
    ensures forall x :: x in entry ==> Laid(code, Entry(entry, x), Code(ins, x))
    ensures forall x :: x in entry && x !in readOnly ==> Growing(Entry(entry, x), Code(ins, x), Entry(term, x))
  {
    hide Entry, Code, Laid, Sized, Growing, Dom;
  }

  lemma MakeCode(code: int -> int, entry: map<Block, int>, ins: map<Block, Insns>, term: map<Block, int>,
                 readOnly: set<Block>, b: Block, n: Block,
                 entry': map<Block, int>, ins': map<Block, Insns>, term': map<Block, int>, readOnly': set<Block>)
    requires forall x :: x in readOnly ==> x in entry && Sized(Entry(entry, x), Code(ins, x), Entry(term, x))
    requires forall x :: x in entry ==> Laid(code, Entry(entry, x), Code(ins, x))
    requires forall x :: x in entry && x !in readOnly ==> Growing(Entry(entry, x), Code(ins, x), Entry(term, x))
    requires forall y :: y != b && y != n ==>
      (y in entry' <==> y in entry) && Entry(entry', y) == Entry(entry, y) && Code(ins', y) == Code(ins, y)
      && Entry(term', y) == Entry(term, y)
    requires forall x :: x in readOnly' <==> x in readOnly || x == b || x == n
    requires b in entry' && Laid(code, Entry(entry', b), Code(ins', b))
    requires Sized(Entry(entry', b), Code(ins', b), Entry(term', b))
    requires n in entry' && Laid(code, Entry(entry', n), Code(ins', n))
    requires Sized(Entry(entry', n), Code(ins', n), Entry(term', n))
    requires Dom(entry', ins') && Dom(entry', term')
    ensures CodeOk(code, entry', ins', term', readOnly')
  {
    hide Entry, Code, Laid, Sized, Growing, Dom;
  }

  lemma SplitKeepsEdges(entry: map<Block, int>, succs: map<Block, set<Block>>, preds: map<Block, set<Block>>,
                        succsMap: map<Block, map<int, Block>>,
                        b: Block, n: Block, a: int,
                        entry': map<Block, int>, succs': map<Block, set<Block>>, preds': map<Block, set<Block>>,
                          succsMap': map<Block, map<int, Block>>)
    requires EdgesOk(entry, succs, preds, succsMap) && EntriesKept(entry, entry') && b in entry && n !in entry
    requires n in entry' && Entry(entry', n) == a
    requires SplitSuccs(succs, b, n, succs') && SplitPreds(preds, b, n, preds')
    requires SplitFinds(succsMap, b, n, a, succsMap')
    requires Dom(entry', succs') && Dom(entry', preds') && Dom(entry', succsMap')
    ensures EdgesOk(entry', succs', preds', succsMap')
  {
    hide Edge, Finds, Dom, Entry;
    forall u, v | Edge(succs', u, v)
      ensures u in entry' && v in entry' && Edge(preds', v, u) && Finds(succsMap', u, Entry(entry', v), v)
    {
      if u != b {
        var w := if u == n then b else u;
        assert Edge(succs, w, v);
        assert Entry(entry', v) == Entry(entry, v);
      }
    }
    forall u, v | Edge(preds', v, u)
      ensures Edge(succs', u, v)
    {
      if u != b {
        assert Edge(preds, v, if u == n then b else u);
      }
    }
    forall u, k, v | Finds(succsMap', u, k, v)
      ensures Edge(succs', u, v) && Entry(entry', v) == k
    {
      if u != b {
        var w := if u == n then b else u;
        assert Finds(succsMap, w, k, v);
        assert Edge(succs, w, v);
      }
    }
  }

  lemma SplitKeepsFlow(code: int -> int, entry: map<Block, int>, ins: map<Block, Insns>, term: map<Block, int>,
                       readOnly: set<Block>, succs: map<Block, set<Block>>,
                       b: Block, n: Block, i: int, entry': map<Block, int>, ins': map<Block, Insns>,
                         term': map<Block, int>, succs': map<Block, set<Block>>, readOnly': set<Block>)
    requires CodeOk(code, entry, ins, term, readOnly) && FlowOk(entry, ins, readOnly, succs) && b in entry
    requires n !in entry && 0 < i < |Code(ins, b)|
    requires b in readOnly || EndsInTransfer(Code(ins, b))
    requires forall u, v :: Edge(succs, u, v) ==> u in entry && v in entry
    requires SplitCode(entry, ins, term, b, n, i, entry', ins', term') && SplitSuccs(succs, b, n, succs')
    requires forall x :: x in readOnly' <==> x in readOnly || x == b || x == n
    ensures FlowOk(entry', ins', readOnly', succs')
  {
    hide *;
    BlockOf(code, entry, ins, term, readOnly, b);
    Halves(code, Entry(entry, b), Code(ins, b), i);
    HalvesFlow(code, Entry(entry, b), Code(ins, b), i);
    SplitParts(entry, ins, term, b, n, i, entry', ins', term');
    MakeFlow(entry, ins, readOnly, succs, b, n, entry', ins', succs', readOnly');
  }

  lemma MakeFlow(entry: map<Block, int>, ins: map<Block, Insns>, readOnly: set<Block>, succs: map<Block, set<Block>>,
                 b: Block, n: Block,
                 entry': map<Block, int>, ins': map<Block, Insns>, succs': map<Block, set<Block>>,
                   readOnly': set<Block>)
    requires FlowOk(entry, ins, readOnly, succs) && n !in entry && EntriesKept(entry, entry')
    requires b in readOnly || EndsInTransfer(Code(ins, b))
    requires forall u, v :: Edge(succs, u, v) ==> u in entry && v in entry
    requires SplitSuccs(succs, b, n, succs')
    requires forall x :: x in readOnly' <==> x in readOnly || x == b || x == n
    requires forall y :: y != b && y != n ==> Code(ins', y) == Code(ins, y)
    requires CanGo(Code(ins', b), Entry(entry', n)) && !EndsInTransfer(Code(ins', b))
    requires EndsInTransfer(Code(ins', n)) <==> EndsInTransfer(Code(ins, b))
    requires forall a :: CanGo(Code(ins', n), a) <==> CanGo(Code(ins, b), a)
    ensures FlowOk(entry', ins', readOnly', succs')
  {
    hide Edge, Entry, Code, CanGo, EndsInTransfer;
    forall u, v | Edge(succs', u, v)
      ensures CanGo(Code(ins', u), Entry(entry', v)) && (u in readOnly' || EndsInTransfer(Code(ins', u)))
    {
      if u != b {
        assert Edge(succs, if u == n then b else u, v);
      }
    }
    forall u | u in readOnly' && !EndsInTransfer(Code(ins', u))
      ensures HasSucc(succs', u)
    {
      if u == b {
        assert Edge(succs', b, n);
      } else {
        var w := if u == n then b else u;
        assert HasSucc(succs, w);
        var v :| Edge(succs, w, v);
        assert Edge(succs', u, v);
      }
    }
  }

  /** insMap sends the addresses of the second half to n. */
  ghost predicate SplitIndex(insMap: map<int, Block>, n: Block, second: Insns, insMap': map<int, Block>) {
    forall k :: if Contains(second, k) then k in insMap' && insMap'[k] == n
                else (k in insMap' <==> k in insMap) && (k in insMap ==> insMap'[k] == insMap[k])
  }

  lemma SplitKeepsIndex(entry: map<Block, int>, ins: map<Block, Insns>, term: map<Block, int>, bbMap: map<int, Block>,
                        insMap: map<int, Block>, b: Block, n: Block, i: int,
                        entry': map<Block, int>, ins': map<Block, Insns>, term': map<Block, int>,
                          insMap': map<int, Block>)
    requires IndexOk(entry, ins, bbMap, insMap) && b in entry && n !in entry && 0 < i < |Code(ins, b)|
    requires SplitCode(entry, ins, term, b, n, i, entry', ins', term') && AddrOf(Entry(entry, b), i) !in bbMap
    requires SplitIndex(insMap, n, Code(ins, b)[i..], insMap')
    ensures IndexOk(entry', ins', bbMap[AddrOf(Entry(entry, b), i) := n], insMap')
  {
    HalvesContain(Code(ins, b), i);
    hide Contains, Code, Entry, AddrOf, Wrap;
    var a := AddrOf(Entry(entry, b), i);
    var bbMap' := bbMap[a := n];
    forall k | k in insMap'
      ensures insMap'[k] in entry' && Contains(Code(ins', insMap'[k]), k)
    {
      if !Contains(Code(ins, b)[i..], k) {
        assert Contains(Code(ins, insMap[k]), k);
      }
    }
    forall x, k | x in entry' && Contains(Code(ins', x), k)
      ensures k in insMap'
    {
      if x != n {
        assert Contains(Code(ins, x), k);
      }
    }
    forall x | x in entry'
      ensures Entry(entry', x) in bbMap' && bbMap'[Entry(entry', x)] == x
    {
      if x != n {
        assert x in entry;
      }
    }
  }
}
