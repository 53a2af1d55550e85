/** The heap of discovered basic blocks and the invariant that the dispatcher rests on. A field of all blocks is one map
    from blocks to values. code is the guest program: the word that every fetch from an address returns. */
module BlockHeap {
  import opened Graphs
  import opened Rv32

  // ---------- instructions ----------

  /** isBranchOrJump. */
  predicate Transfers(w: int) {
    match Decode(w) case Some(i) => IsControl(i) case None => false
  }

  /** Words that the interpreter executes and goes on. */
  predicate Normal(w: int) {
    match Decode(w) case Some(i) => !i.Monitor? case None => false
  }

  /** is_jr, is_jalr or is_monitor. */
  predicate IsIndirect(w: int) {
    match Decode(w) case Some(i) => i.Jalr? || i.Monitor? case None => false
  }

  predicate IsJr(w: int) {
    match Decode(w) case Some(i) => i.Jalr? && i.rd == 0 case None => false
  }

  predicate IsJalr(w: int) {
    match Decode(w) case Some(i) => i.Jalr? && i.rd != 0 case None => false
  }

  predicate IsJal(w: int) {
    match Decode(w) case Some(i) => i.Jal? && i.rd != 0 case None => false
  }

  predicate IsMonitor(w: int) {
    match Decode(w) case Some(i) => i.Monitor? case None => false
  }

  /** Control can go from the instruction w at pc to the address next. */
  predicate Follows(w: int, pc: int, next: int) {
    match Decode(w) case Some(i) => GoesTo(i, pc, next) case None => false
  }

  // ---------- the instructions of a block ----------

  /** vecIns: the word and the address of each instruction. */
  type Insns = seq<(int, int)>

  const MAXLEN: int := 0x4000_0000

  function AddrOf(entryAddr: int, i: int): int {
    Wrap(entryAddr + 4 * i)
  }

  /** Instruction i sits at entryAddr + 4i; only the last one may transfer control. */
  ghost predicate Laid(code: int -> int, e: int, v: Insns) {
    && 0 <= e < WORD
    && (forall i :: 0 <= i < |v| ==> v[i].1 == AddrOf(e, i) && v[i].0 == code(AddrOf(e, i)))
    && (forall i :: 0 <= i < |v| ==> Normal(v[i].0))
    && (forall i :: 0 <= i < |v| - 1 ==> !Transfers(v[i].0))
  }

  ghost predicate EndsInTransfer(v: Insns) {
    |v| > 0 && Transfers(v[|v| - 1].0)
  }

  /** Control can leave the block v for the address a. */
  ghost predicate CanGo(v: Insns, a: int) {
    |v| > 0 && Follows(v[|v| - 1].0, v[|v| - 1].1, a)
  }

  ghost predicate Contains(v: Insns, a: int) {
    exists i :: 0 <= i < |v| && v[i].1 == a
  }

  // ---------- the fields of the blocks ----------

  /** The field m has a value for every block. */
  ghost predicate Dom<V(!new)>(entry: map<Block, int>, m: map<Block, V>) {
    forall b :: b in m <==> b in entry
  }

  lemma DomPut<V(!new)>(entry: map<Block, int>, m: map<Block, V>, x: Block, a: int, v: V)
    requires Dom(entry, m)
    ensures Dom(entry[x := a], m[x := v]) && (x in entry ==> Dom(entry, m[x := v]))
  {
  }

  /** y is among the blocks that m holds for x. */
  predicate Edge(m: map<Block, set<Block>>, x: Block, y: Block) {
    x in m && y in m[x]
  }

  /** The search map of x leads from the address a to y. */
  predicate Finds(m: map<Block, map<int, Block>>, x: Block, a: int, y: Block) {
    x in m && a in m[x] && m[x][a] == y
  }

  function Code(m: map<Block, Insns>, x: Block): Insns {
    if x in m then m[x] else []
  }

  function Entry(m: map<Block, int>, x: Block): int {
    if x in m then m[x] else -1
  }

  /** Every block is either read-only and complete, or one that is still growing: building holds the latter. */
  ghost predicate CodeOk(code: int -> int, entry: map<Block, int>, ins: map<Block, Insns>, term: map<Block, int>,
                         readOnly: set<Block>) {
    && Dom(entry, ins) && Dom(entry, term)
    && (forall b :: b in readOnly ==> b in entry)
    && (forall b :: b in entry ==> Laid(code, Entry(entry, b), Code(ins, b)))
    && (forall b :: b in readOnly ==> Sized(Entry(entry, b), Code(ins, b), Entry(term, b)))
    && (forall b :: b in entry && b !in readOnly ==> Growing(Entry(entry, b), Code(ins, b), Entry(term, b)))
  }

  /** termAddr is the address of the last instruction. */
  ghost predicate Sized(e: int, v: Insns, term: int) {
    0 < |v| <= MAXLEN && term == AddrOf(e, |v| - 1)
  }

  /** termAddr is set with the transfer of control that ends the block. */
  ghost predicate Growing(e: int, v: Insns, term: int) {
    if EndsInTransfer(v) then Sized(e, v, term) else term == 0
  }

  /** Edges are symmetric and succsMap mirrors succs. */
  ghost predicate EdgesOk(entry: map<Block, int>, succs: map<Block, set<Block>>, preds: map<Block, set<Block>>,
                          succsMap: map<Block, map<int, Block>>) {
    && Dom(entry, succs) && Dom(entry, preds) && Dom(entry, succsMap)
    && (forall x, y :: Edge(succs, x, y) ==>
       x in entry && y in entry && Edge(preds, y, x) && Finds(succsMap, x, Entry(entry, y), y))
    && (forall x, y :: Edge(preds, y, x) ==> Edge(succs, x, y))
    && (forall x, a, y :: Finds(succsMap, x, a, y) ==> Edge(succs, x, y) && Entry(entry, y) == a)
  }

  ghost predicate HasSucc(succs: map<Block, set<Block>>, x: Block) {
    exists y :: Edge(succs, x, y)
  }

  /** Control can take every edge, and a read-only block that does not transfer control has the edge to what follows
      it. */
  ghost predicate FlowOk(entry: map<Block, int>, ins: map<Block, Insns>, readOnly: set<Block>,
                         succs: map<Block, set<Block>>) {
    && (forall x, y :: Edge(succs, x, y) ==>
       CanGo(Code(ins, x), Entry(entry, y)) && (x in readOnly || EndsInTransfer(Code(ins, x))))
    && (forall x :: x in readOnly && !EndsInTransfer(Code(ins, x)) ==> HasSucc(succs, x))
  }

  /** bbMap finds every block by its entry address; insMap finds for every recorded instruction a block that contains
      it. */
  ghost predicate IndexOk(entry: map<Block, int>, ins: map<Block, Insns>, bbMap: map<int, Block>,
                          insMap: map<int, Block>) {
    && (forall a :: a in bbMap ==> bbMap[a] in entry && Entry(entry, bbMap[a]) == a)
    && (forall b :: b in entry ==> Entry(entry, b) in bbMap && bbMap[Entry(entry, b)] == b)
    && (forall a :: a in insMap ==> insMap[a] in entry && Contains(Code(ins, insMap[a]), a))
    && (forall b, a :: b in entry && Contains(Code(ins, b), a) ==> a in insMap)
  }

  // ---------- addresses ----------

  /** The position of an instruction follows from its address. */
  lemma OffsetOf(e: int, i: int)
    requires 0 <= i < MAXLEN && 0 <= e < WORD
    ensures Wrap(AddrOf(e, i) - e) / 4 == i
  {
  }

  lemma AroundOnce(e: int, n: int)
    ensures AddrOf(e, n) == AddrOf(e, n - MAXLEN)
  {
  }

  /** A block that ends with a transfer of control has not wrapped around the address space: its end would have come
      earlier. */
  lemma NotTooLong(code: int -> int, e: int, v: Insns)
    requires Laid(code, e, v) && EndsInTransfer(v)
    ensures |v| <= MAXLEN
  {
    hide Transfers, AddrOf;
    var n := |v| - 1;
    if n >= MAXLEN {
      AroundOnce(e, n);
    }
  }

  // ---------- adding an edge ----------

  /** Entry addresses are unique. */
  ghost predicate Unique(entry: map<Block, int>) {
    forall x, y :: x in entry && y in entry && entry[x] == entry[y] ==> x == y
  }

  lemma IndexUnique(entry: map<Block, int>, ins: map<Block, Insns>, bbMap: map<int, Block>, insMap: map<int, Block>)
    requires IndexOk(entry, ins, bbMap, insMap)
    ensures Unique(entry)
  {
    hide Contains;
  }

  /** The fields with one more edge b -> x. */
  function AddTo(m: map<Block, set<Block>>, b: Block, x: Block): map<Block, set<Block>>
    requires b in m
  {
    m[b := m[b] + {x}]
  }

  function Learn(m: map<Block, map<int, Block>>, b: Block, a: int, x: Block): map<Block, map<int, Block>>
    requires b in m
  {
    m[b := m[b][a := x]]
  }

  lemma AddToEdges(m: map<Block, set<Block>>, b: Block, x: Block)
    requires b in m
    ensures forall u, v :: Edge(AddTo(m, b, x), u, v) <==> Edge(m, u, v) || (u == b && v == x)
  {
    forall u, v
      ensures Edge(AddTo(m, b, x), u, v) <==> Edge(m, u, v) || (u == b && v == x)
    {
    }
  }

  lemma LearnFinds(m: map<Block, map<int, Block>>, b: Block, a: int, x: Block)
    requires b in m
    ensures forall u, k, v :: Finds(Learn(m, b, a, x), u, k, v) <==>
      if u == b && k == a then v == x else Finds(m, u, k, v)
  {
    forall u, k, v
      ensures Finds(Learn(m, b, a, x), u, k, v) <==> if u == b && k == a then v == x else Finds(m, u, k, v)
    {
    }
  }

  lemma EdgeAdded(entry: map<Block, int>, succs: map<Block, set<Block>>, preds: map<Block, set<Block>>,
                  succsMap: map<Block, map<int, Block>>, b: Block, x: Block)
    requires EdgesOk(entry, succs, preds, succsMap) && Unique(entry) && b in entry && x in entry
    ensures EdgesOk(entry, AddTo(succs, b, x), AddTo(preds, x, b), Learn(succsMap, b, entry[x], x))
  {
    AddToEdges(succs, b, x);
    AddToEdges(preds, x, b);
    LearnFinds(succsMap, b, entry[x], x);
    DomPut(entry, succs, b, 0, succs[b] + {x});
    DomPut(entry, preds, x, 0, preds[x] + {b});
    DomPut(entry, succsMap, b, 0, succsMap[b][entry[x] := x]);
    hide Edge, Finds, Dom;
  }

  lemma EdgeFlows(entry: map<Block, int>, ins: map<Block, Insns>, readOnly: set<Block>, succs: map<Block, set<Block>>,
                  b: Block, x: Block)
    requires FlowOk(entry, ins, readOnly, succs) && b in succs && x in entry && CanGo(Code(ins, b), entry[x])
    requires b in readOnly || EndsInTransfer(Code(ins, b))
    ensures FlowOk(entry, ins, readOnly, AddTo(succs, b, x))
  {
    AddToEdges(succs, b, x);
    hide CanGo, EndsInTransfer, Edge;
    forall u | u in readOnly && !EndsInTransfer(Code(ins, u))
      ensures HasSucc(AddTo(succs, b, x), u)
    {
      var v :| Edge(succs, u, v);
      assert Edge(AddTo(succs, b, x), u, v);
    }
  }

  /** A step along one of at most two addresses: a third successor would share its address with another one. */
  lemma AtMostTwo(S: set<Block>, entry: map<Block, int>, a: int, b: int)
    requires Unique(entry) && forall x :: x in S ==> x in entry && (entry[x] == a || entry[x] == b)
    ensures |S| <= 2
  {
    if S != {} {
      var x :| x in S;
      var T := S - {x};
      assert |S| == |T| + 1;
      if T != {} {
        var y :| y in T;
        forall z | z in T
          ensures z == y
        {
        }
        assert T == {y};
      }
    }
  }

  /** An edge that control can take never is one too many: unless the block ends in an indirect jump it has at most two
      successors. */
  lemma FewSuccs(entry: map<Block, int>, ins: map<Block, Insns>, readOnly: set<Block>, succs: map<Block, set<Block>>,
                 b: Block)
    requires Unique(entry) && FlowOk(entry, ins, readOnly, succs) && b in succs && forall y :: y in succs[b] ==>
      y in entry
    requires |Code(ins, b)| > 0 && !IsIndirect(Code(ins, b)[|Code(ins, b)| - 1].0)
    ensures |succs[b]| <= 2
  {
    hide Unique, EndsInTransfer, Code, Wrap;
    var w, pc := Code(ins, b)[|Code(ins, b)| - 1].0, Code(ins, b)[|Code(ins, b)| - 1].1;
    var p, q := NextAddrs(w, pc);
    forall y | y in succs[b]
      ensures entry[y] == p || entry[y] == q
    {
      assert Edge(succs, b, y);
    }
    AtMostTwo(succs[b], entry, p, q);
  }

  lemma NextAddrs(w: int, pc: int) returns (p: int, q: int)
    requires !IsIndirect(w)
    ensures forall a :: Follows(w, pc, a) ==> a == p || a == q
  {
    q := Wrap(pc + 4);
    p := q;
    match Decode(w)
    case Some(Branch(_, _, _, imm)) => p := Wrap(pc + imm);
    case Some(Jal(_, imm)) => p := Wrap(pc + imm);
    case _ =>
  }

  /** Two places a falling-through block can go to are one place. */
  lemma OneWay(v: Insns, a: int, b: int)
    requires CanGo(v, a) && CanGo(v, b) && !EndsInTransfer(v)
    ensures a == b
  {
  }

  // ---------- a new block ----------

  lemma NoEdgesYet(m: map<Block, set<Block>>, x: Block)
    requires x !in m
    ensures forall u, v :: Edge(m[x := {}], u, v) <==> Edge(m, u, v)
  {
    forall u, v
      ensures Edge(m[x := {}], u, v) <==> Edge(m, u, v)
    {
    }
  }

  lemma NoFindsYet(m: map<Block, map<int, Block>>, x: Block)
    requires x !in m
    ensures forall u, a, v :: Finds(m[x := map[]], u, a, v) <==> Finds(m, u, a, v)
  {
    forall u, a, v
      ensures Finds(m[x := map[]], u, a, v) <==> Finds(m, u, a, v)
    {
    }
  }

  lemma EntryPut(entry: map<Block, int>, x: Block, a: int)
    ensures forall y :: Entry(entry[x := a], y) == if y == x then a else Entry(entry, y)
  {
    forall y
      ensures Entry(entry[x := a], y) == if y == x then a else Entry(entry, y)
    {
    }
  }

  lemma CodePut(ins: map<Block, Insns>, x: Block, v: Insns)
    ensures forall y :: Code(ins[x := v], y) == if y == x then v else Code(ins, y)
  {
    forall y
      ensures Code(ins[x := v], y) == if y == x then v else Code(ins, y)
    {
    }
  }

  /** The old blocks have their entry addresses still. */
  ghost predicate EntriesKept(entry: map<Block, int>, entry': map<Block, int>) {
    forall y :: y in entry ==> y in entry' && Entry(entry', y) == Entry(entry, y)
  }

  lemma EntriesPut(entry: map<Block, int>, x: Block, a: int)
    requires x !in entry
    ensures EntriesKept(entry, entry[x := a]) && Entry(entry[x := a], x) == a
    ensures forall y :: y in entry[x := a] <==> y in entry || y == x
  {
  }

  ghost predicate SameEdges(m: map<Block, set<Block>>, m': map<Block, set<Block>>) {
    forall u, v :: Edge(m', u, v) <==> Edge(m, u, v)
  }

  ghost predicate SameFinds(m: map<Block, map<int, Block>>, m': map<Block, map<int, Block>>) {
    forall u, a, v :: Finds(m', u, a, v) <==> Finds(m, u, a, v)
  }

  lemma EdgesSame(entry: map<Block, int>, succs: map<Block, set<Block>>, preds: map<Block, set<Block>>,
                  succsMap: map<Block, map<int, Block>>,
                  entry': map<Block, int>, succs': map<Block, set<Block>>, preds': map<Block, set<Block>>,
                    succsMap': map<Block, map<int, Block>>)
    requires EdgesOk(entry, succs, preds, succsMap) && EntriesKept(entry, entry')
    requires SameEdges(succs, succs') && SameEdges(preds, preds') && SameFinds(succsMap, succsMap')
    requires Dom(entry', succs') && Dom(entry', preds') && Dom(entry', succsMap')
    ensures EdgesOk(entry', succs', preds', succsMap')
  {
    hide Edge, Finds, Dom, Entry;
    forall u, v | Edge(succs', u, v)
      ensures u in entry' && v in entry' && Edge(preds', v, u) && Finds(succsMap', u, Entry(entry', v), v)
    {
      assert Edge(succs, u, v);
      assert Entry(entry', v) == Entry(entry, v);
    }
    forall u, a, v | Finds(succsMap', u, a, v)
      ensures Edge(succs', u, v) && Entry(entry', v) == a
    {
      assert Finds(succsMap, u, a, v);
      assert Edge(succs, u, v);
    }
  }

  lemma BlockAddedEdges(entry: map<Block, int>, succs: map<Block, set<Block>>, preds: map<Block, set<Block>>,
                        succsMap: map<Block, map<int, Block>>, x: Block, a: int)
    requires EdgesOk(entry, succs, preds, succsMap) && x !in entry
    ensures EdgesOk(entry[x := a], succs[x := {}], preds[x := {}], succsMap[x := map[]])
    ensures SameEdges(succs, succs[x := {}])
  {
    NoEdgesYet(succs, x);
    NoEdgesYet(preds, x);
    NoFindsYet(succsMap, x);
    DomPut(entry, succs, x, a, {});
    DomPut(entry, preds, x, a, {});
    DomPut(entry, succsMap, x, a, map[]);
    EntriesPut(entry, x, a);
    EdgesSame(entry, succs, preds, succsMap, entry[x := a], succs[x := {}], preds[x := {}], succsMap[x := map[]]);
  }

  /** Everything about the code of the blocks other than x is as it was. */
  ghost predicate OthersKept(x: Block, entry: map<Block, int>, ins: map<Block, Insns>, term: map<Block, int>,
                             entry': map<Block, int>, ins': map<Block, Insns>, term': map<Block, int>) {
    forall y :: y != x ==>
      (y in entry' <==> y in entry) && Entry(entry', y) == Entry(entry, y) && Code(ins', y) == Code(ins, y)
        && Entry(term', y) == Entry(term, y)
  }

  lemma OthersPut(x: Block, entry: map<Block, int>, ins: map<Block, Insns>, term: map<Block, int>, a: int, v: Insns,
                  t: int)
    ensures OthersKept(x, entry, ins, term, entry[x := a], ins[x := v], term[x := t])
    ensures x in entry ==>
      OthersKept(x, entry, ins, term, entry, ins[x := v], term[x := t])
      && OthersKept(x, entry, ins, term, entry, ins[x := v], term)
    ensures Entry(entry[x := a], x) == a && Code(ins[x := v], x) == v && Entry(term[x := t], x) == t
  {
  }

  /** One block's code is new, or has changed. */
  lemma CodeOne(code: int -> int, entry: map<Block, int>, ins: map<Block, Insns>, term: map<Block, int>,
                readOnly: set<Block>, x: Block,
                entry': map<Block, int>, ins': map<Block, Insns>, term': map<Block, int>)
    requires CodeOk(code, entry, ins, term, readOnly) && OthersKept(x, entry, ins, term, entry', ins', term')
    requires Dom(entry', ins') && Dom(entry', term') && x in entry' && x !in readOnly
    requires Laid(code, Entry(entry', x), Code(ins', x)) && Growing(Entry(entry', x), Code(ins', x), Entry(term', x))
    ensures CodeOk(code, entry', ins', term', readOnly)
  {
    hide Dom, Entry, Code, Laid, Sized, Growing;
    forall b | b in entry'
      ensures Laid(code, Entry(entry', b), Code(ins', b))
      ensures b in readOnly ==> Sized(Entry(entry', b), Code(ins', b), Entry(term', b))
      ensures b !in readOnly ==> Growing(Entry(entry', b), Code(ins', b), Entry(term', b))
    {
      if b != x {
        assert b in entry;
      }
    }
  }

  lemma BlockAddedCode(code: int -> int, entry: map<Block, int>, ins: map<Block, Insns>, term: map<Block, int>,
                       readOnly: set<Block>, x: Block, a: int)
    requires CodeOk(code, entry, ins, term, readOnly) && x !in entry && 0 <= a < WORD
    ensures CodeOk(code, entry[x := a], ins[x := []], term[x := 0], readOnly)
  {
    DomPut(entry, ins, x, a, []);
    DomPut(entry, term, x, a, 0);
    OthersPut(x, entry, ins, term, a, [], 0);
    EmptyLaid(code, a);
    CodeOne(code, entry, ins, term, readOnly, x, entry[x := a], ins[x := []], term[x := 0]);
  }

  lemma EmptyLaid(code: int -> int, a: int)
    requires 0 <= a < WORD
    ensures Laid(code, a, []) && Growing(a, [], 0)
  {
  }

  /** The edges are the same, and so is the code of the blocks that have some. */
  lemma FlowSame(entry: map<Block, int>, ins: map<Block, Insns>, readOnly: set<Block>, succs: map<Block, set<Block>>,
                 x: Block,
                 entry': map<Block, int>, ins': map<Block, Insns>, succs': map<Block, set<Block>>)
    requires FlowOk(entry, ins, readOnly, succs) && SameEdges(succs, succs') && x !in readOnly
    requires forall v :: !Edge(succs, x, v)
    requires forall y :: y != x ==> Code(ins', y) == Code(ins, y)
    requires forall u, v :: Edge(succs, u, v) ==> Entry(entry', v) == Entry(entry, v)
    ensures FlowOk(entry', ins', readOnly, succs')
  {
    hide CanGo, EndsInTransfer, Entry, Code, Edge;
    forall u | u in readOnly && HasSucc(succs, u)
      ensures HasSucc(succs', u)
    {
      var v :| Edge(succs, u, v);
      assert Edge(succs', u, v);
    }
    forall u, v | Edge(succs', u, v)
      ensures CanGo(Code(ins', u), Entry(entry', v)) && (u in readOnly || EndsInTransfer(Code(ins', u)))
    {
      assert Edge(succs, u, v);
    }
  }

  lemma BlockAddedFlow(entry: map<Block, int>, ins: map<Block, Insns>, readOnly: set<Block>,
                       succs: map<Block, set<Block>>, x: Block, a: int)
    requires FlowOk(entry, ins, readOnly, succs) && Dom(entry, succs) && x !in entry && forall b :: b in readOnly ==>
      b in entry
    requires forall u, v :: Edge(succs, u, v) ==> u in entry && v in entry
    ensures FlowOk(entry[x := a], ins[x := []], readOnly, succs[x := {}])
  {
    NoEdgesYet(succs, x);
    OthersPut(x, entry, ins, map[], a, [], 0);
    hide Edge, Entry, Code, Dom, FlowOk;
    FlowSame(entry, ins, readOnly, succs, x, entry[x := a], ins[x := []], succs[x := {}]);
  }

  /** Every block's instructions are where they were, but for x, which contains the address k besides what it did, or
      nothing. */
  lemma IndexOne(entry: map<Block, int>, ins: map<Block, Insns>, bbMap: map<int, Block>, insMap: map<int, Block>,
                 x: Block,
                 entry': map<Block, int>, ins': map<Block, Insns>, bbMap': map<int, Block>, insMap': map<int, Block>)
    requires IndexOk(entry, ins, bbMap, insMap)
    requires forall y :: y != x ==>
      (y in entry' <==> y in entry) && Entry(entry', y) == Entry(entry, y) && Code(ins', y) == Code(ins, y)
    requires x in entry' && Entry(entry', x) in bbMap' && bbMap'[Entry(entry', x)] == x
    requires x in entry ==> Entry(entry', x) == Entry(entry, x)
    requires forall k :: k != Entry(entry', x) ==>
      (k in bbMap' <==> k in bbMap) && (k in bbMap ==> bbMap'[k] == bbMap[k])
    requires forall y :: y in entry && y != x ==> Entry(entry, y) != Entry(entry', x)
    requires forall k :: k in insMap' ==>
      (k in insMap && insMap'[k] == insMap[k]) || (insMap'[k] == x && Contains(Code(ins', x), k))
    requires forall k :: k in insMap ==> k in insMap'
    requires forall k :: x in entry && Contains(Code(ins, x), k) ==> Contains(Code(ins', x), k)
    requires forall k :: Contains(Code(ins', x), k) ==> k in insMap'
    ensures IndexOk(entry', ins', bbMap', insMap')
  {
    hide Contains, Code, Entry;
  }

  lemma BlockAddedIndex(entry: map<Block, int>, ins: map<Block, Insns>, bbMap: map<int, Block>, insMap: map<int, Block>,
                        x: Block, a: int)
    requires IndexOk(entry, ins, bbMap, insMap) && x !in entry && a !in bbMap
    ensures IndexOk(entry[x := a], ins[x := []], bbMap[a := x], insMap)
  {
    OthersPut(x, entry, ins, map[], a, [], 0);
    NothingIn();
    hide Contains, Code, Entry;
    IndexOne(entry, ins, bbMap, insMap, x, entry[x := a], ins[x := []], bbMap[a := x], insMap);
  }

  lemma NothingIn()
    ensures forall k :: !Contains([], k)
  {
  }

  // ---------- a new instruction ----------

  lemma LaidMore(code: int -> int, e: int, v: Insns, w: int)
    requires Laid(code, e, v) && !EndsInTransfer(v) && w == code(AddrOf(e, |v|)) && Normal(w)
    ensures Laid(code, e, v + [(w, AddrOf(e, |v|))])
    ensures EndsInTransfer(v + [(w, AddrOf(e, |v|))]) <==> Transfers(w)
    ensures Transfers(w) ==> |v| + 1 <= MAXLEN
  {
    hide Transfers, Normal, AddrOf;
    var v' := v + [(w, AddrOf(e, |v|))];
    assert Laid(code, e, v');
    if Transfers(w) {
      NotTooLong(code, e, v');
    }
  }

  /** What addIns and setTermAddr make of the fields. */
  lemma InsnAddedCode(code: int -> int, entry: map<Block, int>, ins: map<Block, Insns>, term: map<Block, int>,
                      readOnly: set<Block>, b: Block, w: int, a: int)
    requires CodeOk(code, entry, ins, term, readOnly) && b in entry && b !in readOnly && !EndsInTransfer(Code(ins, b))
    requires a == AddrOf(Entry(entry, b), |Code(ins, b)|) && w == code(a) && Normal(w)
    ensures CodeOk(code, entry, ins[b := Code(ins, b) + [(w, a)]],
                   if Transfers(w) then term[b := a] else term, readOnly)
    ensures EndsInTransfer(Code(ins, b) + [(w, a)]) <==> Transfers(w)
  {
    var v' := Code(ins, b) + [(w, a)];
    var term' := if Transfers(w) then term[b := a] else term;
    BlockOf(code, entry, ins, term, readOnly, b);
    LaidMore(code, Entry(entry, b), Code(ins, b), w);
    DomPut(entry, ins, b, 0, v');
    DomPut(entry, term, b, 0, a);
    OthersPut(b, entry, ins, term, 0, v', a);
    hide Dom, Laid, Transfers, OthersKept, AddrOf, Entry, Code, CodeOk, Normal;
    CodeOne(code, entry, ins, term, readOnly, b, entry, ins[b := v'], term');
  }

  lemma InsnAddedFlow(entry: map<Block, int>, ins: map<Block, Insns>, readOnly: set<Block>,
                      succs: map<Block, set<Block>>, b: Block, v: Insns)
    requires FlowOk(entry, ins, readOnly, succs) && b !in readOnly && !EndsInTransfer(Code(ins, b))
    ensures FlowOk(entry, ins[b := v], readOnly, succs)
  {
    CodePut(ins, b, v);
    hide CanGo, EndsInTransfer, Entry, Code, Edge, HasSucc;
    FlowSame(entry, ins, readOnly, succs, b, entry, ins[b := v], succs);
  }

  lemma BlockOf(code: int -> int, entry: map<Block, int>, ins: map<Block, Insns>, term: map<Block, int>,
                readOnly: set<Block>, b: Block)
    requires CodeOk(code, entry, ins, term, readOnly) && b in entry
    ensures Dom(entry, ins) && Dom(entry, term) && Laid(code, Entry(entry, b), Code(ins, b))
    ensures if b in readOnly then Sized(Entry(entry, b), Code(ins, b), Entry(term, b))
      else Growing(Entry(entry, b), Code(ins, b), Entry(term, b))
  {
    hide Dom, Entry, Code, Laid, Sized, Growing;
  }

  lemma InsnAddedIndex(entry: map<Block, int>, ins: map<Block, Insns>, bbMap: map<int, Block>, insMap: map<int, Block>,
                       b: Block, w: int, a: int)
    requires IndexOk(entry, ins, bbMap, insMap) && b in entry
    ensures IndexOk(entry, ins[b := Code(ins, b) + [(w, a)]], bbMap, insMap[a := b])
  {
    var v' := Code(ins, b) + [(w, a)];
    OthersPut(b, entry, ins, map[], 0, v', 0);
    ContainsMore(Code(ins, b), w, a);
    hide Contains, Code, Entry;
    IndexOne(entry, ins, bbMap, insMap, b, entry, ins[b := v'], bbMap, insMap[a := b]);
  }

  lemma ContainsMore(v: Insns, w: int, a: int)
    ensures forall k :: Contains(v + [(w, a)], k) <==> Contains(v, k) || k == a
  {
    var v' := v + [(w, a)];
    assert v'[|v|] == (w, a);
    forall k
      ensures Contains(v', k) <==> Contains(v, k) || k == a
    {
      if Contains(v, k) {
        var j :| 0 <= j < |v| && v[j].1 == k;
        assert v'[j] == v[j];
      }
    }
  }

  // ---------- a finished block ----------

  lemma FinishedOk(code: int -> int, entry: map<Block, int>, ins: map<Block, Insns>, term: map<Block, int>,
                   readOnly: set<Block>, succs: map<Block, set<Block>>, b: Block)
    requires CodeOk(code, entry, ins, term, readOnly) && FlowOk(entry, ins, readOnly, succs) && b in entry
    requires EndsInTransfer(Code(ins, b))
    ensures CodeOk(code, entry, ins, term, readOnly + {b}) && FlowOk(entry, ins, readOnly + {b}, succs)
  {
    hide CanGo, EndsInTransfer, Laid, HasSucc, Edge, Entry, Code, Dom, Sized;
  }
}
