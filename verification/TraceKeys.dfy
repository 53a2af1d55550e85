/** The keys of recorded traces as numbers: the CRC over the entry addresses, and what it means for the records of a
    head. */
module TraceKeys {
  import opened Graphs
  import opened Rv32
  import opened BlockHeap
  import opened BlockStores
  import Crc
  import MachineFacts

  // ---------- words and numbers ----------

  /** The n lowest bits of a number, the lowest first. */
  function BitsOf(x: int, n: nat): (w: seq<bool>)
    ensures |w| == n
    decreases n
  {
    if n == 0 then [] else [x % 2 == 1] + BitsOf(x / 2, n - 1)
  }

  function NumberOf(w: seq<bool>): nat {
    if w == [] then 0 else (if w[0] then 1 else 0) + 2 * NumberOf(w[1..])
  }

  lemma {:induction false} NumberOfBits(x: int, n: nat)
    requires 0 <= x < Pow2(n)
    ensures NumberOf(BitsOf(x, n)) == x
    decreases n
  {
    if n > 0 {
      assert BitsOf(x, n)[1..] == BitsOf(x / 2, n - 1);
      assert Pow2(n) == 2 * Pow2(n - 1);
      NumberOfBits(x / 2, n - 1);
    }
  }

  lemma {:induction false} BitsOfNumber(w: seq<bool>)
    ensures BitsOf(NumberOf(w), |w|) == w
  {
    if w != [] {
      BitsOfNumber(w[1..]);
      assert w == [w[0]] + w[1..];
    }
  }

  // ---------- the key of a trace ----------

  ghost predicate AreAddresses(addrs: seq<int>) {
    forall i :: 0 <= i < |addrs| ==> 0 <= addrs[i] < WORD
  }

  function Words(addrs: seq<int>): (ws: seq<seq<bool>>)
    ensures |ws| == |addrs| && Crc.AreWords(ws)
  {
    seq(|addrs|, i requires 0 <= i < |addrs| => BitsOf(addrs[i], 32))
  }

  /** addRegion's crc for a trace with these entry addresses. */
  function TraceCrc(addrs: seq<int>): int {
    NumberOf(Crc.Key(Words(addrs)))
  }

  /** The two traces have the same length, and differ at exactly one position. */
  ghost predicate Near<T>(s: seq<T>, t: seq<T>) {
    |s| == |t| && exists k :: 0 <= k < |s| && s[k] != t[k] && forall i :: 0 <= i < |s| && i != k ==> s[i] == t[i]
  }

  lemma KeyWidth(ws: seq<seq<bool>>)
    requires Crc.AreWords(ws)
    ensures |Crc.Key(ws)| == 32
  {
  }

  lemma NearAddressesDiffer(a: seq<int>, b: seq<int>)
    requires AreAddresses(a) && AreAddresses(b) && Near(a, b)
    ensures TraceCrc(a) != TraceCrc(b)
  {
    hide Crc.Key, NumberOf, BitsOf;
    var k :| 0 <= k < |a| && a[k] != b[k] && forall i :: 0 <= i < |a| && i != k ==> a[i] == b[i];
    Full32();
    NumberOfBits(a[k], 32);
    NumberOfBits(b[k], 32);
    Crc.KeysDiffer(Words(a), Words(b), k);
    KeyWidth(Words(a));
    KeyWidth(Words(b));
    BitsOfNumber(Crc.Key(Words(a)));
    BitsOfNumber(Crc.Key(Words(b)));
  }

  lemma Full32()
    ensures Pow2(32) == WORD
  {
    MachineFacts.Pow32();
  }


  // ---------- traces in the store ----------

  function Addrs(entry: map<Block, int>, t: seq<Block>): (addrs: seq<int>)
    ensures |addrs| == |t|
  {
    seq(|t|, i requires 0 <= i < |t| => Entry(entry, t[i]))
  }

  /** key is the CRC over the entry addresses, for traces of blocks of the store. */
  ghost predicate IsCrc(key: seq<Block> -> int, entry: map<Block, int>) {
    forall t: seq<Block> :: (forall x :: x in t ==> x in entry) ==> key(t) == TraceCrc(Addrs(entry, t))
  }

  /** A trace that differs from every recorded trace of its head in exactly one block is kept beside them. */
  lemma NearTraceKept(code: int -> int, L: Listing, E: Links, C: Counts, G: Regions, bbMap: map<int, Block>,
                      insMap: map<int, Block>,
                      key: seq<Block> -> int, h: Block, t: seq<Block>)
    requires StoreOk(code, L, E, C, G, bbMap, insMap) && IsCrc(key, L.entryAddr) && h in G.bbRegions
    requires (forall x :: x in t ==> x in L.entryAddr) && forall u :: u in G.bbRegions[h] ==> Near(u, t)
    ensures WithTrace(key, G.bbRegions[h], t) == G.bbRegions[h] + [t]
  {
    hide StoreOk, TraceCrc, Near;
    forall u | u in G.bbRegions[h]
      ensures key(u) != key(t)
    {
      TraceBlocks(code, L, E, C, G, bbMap, insMap, h, u);
      NearAddrs(code, L, E, C, G, bbMap, insMap, u, t);
      NearAddressesDiffer(Addrs(L.entryAddr, u), Addrs(L.entryAddr, t));
    }
  }

  lemma TraceBlocks(code: int -> int, L: Listing, E: Links, C: Counts, G: Regions, bbMap: map<int, Block>,
                    insMap: map<int, Block>, h: Block, u: seq<Block>)
    requires StoreOk(code, L, E, C, G, bbMap, insMap) && h in G.bbRegions && u in G.bbRegions[h]
    ensures forall x :: x in u ==> x in L.entryAddr
  {
    hide EdgesOk, FlowOk, IndexOk, CountsOk, FlagsOk, CodeOk, Edge;
    assert Records(G.bbRegions, h, u);
    ReadOnlyInside(code, L.entryAddr, L.vecIns, L.termAddr, L.readOnly);
    forall x | x in u
      ensures x in L.entryAddr
    {
      assert Edge(G.cfgInRegions, x, h);
    }
  }

  /** Different blocks have different entry addresses. */
  lemma NearAddrs(code: int -> int, L: Listing, E: Links, C: Counts, G: Regions, bbMap: map<int, Block>,
                  insMap: map<int, Block>, u: seq<Block>, t: seq<Block>)
    requires StoreOk(code, L, E, C, G, bbMap, insMap) && Near(u, t)
    requires (forall x :: x in u ==> x in L.entryAddr) && forall x :: x in t ==> x in L.entryAddr
    ensures Near(Addrs(L.entryAddr, u), Addrs(L.entryAddr, t))
    ensures AreAddresses(Addrs(L.entryAddr, u)) && AreAddresses(Addrs(L.entryAddr, t))
  {
    hide StoreOk, Laid, Code, Dom, Edge, Inside, Unique;
    StoreInside(code, L, E, C, G, bbMap, insMap);
    var k :| 0 <= k < |u| && u[k] != t[k] && forall i :: 0 <= i < |u| && i != k ==> u[i] == t[i];
    var a, b := Addrs(L.entryAddr, u), Addrs(L.entryAddr, t);
    assert u[k] in u && t[k] in t;
    if a[k] == b[k] {
      SameWay(L.entryAddr, u[k], t[k]);
    }
    forall x | x in L.entryAddr
      ensures 0 <= Entry(L.entryAddr, x) < WORD
    {
      EntryRange(code, L, E, C, G, bbMap, insMap, x);
    }
    assert 0 <= k < |a| && a[k] != b[k] && forall i :: 0 <= i < |a| && i != k ==> a[i] == b[i];
  }

  lemma EntryRange(code: int -> int, L: Listing, E: Links, C: Counts, G: Regions, bbMap: map<int, Block>,
                   insMap: map<int, Block>, x: Block)
    requires StoreOk(code, L, E, C, G, bbMap, insMap) && x in L.entryAddr
    ensures 0 <= Entry(L.entryAddr, x) < WORD
  {
    hide EdgesOk, FlowOk, IndexOk, CountsOk, FlagsOk, RegionsOk, SolidOk, CodeOk;
    BlockOf(code, L.entryAddr, L.vecIns, L.termAddr, L.readOnly, x);
  }
}
