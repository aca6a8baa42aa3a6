/** riscv.h and vm.c: three-level Sv39 page tables as table pages in memory, and the
    flat maps from pages to PTEs that any number of them together stand for.  Shifts
    and masks on addresses and PTEs are written as division, remainder and addition. */
module PageTree {
  import opened Params

  /** MAXVA in pages of 0x1000 bytes (PGSIZE). */
  const MAXPAGE: int := 0x400_0000
  const WORD: int := 0x1_0000_0000_0000_0000

  // ---- addresses and PTEs ----

  /** PXSHIFT as a divisor. */
  function Span(level: nat): (n: nat)
    ensures n > 0
  {
    if level == 0 then 0x1000 else if level == 1 then 0x20_0000 else 0x4000_0000
  }

  function PX(level: nat, va: nat): (i: int)
    ensures 0 <= i < 512
  {
    va / Span(level) % 512
  }

  function PGROUNDDOWN(a: nat): (r: int)
    ensures r <= a < r + 0x1000 && r % 0x1000 == 0
  {
    a / 0x1000 * 0x1000
  }

  function PA2PTE(pa: int): (pte: int) {
    pa / 0x1000 * 0x400
  }

  function PTE2PA(pte: int): (pa: int) {
    pte / 0x400 * 0x1000
  }

  function PTE_FLAGS(pte: int): (f: int) {
    pte % 0x400
  }

  /** flags | PTE_V. */
  function WithV(perm: nat): (f: int)
    ensures f % 2 == 1 && f / 2 == perm / 2
  {
    perm / 2 * 2 + 1
  }

  predicate HasV(pte: int) { pte % 2 == 1 }

  predicate HasCow(pte: int) { pte / 256 % 2 == 1 }

  /** PA2PTE(pa) | perm | PTE_V. */
  function LeafPte(pa: int, perm: nat): (pte: int) {
    PA2PTE(pa) + WithV(perm)
  }

  /** Packing a page and flags into a PTE loses neither. */
  lemma PteRoundTrip(pa: int, perm: nat)
    requires pa % 0x1000 == 0 && perm < 0x400
    ensures PTE2PA(LeafPte(pa, perm)) == pa && PTE_FLAGS(LeafPte(pa, perm)) == WithV(perm)
    ensures HasV(LeafPte(pa, perm)) && (HasCow(LeafPte(pa, perm)) <==> HasCow(perm))
  {
    var q, f := pa / 0x1000, WithV(perm);
    FlagBits(perm);
    Fields(q, f);
    LowFields(q, f);
  }

  lemma FlagBits(perm: nat)
    requires 0 <= perm < 0x400
    ensures 0 <= WithV(perm) < 0x400 && WithV(perm) / 256 == perm / 256
  {
    var h := perm / 256;
    assert perm / 2 * 2 == perm - perm % 2;
    assert 256 * h <= WithV(perm) < 256 * h + 256;
  }

  lemma Fields(q: int, f: int)
    requires 0 <= f < 0x400
    ensures (q * 0x400 + f) / 0x400 == q && (q * 0x400 + f) % 0x400 == f
  {
  }

  lemma LowFields(q: int, f: int)
    ensures (q * 0x400 + f) % 2 == f % 2 && (q * 0x400 + f) / 256 % 2 == f / 256 % 2
  {
    Even(512 * q, f);
    Over256(4 * q, f);
    Even(2 * q, f / 256);
  }

  lemma Even(n: int, f: int)
    ensures (2 * n + f) % 2 == f % 2
  {
  }

  lemma Over256(n: int, f: int)
    ensures (256 * n + f) / 256 == n + f / 256
  {
  }

  /** Below MAXVA the three indices determine the page. */
  lemma TripleInjective(a: nat, b: nat)
    requires a < MAXVA && b < MAXVA && PX(2, a) == PX(2, b) && PX(1, a) == PX(1, b) && PX(0, a) == PX(0, b)
    ensures a / 0x1000 == b / 0x1000
  {
    Recompose(a);
    Recompose(b);
  }

  lemma Recompose(a: nat)
    requires a < MAXVA
    ensures a / 0x1000 == (PX(2, a) * 512 + PX(1, a)) * 512 + PX(0, a)
  {
    PageIndex(a);
  }

  /** The indices of an address are those of its page number. */
  lemma PageIndex(a: nat)
    ensures var v := a / 0x1000; PX(0, a) == v % 512 && PX(1, a) == v / 512 % 512 && PX(2, a) == v / 512 / 512 % 512
  {
    var v, o := a / 0x1000, a % 0x1000;
    var w, x := v / 512, v % 512;
    var y, z := w / 512, w % 512;
    assert a == 0x20_0000 * w + (0x1000 * x + o);
    assert a / 0x20_0000 == w;
    assert a == 0x4000_0000 * y + (0x20_0000 * z + 0x1000 * x + o);
    assert a / 0x4000_0000 == y;
  }

  /** Above MAXVA it is not so: walk's check is needed. */
  lemma TripleRepeats()
    ensures PX(2, 0) == PX(2, 2 * MAXVA) && PX(1, 0) == PX(1, 2 * MAXVA) && PX(0, 0) == PX(0, 2 * MAXVA)
  {
  }

  // ---- the tree ----

  /** A page of 512 PTEs. */
  datatype Table = Table(ptes: seq<int>)
  type Memory = map<int, Table>

  /** A table page of the page table at r: its root, or one reached by one or two
      indices. */
  datatype Node = Root(r: int) | Mid(r: int, i: int) | Low(r: int, i: int, j: int)

  function Child(mem: Memory, t: int, i: int): (pa: int) {
    if t != 0 && t in mem && 0 <= i < |mem[t].ptes| && HasV(mem[t].ptes[i]) then PTE2PA(mem[t].ptes[i]) else 0
  }

  /** Where a table page is; 0 for one that does not exist. */
  function PageOf(mem: Memory, roots: set<int>, n: Node): (pa: int) {
    if n.r !in roots then 0 else
    match n
    case Root(r) => r
    case Mid(r, i) => Child(mem, r, i)
    case Low(r, i, j) => Child(mem, Child(mem, r, i), j)
  }

  ghost predicate Tables(mem: Memory, roots: set<int>) {
    forall n :: PageOf(mem, roots, n) != 0 ==>
      var t := PageOf(mem, roots, n); t % 0x1000 == 0 && t in mem && |mem[t].ptes| == 512
  }

  /** No page is two tables. */
  ghost predicate NoSharing(mem: Memory, roots: set<int>) {
    forall m, n :: m != n && PageOf(mem, roots, m) != 0 ==> PageOf(mem, roots, m) != PageOf(mem, roots, n)
  }

  /** The upper tables hold table addresses only: PTEs without R, W or X. */
  ghost predicate TableEntry(mem: Memory, roots: set<int>, n: Node, i: int) {
    var t := PageOf(mem, roots, n);
    !n.Low? && t != 0 && t in mem && 0 <= i < |mem[t].ptes| && HasV(mem[t].ptes[i]) ==>
      PTE2PA(mem[t].ptes[i]) != 0 && PTE_FLAGS(mem[t].ptes[i]) == 1
  }

  ghost predicate TableEntries(mem: Memory, roots: set<int>) {
    forall n: Node, i: int :: TableEntry(mem, roots, n, i)
  }

  ghost predicate Forest(mem: Memory, roots: set<int>) {
    0 !in roots && Tables(mem, roots) && NoSharing(mem, roots) && TableEntries(mem, roots)
  }

  /** The address of page x. */
  function PageAddr(x: nat): (a: nat) {
    x * 0x1000
  }

  /** The PTE of a page, 0 where there is no table for it. */
  function Flat(mem: Memory, roots: set<int>, r: int, va: nat): (pte: int) {
    var t := PageOf(mem, roots, Low(r, PX(2, va), PX(1, va)));
    if t != 0 && t in mem && PX(0, va) < |mem[t].ptes| then mem[t].ptes[PX(0, va)] else 0
  }

  /** The flat maps agree everywhere. */
  ghost predicate SameFlat(mem: Memory, mem1: Memory, roots: set<int>) {
    forall r: int, va: nat :: Flat(mem1, roots, r, va) == Flat(mem, roots, r, va)
  }

  /** n's page is now `pa`; the others are where they were. */
  ghost predicate Grown(mem: Memory, mem1: Memory, roots: set<int>, n0: Node, pa: int) {
    forall n :: PageOf(mem1, roots, n) == if n == n0 then pa else PageOf(mem, roots, n)
  }

  function Zeros(): (z: seq<int>)
    ensures |z| == 512 && forall i :: 0 <= i < 512 ==> z[i] == 0
  {
    seq(512, _ => 0)
  }

  /** Hanging a zeroed page into entry i of table t. */
  function Hang(mem: Memory, t: int, i: int, p: int): (mem1: Memory)
    requires t in mem && 0 <= i < |mem[t].ptes|
  {
    mem[p := Table(Zeros())][t := Table(mem[t].ptes[i := LeafPte(p, 0)])]
  }

  lemma ChildOther(mem: Memory, t: int, i: int, p: int, u: int, k: int)
    requires t in mem && t != 0 && |mem[t].ptes| == 512 && 0 <= i < 512 && p !in mem && t != p && p % 0x1000 == 0
    ensures u != p ==>
      Child(Hang(mem, t, i, p), u, k) == if u == t && k == i then p else Child(mem, u, k)
    ensures Child(Hang(mem, t, i, p), p, k) == 0
  {
    PteRoundTrip(p, 0);
  }

  /** walk, level 2: a middle table appears, empty. */
  lemma HangMid(mem: Memory, roots: set<int>, r: int, i: int, p: int)
    requires Forest(mem, roots) && r in roots && 0 <= i < 512 && PageOf(mem, roots, Mid(r, i)) == 0
    requires p != 0 && p % 0x1000 == 0 && p !in mem
    ensures r in mem && |mem[r].ptes| == 512
    ensures Grown(mem, Hang(mem, r, i, p), roots, Mid(r, i), p)
  {
    assert PageOf(mem, roots, Root(r)) == r;
    var mem1 := Hang(mem, r, i, p);
    forall n ensures PageOf(mem1, roots, n) == if n == Mid(r, i) then p else PageOf(mem, roots, n) {
      if n.r in roots {
        assert PageOf(mem, roots, Root(n.r)) == n.r;
        match n {
          case Root(_) =>
          case Mid(s, k) => ChildOther(mem, r, i, p, s, k);
          case Low(s, k, l) =>
            ChildOther(mem, r, i, p, s, k);
            var u := Child(mem, s, k);
            assert PageOf(mem, roots, Mid(s, k)) == u;
            assert u != r;
            ChildOther(mem, r, i, p, u, l);
        }
      }
    }
  }

  /** walk, level 1: a lowest table appears, empty. */
  lemma HangLow(mem: Memory, roots: set<int>, r: int, i: int, j: int, p: int)
    requires Forest(mem, roots) && r in roots && 0 <= j < 512
    requires PageOf(mem, roots, Mid(r, i)) != 0 && PageOf(mem, roots, Low(r, i, j)) == 0
    requires p != 0 && p % 0x1000 == 0 && p !in mem
    ensures var t := PageOf(mem, roots, Mid(r, i));
      t in mem && |mem[t].ptes| == 512 && Grown(mem, Hang(mem, t, j, p), roots, Low(r, i, j), p)
  {
    var t := PageOf(mem, roots, Mid(r, i));
    var mem1 := Hang(mem, t, j, p);
    forall n ensures PageOf(mem1, roots, n) == if n == Low(r, i, j) then p else PageOf(mem, roots, n) {
      if n.r in roots {
        assert PageOf(mem, roots, Root(n.r)) == n.r;
        assert n.r != t;
        match n {
          case Root(_) =>
          case Mid(s, k) => ChildOther(mem, t, j, p, s, k);
          case Low(s, k, l) =>
            ChildOther(mem, t, j, p, s, k);
            var u := Child(mem, s, k);
            assert PageOf(mem, roots, Mid(s, k)) == u;
            assert u == t ==> s == r && k == i;
            ChildOther(mem, t, j, p, u, l);
        }
      }
    }
  }

  /** Either way the forest stays one and no PTE changes. */
  lemma GrowKeeps(mem: Memory, roots: set<int>, t: int, i: int, p: int, n0: Node)
    requires Forest(mem, roots) && t in mem && |mem[t].ptes| == 512 && 0 <= i < 512
    requires p != 0 && p % 0x1000 == 0 && p !in mem && PageOf(mem, roots, n0) == 0
    requires Grown(mem, Hang(mem, t, i, p), roots, n0, p)
    requires forall r: int, x: nat, y: int :: PageOf(mem, roots, Low(r, x, y)) != t
    ensures Forest(Hang(mem, t, i, p), roots) && SameFlat(mem, Hang(mem, t, i, p), roots)
  {
    var mem1 := Hang(mem, t, i, p);
    forall r: int, va: nat ensures Flat(mem1, roots, r, va) == Flat(mem, roots, r, va) {
      var n := Low(r, PX(2, va), PX(1, va));
      assert PageOf(mem, roots, n) != t;
    }
    forall n: Node, j: int ensures TableEntry(mem1, roots, n, j) {
      assert TableEntry(mem, roots, n, j);
      PteRoundTrip(p, 0);
    }
  }

  /** The table below n at index i. */
  function Deeper(n: Node, i: int): (m: Node) {
    if n.Root? then Mid(n.r, i) else if n.Mid? then Low(n.r, n.i, i) else n
  }

  /** One level of walk that has to allocate. */
  lemma HangNode(mem: Memory, roots: set<int>, n: Node, i: int, p: int)
    requires Forest(mem, roots) && n.r in roots && !n.Low? && 0 <= i < 512
    requires PageOf(mem, roots, n) != 0 && PageOf(mem, roots, Deeper(n, i)) == 0
    requires p != 0 && p % 0x1000 == 0 && p !in mem
    ensures var t := PageOf(mem, roots, n);
      && t in mem && |mem[t].ptes| == 512
      && Forest(Hang(mem, t, i, p), roots) && SameFlat(mem, Hang(mem, t, i, p), roots)
      && PageOf(Hang(mem, t, i, p), roots, Deeper(n, i)) == p
  {
    hide Flat;
    if n.Root? { HangMid(mem, roots, n.r, i, p); } else { HangLow(mem, roots, n.r, n.i, i, p); }
    GrowKeeps(mem, roots, PageOf(mem, roots, n), i, p, Deeper(n, i));
  }

  lemma SameFlatTwice(mem: Memory, mem1: Memory, mem2: Memory, roots: set<int>)
    requires SameFlat(mem, mem1, roots) && SameFlat(mem1, mem2, roots)
    ensures SameFlat(mem, mem2, roots)
  {
    hide Flat;
  }

  /** *pte = v, for entry i of table t. */
  function Stored(mem: Memory, t: int, i: int, v: int): (mem1: Memory)
    requires t in mem && 0 <= i < |mem[t].ptes|
  {
    mem[t := Table(mem[t].ptes[i := v])]
  }

  /** One PTE of one page table differs. */
  ghost predicate FlatPut(mem: Memory, mem1: Memory, roots: set<int>, r0: int, va: nat, pte: int) {
    forall r: int, v: int :: 0 <= v < MAXVA ==>
      Flat(mem1, roots, r, v) == if r == r0 && v / 0x1000 == va / 0x1000 then pte else Flat(mem, roots, r, v)
  }

  /** Writing an entry of a lowest table: one page of one page table. */
  lemma PutPte(mem: Memory, roots: set<int>, r0: int, va: nat, pte: int)
    requires Forest(mem, roots) && r0 in roots && va < MAXVA
    requires PageOf(mem, roots, Low(r0, PX(2, va), PX(1, va))) != 0
    ensures var t := PageOf(mem, roots, Low(r0, PX(2, va), PX(1, va)));
      && t in mem && |mem[t].ptes| == 512
      && var mem1 := Stored(mem, t, PX(0, va), pte);
         Forest(mem1, roots) && FlatPut(mem, mem1, roots, r0, va, pte)
  {
    hide PX;
    var n0 := Low(r0, PX(2, va), PX(1, va));
    var t := PageOf(mem, roots, n0);
    var mem1 := Stored(mem, t, PX(0, va), pte);
    forall n ensures PageOf(mem1, roots, n) == PageOf(mem, roots, n) {
      if n.r in roots && !n.Root? {
        assert PageOf(mem, roots, Root(n.r)) != t;
        if n.Low? { assert PageOf(mem, roots, Mid(n.r, n.i)) != t; }
      }
    }
    forall n: Node, j: int ensures TableEntry(mem1, roots, n, j) {
      assert TableEntry(mem, roots, n, j);
      if !n.Low? && PageOf(mem, roots, n) != 0 { assert PageOf(mem, roots, n) != t; }
    }
    forall r: int, v: int | 0 <= v < MAXVA
      ensures Flat(mem1, roots, r, v) == if r == r0 && v / 0x1000 == va / 0x1000 then pte else Flat(mem, roots, r, v)
    {
      PutPteAt(mem, mem1, roots, r0, va, pte, r, v);
    }
  }

  lemma PutPteAt(mem: Memory, mem1: Memory, roots: set<int>, r0: int, va: nat, pte: int, r: int, v: int)
    requires Forest(mem, roots) && r0 in roots && va < MAXVA && 0 <= v < MAXVA
    requires var t := PageOf(mem, roots, Low(r0, PX(2, va), PX(1, va)));
      t != 0 && t in mem && |mem[t].ptes| == 512 && mem1 == Stored(mem, t, PX(0, va), pte)
    requires forall n :: PageOf(mem1, roots, n) == PageOf(mem, roots, n)
    ensures Flat(mem1, roots, r, v) == if r == r0 && v / 0x1000 == va / 0x1000 then pte else Flat(mem, roots, r, v)
  {
    if v / 0x1000 == va / 0x1000 { SamePage(v, va); }
    if PX(2, v) == PX(2, va) && PX(1, v) == PX(1, va) && PX(0, v) == PX(0, va) { TripleInjective(v, va); }
    hide PX, Forest, Tables;
    var n, n0 := Low(r, PX(2, v), PX(1, v)), Low(r0, PX(2, va), PX(1, va));
    if n != n0 { Apart(mem, roots, n0, n); }
  }

  lemma Apart(mem: Memory, roots: set<int>, m: Node, n: Node)
    requires Forest(mem, roots) && m != n && PageOf(mem, roots, m) != 0
    ensures PageOf(mem, roots, m) != PageOf(mem, roots, n)
  {
  }

  lemma SamePage(a: nat, b: nat)
    requires a / 0x1000 == b / 0x1000
    ensures PX(2, a) == PX(2, b) && PX(1, a) == PX(1, b) && PX(0, a) == PX(0, b)
  {
    PageIndex(a);
    PageIndex(b);
  }

  // ---- a subtree given back ----

  predicate HasRWX(pte: int) { pte / 2 % 8 != 0 }

  /** m lies below n, through an index less than i. */
  predicate Below(m: Node, n: Node, i: int) {
    m.r == n.r && if n.Root? then !m.Root? && m.i < i else n.Mid? && m.Low? && m.i == n.i && m.j < i
  }

  predicate Under(m: Node, n: Node) {
    m == n || (m.r == n.r && (n.Root? || (n.Mid? && m.Low? && m.i == n.i)))
  }

  /** Page p is the table at n or one below it. */
  ghost predicate InTree(mem: Memory, roots: set<int>, n: Node, p: int) {
    exists m :: Under(m, n) && PageOf(mem, roots, m) == p != 0
  }

  /** Page p is a table below n, through an index less than i. */
  ghost predicate Gone(mem: Memory, roots: set<int>, n: Node, i: int, p: int) {
    exists m :: Below(m, n, i) && PageOf(mem, roots, m) == p != 0
  }

  /** The tables at n and below have been removed, and nothing else. */
  ghost predicate FreedTree(mem0: Memory, mem: Memory, roots: set<int>, n: Node) {
    && (forall p :: p in mem <==> p in mem0 && !InTree(mem0, roots, n, p))
    && forall p :: p in mem ==> mem[p] == mem0[p]
  }

  /** freewalk of the table t at n before index i: what hung from the first i entries
      has been removed and those entries are not valid any more. */
  ghost predicate Pruned(mem0: Memory, mem: Memory, roots: set<int>, n: Node, t: int, i: int) {
    && (forall p :: p in mem <==> p in mem0 && !Gone(mem0, roots, n, i, p))
    && (forall p :: p in mem && p != t ==> mem[p] == mem0[p])
    && t in mem && t in mem0 && |mem[t].ptes| == 512 == |mem0[t].ptes| && 0 <= i <= 512
    && (forall k :: 0 <= k < i ==> !HasV(mem[t].ptes[k]))
    && (forall k :: i <= k < 512 ==> mem[t].ptes[k] == mem0[t].ptes[k])
  }

  /** Entry k of the lowest table at m, below n, is valid; rwx says whether it is a leaf. */
  ghost predicate EntryAt(mem: Memory, roots: set<int>, n: Node, m: Node, k: int, rwx: bool) {
    && m.Low? && Under(m, n)
    && var u := PageOf(mem, roots, m);
       u != 0 && u in mem && 0 <= k < |mem[u].ptes| && HasV(mem[u].ptes[k]) && HasRWX(mem[u].ptes[k]) == rwx
  }

  ghost predicate SomeEntry(mem: Memory, roots: set<int>, n: Node, rwx: bool) {
    exists m, k :: EntryAt(mem, roots, n, m, k, rwx)
  }

  ghost predicate NoEntry(mem: Memory, roots: set<int>, n: Node) {
    forall m, k, rwx :: !EntryAt(mem, roots, n, m, k, rwx)
  }

  /** ... below n through an index less than i. */
  ghost predicate NoEntryBefore(mem: Memory, roots: set<int>, n: Node, i: int) {
    forall m, k, rwx :: Below(m, n, i) ==> !EntryAt(mem, roots, n, m, k, rwx)
  }

  /** Where the tables are after pruning. */
  lemma PrunedPages(mem0: Memory, mem: Memory, roots: set<int>, n: Node, t: int, i: int)
    requires Forest(mem0, roots) && !n.Low? && t == PageOf(mem0, roots, n) != 0
    requires Pruned(mem0, mem, roots, n, t, i)
    ensures forall m :: PageOf(mem, roots, m) == if Below(m, n, i) then 0 else PageOf(mem0, roots, m)
  {
    forall m ensures PageOf(mem, roots, m) == if Below(m, n, i) then 0 else PageOf(mem0, roots, m) {
      if m.r in roots {
        var root := Root(m.r);
        KeptTable(mem0, mem, roots, n, t, i, root);
        if m.Mid? {
          PrunedChild(mem0, mem, roots, n, t, i, root, m.i);
        } else if m.Low? {
          PrunedChild(mem0, mem, roots, n, t, i, root, m.i);
          var mid := Mid(m.r, m.i);
          if PageOf(mem0, roots, mid) != 0 && !Below(mid, n, i) {
            PrunedChild(mem0, mem, roots, n, t, i, mid, m.j);
          }
        }
      }
    }
  }

  /** A table that is not below n by the first i entries is where it was. */
  lemma KeptTable(mem0: Memory, mem: Memory, roots: set<int>, n: Node, t: int, i: int, m: Node)
    requires Forest(mem0, roots) && t == PageOf(mem0, roots, n) != 0 && Pruned(mem0, mem, roots, n, t, i)
    requires PageOf(mem0, roots, m) != 0 && !Below(m, n, i)
    ensures var u := PageOf(mem0, roots, m); u in mem && u in mem0 && (m != n ==> u != t && mem[u] == mem0[u])
  {
    var u := PageOf(mem0, roots, m);
    assert !Gone(mem0, roots, n, i, u);
  }

  /** What an entry of such a table leads to. */
  lemma PrunedChild(mem0: Memory, mem: Memory, roots: set<int>, n: Node, t: int, i: int, m: Node, k: int)
    requires Forest(mem0, roots) && !n.Low? && t == PageOf(mem0, roots, n) != 0 && Pruned(mem0, mem, roots, n, t, i)
    requires !m.Low? && PageOf(mem0, roots, m) != 0 && !Below(m, n, i)
    ensures var u := PageOf(mem0, roots, m);
      Child(mem, u, k) == if m == n && k < i then 0 else Child(mem0, u, k)
  {
    KeptTable(mem0, mem, roots, n, t, i, m);
  }

  lemma PrunedForest(mem0: Memory, mem: Memory, roots: set<int>, n: Node, t: int, i: int)
    requires Forest(mem0, roots) && !n.Low? && t == PageOf(mem0, roots, n) != 0 && Pruned(mem0, mem, roots, n, t, i)
    ensures Forest(mem, roots)
  {
    PrunedPages(mem0, mem, roots, n, t, i);
    forall m | PageOf(mem, roots, m) != 0
      ensures var u := PageOf(mem, roots, m); u % 0x1000 == 0 && u in mem && |mem[u].ptes| == 512
    {
      KeptTable(mem0, mem, roots, n, t, i, m);
    }
    forall m: Node, k: int ensures TableEntry(mem, roots, m, k) {
      assert TableEntry(mem0, roots, m, k);
      if PageOf(mem, roots, m) != 0 { KeptTable(mem0, mem, roots, n, t, i, m); }
    }
  }

  lemma PrunedStart(mem0: Memory, roots: set<int>, n: Node, t: int)
    requires Forest(mem0, roots) && !n.Low? && t == PageOf(mem0, roots, n) != 0
    ensures Pruned(mem0, mem0, roots, n, t, 0) && NoEntryBefore(mem0, roots, n, 0)
  {
    forall m | Below(m, n, 0) ensures PageOf(mem0, roots, m) == 0 {}
  }

  /** An entry that is not valid leads nowhere. */
  lemma PrunedSkip(mem0: Memory, mem: Memory, roots: set<int>, n: Node, t: int, i: int)
    requires Forest(mem0, roots) && !n.Low? && t == PageOf(mem0, roots, n) != 0 && Pruned(mem0, mem, roots, n, t, i)
    requires i < 512 && !HasV(mem[t].ptes[i]) && NoEntryBefore(mem0, roots, n, i)
    ensures Pruned(mem0, mem, roots, n, t, i + 1) && NoEntryBefore(mem0, roots, n, i + 1)
  {
    forall m | Below(m, n, i + 1) && !Below(m, n, i) ensures PageOf(mem0, roots, m) == 0 {}
    forall p ensures Gone(mem0, roots, n, i + 1, p) <==> Gone(mem0, roots, n, i, p) {
      if m :| Below(m, n, i) && PageOf(mem0, roots, m) == p != 0 { assert Below(m, n, i + 1); }
    }
  }

  /** The subtree below an entry is the same before and after pruning the others. */
  lemma SubtreeKept(mem0: Memory, mem: Memory, roots: set<int>, n: Node, t: int, i: int)
    requires Forest(mem0, roots) && !n.Low? && t == PageOf(mem0, roots, n) != 0 && Pruned(mem0, mem, roots, n, t, i)
    requires i < 512
    ensures forall p :: InTree(mem, roots, Deeper(n, i), p) <==> InTree(mem0, roots, Deeper(n, i), p)
    ensures forall m, k, rwx ::
      EntryAt(mem, roots, Deeper(n, i), m, k, rwx) <==> EntryAt(mem0, roots, Deeper(n, i), m, k, rwx)
  {
    PrunedPages(mem0, mem, roots, n, t, i);
    var c := Deeper(n, i);
    forall m | Under(m, c) ensures PageOf(mem, roots, m) == PageOf(mem0, roots, m) {}
    forall m, k, rwx ensures EntryAt(mem, roots, c, m, k, rwx) <==> EntryAt(mem0, roots, c, m, k, rwx) {
      if Under(m, c) && PageOf(mem0, roots, m) != 0 { KeptTable(mem0, mem, roots, n, t, i, m); }
    }
  }

  /** freewalk of the child at index i, and the entry zeroed. */
  lemma PrunedNext(mem0: Memory, mem: Memory, mem1: Memory, roots: set<int>, n: Node, t: int, i: int)
    requires Forest(mem0, roots) && !n.Low? && t == PageOf(mem0, roots, n) != 0 && Pruned(mem0, mem, roots, n, t, i)
    requires i < 512 && FreedTree(mem, mem1, roots, Deeper(n, i))
    requires NoEntryBefore(mem0, roots, n, i) && NoEntry(mem, roots, Deeper(n, i))
    ensures t in mem1 && |mem1[t].ptes| == 512
    ensures Pruned(mem0, Stored(mem1, t, i, 0), roots, n, t, i + 1) && NoEntryBefore(mem0, roots, n, i + 1)
  {
    hide Forest, FreedTree;
    var c := Deeper(n, i);
    SubtreeKept(mem0, mem, roots, n, t, i);
    NotBelowItself(mem0, roots, n, t, i);
    forall p ensures Gone(mem0, roots, n, i + 1, p) <==> Gone(mem0, roots, n, i, p) || InTree(mem0, roots, c, p) {
      GoneOrIn(mem0, roots, n, i, p);
    }
    StoredTree(mem0, mem, mem1, roots, n, t, i);
    forall m, k, rwx | Below(m, n, i + 1) ensures !EntryAt(mem0, roots, n, m, k, rwx) {
      assert EntryAt(mem0, roots, n, m, k, rwx) && !Below(m, n, i) ==> EntryAt(mem0, roots, c, m, k, rwx);
    }
  }

  lemma StoredTree(mem0: Memory, mem: Memory, mem1: Memory, roots: set<int>, n: Node, t: int, i: int)
    requires Pruned(mem0, mem, roots, n, t, i) && i < 512 && FreedTree(mem, mem1, roots, Deeper(n, i))
    requires !InTree(mem0, roots, Deeper(n, i), t)
    requires forall p :: InTree(mem, roots, Deeper(n, i), p) <==> InTree(mem0, roots, Deeper(n, i), p)
    requires forall p ::
      Gone(mem0, roots, n, i + 1, p) <==> Gone(mem0, roots, n, i, p) || InTree(mem0, roots, Deeper(n, i), p)
    ensures t in mem1 && |mem1[t].ptes| == 512 && Pruned(mem0, Stored(mem1, t, i, 0), roots, n, t, i + 1)
  {
    hide InTree, Gone;
    assert t in mem1 && mem1[t] == mem[t];
    var mem2 := Stored(mem1, t, i, 0);
    assert mem2[t].ptes == mem[t].ptes[i := 0];
  }

  lemma NotBelowItself(mem: Memory, roots: set<int>, n: Node, t: int, i: int)
    requires Forest(mem, roots) && !n.Low? && t == PageOf(mem, roots, n) != 0
    ensures !InTree(mem, roots, Deeper(n, i), t)
  {
    forall m | Under(m, Deeper(n, i)) ensures PageOf(mem, roots, m) != t { Apart(mem, roots, n, m); }
  }

  lemma GoneOrIn(mem: Memory, roots: set<int>, n: Node, i: int, p: int)
    requires !n.Low?
    ensures Gone(mem, roots, n, i + 1, p) <==> Gone(mem, roots, n, i, p) || InTree(mem, roots, Deeper(n, i), p)
  {
    var c := Deeper(n, i);
    hide PageOf;
    if m :| Below(m, n, i + 1) && PageOf(mem, roots, m) == p != 0 {
      assert Below(m, n, i) || Under(m, c);
    }
    if m :| Below(m, n, i) && PageOf(mem, roots, m) == p != 0 { assert Below(m, n, i + 1); }
    if m :| Under(m, c) && PageOf(mem, roots, m) == p != 0 { assert Below(m, n, i + 1); }
  }

  /** After the last entry the table itself goes. */
  lemma PrunedEnd(mem0: Memory, mem: Memory, roots: set<int>, n: Node, t: int)
    requires Forest(mem0, roots) && !n.Low? && t == PageOf(mem0, roots, n) != 0 && Pruned(mem0, mem, roots, n, t, 512)
    requires NoEntryBefore(mem0, roots, n, 512)
    ensures FreedTree(mem0, mem - {t}, roots, n) && NoEntry(mem0, roots, n)
    ensures forall p :: InTree(mem0, roots, n, p) <==> p == t || Gone(mem0, roots, n, 512, p)
  {
    forall m | Under(m, n) && m != n && PageOf(mem0, roots, m) != 0 ensures Below(m, n, 512) {}
    forall p ensures InTree(mem0, roots, n, p) <==> p == t || Gone(mem0, roots, n, 512, p) {
      if m :| Below(m, n, 512) && PageOf(mem0, roots, m) == p != 0 { assert Under(m, n); }
      if p == t { assert Under(n, n); }
    }
  }

  /** A lowest table without valid entries goes. */
  lemma FreedLow(mem: Memory, roots: set<int>, n: Node, t: int)
    requires Forest(mem, roots) && n.Low? && t == PageOf(mem, roots, n) != 0
    ensures FreedTree(mem, mem - {t}, roots, n)
    ensures forall p :: InTree(mem, roots, n, p) <==> p == t
    ensures t in mem && |mem[t].ptes| == 512
    ensures NoEntry(mem, roots, n) <==> forall k :: 0 <= k < 512 ==> !HasV(mem[t].ptes[k])
    ensures forall k :: 0 <= k < 512 && HasV(mem[t].ptes[k]) ==> SomeEntry(mem, roots, n, HasRWX(mem[t].ptes[k]))
  {
    hide HasV, HasRWX;
    forall p ensures InTree(mem, roots, n, p) <==> p == t { assert Under(n, n); }
    forall k | 0 <= k < 512 && HasV(mem[t].ptes[k]) ensures SomeEntry(mem, roots, n, HasRWX(mem[t].ptes[k])) {
      assert EntryAt(mem, roots, n, n, k, HasRWX(mem[t].ptes[k]));
    }
    if forall k :: 0 <= k < 512 ==> !HasV(mem[t].ptes[k]) {
      assert NoEntry(mem, roots, n);
    } else {
      var k :| 0 <= k < 512 && HasV(mem[t].ptes[k]);
      assert EntryAt(mem, roots, n, n, k, HasRWX(mem[t].ptes[k]));
    }
  }

  /** A valid entry of an upper table is no leaf. */
  lemma UpperEntry(mem: Memory, roots: set<int>, n: Node, t: int, i: int)
    requires Forest(mem, roots) && !n.Low? && t == PageOf(mem, roots, n) != 0 && 0 <= i < 512
    ensures t in mem && |mem[t].ptes| == 512
    ensures HasV(mem[t].ptes[i]) ==> !HasRWX(mem[t].ptes[i]) && PageOf(mem, roots, Deeper(n, i)) == PTE2PA(mem[t].ptes[i]) != 0
  {
    assert TableEntry(mem, roots, n, i);
    assert n.r in roots;
    if HasV(mem[t].ptes[i]) { OnlyV(mem[t].ptes[i]); }
  }

  lemma OnlyV(pte: int)
    requires PTE_FLAGS(pte) == 1
    ensures !HasRWX(pte)
  {
    var q := pte / 0x400;
    assert pte == 2 * (8 * (64 * q)) + 1;
    assert pte / 2 == 8 * (64 * q);
  }

  /** What is found below a child is below n. */
  lemma EntryUp(mem0: Memory, mem: Memory, roots: set<int>, n: Node, t: int, i: int, rwx: bool)
    requires Forest(mem0, roots) && !n.Low? && t == PageOf(mem0, roots, n) != 0 && Pruned(mem0, mem, roots, n, t, i)
    requires i < 512 && SomeEntry(mem, roots, Deeper(n, i), rwx)
    ensures SomeEntry(mem0, roots, n, rwx)
  {
    SubtreeKept(mem0, mem, roots, n, t, i);
    hide Forest, Pruned;
    var m, k :| EntryAt(mem, roots, Deeper(n, i), m, k, rwx);
    assert EntryAt(mem0, roots, Deeper(n, i), m, k, rwx);
    assert EntryAt(mem0, roots, n, m, k, rwx);
  }

  /** A page table that is gone leaves the others as they are. */
  lemma RootGone(mem0: Memory, mem: Memory, roots: set<int>, root: int)
    requires Forest(mem0, roots) && root in roots && FreedTree(mem0, mem, roots, Root(root))
    ensures Forest(mem, roots - {root})
    ensures forall r: int, va: nat :: r != root ==> Flat(mem, roots - {root}, r, va) == Flat(mem0, roots, r, va)
  {
    var roots1 := roots - {root};
    forall m: Node | m.r != root && PageOf(mem0, roots, m) != 0
      ensures PageOf(mem0, roots, m) in mem && PageOf(mem0, roots, m) in mem0
    {
      var u := PageOf(mem0, roots, m);
      forall x | Under(x, Root(root)) ensures PageOf(mem0, roots, x) != u { Apart(mem0, roots, m, x); }
      assert !InTree(mem0, roots, Root(root), u);
    }
    forall m ensures PageOf(mem, roots1, m) == if m.r == root then 0 else PageOf(mem0, roots, m) {
      if m.r in roots1 {
        assert PageOf(mem0, roots, Root(m.r)) == m.r;
        if m.Low? { assert PageOf(mem0, roots, Mid(m.r, m.i)) == Child(mem0, m.r, m.i); }
      }
    }
    forall m: Node, k: int ensures TableEntry(mem, roots1, m, k) { assert TableEntry(mem0, roots, m, k); }
    forall r: int, va: nat | r != root ensures Flat(mem, roots1, r, va) == Flat(mem0, roots, r, va) {
      var m := Low(r, PX(2, va), PX(1, va));
      assert PageOf(mem, roots1, m) == PageOf(mem0, roots, m);
    }
  }

  /** The entries of the lowest tables are the flat map. */
  lemma EntriesFlat(mem: Memory, roots: set<int>, root: int)
    requires Forest(mem, roots) && root in roots
    ensures NoEntry(mem, roots, Root(root)) <==> forall va: nat :: !HasV(Flat(mem, roots, root, va))
    ensures forall rwx :: SomeEntry(mem, roots, Root(root), rwx) ==>
      exists va: nat :: HasV(Flat(mem, roots, root, va)) && HasRWX(Flat(mem, roots, root, va)) == rwx
  {
    hide HasV, HasRWX;
    forall m, k, rwx | EntryAt(mem, roots, Root(root), m, k, rwx)
      ensures exists va: nat :: HasV(Flat(mem, roots, root, va)) && HasRWX(Flat(mem, roots, root, va)) == rwx
    {
      assert PageOf(mem, roots, Root(root)) == root && PageOf(mem, roots, Mid(root, m.i)) == Child(mem, root, m.i);
      assert 0 <= m.i < 512 && 0 <= m.j < 512 && 0 <= k < 512;
      var va: nat := ((m.i * 512 + m.j) * 512 + k) * 0x1000;
      IndicesBack(m.i, m.j, k);
      assert Flat(mem, roots, root, va) == mem[PageOf(mem, roots, m)].ptes[k];
    }
    forall va: nat | HasV(Flat(mem, roots, root, va)) ensures !NoEntry(mem, roots, Root(root)) {
      var m := Low(root, PX(2, va), PX(1, va));
      ZeroInvalid();
      assert EntryAt(mem, roots, Root(root), m, PX(0, va), HasRWX(Flat(mem, roots, root, va)));
    }
  }

  lemma ZeroInvalid()
    ensures !HasV(0)
  {
  }

  lemma IndicesBack(x: nat, y: nat, z: nat)
    requires x < 512 && y < 512 && z < 512
    ensures var va := ((x * 512 + y) * 512 + z) * 0x1000; PX(2, va) == x && PX(1, va) == y && PX(0, va) == z
  {
    var v := (x * 512 + y) * 512 + z;
    PageIndex(v * 0x1000);
    assert v * 0x1000 / 0x1000 == v;
    assert v / 512 == x * 512 + y && (x * 512 + y) / 512 == x;
  }
}
