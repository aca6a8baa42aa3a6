/** The mappings of CowMemory as three-level page tables: the entries of a process are the
    flat map of its root, every page-table operation keeps it so, and what a process sees
    through its tables is its memory. */
module TreeMemory {
  import opened ByteSpace
  import opened CowMemory
  import opened PageRefs
  import opened PageTree
  import opened Sv39
  import opened Params

  /** User pages lie below the trapframe and the trampoline. */
  const USERTOP: nat := 0x3FF_FFFE

  // ---- entries ----

  predicate HasW(pte: int) { pte / 4 % 2 == 1 }

  predicate HasU(pte: int) { pte / 16 % 2 == 1 }

  /** The PTE stands for the entry; `first` is the address of page 0. */
  ghost predicate Shows(first: int, pte: int, e: Pte) {
    && HasV(pte) && PTE2PA(pte) == first + e.page * 0x1000
    && HasW(pte) == e.w && HasU(pte) == e.u && HasCow(pte) == e.cow
  }

  /** (pte | PTE_COW) & ~PTE_W. */
  function Marked(pte: int): (r: int) {
    pte + (if HasCow(pte) then 0 else 256) - (if HasW(pte) then 4 else 0)
  }

  /** A PTE by its fields: page, bits 9, 8 (copy-on-write), 7-5, 4 (U), 3, 2 (W), 1-0. */
  function Bits(q: int, a: int, b: int, c: int, u: int, x: int, w: int, v: int): (pte: int) {
    1024 * q + 512 * a + 256 * b + 32 * c + 16 * u + 8 * x + 4 * w + v
  }

  ghost predicate Fields(a: int, b: int, c: int, u: int, x: int, w: int, v: int) {
    0 <= a < 2 && 0 <= b < 2 && 0 <= c < 8 && 0 <= u < 2 && 0 <= x < 2 && 0 <= w < 2 && 0 <= v < 4
  }

  lemma BitsRead(q: int, a: int, b: int, c: int, u: int, x: int, w: int, v: int)
    requires Fields(a, b, c, u, x, w, v)
    ensures var pte := Bits(q, a, b, c, u, x, w, v);
      && PTE2PA(pte) == q * 0x1000 && (HasCow(pte) <==> b == 1) && (HasU(pte) <==> u == 1)
      && (HasW(pte) <==> w == 1) && (HasV(pte) <==> v % 2 == 1)
  {
    Over1024(q, 512 * a + 256 * b + 32 * c + 16 * u + 8 * x + 4 * w + v);
    Over256Odd(2 * q + a, b, 32 * c + 16 * u + 8 * x + 4 * w + v);
    Over16Odd(32 * q + 16 * a + 8 * b + c, u, 8 * x + 4 * w + v);
    Over4Odd(128 * q + 64 * a + 32 * b + 4 * c + 2 * u + x, w, v);
    Even(512 * q + 256 * a + 128 * b + 16 * c + 8 * u + 4 * x + 2 * w, v);
  }

  lemma Over1024(n: int, r: int)
    requires 0 <= r < 1024
    ensures (1024 * n + r) / 1024 == n
  {
  }

  lemma Over256Odd(n: int, b: int, r: int)
    requires 0 <= r < 256 && 0 <= b < 2
    ensures (512 * n + 256 * b + r) / 256 % 2 == b
  {
    Over256(2 * n + b, r);
    Even(n, b);
  }

  lemma Over16Odd(n: int, b: int, r: int)
    requires 0 <= r < 16 && 0 <= b < 2
    ensures (32 * n + 16 * b + r) / 16 % 2 == b
  {
    assert (32 * n + 16 * b + r) / 16 == 2 * n + b;
    Even(n, b);
  }

  lemma Over4Odd(n: int, b: int, r: int)
    requires 0 <= r < 4 && 0 <= b < 2
    ensures (8 * n + 4 * b + r) / 4 % 2 == b
  {
    assert (8 * n + 4 * b + r) / 4 == 2 * n + b;
    Even(n, b);
  }

  lemma BitsOf(pte: int) returns (q: int, a: int, b: int, c: int, u: int, x: int, w: int, v: int)
    ensures Fields(a, b, c, u, x, w, v) && pte == Bits(q, a, b, c, u, x, w, v)
  {
    var p4, p8, p16, p32, p256, p512 := pte / 4, pte / 8, pte / 16, pte / 32, pte / 256, pte / 512;
    q, a, b, c, u, x, w, v := pte / 1024, p512 % 2, p256 % 2, p32 % 8, p16 % 2, p8 % 2, p4 % 2, pte % 4;
    assert p8 == p4 / 2 && p16 == p8 / 2 && p32 == p16 / 2 && p256 == p32 / 8 && p512 == p256 / 2 && q == p512 / 2;
  }

  /** Marking a PTE is marking the entry. */
  lemma MarkedShows(first: int, pte: int, e: Pte)
    requires Shows(first, pte, e)
    ensures Shows(first, Marked(pte), e.(cow := true, w := false))
  {
    var q, a, b, c, u, x, w, v := BitsOf(pte);
    BitsRead(q, a, b, c, u, x, w, v);
    BitsRead(q, a, 1, c, u, x, 0, v);
    assert Marked(pte) == Bits(q, a, 1, c, u, x, 0, v);
  }

  /** What mappages writes. */
  lemma LeafShows(first: int, page: nat, perm: nat)
    requires first % 0x1000 == 0 && perm < 0x400
    ensures Shows(first, LeafPte(first + page * 0x1000, perm), Pte(page, HasW(perm), HasU(perm), HasCow(perm)))
  {
    hide HasV, HasW, HasU, HasCow, PTE2PA, LeafPte, Bits;
    var q0, a, b, c, u, x, w, v := BitsOf(perm);
    NoHighBits(q0, a, b, c, u, x, w, v);
    BitsRead(0, a, b, c, u, x, w, v);
    BitsRead(first / 0x1000 + page, a, b, c, u, x, w, v - v % 2 + 1);
    LeafBits(first, page, a, b, c, u, x, w, v);
    PageBack(first, page);
  }

  lemma NoHighBits(q: int, a: int, b: int, c: int, u: int, x: int, w: int, v: int)
    requires Fields(a, b, c, u, x, w, v) && 0 <= Bits(q, a, b, c, u, x, w, v) < 0x400
    ensures q == 0
  {
  }

  lemma LeafBits(first: int, page: nat, a: int, b: int, c: int, u: int, x: int, w: int, v: int)
    requires first % 0x1000 == 0 && Fields(a, b, c, u, x, w, v) && Bits(0, a, b, c, u, x, w, v) >= 0
    ensures LeafPte(first + page * 0x1000, Bits(0, a, b, c, u, x, w, v)) ==
      Bits(first / 0x1000 + page, a, b, c, u, x, w, v - v % 2 + 1)
  {
    hide PA2PTE, WithV;
    PageBack(first, page);
    WithVIs(256 * a + 128 * b + 16 * c + 8 * u + 4 * x + 2 * w, v);
  }

  lemma PageBack(first: int, page: nat)
    requires first % 0x1000 == 0
    ensures (first / 0x1000 + page) * 0x1000 == first + page * 0x1000
    ensures PA2PTE(first + page * 0x1000) == (first / 0x1000 + page) * 0x400
  {
    assert first + page * 0x1000 == (first / 0x1000 + page) * 0x1000;
  }

  lemma WithVIs(n: nat, v: nat)
    requires v < 4
    ensures WithV(2 * n + v) == 2 * n + (v - v % 2 + 1)
  {
    assert (2 * n + v) / 2 == n + v / 2;
  }

  // ---- the coupling ----

  /** The address of the root table of a process. */
  function RootAt(refs: Refs, first: int, pid: nat): (r: int) {
    if Ref.Root(pid) in refs then first + refs[Ref.Root(pid)].page * 0x1000 else 0
  }

  ghost predicate CoupledAt(refs: Refs, first: int, mem: Memory, roots: set<int>, pid: nat, v: nat) {
    var pte := Flat(mem, roots, RootAt(refs, first, pid), v * 0x1000);
    && (User(pid, v) in refs ==> Ref.Root(pid) in refs && Shows(first, pte, refs[User(pid, v)]))
    && (Ref.Root(pid) in refs ==> RootAt(refs, first, pid) in roots && (User(pid, v) !in refs ==> !HasV(pte)))
  }

  /** The user entries of every process are the flat map of its root. */
  ghost predicate Coupled(refs: Refs, first: int, mem: Memory, roots: set<int>) {
    forall pid: nat, v: nat :: v < USERTOP ==> CoupledAt(refs, first, mem, roots, pid, v)
  }

  lemma RootsApart(refs: Refs, first: int, p: nat, q: nat)
    requires Isolated(refs) && p != q && Ref.Root(p) in refs && Ref.Root(q) in refs
    ensures RootAt(refs, first, p) != RootAt(refs, first, q)
  {
  }

  /** One PTE of the process's tables is written, and its entry becomes e: mappages, the
      marking in uvmcopy, the new page of a store fault. */
  lemma PutKeeps(
    refs: Refs, first: int, mem: Memory, mem1: Memory, roots: set<int>, pid: nat, v: nat, pte: int, e: Pte)
    requires Coupled(refs, first, mem, roots) && Isolated(refs) && Ref.Root(pid) in refs && v < USERTOP
    requires FlatPut(mem, mem1, roots, RootAt(refs, first, pid), v * 0x1000, pte) && Shows(first, pte, e)
    ensures Coupled(refs[User(pid, v) := e], first, mem1, roots)
  {
    var refs1 := refs[User(pid, v) := e];
    hide Flat, Shows, HasV;
    forall p: nat, w: nat | w < USERTOP ensures CoupledAt(refs1, first, mem1, roots, p, w) {
      Elsewhere(refs, first, mem, mem1, roots, pid, v, pte, p, w);
    }
  }

  /** What the other entries say. */
  lemma Elsewhere(
    refs: Refs, first: int, mem: Memory, mem1: Memory, roots: set<int>, pid: nat, v: nat, pte: int, p: nat, w: nat)
    requires Coupled(refs, first, mem, roots) && Isolated(refs) && Ref.Root(pid) in refs && v < USERTOP && w < USERTOP
    requires FlatPut(mem, mem1, roots, RootAt(refs, first, pid), v * 0x1000, pte)
    ensures CoupledAt(refs, first, mem, roots, p, w)
    ensures Ref.Root(p) in refs ==>
      Flat(mem1, roots, RootAt(refs, first, p), w * 0x1000) ==
        if p == pid && w == v then pte else Flat(mem, roots, RootAt(refs, first, p), w * 0x1000)
  {
    hide Flat;
    if p != pid && Ref.Root(p) in refs { RootsApart(refs, first, p, pid); }
    assert w * 0x1000 / 0x1000 == w && v * 0x1000 / 0x1000 == v;
  }

  /** uvmunmap of one page. */
  lemma DropKeeps(refs: Refs, first: int, mem: Memory, mem1: Memory, roots: set<int>, pid: nat, v: nat)
    requires Coupled(refs, first, mem, roots) && Isolated(refs) && Ref.Root(pid) in refs && v < USERTOP
    requires FlatPut(mem, mem1, roots, RootAt(refs, first, pid), v * 0x1000, 0)
    ensures Coupled(refs - {User(pid, v)}, first, mem1, roots)
  {
    var refs1 := refs - {User(pid, v)};
    ZeroInvalid();
    hide Flat, Shows, HasV;
    forall p: nat, w: nat | w < USERTOP ensures CoupledAt(refs1, first, mem1, roots, p, w) {
      Elsewhere(refs, first, mem, mem1, roots, pid, v, 0, p, w);
      assert RootAt(refs1, first, p) == RootAt(refs, first, p);
    }
  }

  /** Entries and roots are the same; tables and trapframes may not be. */
  ghost predicate SameEntries(refs: Refs, refs1: Refs) {
    forall r: Ref :: r.User? || r.Root? ==> (r in refs <==> r in refs1) && (r in refs ==> refs1[r] == refs[r])
  }

  /** walk, which makes tables but no mapping. */
  lemma WalkKeeps(refs: Refs, refs1: Refs, first: int, mem: Memory, mem1: Memory, roots: set<int>)
    requires Coupled(refs, first, mem, roots) && SameEntries(refs, refs1) && SameFlat(mem, mem1, roots)
    ensures Coupled(refs1, first, mem1, roots)
  {
    hide Flat, Shows, HasV;
    forall p: nat, w: nat | w < USERTOP ensures CoupledAt(refs1, first, mem1, roots, p, w) {
      assert CoupledAt(refs, first, mem, roots, p, w);
      assert Ref.Root(p) in refs <==> Ref.Root(p) in refs1;
      assert RootAt(refs1, first, p) == RootAt(refs, first, p);
    }
  }

  /** uvmcreate: an empty root for a process without pages. */
  lemma CreateKeeps(
    refs: Refs, first: int, mem: Memory, roots: set<int>, mem1: Memory, roots1: set<int>, pid: nat, e: Pte)
    requires Coupled(refs, first, mem, roots) && (forall r :: r in refs ==> r.pid != pid || !(r.User? || r.Root?))
    requires roots <= roots1 && RootAt(refs[Ref.Root(pid) := e], first, pid) in roots1
    requires RootAt(refs[Ref.Root(pid) := e], first, pid) !in roots
    requires forall r: int, va: nat ::
      Flat(mem1, roots1, r, va) ==
        if r == RootAt(refs[Ref.Root(pid) := e], first, pid) then 0 else Flat(mem, roots, r, va)
    ensures Coupled(refs[Ref.Root(pid) := e], first, mem1, roots1)
  {
    var refs1 := refs[Ref.Root(pid) := e];
    ZeroInvalid();
    hide Flat, Shows, HasV;
    forall p: nat, w: nat | w < USERTOP ensures CoupledAt(refs1, first, mem1, roots1, p, w) {
      assert CoupledAt(refs, first, mem, roots, p, w);
      assert p != pid ==> RootAt(refs1, first, p) == RootAt(refs, first, p);
      assert p == pid ==> User(p, w) !in refs;
    }
  }

  /** freewalk of a process without pages. */
  lemma FreeKeeps(refs: Refs, first: int, mem: Memory, roots: set<int>, mem1: Memory, pid: nat)
    requires Coupled(refs, first, mem, roots) && Isolated(refs) && Ref.Root(pid) in refs
    requires forall v: nat :: User(pid, v) !in refs
    requires forall r: int, va: nat :: r != RootAt(refs, first, pid) ==>
      Flat(mem1, roots - {RootAt(refs, first, pid)}, r, va) == Flat(mem, roots, r, va)
    ensures Coupled(refs - {Ref.Root(pid)}, first, mem1, roots - {RootAt(refs, first, pid)})
  {
    var refs1, root := refs - {Ref.Root(pid)}, RootAt(refs, first, pid);
    hide Flat, Shows, HasV;
    forall p: nat, w: nat | w < USERTOP ensures CoupledAt(refs1, first, mem1, roots - {root}, p, w) {
      assert CoupledAt(refs, first, mem, roots, p, w);
      if p != pid && Ref.Root(p) in refs { RootsApart(refs, first, p, pid); }
    }
  }

  // ---- the code on the tables ----

  /** mappages of one user page: on success exactly that entry is new; it panics only if
      the page is mapped and not copy-on-write. */
  method MapUser(tables: PageTables, ghost refs: Refs, first: int, pid: nat, root: int, v: nat, page: nat, perm: nat)
    returns (o: Outcome, ghost refs1: Refs)
    requires tables.Valid() && Coupled(refs, first, tables.mem, tables.roots) && Isolated(refs)
    requires Ref.Root(pid) in refs && root == RootAt(refs, first, pid) && v < USERTOP && perm < 0x400 && first % 0x1000 == 0
    modifies tables`mem, tables`free
    ensures tables.Valid() && Coupled(refs1, first, tables.mem, tables.roots)
    ensures refs1 == if o.Done? then refs[User(pid, v) := Pte(page, HasW(perm), HasU(perm), HasCow(perm))] else refs
    ensures o.Panic? ==> User(pid, v) in refs && !refs[User(pid, v)].cow
  {
    hide Coupled, Flat, HasW, HasU, HasCow, HasV, LeafPte, Shows, FlatPut, SameFlat;
    CoupledRoot(refs, first, tables.mem, tables.roots, pid, v);
    ghost var mem0 := tables.mem;
    o := tables.MapOne(root, v * 0x1000, first + page * 0x1000, perm);
    refs1 := refs;
    if o.Done? {
      refs1 := refs[User(pid, v) := Pte(page, HasW(perm), HasU(perm), HasCow(perm))];
      LeafShows(first, page, perm);
      PutKeeps(refs, first, mem0, tables.mem, tables.roots, pid, v, LeafPte(first + page * 0x1000, perm), refs1[User(pid, v)]);
    } else {
      WalkKeeps(refs, refs, first, mem0, tables.mem, tables.roots);
      NotMappable(refs, first, mem0, tables.roots, pid, v);
    }
  }

  lemma CoupledRoot(refs: Refs, first: int, mem: Memory, roots: set<int>, pid: nat, v: nat)
    requires Coupled(refs, first, mem, roots) && Ref.Root(pid) in refs && v < USERTOP
    ensures RootAt(refs, first, pid) in roots
  {
    assert CoupledAt(refs, first, mem, roots, pid, v);
  }

  lemma NotMappable(refs: Refs, first: int, mem: Memory, roots: set<int>, pid: nat, v: nat)
    requires Coupled(refs, first, mem, roots) && Ref.Root(pid) in refs && v < USERTOP
    ensures !Mappable(Flat(mem, roots, RootAt(refs, first, pid), v * 0x1000)) ==>
      User(pid, v) in refs && !refs[User(pid, v)].cow
  {
    hide Flat;
    assert CoupledAt(refs, first, mem, roots, pid, v);
  }

  /** uvmunmap of one user page: the entry goes, and the frame handed to kfree is the page
      it named. */
  method UnmapUser(tables: PageTables, ghost refs: Refs, first: int, pid: nat, root: int, v: nat)
    returns (ok: bool, pa: int, ghost refs1: Refs)
    requires tables.Valid() && Coupled(refs, first, tables.mem, tables.roots) && Isolated(refs)
    requires Ref.Root(pid) in refs && root == RootAt(refs, first, pid) && v < USERTOP
    modifies tables`mem, tables`free
    ensures tables.Valid() && Coupled(refs1, first, tables.mem, tables.roots)
    ensures ok ==> User(pid, v) in refs && refs1 == refs - {User(pid, v)} && pa == first + refs[User(pid, v)].page * 0x1000
    ensures !ok ==> refs1 == refs && (User(pid, v) in refs ==> !refs[User(pid, v)].w && !refs[User(pid, v)].u)
  {
    hide Coupled, Flat, HasW, HasU, HasCow, HasV, Shows, FlatPut, PTE2PA, Unmappable;
    CoupledRoot(refs, first, tables.mem, tables.roots, pid, v);
    UnmapFacts(refs, first, tables.mem, tables.roots, pid, v);
    ghost var mem0 := tables.mem;
    var pte;
    ok, pte := tables.UnmapOne(root, v * 0x1000);
    refs1, pa := refs, PTE2PA(pte);
    if ok {
      refs1 := refs - {User(pid, v)};
      DropKeeps(refs, first, mem0, tables.mem, tables.roots, pid, v);
    }
  }

  lemma UnmapFacts(refs: Refs, first: int, mem: Memory, roots: set<int>, pid: nat, v: nat)
    requires Coupled(refs, first, mem, roots) && Ref.Root(pid) in refs && v < USERTOP
    ensures var pte := Flat(mem, roots, RootAt(refs, first, pid), v * 0x1000);
      && (Unmappable(pte) ==> User(pid, v) in refs && PTE2PA(pte) == first + refs[User(pid, v)].page * 0x1000)
      && (!Unmappable(pte) && User(pid, v) in refs ==> !refs[User(pid, v)].w && !refs[User(pid, v)].u)
  {
    hide Flat;
    assert CoupledAt(refs, first, mem, roots, pid, v);
    OnlyVBits(Flat(mem, roots, RootAt(refs, first, pid), v * 0x1000));
  }

  lemma OnlyVBits(pte: int)
    ensures PTE_FLAGS(pte) == 1 ==> !HasW(pte) && !HasU(pte)
  {
    var q, a, b, c, u, x, w, v := BitsOf(pte);
    BitsRead(q, a, b, c, u, x, w, v);
  }

  // ---- what a process sees through its tables ----

  /** The page a walk of the tables leads to. */
  ghost function TreePage(first: int, mem: Memory, roots: set<int>, root: int, phys: seq<Page>, v: nat): (pg: Page) {
    var pte := Flat(mem, roots, root, v * 0x1000);
    var p := (PTE2PA(pte) - first) / 0x1000;
    if HasV(pte) && 0 <= p < |phys| then phys[p] else Page([])
  }

  ghost function TreeView(
    first: int, mem: Memory, roots: set<int>, root: int, phys: seq<Page>, n: nat): (s: Space)
  {
    seq(n, v requires 0 <= v < n => TreePage(first, mem, roots, root, phys, v))
  }

  ghost function TreeViews(
    size: map<nat, nat>, refs: Refs, first: int, mem: Memory, roots: set<int>, phys: seq<Page>): (m: Spaces)
  {
    map pid | pid in size :: TreeView(first, mem, roots, RootAt(refs, first, pid), phys, size[pid])
  }

  /** The memory of every process is what its page tables show it. */
  lemma TreesShow(size: map<nat, nat>, refs: Refs, first: int, mem: Memory, roots: set<int>, phys: seq<Page>)
    requires Coupled(refs, first, mem, roots) && Sized(size, refs) && InRange(|phys|, refs)
    requires forall pid :: pid in size ==> size[pid] <= USERTOP
    ensures TreeViews(size, refs, first, mem, roots, phys) == Views(size, refs, phys)
  {
    hide Flat;
    forall pid | pid in size
      ensures TreeView(first, mem, roots, RootAt(refs, first, pid), phys, size[pid]) == ViewOf(refs, phys, pid, size[pid])
    {
      var root := RootAt(refs, first, pid);
      forall v: nat | v < size[pid] ensures TreePage(first, mem, roots, root, phys, v) == Held(refs, phys, User(pid, v)) {
        assert Maps(refs, pid, size[pid]);
        assert CoupledAt(refs, first, mem, roots, pid, v);
      }
    }
  }

  /** Isolation over the three-level tables: whatever calls were made in between, what
      processes see through their tables is what private memories would show. */
  lemma TreeIsolation(
    size: map<nat, nat>, refs: Refs, first: int, mem: Memory, roots: set<int>, phys: seq<Page>,
    size1: map<nat, nat>, refs1: Refs, mem1: Memory, roots1: set<int>, phys1: seq<Page>, events: seq<Event>)
    requires Coupled(refs, first, mem, roots) && Sized(size, refs) && InRange(|phys|, refs)
    requires Coupled(refs1, first, mem1, roots1) && Sized(size1, refs1) && InRange(|phys1|, refs1)
    requires forall pid :: pid in size ==> size[pid] <= USERTOP
    requires forall pid :: pid in size1 ==> size1[pid] <= USERTOP
    requires Views(size1, refs1, phys1) == PrivateRun(Views(size, refs, phys), events)
    ensures TreeViews(size1, refs1, first, mem1, roots1, phys1) ==
      PrivateRun(TreeViews(size, refs, first, mem, roots, phys), events)
  {
    hide Coupled, Sized, InRange, Views, TreeViews, PrivateRun;
    TreesShow(size, refs, first, mem, roots, phys);
    TreesShow(size1, refs1, first, mem1, roots1, phys1);
  }
}
