/** Copy-on-write user memory (kalloc.c, vm.c, the store-fault branch of trap.c):
    the allocator's counts and free list, the mappings that share pages, and the
    proof that what each process sees is a private memory. */
module CowMemory {
  import opened PageRefs
  import opened ByteSpace
  import opened Params

  /** What the page a reference names contains. */
  ghost function Held(refs: Refs, mem: seq<Page>, r: Ref): (pg: Page) {
    if r in refs && refs[r].page < |mem| then mem[refs[r].page] else Page([])
  }

  /** The first n pages process pid sees. */
  ghost function ViewOf(refs: Refs, mem: seq<Page>, pid: nat, n: nat): (s: Space)
    ensures |s| == n
    ensures forall v :: 0 <= v < n ==> s[v] == Held(refs, mem, User(pid, v))
  {
    seq(n, v requires 0 <= v < n => Held(refs, mem, User(pid, v)))
  }

  /** Every reference of the first state is in the second, with the same entry
      and the same content behind it. */
  ghost predicate Extends(refs: Refs, mem: seq<Page>, refs1: Refs, mem1: seq<Page>) {
    forall r :: r in refs ==> r in refs1 && refs1[r] == refs[r] && Held(refs1, mem1, r) == Held(refs, mem, r)
  }

  /** References of processes other than `pid` name the same pages with the same
      contents, and none appear or disappear. */
  ghost predicate OthersKept(refs: Refs, mem: seq<Page>, refs1: Refs, mem1: seq<Page>, pid: nat) {
    forall r: Ref :: r.pid != pid ==>
      && (r in refs <==> r in refs1)
      && (r in refs ==> refs1[r].page == refs[r].page)
      && Held(refs1, mem1, r) == Held(refs, mem, r)
  }

  lemma OthersSeeTheSame(refs: Refs, mem: seq<Page>, refs1: Refs, mem1: seq<Page>, pid: nat, q: nat, n: nat)
    requires OthersKept(refs, mem, refs1, mem1, pid) && q != pid
    ensures ViewOf(refs1, mem1, q, n) == ViewOf(refs, mem, q, n)
  {
    forall v | 0 <= v < n ensures ViewOf(refs1, mem1, q, n)[v] == ViewOf(refs, mem, q, n)[v] {
      assert User(q, v).pid != pid;
    }
  }

  /** Process pid maps exactly its first n pages. */
  ghost predicate Maps(refs: Refs, pid: nat, n: nat) {
    forall v: nat :: User(pid, v) in refs <==> v < n
  }

  /** The child's first n entries name the parent's pages. */
  ghost predicate SamePages(refs: Refs, parent: nat, child: nat, n: nat) {
    forall v: nat :: v < n ==>
      && User(parent, v) in refs && User(child, v) in refs
      && refs[User(child, v)].page == refs[User(parent, v)].page
  }

  lemma MappedHere(refs: Refs, pid: nat, n: nat, v: nat)
    requires Maps(refs, pid, n)
    ensures User(pid, v) in refs <==> v < n
  {
  }

  lemma CopiedKeeps(
    refs: Refs, mem: seq<Page>, refs1: Refs, mem1: seq<Page>, parent: nat, child: nat, v: nat, ok: bool)
    requires EntryCopied(refs, mem, refs1, mem1, parent, child, v, ok)
    ensures OthersKept(refs, mem, refs1, mem1, child)
  {
    hide OthersKept;
  }

  lemma NoPagesYet(refs: Refs, parent: nat, child: nat)
    ensures SamePages(refs, parent, child, 0)
  {
  }

  /** Sharing pages is seeing the same contents. */
  lemma SamePagesSameView(
    refs: Refs, mem: seq<Page>, refs1: Refs, mem1: seq<Page>, parent: nat, child: nat, n: nat)
    requires OthersKept(refs, mem, refs1, mem1, child) && parent != child
    requires SamePages(refs1, parent, child, n)
    ensures ViewOf(refs1, mem1, child, n) == ViewOf(refs, mem, parent, n)
  {
    forall v: nat | v < n
      ensures Held(refs1, mem1, User(child, v)) == Held(refs, mem, User(parent, v))
    {
      assert User(parent, v).pid != child;
    }
  }

  lemma OthersKeptTwice(
    refs: Refs, mem: seq<Page>, refs1: Refs, mem1: seq<Page>, refs2: Refs, mem2: seq<Page>, pid: nat)
    requires OthersKept(refs, mem, refs1, mem1, pid) && OthersKept(refs1, mem1, refs2, mem2, pid)
    ensures OthersKept(refs, mem, refs2, mem2, pid)
  {
  }

  lemma ExtendsTwice(refs: Refs, mem: seq<Page>, refs1: Refs, mem1: seq<Page>, refs2: Refs, mem2: seq<Page>)
    requires Extends(refs, mem, refs1, mem1) && Extends(refs1, mem1, refs2, mem2)
    ensures Extends(refs, mem, refs2, mem2)
  {
  }

  /** Filling a page nothing refers to is invisible. */
  lemma FillUnreferenced(counts: seq<int>, refs: Refs, mem: seq<Page>, p: nat, pg: Page)
    requires Counted(counts, refs) && p < |counts| == |mem| && counts[p] == 0
    ensures Extends(refs, mem, refs, mem[p := pg])
  {
    Unreferenced(counts, refs, p);
  }

  /** One iteration of uvmcopy seen from outside: other processes keep pages
      and contents, the child keeps what it had, and gains at most the entry for
      page v, which names the parent's page. */
  ghost predicate EntryCopied(
    refs: Refs, mem: seq<Page>, refs1: Refs, mem1: seq<Page>, parent: nat, child: nat, v: nat, ok: bool)
  {
    && OthersKept(refs, mem, refs1, mem1, child)
    && (forall r :: r in refs && r.pid == child ==> r in refs1 && refs1[r] == refs[r])
    && (forall r :: r in refs1 && r !in refs && r.User? ==> ok && r == User(child, v))
    && (ok ==> User(parent, v) in refs && User(child, v) in refs1
               && refs1[User(child, v)].page == refs[User(parent, v)].page)
  }

  /** Before the child's entry is set: the parent's entry is marked, and tables
      may have been added to the child. */
  lemma EntryWalked(
    refs: Refs, mem: seq<Page>, refs1: Refs, refs2: Refs, mem2: seq<Page>, parent: nat, child: nat, v: nat)
    requires User(parent, v) in refs && parent != child
    requires refs1 == refs[User(parent, v) := refs[User(parent, v)].(cow := true, w := false)]
    requires Extends(refs1, mem, refs2, mem2)
    requires forall r :: r in refs2 && r !in refs1 ==> r.pid == child && !r.User?
    ensures EntryCopied(refs, mem, refs2, mem2, parent, child, v, false)
  {
    forall r: Ref | r.pid != child
      ensures (r in refs <==> r in refs2) && Held(refs2, mem2, r) == Held(refs, mem, r)
      ensures r in refs ==> refs2[r].page == refs[r].page
    {
      assert r in refs <==> r in refs1;
      assert Held(refs1, mem, r) == Held(refs, mem, r);
    }
  }

  lemma EntryShared(
    refs: Refs, mem: seq<Page>, refs1: Refs, mem1: seq<Page>, parent: nat, child: nat, v: nat, pte: Pte)
    requires EntryCopied(refs, mem, refs1, mem1, parent, child, v, false)
    requires User(child, v) !in refs && User(parent, v) in refs && pte.page == refs[User(parent, v)].page
    ensures EntryCopied(refs, mem, refs1[User(child, v) := pte], mem1, parent, child, v, true)
  {
    var refs2 := refs1[User(child, v) := pte];
    forall r: Ref | r.pid != child
      ensures (r in refs <==> r in refs2) && Held(refs2, mem1, r) == Held(refs, mem, r)
      ensures r in refs ==> refs2[r].page == refs[r].page
    {
      assert r in refs1 <==> r in refs2;
    }
  }

  /** What one iteration of uvmcopy leaves mapped. */
  lemma CopiedOne(
    refs: Refs, mem: seq<Page>, refs1: Refs, mem1: seq<Page>,
    parent: nat, child: nat, n: nat, i: nat, ok: bool)
    requires EntryCopied(refs, mem, refs1, mem1, parent, child, i, ok) && parent != child && i < n
    requires Maps(refs, parent, n) && Maps(refs, child, i) && SamePages(refs, parent, child, i)
    ensures Maps(refs1, parent, n) && Maps(refs1, child, if ok then i + 1 else i)
    ensures SamePages(refs1, parent, child, if ok then i + 1 else i)
  {
    forall v: nat ensures User(parent, v) in refs1 <==> v < n { assert User(parent, v).pid != child; }
    forall v: nat | v < (if ok then i + 1 else i)
      ensures refs1[User(parent, v)].page == refs[User(parent, v)].page
    {
      assert User(parent, v).pid != child;
    }
  }

  /** What every process sees. */
  type Spaces = map<nat, Space>

  ghost function Views(size: map<nat, nat>, refs: Refs, mem: seq<Page>): (m: Spaces) {
    map pid | pid in size :: ViewOf(refs, mem, pid, size[pid])
  }

  /** A live process maps exactly the pages below its size. */
  ghost predicate Sized(size: map<nat, nat>, refs: Refs) {
    && (forall pid :: pid in size ==> Maps(refs, pid, size[pid]))
    && (forall r :: r in refs ==> r.pid in size)
  }

  /** A change confined to process pid changes only that process's view. */
  lemma OneView(
    size: map<nat, nat>, refs: Refs, mem: seq<Page>, refs1: Refs, mem1: seq<Page>, pid: nat, n: nat)
    requires OthersKept(refs, mem, refs1, mem1, pid) && Sized(size, refs) && Maps(refs1, pid, n)
    ensures Sized(size[pid := n], refs1)
    ensures Views(size[pid := n], refs1, mem1) == Views(size, refs, mem)[pid := ViewOf(refs1, mem1, pid, n)]
  {
    var size1 := size[pid := n];
    forall q | q in size1 ensures Maps(refs1, q, size1[q]) {
      if q != pid {
        forall v: nat ensures User(q, v) in refs1 <==> v < size1[q] { assert User(q, v).pid != pid; }
      }
    }
    forall q | q in size1 && q != pid
      ensures ViewOf(refs1, mem1, q, size1[q]) == ViewOf(refs, mem, q, size[q])
    {
      OthersSeeTheSame(refs, mem, refs1, mem1, pid, q, size[q]);
    }
  }

  /** The same when the size does not change. */
  lemma OneViewSameSize(
    size: map<nat, nat>, refs: Refs, mem: seq<Page>, refs1: Refs, mem1: seq<Page>, pid: nat)
    requires OthersKept(refs, mem, refs1, mem1, pid) && Sized(size, refs)
    requires pid in size && Maps(refs1, pid, size[pid])
    ensures Sized(size, refs1)
    ensures Views(size, refs1, mem1) == Views(size, refs, mem)[pid := ViewOf(refs1, mem1, pid, size[pid])]
    ensures ViewOf(refs1, mem1, pid, size[pid]) == ViewOf(refs, mem, pid, size[pid]) ==>
      Views(size, refs1, mem1) == Views(size, refs, mem)
  {
    OneView(size, refs, mem, refs1, mem1, pid, size[pid]);
    assert size[pid := size[pid]] == size;
  }

  /** The same when process pid is gone afterwards, or never came to be. */
  lemma NoView(size: map<nat, nat>, refs: Refs, mem: seq<Page>, refs1: Refs, mem1: seq<Page>, pid: nat)
    requires OthersKept(refs, mem, refs1, mem1, pid) && Sized(size, refs)
    requires forall r :: r in refs1 ==> r.pid != pid
    ensures Sized(size - {pid}, refs1)
    ensures Views(size - {pid}, refs1, mem1) == Views(size, refs, mem) - {pid}
  {
    var size1 := size - {pid};
    forall q | q in size1 ensures Maps(refs1, q, size1[q]) {
      forall v: nat ensures User(q, v) in refs1 <==> v < size1[q] { assert User(q, v).pid != pid; }
    }
    forall q | q in size1 ensures ViewOf(refs1, mem1, q, size1[q]) == ViewOf(refs, mem, q, size[q]) {
      OthersSeeTheSame(refs, mem, refs1, mem1, pid, q, size[q]);
    }
  }

  /** Tables and trapframes of pid are invisible to everybody else. */
  lemma KernelPagesOnly(refs: Refs, mem: seq<Page>, refs1: Refs, mem1: seq<Page>, pid: nat)
    requires Extends(refs, mem, refs1, mem1)
    requires forall r :: r in refs1 && r !in refs ==> r.pid == pid && !r.User?
    ensures OthersKept(refs, mem, refs1, mem1, pid)
    ensures forall n: nat :: Maps(refs, pid, n) ==> Maps(refs1, pid, n)
  {
  }

  lemma NotThere(size: map<nat, nat>, refs: Refs, pid: nat)
    requires Sized(size, refs) && pid !in size
    ensures Maps(refs, pid, 0) && forall r :: r in refs ==> r.pid != pid
  {
    forall v: nat ensures User(pid, v) !in refs { assert User(pid, v).pid == pid; }
  }

  lemma FirstWrite(none: Space, page: Space, code: seq<int>)
    requires none == [] && page == none + [Filled(0)] && |code| < PGSIZE
    ensures WriteBytes(page, 0, code) == [Splice(Filled(0), 0, code)]
  {
    WriteInsidePage(page, 0, 0, code);
  }

  lemma ForkReady(size: map<nat, nat>, refs: Refs, parent: nat, child: nat)
    requires Sized(size, refs) && parent in size && child !in size
    ensures Maps(refs, parent, size[parent]) && Maps(refs, child, 0) && forall r :: r in refs ==> r.pid != child
  {
    NotThere(size, refs, child);
  }

  lemma KeptMaps(refs: Refs, mem: seq<Page>, refs1: Refs, mem1: seq<Page>, pid: nat, q: nat, n: nat)
    requires OthersKept(refs, mem, refs1, mem1, pid) && q != pid && Maps(refs, q, n)
    ensures Maps(refs1, q, n)
  {
    forall v: nat ensures User(q, v) in refs1 <==> v < n { assert User(q, v).pid != pid; }
  }

  /** After a page moved: reference r names page m with the old bytes, and every
      other reference still has its own. */
  lemma Moved(counts: seq<int>, refs1: Refs, refs: Refs, mem: seq<Page>, mem1: seq<Page>, r: Ref, m: nat)
    requires Counted(counts, refs) && r in refs && m < |counts| == |mem| && counts[m] == 0
    requires InRange(|counts|, refs) && refs1 == refs[r := Pte(m, true, true, false)]
    requires var pa := refs[r].page;
      mem1 == (if counts[pa] == 1 then mem[m := mem[pa]][pa := Filled(1)] else mem[m := mem[pa]])
    ensures forall q :: Held(refs1, mem1, q) == Held(refs, mem, q)
  {
    var pa := refs[r].page;
    Unreferenced(counts, refs, m);
    forall q ensures Held(refs1, mem1, q) == Held(refs, mem, q) {
      if q in refs && q != r && refs[q].page == pa {
        TwoReferences(counts, refs, q, r);
      }
    }
  }

  /** What breaking a share needs to know beforehand. */
  lemma MoveFacts(counts: seq<int>, free: seq<nat>, refs: Refs, r: Ref)
    requires Consistent(counts, free, refs) && free != [] && r in refs
    ensures Counted(counts, refs) && InRange(|counts|, refs) && refs[r].page < |counts| && free[0] < |counts|
    ensures free[0] != refs[r].page && counts[free[0]] == 0
    ensures var p := refs[r].page;
      Consistent(counts[free[0] := counts[free[0]] + 1][p := counts[p] - 1],
                 FreeAfter(free[1..], p, counts[p] - 1), refs[r := Pte(free[0], true, true, false)])
  {
    MoveRef(counts, free, refs, r, Pte(free[0], true, true, false));
  }

  lemma MovedKept(refs1: Refs, refs: Refs, mem: seq<Page>, mem1: seq<Page>, r: Ref, m: nat)
    requires r in refs && refs1 == refs[r := Pte(m, true, true, false)]
    requires forall q :: Held(refs1, mem1, q) == Held(refs, mem, q)
    ensures OthersKept(refs, mem, refs1, mem1, r.pid)
  {
    hide Held;
  }

  /** A page two references name is counted at least twice. */
  lemma TwoReferences(counts: seq<int>, refs: Refs, q: Ref, r: Ref)
    requires Counted(counts, refs) && q in refs && r in refs && q != r
    requires refs[q].page == refs[r].page < |counts|
    ensures counts[refs[r].page] >= 2
  {
    var s := RefsTo(refs, refs[r].page);
    assert {q, r} <= s;
    assert |s - {q, r}| + |{q, r}| == |s|;
  }

  /** How a store or a copy to user memory ends.  Fault stands for the kernel
      touching address zero: an unmapped table, an inaccessible copy-on-write
      page, or kalloc's unchecked null. */
  datatype Access = Done | Failed | Fault | Panicked

  /** Writing into the only page a mapping names changes that page of that
      process and nothing else. */
  lemma SoleWrite(refs: Refs, mem: seq<Page>, pid: nat, v: nat, n: nat, off: nat, src: seq<int>)
    requires Isolated(refs) && InRange(|mem|, refs) && Whole(mem)
    requires Maps(refs, pid, n) && v < n && !refs[User(pid, v)].cow && off + |src| <= PGSIZE
    ensures var p := refs[User(pid, v)].page; var mem1 := mem[p := Splice(mem[p], off, src)];
      && OthersKept(refs, mem, refs, mem1, pid) && Whole(mem1)
      && ViewOf(refs, mem1, pid, n) == WriteBytes(ViewOf(refs, mem, pid, n), v * PGSIZE + off, src)
  {
    var r := User(pid, v);
    var p := refs[r].page;
    var mem1 := mem[p := Splice(mem[p], off, src)];
    assert forall q :: q in refs && q != r ==> refs[q].page != p;
    var view := ViewOf(refs, mem, pid, n);
    WriteInsidePage(view, v, v * PGSIZE + off, src);
    assert ViewOf(refs, mem1, pid, n) == view[v := Splice(view[v], off, src)];
  }

  /** Pages lo .. v - 1 of pid are unmapped, and nothing else is. */
  ghost predicate Without(refs: Refs, refs1: Refs, pid: nat, lo: nat, v: nat) {
    forall r :: r in refs1 <==> r in refs && !(r.User? && r.pid == pid && lo <= r.vpn < v)
  }

  lemma RangeUnmapped(
    refs: Refs, mem: seq<Page>, refs1: Refs, mem1: seq<Page>, pid: nat, lo: nat, hi: nat)
    requires Extends(refs1, mem1, refs, mem) && Without(refs, refs1, pid, lo, hi) && Maps(refs, pid, hi) && lo <= hi
    ensures OthersKept(refs, mem, refs1, mem1, pid) && Maps(refs1, pid, lo)
    ensures ViewOf(refs1, mem1, pid, lo) == ViewOf(refs, mem, pid, lo)
  {
    forall v: nat ensures User(pid, v) in refs1 <==> v < lo { assert User(pid, v) in refs <==> v < hi; }
  }

  /** Both lower tables for page v of pid exist. */
  predicate HasTables(refs: Refs, pid: nat, v: nat) {
    Dir1(pid, v / 0x4_0000) in refs && Dir0(pid, v / 0x200) in refs
  }

  /** The two lower tables for page v of pid. */
  function TablesOf(pid: nat, v: nat): (s: set<Ref>) {
    {Dir1(pid, v / 0x4_0000), Dir0(pid, v / 0x200)}
  }

  /** How many tables walk has to make for page v of pid. */
  function MissingTables(keys: set<Ref>, pid: nat, v: nat): (k: nat) {
    (if Dir1(pid, v / 0x4_0000) in keys then 0 else 1) + (if Dir0(pid, v / 0x200) in keys then 0 else 1)
  }

  /** ... for the k pages from v on, one after the other. */
  function TablesFor(keys: set<Ref>, pid: nat, v: nat, k: nat): (n: nat)
    decreases k
  {
    if k == 0 then 0 else MissingTables(keys, pid, v) + TablesFor(keys + TablesOf(pid, v), pid, v + 1, k - 1)
  }

  /** The pages last exactly if none are owed. */
  lemma LeftSign(nfree: nat, keys: set<Ref>, pid: nat, v: nat, k: nat, own: bool)
    ensures Left(nfree, keys, pid, v, k, own) >= 0 <==> nfree >= TablesFor(keys, pid, v, k) + if own then k else 0
    ensures k == 0 ==> Left(nfree, keys, pid, v, k, own) >= 0
    ensures k > 0 && nfree < MissingTables(keys, pid, v) + (if own then 1 else 0) ==> Left(nfree, keys, pid, v, k, own) < 0
  {
  }

  /** Only the process's own tables count. */
  ghost predicate SameTables(keys: set<Ref>, keys1: set<Ref>, pid: nat) {
    forall r: Ref :: (r.Dir1? || r.Dir0?) && r.pid == pid ==> (r in keys <==> r in keys1)
  }

  lemma {:induction false} TablesSame(keys: set<Ref>, keys1: set<Ref>, pid: nat, v: nat, k: nat)
    requires SameTables(keys, keys1, pid)
    ensures TablesFor(keys, pid, v, k) == TablesFor(keys1, pid, v, k)
    decreases k
  {
    if k > 0 { TablesSame(keys + TablesOf(pid, v), keys1 + TablesOf(pid, v), pid, v + 1, k - 1); }
  }

  /** The pages fork takes for a child of n pages: trapframe, root, the tables for the
      trampoline, and those for the user pages. */
  function ForkNeeds(child: nat, n: nat): (k: nat) {
    4 + TablesFor(TablesOf(child, 0x3FF_FFFF), child, 0, n)
  }

  function Up(n: nat, k: nat): (m: nat)
    requires k > 0
  {
    (n + k - 1) / k
  }

  /** The tables for the first n pages of a process that has those for the trampoline. */
  function TableCount(n: nat): (k: nat) {
    Up(n, 0x200) + Up(n, 0x4_0000) - (if n > 0x3FF_FE00 then 1 else 0) - (if n > 0x3FC_0000 then 1 else 0)
  }

  /** The tables for the first v pages, and those for the trampoline. */
  ghost predicate TablesUpTo(keys: set<Ref>, pid: nat, v: nat) {
    && (forall i: nat :: Dir1(pid, i) in keys <==> i < Up(v, 0x4_0000) || i == 0xFF)
    && (forall i: nat :: Dir0(pid, i) in keys <==> i < Up(v, 0x200) || i == 0x1_FFFF)
  }

  lemma UpStep(v: nat)
    ensures Up(v + 1, 0x200) == v / 0x200 + 1 && Up(v, 0x200) == v / 0x200 + (if v % 0x200 == 0 then 0 else 1)
    ensures Up(v + 1, 0x4_0000) == v / 0x4_0000 + 1
    ensures Up(v, 0x4_0000) == v / 0x4_0000 + (if v % 0x4_0000 == 0 then 0 else 1)
  {
  }

  lemma TablesMore(keys: set<Ref>, pid: nat, v: nat)
    requires TablesUpTo(keys, pid, v)
    ensures TablesUpTo(keys + TablesOf(pid, v), pid, v + 1)
    ensures MissingTables(keys, pid, v) == TableCount(v + 1) - TableCount(v)
  {
    UpStep(v);
  }

  lemma {:induction false} TablesCounted(keys: set<Ref>, pid: nat, v: nat, k: nat)
    requires TablesUpTo(keys, pid, v)
    ensures TablesFor(keys, pid, v, k) == TableCount(v + k) - TableCount(v)
    decreases k
  {
    hide TableCount, TablesUpTo;
    if k > 0 {
      TablesMore(keys, pid, v);
      TablesCounted(keys + TablesOf(pid, v), pid, v + 1, k - 1);
    }
  }

  /** fork takes four pages and one for every table of a process of n pages: one for
      each 512 pages begun and one for each 262144, less the two the trampoline shares. */
  lemma ForkTakes(child: nat, n: nat)
    ensures ForkNeeds(child, n) == 4 + TableCount(n)
  {
    TablesCounted(TablesOf(child, 0x3FF_FFFF), child, 0, n);
  }

  lemma {:induction false} FewerTables(keys: set<Ref>, keys1: set<Ref>, pid: nat, v: nat, k: nat)
    requires keys <= keys1
    ensures TablesFor(keys1, pid, v, k) <= TablesFor(keys, pid, v, k)
    decreases k
  {
    if k > 0 { FewerTables(keys + TablesOf(pid, v), keys1 + TablesOf(pid, v), pid, v + 1, k - 1); }
  }

  /** What is left of nfree pages once pages v .. v + k - 1 have their tables, and their
      own pages if `own`. */
  function Left(nfree: nat, keys: set<Ref>, pid: nat, v: nat, k: nat, own: bool): (n: int) {
    nfree - TablesFor(keys, pid, v, k) - if own then k else 0
  }

  /** One page done leaves the reckoning as it was. */
  lemma LeftStep(nfree: nat, keys: set<Ref>, nfree1: nat, keys1: set<Ref>, pid: nat, v: nat, k: nat, own: bool)
    requires k > 0 && nfree1 == nfree - MissingTables(keys, pid, v) - (if own then 1 else 0)
    requires keys1 == keys + TablesOf(pid, v) + {User(pid, v)}
    ensures Left(nfree1, keys1, pid, v + 1, k - 1, own) == Left(nfree, keys, pid, v, k, own)
  {
    TablesSame(keys + TablesOf(pid, v), keys1, pid, v + 1, k - 1);
  }

  /** A user store through r goes through, at once or after a copy. */
  predicate CanStore(refs: Refs, r: Ref) {
    r in refs && refs[r].u && (refs[r].w || refs[r].cow)
  }

  /** ... through every user mapping. */
  ghost predicate Writable(refs: Refs) {
    forall r :: r in refs && r.User? ==> CanStore(refs, r)
  }

  lemma FewerWritable(refs: Refs, refs1: Refs)
    requires forall r :: r in refs1 && r.User? ==> r in refs && refs1[r] == refs[r]
    ensures Writable(refs) ==> Writable(refs1)
  {
  }

  lemma ExtendsWritable(refs: Refs, mem: seq<Page>, refs1: Refs, mem1: seq<Page>)
    requires Extends(refs, mem, refs1, mem1)
    requires forall r :: r in refs1 && r !in refs && r.User? ==> CanStore(refs1, r)
    ensures Writable(refs) ==> Writable(refs1)
  {
  }

  lemma UpdatedWritable(refs: Refs, r: Ref, m: nat)
    ensures Writable(refs) ==> Writable(refs[r := Pte(m, true, true, false)])
  {
  }

  /** Of the entries of the parent's n pages and the child's first i: where the parent
      could store before, both can now. */
  ghost predicate StoresShared(refs: Refs, refs1: Refs, parent: nat, child: nat, n: nat, i: nat) {
    && (forall v: nat :: v < n && CanStore(refs, User(parent, v)) ==> CanStore(refs1, User(parent, v)))
    && (forall v: nat :: v < i && CanStore(refs, User(parent, v)) ==> CanStore(refs1, User(child, v)))
  }

  /** One iteration of uvmcopy on the entries: the parent's is marked, and the child's, if
      it is made, is the same. */
  ghost predicate EntryMarked(refs: Refs, refs1: Refs, from: Ref, to: Ref, ok: bool) {
    && from in refs && from in refs1 && refs1[from] == refs[from].(cow := true, w := false)
    && (forall r :: r in refs && r.User? && r != from ==> r in refs1 && refs1[r] == refs[r])
    && (forall r :: r in refs1 && r !in refs && r.User? ==> ok && r == to)
    && (ok ==> to in refs1 && refs1[to] == refs1[from])
  }

  lemma NoStoresYet(refs: Refs, parent: nat, child: nat, n: nat)
    ensures StoresShared(refs, refs, parent, child, n, 0)
  {
  }

  lemma NewTables(refs: Refs, mem: seq<Page>, refs1: Refs, mem1: seq<Page>, parent: nat, child: nat, n: nat)
    requires Extends(refs, mem, refs1, mem1) && forall r :: r in refs1 && r !in refs ==> !r.User?
    ensures StoresShared(refs, refs1, parent, child, n, 0) && (Writable(refs) ==> Writable(refs1))
  {
  }

  lemma StoresAgain(refs: Refs, refs1: Refs, refs2: Refs, parent: nat, child: nat, n: nat)
    requires StoresShared(refs, refs1, parent, child, n, 0) && StoresShared(refs1, refs2, parent, child, n, n)
    ensures StoresShared(refs, refs2, parent, child, n, n)
  {
  }

  lemma StoresHere(size: map<nat, nat>, refs: Refs, refs1: Refs, parent: nat, child: nat, v: nat)
    requires Sized(size, refs) && parent in size && StoresShared(refs, refs1, parent, child, size[parent], size[parent])
    ensures CanStore(refs, User(parent, v)) ==> CanStore(refs1, User(parent, v)) && CanStore(refs1, User(child, v))
  {
    assert Maps(refs, parent, size[parent]);
  }

  lemma MarkedStores(refs: Refs, refs1: Refs, refs2: Refs, parent: nat, child: nat, n: nat, i: nat, ok: bool)
    requires StoresShared(refs, refs1, parent, child, n, i) && i < n && parent != child
    requires EntryMarked(refs1, refs2, User(parent, i), User(child, i), ok)
    ensures StoresShared(refs, refs2, parent, child, n, if ok then i + 1 else i)
    ensures Writable(refs1) ==> Writable(refs2)
  {
  }

  lemma WalkedMarks(refs: Refs, refs1: Refs, mem1: seq<Page>, refs2: Refs, mem2: seq<Page>, from: Ref, to: Ref)
    requires from in refs && from.User? && to.User? && from != to && to !in refs
    requires refs1 == refs[from := refs[from].(cow := true, w := false)] && Extends(refs1, mem1, refs2, mem2)
    requires forall r :: r in refs2 && r !in refs1 ==> !r.User?
    ensures EntryMarked(refs, refs2, from, to, false)
    ensures EntryMarked(refs, refs2[to := refs1[from]], from, to, true)
  {
  }

  /** The allocator and the mappings, without contents. */
  datatype Alloc = Alloc(refs: Refs, counts: seq<int>, free: seq<nat>)

  /** What the copy of a shared page does to it: kalloc, the new entry, kfree. */
  function Unshared(a: Alloc, r: Ref): (b: Alloc) {
    if r !in a.refs || a.free == [] || a.free[0] >= |a.counts| || a.refs[r].page >= |a.counts| then a
    else
      var m, p := a.free[0], a.refs[r].page;
      var counts := a.counts[m := a.counts[m] + 1];
      Alloc(a.refs[r := Pte(m, true, true, false)], counts[p := counts[p] - 1], FreeAfter(a.free[1..], p, counts[p] - 1))
  }

  /** Whether copyout can write page v. */
  function PageOutcome(a: Alloc, pid: nat, v: nat): (res: Access) {
    var r := User(pid, v);
    if v * PGSIZE >= MAXVA then Failed
    else if r !in a.refs then (if HasTables(a.refs, pid, v) then Failed else Fault)
    else if a.refs[r].cow then (if !a.refs[r].u || a.free == [] then Fault else Done)
    else if !a.refs[r].u then Failed else Done
  }

  function PageReady(a: Alloc, pid: nat, v: nat): (b: Alloc) {
    var r := User(pid, v);
    if PageOutcome(a, pid, v).Done? && r in a.refs && a.refs[r].cow then Unshared(a, r) else a
  }

  datatype Copied = Copied(res: Access, done: nat, after: Alloc)

  /** copyout of len bytes to dst, page by page: how it ends, how many bytes arrive, and
      the allocator afterwards. */
  function CopyPlan(a: Alloc, pid: nat, dst: nat, len: nat): (c: Copied)
    ensures c.done <= len && (c.res.Done? <==> c.done == len)
    decreases len
  {
    var v, off := dst / PGSIZE, dst % PGSIZE;
    if len == 0 then Copied(Done, 0, a)
    else if !PageOutcome(a, pid, v).Done? then Copied(PageOutcome(a, pid, v), 0, a)
    else
      var m := if PGSIZE - off < len then PGSIZE - off else len;
      var rest := CopyPlan(PageReady(a, pid, v), pid, dst + m, len - m);
      rest.(done := m + rest.done)
  }

  /** Pages v .. v + k - 1 are mapped for the user below MAXVA. */
  ghost predicate UserPages(refs: Refs, pid: nat, v: nat, k: nat) {
    forall w: nat :: v <= w < v + k ==> w * PGSIZE < MAXVA && User(pid, w) in refs && refs[User(pid, w)].u
  }

  /** With a free page for each, a copy into k such pages is complete. */
  lemma {:induction false} CopyCompletes(a: Alloc, pid: nat, dst: nat, len: nat, k: nat)
    requires UserPages(a.refs, pid, dst / PGSIZE, k) && |a.free| >= k && dst + len <= (dst / PGSIZE + k) * PGSIZE
    ensures CopyPlan(a, pid, dst, len).res.Done?
    decreases k
  {
    if len > 0 {
      var v, off := dst / PGSIZE, dst % PGSIZE;
      assert k > 0;
      var m := if PGSIZE - off < len then PGSIZE - off else len;
      var b := PageReady(a, pid, v);
      hide CopyPlan;
      if m < len {
        assert dst + m == (v + 1) * PGSIZE;
        assert (dst + m) / PGSIZE == v + 1;
        assert UserPages(b.refs, pid, v + 1, k - 1);
        CopyCompletes(b, pid, dst + m, len - m, k - 1);
      }
      CopyPlanStep(a, pid, dst, len, m);
    }
  }

  /** How many pages len bytes at dst touch. */
  function PagesHit(dst: nat, len: nat): (k: nat) {
    if len == 0 then 0 else (dst + len - 1) / PGSIZE + 1 - dst / PGSIZE
  }

  /** A complete copy has gone into pages mapped for the user. */
  lemma {:induction false} CopyInside(a: Alloc, pid: nat, dst: nat, len: nat)
    requires CopyPlan(a, pid, dst, len).res.Done?
    ensures UserPages(a.refs, pid, dst / PGSIZE, PagesHit(dst, len))
    decreases len
  {
    if len > 0 {
      var v, off := dst / PGSIZE, dst % PGSIZE;
      var m := if PGSIZE - off < len then PGSIZE - off else len;
      var b := PageReady(a, pid, v);
      assert PageOutcome(a, pid, v).Done?;
      hide CopyPlan;
      CopyPlanStep(a, pid, dst, len, m);
      if m < len {
        assert dst + m == (v + 1) * PGSIZE;
        assert (dst + m) / PGSIZE == v + 1;
        CopyInside(b, pid, dst + m, len - m);
        assert PagesHit(dst, len) == 1 + PagesHit(dst + m, len - m);
      } else {
        assert (dst + len - 1) / PGSIZE == v;
      }
    }
  }

  /** One iteration of the plan: it stops at a with res, or m bytes go in. */
  ghost predicate PlanStep(a: Alloc, b: Alloc, pid: nat, dst: nat, len: nat, res: Access, m: nat) {
    var plan := CopyPlan(a, pid, dst, len);
    if res.Done? then
      m <= len && plan == (var rest := CopyPlan(b, pid, dst + m, len - m); rest.(done := m + rest.done))
    else plan == Copied(res, 0, b) && m == 0
  }

  lemma PlanHere(a: Alloc, pid: nat, dst: nat, len: nat)
    requires len > 0
    ensures var v, off := dst / PGSIZE, dst % PGSIZE;
      var m := if PGSIZE - off < len then PGSIZE - off else len;
      var res := PageOutcome(a, pid, v);
      PlanStep(a, PageReady(a, pid, v), pid, dst, len, res, if res.Done? then m else 0)
  {
    hide PageOutcome;
  }

  lemma NothingToCopy(a: Alloc, pid: nat, dst: nat)
    ensures CopyPlan(a, pid, dst, 0) == Copied(Done, 0, a)
  {
  }

  lemma CopyPlanStep(a: Alloc, pid: nat, dst: nat, len: nat, m: nat)
    requires len > 0 && PageOutcome(a, pid, dst / PGSIZE).Done?
    requires m == if PGSIZE - dst % PGSIZE < len then PGSIZE - dst % PGSIZE else len
    ensures var rest := CopyPlan(PageReady(a, pid, dst / PGSIZE), pid, dst + m, len - m);
      CopyPlan(a, pid, dst, len) == rest.(done := m + rest.done)
  {
  }

  function Zeros(k: nat): (s: Space) {
    seq(k, i => Filled(0))
  }

  lemma OthersKeptSame(refs: Refs, mem: seq<Page>, pid: nat)
    ensures OthersKept(refs, mem, refs, mem, pid)
  {
  }

  lemma PrefixView(refs: Refs, mem: seq<Page>, pid: nat, n: nat, m: nat)
    requires m <= n
    ensures ViewOf(refs, mem, pid, m) == ViewOf(refs, mem, pid, n)[..m]
  {
  }

  /** All counts are zero and the first p pages are on the list, once each. */
  ghost predicate AllFree(counts: seq<int>, free: seq<nat>, p: nat) {
    && (forall q :: 0 <= q < |counts| ==> counts[q] == 0)
    && (forall i :: 0 <= i < |free| ==> free[i] < p)
    && (forall i, j :: 0 <= i < j < |free| ==> free[i] != free[j])
    && (forall q :: 0 <= q < p ==> q in free)
  }

  lemma AllFreeStep(counts: seq<int>, free: seq<nat>, p: nat)
    requires AllFree(counts, free, p)
    ensures AllFree(counts, [p] + free, p + 1)
  {
    forall q | 0 <= q < p + 1 ensures q in [p] + free {
      if q < p { assert q in free; } else { assert ([p] + free)[0] == q; }
    }
  }

  lemma NothingReferenced(counts: seq<int>)
    requires forall q :: 0 <= q < |counts| ==> counts[q] == 0
    ensures Counted(counts, map[])
  {
    forall q | 0 <= q < |counts| ensures counts[q] == |RefsTo(map[], q)| { assert RefsTo(map[], q) == {}; }
  }

  /** A zeroed page mapped at v, then tables: the view has grown by that page. */
  lemma GrownOne(
    refs: Refs, mem: seq<Page>, refs1: Refs, mem1: seq<Page>, refs2: Refs, mem2: seq<Page>, pid: nat, v: nat)
    requires Maps(refs, pid, v) && Extends(refs, mem, refs1, mem1) && Extends(refs1, mem1, refs2, mem2)
    requires refs1.Keys == refs.Keys + {User(pid, v)} && Held(refs1, mem1, User(pid, v)) == Filled(0)
    requires forall r :: r in refs2 && r !in refs1 ==> r.pid == pid && !r.User?
    ensures OthersKept(refs, mem, refs2, mem2, pid) && Maps(refs2, pid, v + 1)
    ensures ViewOf(refs2, mem2, pid, v + 1) == ViewOf(refs, mem, pid, v) + [Filled(0)]
  {
    forall w: nat | w < v ensures Held(refs2, mem2, User(pid, w)) == Held(refs, mem, User(pid, w)) {
      assert User(pid, w) in refs;
    }
  }

  class Kernel {
    const refCount: array<int>
    var freelist: seq<nat>       // pages linked through struct run, head first
    var mem: seq<Page>
    var refs: Refs
    var size: map<nat, nat>      // p->sz in pages, for every process in use

    ghost predicate Valid()
      reads this, refCount
    {
      Sound() && Sized(size, refs)
    }

    ghost predicate Sound()
      reads this, refCount
    {
      refCount.Length == |mem| && Whole(mem) && Consistent(refCount[..], freelist, refs)
    }

    ghost function Now(): (a: Alloc)
      reads this, refCount
    {
      Alloc(refs, refCount[..], freelist)
    }

    constructor (n: nat)
      ensures Valid() && size == map[] && refs == map[] && |mem| == |freelist| == n && fresh(refCount)
    {
      refCount := new int[n](i => 0);
      freelist, refs, size := [], map[], map[];
      mem := seq(n, i => Filled(0));
      new;
      FreeRange();
      NothingReferenced(refCount[..]);
    }

    /** freerange: every page is counted once and then freed. */
    method FreeRange()
      requires freelist == [] && refCount.Length == |mem| && Whole(mem)
      requires forall p :: 0 <= p < refCount.Length ==> refCount[p] == 0
      modifies this`freelist, this`mem, refCount
      ensures |mem| == |old(mem)| && Whole(mem) && AllFree(refCount[..], freelist, refCount.Length)
      ensures |freelist| == refCount.Length
    {
      var p := 0;
      while p < refCount.Length
        invariant p <= refCount.Length == |mem| == |old(mem)| && Whole(mem)
        invariant AllFree(refCount[..], freelist, p) && |freelist| == p
      {
        refCount[p] := 1;
        Kfree(p);
        AllFreeStep(refCount[..], freelist[1..], p);
        p := p + 1;
      }
    }

    method Kfree(p: nat)
      requires p < refCount.Length == |mem| && Whole(mem)
      modifies refCount, this`freelist, this`mem
      ensures refCount[..] == old(refCount[..])[p := old(refCount[p]) - 1]
      ensures freelist == FreeAfter(old(freelist), p, old(refCount[p]) - 1)
      ensures mem == if old(refCount[p]) == 1 then old(mem)[p := Filled(1)] else old(mem)
      ensures |mem| == |old(mem)| && Whole(mem)
    {
      refCount[p] := refCount[p] - 1;
      if refCount[p] == 0 {
        mem := mem[p := Filled(1)];
        freelist := [p] + freelist;
      }
    }

    method Kalloc() returns (p: int)
      requires refCount.Length == |mem| && Whole(mem)
      requires freelist != [] ==> freelist[0] < |mem|
      modifies refCount, this`freelist, this`mem
      ensures old(freelist) == [] ==>
        p == -1 && freelist == [] && mem == old(mem) && refCount[..] == old(refCount[..])
      ensures old(freelist) != [] ==>
        && p == old(freelist)[0] && freelist == old(freelist)[1..]
        && mem == old(mem)[p := Filled(5)]
        && refCount[..] == old(refCount[..])[p := old(refCount[p]) + 1]
      ensures |mem| == |old(mem)| && Whole(mem)
    {
      if freelist == [] { return -1; }
      p := freelist[0];
      freelist := freelist[1..];
      mem := mem[p := Filled(5)];
      refCount[p] := refCount[p] + 1;
    }

    /** kalloc for reference r, filled by memset when `zero`. */
    method NewPage(r: Ref, w: bool, zero: bool) returns (ok: bool)
      requires Sound() && r !in refs
      modifies this`freelist, this`mem, this`refs, refCount
      ensures Sound() && |mem| == |old(mem)| && Extends(old(refs), old(mem), refs, mem)
      ensures ok <==> old(freelist) != []
      ensures ok ==> freelist == old(freelist)[1..]
      ensures ok ==> refs == old(refs)[r := Pte(old(freelist)[0], w, true, false)]
      ensures ok && zero ==> Held(refs, mem, r) == Filled(0)
      ensures !ok ==> refs == old(refs) && mem == old(mem)
    {
      ghost var counts, free := refCount[..], freelist;
      var p := Kalloc();
      if p == -1 { return false; }
      if zero { mem := mem[p := Filled(0)]; }
      FillUnreferenced(counts, refs, old(mem), p, mem[p]);
      AllocRef(counts, free, refs, r, Pte(p, w, true, false));
      refs := refs[r := Pte(p, w, true, false)];
      return true;
    }

    /** uvmunmap of one entry with do_free, or kfree of a kernel page. */
    method Unmap(r: Ref)
      requires Sound() && r in refs
      modifies this`freelist, this`mem, this`refs, refCount
      ensures Sound() && |mem| == |old(mem)|
      ensures refs == old(refs) - {r} && Extends(refs, mem, old(refs), old(mem))
    {
      ghost var counts, free := refCount[..], freelist;
      var p := refs[r].page;
      DropRef(counts, free, refs, r);
      Kfree(p);
      refs := refs - {r};
      if mem != old(mem) { FillUnreferenced(refCount[..], refs, old(mem), p, Filled(1)); }
    }

    /** walk with alloc: the second- and last-level table pages for vpn exist
        afterwards, or the allocator ran out (and a first one may remain). */
    method Walk(pid: nat, vpn: nat) returns (ok: bool)
      requires Sound()
      modifies this`freelist, this`mem, this`refs, refCount
      ensures Sound() && |mem| == |old(mem)| && Extends(old(refs), old(mem), refs, mem)
      ensures forall r :: r in refs && r !in old(refs) ==> r.pid == pid && !r.User?
      ensures ok ==> HasTables(refs, pid, vpn)
      ensures ok <==> |old(freelist)| >= MissingTables(old(refs).Keys, pid, vpn)
      ensures ok ==> |freelist| == |old(freelist)| - MissingTables(old(refs).Keys, pid, vpn)
      ensures refs.Keys <= old(refs).Keys + TablesOf(pid, vpn)
      ensures ok ==> refs.Keys == old(refs).Keys + TablesOf(pid, vpn)
    {
      ok := true;
      if Dir1(pid, vpn / 0x4_0000) !in refs {
        ok := NewPage(Dir1(pid, vpn / 0x4_0000), false, true);
        if !ok { return; }
      }
      if Dir0(pid, vpn / 0x200) !in refs {
        ok := NewPage(Dir0(pid, vpn / 0x200), false, true);
      }
    }

    /** freeproc: uvmunmap of all user pages, freewalk of the tables, kfree of
        the trapframe; here in any order. */
    method FreeAll(pid: nat)
      requires Sound()
      modifies this`freelist, this`mem, this`refs, refCount
      ensures Sound() && |mem| == |old(mem)| && OthersKept(old(refs), old(mem), refs, mem, pid)
      ensures forall r :: r in refs ==> r in old(refs) && r.pid != pid && refs[r] == old(refs)[r]
    {
      var mine := set r | r in refs && r.pid == pid;
      while mine != {}
        invariant Sound() && |mem| == |old(mem)| && Extends(refs, mem, old(refs), old(mem))
        invariant mine == set r | r in refs && r.pid == pid
        invariant forall r: Ref :: r in old(refs) && r.pid != pid ==> r in refs
      {
        var r :| r in mine;
        Unmap(r);
        mine := mine - {r};
      }
      assert forall r :: r in refs && r.pid == pid ==> r in mine;
    }

    /** allocproc: trapframe, root table, and the tables for the trampoline. */
    method AllocProc(pid: nat) returns (ok: bool)
      requires Sound() && forall r :: r in refs ==> r.pid != pid
      modifies this`freelist, this`mem, this`refs, refCount
      ensures Sound() && |mem| == |old(mem)| && Extends(old(refs), old(mem), refs, mem)
      ensures forall r :: r in refs && r !in old(refs) ==> r.pid == pid && !r.User?
      ensures ok <==> |old(freelist)| >= 4
      ensures ok ==> |freelist| == |old(freelist)| - 4 && MissingTables(refs.Keys, pid, 0) == 2
      ensures ok ==> SameTables(refs.Keys, TablesOf(pid, 0x3FF_FFFF), pid)
    {
      hide Consistent, Whole, Extends;
      ghost var refs0, mem0 := refs, mem;
      ok := NewPage(Frame(pid), false, false);
      if !ok { return; }
      ghost var refs1, mem1 := refs, mem;
      ok := NewPage(Root(pid), false, true);
      ExtendsTwice(refs0, mem0, refs1, mem1, refs, mem);
      if !ok { return; }
      ghost var refs2, mem2 := refs, mem;
      ok := Walk(pid, 0x3FF_FFFF);
      ExtendsTwice(refs0, mem0, refs2, mem2, refs, mem);
    }

    /** userinit: allocproc and uvmfirst, neither of whose failures is checked.  With
        seven free pages (trapframe, root, twice two tables, the user page) the first
        process sees its code and zeros behind it; with fewer it is not made: the
        kernel touches address zero, or runs on with the page unmapped.  Code that
        fills a page makes uvmfirst panic. */
    method UserInit(pid: nat, code: seq<int>) returns (res: Access)
      requires Valid() && pid !in size
      modifies this, refCount
      ensures res.Done? <==> |old(freelist)| >= 7 && |code| < PGSIZE
      ensures res.Done? ==>
        && Valid() && |mem| == |old(mem)| && (Writable(old(refs)) ==> Writable(refs)) && size == old(size)[pid := 1]
        && Views(size, refs, mem) == Views(old(size), old(refs), old(mem))[pid := [Splice(Filled(0), 0, code)]]
    {
      ghost var size0, refs0, mem0 := size, refs, mem;
      hide Writable, Consistent, Whole, OthersKept, Maps, Extends, MissingTables, SameTables, TablesOf, WriteBytes, Sized, ViewOf;
      NotThere(size, refs, pid);
      var ok := AllocProc(pid);
      if !ok { return Fault; }
      if |code| >= PGSIZE { return Panicked; }
      ExtendsWritable(refs0, mem0, refs, mem);
      KernelPagesOnly(refs0, mem0, refs, mem, pid);
      ghost var refs1, mem1 := refs, mem;
      if freelist == [] { return Fault; }
      ok := GrowOne(pid, 0);
      if !ok { return Failed; }
      OthersKeptTwice(refs0, mem0, refs1, mem1, refs, mem, pid);
      ghost var refs2, mem2 := refs, mem;
      FirstWrite(ViewOf(refs1, mem1, pid, 0), ViewOf(refs, mem, pid, 1), code);
      Poke(pid, 0, 0, code, 1);
      OthersKeptTwice(refs0, mem0, refs2, mem2, refs, mem, pid);
      OneView(size0, refs0, mem0, refs, mem, pid, 1);
      size := size[pid := 1];
      return Done;
    }

    /** mappages of the parent's page in the child, and refInc. */
    method MapShared(from: Ref, to: Ref, pte: Pte)
      requires Sound() && from in refs && to !in refs && from.User? && to.User?
      requires refs[from].cow && pte.cow && !pte.w && pte.page == refs[from].page
      modifies this`refs, refCount
      ensures Sound() && refs == old(refs)[to := pte]
    {
      Referenced(refCount[..], refs, from);
      ShareRef(refCount[..], freelist, refs, from, to, pte);
      hide Consistent, Whole;
      refCount[pte.page] := refCount[pte.page] + 1;
      refs := refs[to := pte];
    }

    /** One iteration of uvmcopy: mark the parent's entry, map the same page in
        the child, count it. */
    method CopyEntry(parent: nat, child: nat, v: nat) returns (ok: bool)
      requires Sound() && User(parent, v) in refs && User(child, v) !in refs && parent != child
      modifies this`freelist, this`mem, this`refs, refCount
      ensures Sound() && |mem| == |old(mem)|
      ensures EntryCopied(old(refs), old(mem), refs, mem, parent, child, v, ok)
      ensures ok <==> |old(freelist)| >= MissingTables(old(refs).Keys, child, v)
      ensures ok ==> |freelist| == |old(freelist)| - MissingTables(old(refs).Keys, child, v)
      ensures ok ==> refs.Keys == old(refs).Keys + TablesOf(child, v) + {User(child, v)}
      ensures EntryMarked(old(refs), refs, User(parent, v), User(child, v), ok)
    {
      var from, to := User(parent, v), User(child, v);
      var marked := refs[from].(cow := true, w := false);
      Reflag(refCount[..], freelist, refs, from, marked);
      refs := refs[from := marked];
      hide Consistent, Whole, EntryCopied, EntryMarked;
      ghost var refs1 := refs;
      ok := Walk(child, v);
      WalkedMarks(old(refs), refs1, old(mem), refs, mem, from, to);
      EntryWalked(old(refs), old(mem), refs1, refs, mem, parent, child, v);
      if ok {
        EntryShared(old(refs), old(mem), refs, mem, parent, child, v, marked);
        MapShared(from, to, marked);
      }
    }

    /** uvmcopy: on failure every page mapped so far in the child is unmapped. */
    method Uvmcopy(parent: nat, child: nat, n: nat) returns (ok: bool)
      requires Sound() && parent != child && Maps(refs, parent, n) && Maps(refs, child, 0)
      modifies this`freelist, this`mem, this`refs, refCount
      ensures Sound() && |mem| == |old(mem)| && OthersKept(old(refs), old(mem), refs, mem, child)
      ensures Maps(refs, child, if ok then n else 0)
      ensures ok ==> ViewOf(refs, mem, child, n) == ViewOf(old(refs), old(mem), parent, n)
      ensures ok <==> |old(freelist)| >= TablesFor(old(refs).Keys, child, 0, n)
      ensures Writable(old(refs)) ==> Writable(refs)
      ensures ok ==> StoresShared(old(refs), refs, parent, child, n, n)
    {
      hide Left, TablesFor, MissingTables, Consistent, Whole, OthersKept, Maps, SamePages, EntryCopied, EntryMarked, StoresShared, Writable, ViewOf;
      LeftSign(|freelist|, refs.Keys, child, 0, n, false);
      OthersKeptSame(refs, mem, child);
      NoPagesYet(refs, parent, child);
      NoStoresYet(refs, parent, child, n);
      var i := 0;
      while i < n
        invariant i <= n && Sound() && |mem| == |old(mem)|
        invariant Left(|freelist|, refs.Keys, child, i, n - i, false) == Left(|old(freelist)|, old(refs).Keys, child, 0, n, false)
        invariant OthersKept(old(refs), old(mem), refs, mem, child)
        invariant StoresShared(old(refs), refs, parent, child, n, i) && (Writable(old(refs)) ==> Writable(refs))
        invariant Maps(refs, parent, n) && Maps(refs, child, i) && SamePages(refs, parent, child, i)
      {
        ghost var refs1, mem1, nfree1 := refs, mem, |freelist|;
        LeftSign(nfree1, refs.Keys, child, i, n - i, false);
        MappedHere(refs, parent, n, i);
        MappedHere(refs, child, i, i);
        ok := CopyEntry(parent, child, i);
        if ok { LeftStep(nfree1, refs1.Keys, |freelist|, refs.Keys, child, i, n - i, false); }
        CopiedKeeps(refs1, mem1, refs, mem, parent, child, i, ok);
        OthersKeptTwice(old(refs), old(mem), refs1, mem1, refs, mem, child);
        MarkedStores(old(refs), refs1, refs, parent, child, n, i, ok);
        CopiedOne(refs1, mem1, refs, mem, parent, child, n, i, ok);
        if !ok {
          ghost var refs2, mem2 := refs, mem;
          UnmapRange(child, 0, i);
          OthersKeptTwice(old(refs), old(mem), refs2, mem2, refs, mem, child);
          return;
        }
        i := i + 1;
      }
      ok := true;
      LeftSign(|freelist|, refs.Keys, child, n, 0, false);
      SamePagesSameView(old(refs), old(mem), refs, mem, parent, child, n);
    }

    /** uvmunmap of pages lo .. hi - 1 with do_free. */
    method UnmapRange(pid: nat, lo: nat, hi: nat)
      requires Sound() && Maps(refs, pid, hi) && lo <= hi
      modifies this`freelist, this`mem, this`refs, refCount
      ensures Sound() && |mem| == |old(mem)| && OthersKept(old(refs), old(mem), refs, mem, pid)
      ensures Maps(refs, pid, lo) && ViewOf(refs, mem, pid, lo) == ViewOf(old(refs), old(mem), pid, lo)
      ensures Writable(old(refs)) ==> Writable(refs)
    {
      hide Consistent, Whole;
      var v := lo;
      while v < hi
        invariant lo <= v <= hi && Sound() && |mem| == |old(mem)|
        invariant Extends(refs, mem, old(refs), old(mem)) && Without(old(refs), refs, pid, lo, v)
      {
        Unmap(User(pid, v));
        v := v + 1;
      }
      assert forall r :: r in refs ==> r in old(refs) && refs[r] == old(refs)[r];
      FewerWritable(old(refs), refs);
      RangeUnmapped(old(refs), old(mem), refs, mem, pid, lo, hi);
    }

    /** allocproc and uvmcopy, as fork calls them. */
    method CopyProcess(parent: nat, child: nat, n: nat) returns (ok: bool)
      requires Sound() && parent != child && Maps(refs, parent, n) && Maps(refs, child, 0)
      requires forall r :: r in refs ==> r.pid != child
      modifies this`freelist, this`mem, this`refs, refCount
      ensures Sound() && |mem| == |old(mem)| && OthersKept(old(refs), old(mem), refs, mem, child)
      ensures ok ==> Maps(refs, child, n) && ViewOf(refs, mem, child, n) == ViewOf(old(refs), old(mem), parent, n)
      ensures ok ==> StoresShared(old(refs), refs, parent, child, n, n)
      ensures ok <==> |old(freelist)| >= ForkNeeds(child, n)
      ensures Writable(old(refs)) ==> Writable(refs)
    {
      hide Consistent, Whole, OthersKept, Maps, Extends, StoresShared, Writable, ViewOf;
      ghost var refs0, mem0 := refs, mem;
      ok := AllocProc(child);
      ghost var refs1, mem1 := refs, mem;
      NewTables(refs0, mem0, refs, mem, parent, child, n);
      KernelPagesOnly(refs0, mem0, refs, mem, child);
      if ok {
        KeptMaps(refs0, mem0, refs, mem, child, parent, n);
        TablesSame(refs.Keys, TablesOf(child, 0x3FF_FFFF), child, 0, n);
        ok := Uvmcopy(parent, child, n);
        OthersKeptTwice(refs0, mem0, refs1, mem1, refs, mem, child);
        OthersSeeTheSame(refs0, mem0, refs1, mem1, child, parent, n);
        if ok { StoresAgain(refs0, refs1, refs, parent, child, n); }
      }
    }

    /** fork: the child sees exactly what the parent saw; when memory runs out
        midway, every count is what it was. */
    method Fork(parent: nat, child: nat) returns (ok: bool)
      requires Valid() && parent in size && child !in size
      modifies this, refCount
      ensures Valid() && |mem| == |old(mem)|
      ensures size == if ok then old(size)[child := old(size)[parent]] else old(size)
      ensures Views(size, refs, mem) ==
        var was := Views(old(size), old(refs), old(mem));
        if ok then was[child := was[parent]] else was
      ensures !ok ==> refCount[..] == old(refCount[..])
      ensures ok <==> |old(freelist)| >= ForkNeeds(child, old(size)[parent])
      ensures ok ==> StoresShared(old(refs), refs, parent, child, old(size)[parent], old(size)[parent])
      ensures Writable(old(refs)) ==> Writable(refs)
    {
      ghost var size0, refs0, mem0 := size, refs, mem;
      var n := size[parent];
      assert Counted(refCount[..], refs);
      hide Consistent, Whole, OthersKept, Maps, Sized, StoresShared, Writable, ForkNeeds;
      ForkReady(size, refs, parent, child);
      ok := CopyProcess(parent, child, n);
      if ok {
        OneView(size0, refs0, mem0, refs, mem, child, n);
        size := size[child := n];
      } else {
        ghost var refs1 := refs;
        Abandon(child, refs0, mem0, old(refCount[..]));
        FewerWritable(refs1, refs);
      }
    }

    /** The failure path of fork: freeproc(np). */
    method Abandon(child: nat, ghost refs0: Refs, ghost mem0: seq<Page>, ghost counts0: seq<int>)
      requires Sound() && Sized(size, refs0) && child !in size && |counts0| == refCount.Length
      requires Counted(counts0, refs0) && OthersKept(refs0, mem0, refs, mem, child)
      modifies this`freelist, this`mem, this`refs, refCount
      ensures Valid() && |mem| == |old(mem)|
      ensures Views(size, refs, mem) == Views(size, refs0, mem0) && refCount[..] == counts0
      ensures forall r :: r in refs ==> r in old(refs) && refs[r] == old(refs)[r]
    {
      ghost var refs2, mem2 := refs, mem;
      FreeAll(child);
      OthersKeptTwice(refs0, mem0, refs2, mem2, refs, mem, child);
      NoView(size, refs0, mem0, refs, mem, child);
      assert size - {child} == size;
      assert refs.Keys == refs0.Keys by {
        assert forall r :: r in refs0 ==> r.pid != child;
      }
      assert Views(size, refs0, mem0) - {child} == Views(size, refs0, mem0);
      SameTargetsSameCounts(counts0, refs0, refCount[..], refs);
    }

    /** freeproc of an exited process. */
    method Exit(pid: nat)
      requires Valid() && pid in size
      modifies this, refCount
      ensures Valid() && |mem| == |old(mem)| && size == old(size) - {pid}
      ensures Views(size, refs, mem) == Views(old(size), old(refs), old(mem)) - {pid}
      ensures Writable(old(refs)) ==> Writable(refs)
    {
      ghost var size0, refs0, mem0 := size, refs, mem;
      FreeAll(pid);
      FewerWritable(refs0, refs);
      NoView(size0, refs0, mem0, refs, mem, pid);
      size := size - {pid};
    }

    /** The copy that the store fault and copyout make: a private page with the
        same bytes, the old one released. */
    method BreakCow(pid: nat, v: nat)
      requires Sound() && User(pid, v) in refs && freelist != []
      modifies this`freelist, this`mem, this`refs, refCount
      ensures Sound() && |mem| == |old(mem)| && refs.Keys == old(refs).Keys
      ensures refs == old(refs)[User(pid, v) := Pte(old(freelist)[0], true, true, false)]
      ensures Now() == Unshared(old(Now()), User(pid, v))
      ensures OthersKept(old(refs), old(mem), refs, mem, pid)
      ensures forall w: nat :: Held(refs, mem, User(pid, w)) == Held(old(refs), old(mem), User(pid, w))
      ensures Writable(old(refs)) ==> Writable(refs)
    {
      hide Writable, Consistent, Counted, InRange, FreeExact, Isolated, OthersKept, Held;
      var r := User(pid, v);
      ghost var counts, free := refCount[..], freelist;
      var pa := refs[r].page;
      MoveFacts(counts, free, refs, r);
      var m := Kalloc();
      mem := mem[m := mem[pa]];
      refs := refs[r := Pte(m, true, true, false)];
      Kfree(pa);
      Moved(counts, refs, old(refs), old(mem), mem, r, m);
      UpdatedWritable(old(refs), r, m);
      MovedKept(refs, old(refs), old(mem), mem, r, m);
    }

    /** Breaking a share changes what nobody sees, pid included. */
    method Unshare(pid: nat, v: nat, ghost n: nat)
      requires Sound() && User(pid, v) in refs && freelist != [] && Maps(refs, pid, n)
      modifies this`freelist, this`mem, this`refs, refCount
      ensures Sound() && |mem| == |old(mem)| && Maps(refs, pid, n)
      ensures refs == old(refs)[User(pid, v) := Pte(old(freelist)[0], true, true, false)]
      ensures Now() == Unshared(old(Now()), User(pid, v))
      ensures OthersKept(old(refs), old(mem), refs, mem, pid)
      ensures ViewOf(refs, mem, pid, n) == ViewOf(old(refs), old(mem), pid, n)
      ensures Writable(old(refs)) ==> Writable(refs)
    {
      hide Writable, Consistent, Whole, OthersKept;
      BreakCow(pid, v);
      assert ViewOf(refs, mem, pid, n) == ViewOf(old(refs), old(mem), pid, n);
    }

    /** A user store to address a, with the page fault it may take. */
    method Store(pid: nat, a: nat, b: int) returns (res: Access)
      requires Valid() && pid in size
      modifies this, refCount
      ensures Valid() && |mem| == |old(mem)| && size == old(size)
      ensures Views(size, refs, mem) ==
        var was := Views(old(size), old(refs), old(mem));
        if res.Done? then was[pid := WriteBytes(was[pid], a, [b])] else was
      ensures res.Done? <==> a < MAXVA && var r, was := User(pid, a / PGSIZE), old(refs);
        r in was && ((was[r].w && was[r].u) || (was[r].cow && old(freelist) != []))
      ensures !res.Done? ==> freelist == old(freelist) && refs == old(refs) && mem == old(mem)
      ensures res.Panicked? <==> a >= MAXVA
      ensures res.Fault? <==> a < MAXVA && var r, was := User(pid, a / PGSIZE), old(refs);
        if r in was then was[r].cow && old(freelist) == [] else !HasTables(was, pid, a / PGSIZE)
      ensures res.Failed? <==> a < MAXVA && var r, was := User(pid, a / PGSIZE), old(refs);
        if r in was then !was[r].cow && !(was[r].w && was[r].u) else HasTables(was, pid, a / PGSIZE)
      ensures Writable(old(refs)) ==> Writable(refs)
    {
      ghost var refs0, mem0, n := refs, mem, size[pid];
      assert Maps(refs, pid, n);
      hide Writable, Consistent, Whole, Sized, OthersKept;
      res := StoreAt(pid, a, b, n);
      hide Maps;
      OneViewSameSize(size, refs0, mem0, refs, mem, pid);
    }

    method StoreAt(pid: nat, a: nat, b: int, ghost n: nat) returns (res: Access)
      requires Sound() && Maps(refs, pid, n)
      modifies this`freelist, this`mem, this`refs, refCount
      ensures Sound() && |mem| == |old(mem)| && OthersKept(old(refs), old(mem), refs, mem, pid)
      ensures Maps(refs, pid, n)
      ensures ViewOf(refs, mem, pid, n) ==
        var was := ViewOf(old(refs), old(mem), pid, n);
        if res.Done? then WriteBytes(was, a, [b]) else was
      ensures res.Done? <==> a < MAXVA && var r, was := User(pid, a / PGSIZE), old(refs);
        r in was && ((was[r].w && was[r].u) || (was[r].cow && old(freelist) != []))
      ensures !res.Done? ==> freelist == old(freelist) && refs == old(refs) && mem == old(mem)
      ensures res.Panicked? <==> a >= MAXVA
      ensures res.Fault? <==> a < MAXVA && var r, was := User(pid, a / PGSIZE), old(refs);
        if r in was then was[r].cow && old(freelist) == [] else !HasTables(was, pid, a / PGSIZE)
      ensures res.Failed? <==> a < MAXVA && var r, was := User(pid, a / PGSIZE), old(refs);
        if r in was then !was[r].cow && !(was[r].w && was[r].u) else HasTables(was, pid, a / PGSIZE)
      ensures Writable(old(refs)) ==> Writable(refs)
    {
      hide Writable, Unshared, WriteBytes;
      var v, off := a / PGSIZE, a % PGSIZE;
      var r := User(pid, v);
      if a >= MAXVA { return Panicked; }
      if r !in refs { return if HasTables(refs, pid, v) then Failed else Fault; }
      ghost var refs0, mem0 := refs, mem;
      assert refs[r].w ==> !refs[r].cow;
      hide Consistent, Whole;
      if !(refs[r].w && refs[r].u) {
        if !refs[r].cow { return Failed; }
        if freelist == [] { return Fault; }
        BreakCow(pid, v);
        assert ViewOf(refs, mem, pid, n) == ViewOf(refs0, mem0, pid, n);
      }
      ghost var refs1, mem1 := refs, mem;
      assert OthersKept(refs0, mem0, refs1, mem1, pid);
      assert v < n;
      hide OthersKept, Maps;
      Poke(pid, v, off, [b], n);
      OthersKeptTwice(refs0, mem0, refs1, mem1, refs, mem, pid);
      return Done;
    }

    /** The point of copy-on-write: after fork, with one page free, parent and child can
        each store wherever the parent could, and the other one does not see it. */
    method ForkThenStore(parent: nat, child: nat, who: nat, a: nat, b: int) returns (ok: bool, res: Access)
      requires Valid() && parent in size && child !in size && who in {parent, child}
      modifies this, refCount
      ensures Valid() && (ok <==> |old(freelist)| >= 4 + TableCount(old(size)[parent]))
      ensures ok && a < MAXVA && CanStore(old(refs), User(parent, a / PGSIZE)) ==> res.Done? || freelist == []
      ensures var was := Views(old(size), old(refs), old(mem));
        ok && res.Done? ==>
          Views(size, refs, mem) == was[child := was[parent]][who := WriteBytes(was[parent], a, [b])]
    {
      ForkTakes(child, size[parent]);
      hide Consistent, Whole, Sized, StoresShared, Writable, HasTables, Views, WriteBytes, ForkNeeds, TableCount;
      ghost var size0, refs0 := size, refs;
      ok := Fork(parent, child);
      if !ok { return false, Failed; }
      StoresHere(size0, refs0, refs, parent, child, a / PGSIZE);
      res := Store(who, a, b);
    }

    /** memmove into a page mapped by pid alone. */
    method Poke(pid: nat, v: nat, off: nat, src: seq<int>, ghost n: nat)
      requires Sound() && Maps(refs, pid, n) && v < n
      requires !refs[User(pid, v)].cow && off + |src| <= PGSIZE
      modifies this`mem
      ensures Sound() && |mem| == |old(mem)| && OthersKept(refs, old(mem), refs, mem, pid)
      ensures ViewOf(refs, mem, pid, n) == WriteBytes(ViewOf(refs, old(mem), pid, n), v * PGSIZE + off, src)
    {
      SoleWrite(refs, mem, pid, v, n, off, src);
      var p := refs[User(pid, v)].page;
      mem := mem[p := Splice(mem[p], off, src)];
    }

    /** copyout's checks of one page, which is copied first if shared. */
    method ReadyPage(pid: nat, v: nat, ghost n: nat) returns (res: Access)
      requires Sound() && Maps(refs, pid, n)
      modifies this`freelist, this`mem, this`refs, refCount
      ensures Sound() && |mem| == |old(mem)| && OthersKept(old(refs), old(mem), refs, mem, pid) && Maps(refs, pid, n)
      ensures ViewOf(refs, mem, pid, n) == ViewOf(old(refs), old(mem), pid, n)
      ensures res.Done? ==> v < n && User(pid, v) in refs && !refs[User(pid, v)].cow
      ensures res == PageOutcome(old(Now()), pid, v) && Now() == PageReady(old(Now()), pid, v)
      ensures Writable(old(refs)) ==> Writable(refs)
    {
      hide Writable, Consistent, Whole, OthersKept, ViewOf, Unshared;
      var r := User(pid, v);
      OthersKeptSame(refs, mem, pid);
      if v * PGSIZE >= MAXVA { return Failed; }
      if r !in refs {
        return if HasTables(refs, pid, v) then Failed else Fault;
      }
      if refs[r].cow {
        if !refs[r].u || freelist == [] { return Fault; }
        Unshare(pid, v, n);
      }
      if !refs[r].u { return Failed; }
      return Done;
    }

    /** One iteration of copyout: at most one page. */
    method CopyoutPage(pid: nat, a: nat, src: seq<int>, ghost n: nat) returns (res: Access, m: nat)
      requires Sound() && Maps(refs, pid, n) && src != []
      modifies this`freelist, this`mem, this`refs, refCount
      ensures Sound() && |mem| == |old(mem)| && OthersKept(old(refs), old(mem), refs, mem, pid)
      ensures Maps(refs, pid, n) && m <= |src| && (res.Done? ==> 0 < m) && (!res.Done? ==> m == 0)
      ensures ViewOf(refs, mem, pid, n) == WriteBytes(ViewOf(old(refs), old(mem), pid, n), a, src[..m])
      ensures PlanStep(old(Now()), Now(), pid, a, |src|, res, m)
      ensures Writable(old(refs)) ==> Writable(refs)
    {
      hide Writable, Consistent, Whole, OthersKept, ViewOf, WriteBytes, Maps, PageOutcome, PageReady, CopyPlan;
      var v, off := a / PGSIZE, a % PGSIZE;
      WriteNothing(ViewOf(refs, mem, pid, n), a);
      assert src[..0] == [];
      ghost var refs0, mem0 := refs, mem;
      res := ReadyPage(pid, v, n);
      PlanHere(old(Now()), pid, a, |src|);
      if !res.Done? { return res, 0; }
      m := if PGSIZE - off < |src| then PGSIZE - off else |src|;
      ghost var refs1, mem1 := refs, mem;
      Poke(pid, v, off, src[..m], n);
      OthersKeptTwice(refs0, mem0, refs1, mem1, refs, mem, pid);
    }

    /** copyout's loop. */
    method CopyoutLoop(pid: nat, dst: nat, src: seq<int>, ghost n: nat) returns (res: Access, done: nat)
      requires Sound() && Maps(refs, pid, n)
      modifies this`freelist, this`mem, this`refs, refCount
      ensures Sound() && |mem| == |old(mem)| && OthersKept(old(refs), old(mem), refs, mem, pid) && Maps(refs, pid, n)
      ensures done <= |src| && (res.Done? <==> done == |src|)
      ensures ViewOf(refs, mem, pid, n) == WriteBytes(ViewOf(old(refs), old(mem), pid, n), dst, src[..done])
      ensures CopyPlan(old(Now()), pid, dst, |src|) == Copied(res, done, Now())
      ensures Writable(old(refs)) ==> Writable(refs)
    {
      hide Writable, Consistent, Whole, OthersKept, Maps, ViewOf, WriteBytes, CopyPlan;
      ghost var refs0, mem0, view := refs, mem, ViewOf(refs, mem, pid, n);
      done, res := 0, Done;
      WriteNothing(view, dst);
      OthersKeptSame(refs, mem, pid);
      assert src[..0] == [];
      while done < |src|
        invariant done <= |src| && Sound() && |mem| == |mem0|
        invariant OthersKept(refs0, mem0, refs, mem, pid) && Maps(refs, pid, n)
        invariant ViewOf(refs, mem, pid, n) == WriteBytes(view, dst, src[..done]) && res == Done
        invariant var rest := CopyPlan(Now(), pid, dst + done, |src| - done);
          CopyPlan(old(Now()), pid, dst, |src|) == Copied(rest.res, done + rest.done, rest.after)
        invariant Writable(refs0) ==> Writable(refs)
        decreases |src| - done
      {
        ghost var refs1, mem1 := refs, mem;
        var m;
        res, m := CopyoutPage(pid, dst + done, src[done..], n);
        OthersKeptTwice(refs0, mem0, refs1, mem1, refs, mem, pid);
        WriteMore(view, dst, src, done, m);
        done := done + m;
        if !res.Done? { return; }
      }
      NothingToCopy(Now(), pid, dst + done);
    }

    /** copyout: a prefix of src arrives, all of it on success, and no other
        process sees a difference. */
    method Copyout(pid: nat, dst: nat, src: seq<int>) returns (res: Access, done: nat)
      requires Valid() && pid in size
      modifies this`freelist, this`mem, this`refs, refCount
      ensures Valid() && |mem| == |old(mem)|
      ensures done <= |src| && (res.Done? <==> done == |src|)
      ensures Views(size, refs, mem) ==
        var was := Views(old(size), old(refs), old(mem));
        was[pid := WriteBytes(was[pid], dst, src[..done])]
      ensures CopyPlan(old(Now()), pid, dst, |src|) == Copied(res, done, Now())
      ensures Writable(old(refs)) ==> Writable(refs)
    {
      ghost var refs0, mem0, n := refs, mem, size[pid];
      assert Maps(refs, pid, n);
      hide Writable, Consistent, Whole, OthersKept, Maps, Sized, CopyPlan;
      res, done := CopyoutLoop(pid, dst, src, n);
      OneViewSameSize(size, refs0, mem0, refs, mem, pid);
    }

    /** uvmalloc: k zeroed pages appended, or none when memory runs out. */
    method Grow(pid: nat, k: nat) returns (ok: bool)
      requires Valid() && pid in size
      modifies this, refCount
      ensures Valid() && |mem| == |old(mem)|
      ensures size == if ok then old(size)[pid := old(size)[pid] + k] else old(size)
      ensures Views(size, refs, mem) ==
        var was := Views(old(size), old(refs), old(mem));
        if ok then was[pid := was[pid] + Zeros(k)] else was
      ensures ok <==> |old(freelist)| >= k + TablesFor(old(refs).Keys, pid, old(size)[pid], k)
      ensures Writable(old(refs)) ==> Writable(refs)
    {
      ghost var size0, refs0, mem0 := size, refs, mem;
      var n := size[pid];
      assert Maps(refs, pid, n);
      hide Writable, Consistent, Whole, Sized, OthersKept, Maps;
      ok := GrowPages(pid, n, k);
      if ok {
        OneView(size0, refs0, mem0, refs, mem, pid, n + k);
        size := size[pid := n + k];
      } else {
        OneViewSameSize(size, refs0, mem0, refs, mem, pid);
      }
    }

    method GrowPages(pid: nat, n: nat, k: nat) returns (ok: bool)
      requires Sound() && Maps(refs, pid, n)
      modifies this`freelist, this`mem, this`refs, refCount
      ensures Sound() && |mem| == |old(mem)| && OthersKept(old(refs), old(mem), refs, mem, pid)
      ensures Maps(refs, pid, if ok then n + k else n)
      ensures ok ==> ViewOf(refs, mem, pid, n + k) == ViewOf(old(refs), old(mem), pid, n) + Zeros(k)
      ensures !ok ==> ViewOf(refs, mem, pid, n) == ViewOf(old(refs), old(mem), pid, n)
      ensures ok <==> |old(freelist)| >= k + TablesFor(old(refs).Keys, pid, n, k)
      ensures Writable(old(refs)) ==> Writable(refs)
    {
      ghost var refs0, mem0, view := refs, mem, ViewOf(refs, mem, pid, n);
      hide Writable, Consistent, Whole, OthersKept, Maps, Extends, Left, TablesFor;
      LeftSign(|freelist|, refs.Keys, pid, n, k, true);
      OthersKeptSame(refs, mem, pid);
      var v := n;
      while v < n + k
        invariant n <= v <= n + k && Sound() && |mem| == |mem0|
        invariant OthersKept(refs0, mem0, refs, mem, pid) && Maps(refs, pid, v)
        invariant ViewOf(refs, mem, pid, v) == view + Zeros(v - n)
        invariant Writable(refs0) ==> Writable(refs)
        invariant Left(|freelist|, refs.Keys, pid, v, n + k - v, true) == Left(|old(freelist)|, refs0.Keys, pid, n, k, true)
      {
        ghost var refs1, mem1, nfree1 := refs, mem, |freelist|;
        LeftSign(nfree1, refs.Keys, pid, v, n + k - v, true);
        ok := GrowOne(pid, v);
        if ok { LeftStep(nfree1, refs1.Keys, |freelist|, refs.Keys, pid, v, n + k - v, true); }
        OthersKeptTwice(refs0, mem0, refs1, mem1, refs, mem, pid);
        if !ok {
          ghost var refs2, mem2 := refs, mem;
          PrefixView(refs2, mem2, pid, v, n);
          UnmapRange(pid, n, v);
          OthersKeptTwice(refs0, mem0, refs2, mem2, refs, mem, pid);
          return;
        }
        v := v + 1;
      }
      LeftSign(|freelist|, refs.Keys, pid, v, 0, true);
      ok := true;
    }

    /** One iteration of uvmalloc: kalloc, memset, mappages; kfree if the table
        pages cannot be had. */
    method GrowOne(pid: nat, v: nat) returns (ok: bool)
      requires Sound() && Maps(refs, pid, v)
      modifies this`freelist, this`mem, this`refs, refCount
      ensures Sound() && |mem| == |old(mem)| && OthersKept(old(refs), old(mem), refs, mem, pid)
      ensures Maps(refs, pid, if ok then v + 1 else v)
      ensures ok ==> ViewOf(refs, mem, pid, v + 1) == ViewOf(old(refs), old(mem), pid, v) + [Filled(0)]
      ensures !ok ==> ViewOf(refs, mem, pid, v) == ViewOf(old(refs), old(mem), pid, v)
      ensures ok <==> |old(freelist)| > MissingTables(old(refs).Keys, pid, v)
      ensures ok ==> User(pid, v) in refs && !refs[User(pid, v)].cow
      ensures ok ==> |freelist| == |old(freelist)| - 1 - MissingTables(old(refs).Keys, pid, v)
      ensures ok ==> refs.Keys == old(refs).Keys + TablesOf(pid, v) + {User(pid, v)}
      ensures Writable(old(refs)) ==> Writable(refs)
    {
      hide Consistent, Whole;
      ghost var refs0, mem0 := refs, mem;
      ok := NewPage(User(pid, v), true, true);
      if !ok { return; }
      ghost var refs1, mem1 := refs, mem;
      ok := Walk(pid, v);
      ExtendsWritable(refs0, mem0, refs1, mem1);
      ExtendsWritable(refs1, mem1, refs, mem);
      GrownOne(refs0, mem0, refs1, mem1, refs, mem, pid, v);
      if !ok {
        hide Extends, Writable;
        ghost var refs2, mem2 := refs, mem;
        UnmapRange(pid, v, v + 1);
        OthersKeptTwice(refs0, mem0, refs2, mem2, refs, mem, pid);
        PrefixView(refs2, mem2, pid, v + 1, v);
      }
    }

    /** uvmdealloc: the process keeps its first n pages. */
    method Shrink(pid: nat, n: nat)
      requires Valid() && pid in size && n <= size[pid]
      modifies this, refCount
      ensures Valid() && |mem| == |old(mem)| && size == old(size)[pid := n]
      ensures Views(size, refs, mem) ==
        var was := Views(old(size), old(refs), old(mem)); was[pid := was[pid][..n]]
      ensures Writable(old(refs)) ==> Writable(refs)
    {
      ghost var size0, refs0, mem0 := size, refs, mem;
      var hi := size[pid];
      assert Maps(refs, pid, hi);
      hide Writable, Consistent, Whole, Sized, OthersKept, Maps;
      UnmapRange(pid, n, hi);
      OneView(size0, refs0, mem0, refs, mem, pid, n);
      PrefixView(refs0, mem0, pid, hi, n);
      size := size[pid := n];
    }

    /** Any sequence of system calls and stores, each with its outcome, leaves
        what the processes see equal to what private memories would hold. */
    method Run(calls: seq<Call>) returns (events: seq<Event>)
      requires Valid()
      modifies this, refCount
      ensures Valid() && |mem| == |old(mem)| && |events| == |calls|
      ensures forall i :: 0 <= i < |calls| ==> events[i].call == calls[i]
      ensures Views(size, refs, mem) == PrivateRun(Views(old(size), old(refs), old(mem)), events)
      ensures Writable(old(refs)) ==> Writable(refs) && AllServed(Views(old(size), old(refs), old(mem)), events)
    {
      events := [];
      hide Private, Served, Writable;
      for i := 0 to |calls|
        invariant Valid() && |mem| == |old(mem)| && |events| == i
        invariant forall j :: 0 <= j < i ==> events[j].call == calls[j]
        invariant Views(size, refs, mem) == PrivateRun(Views(old(size), old(refs), old(mem)), events)
        invariant Writable(old(refs)) ==> Writable(refs) && AllServed(Views(old(size), old(refs), old(mem)), events)
      {
        var e := Perform(calls[i]);
        assert (events + [e])[..|events|] == events;
        if Writable(old(refs)) { ServedNext(Views(old(size), old(refs), old(mem)), events, e); }
        events := events + [e];
      }
    }

    /** One call; a call naming a process that is not there is skipped. */
    method Perform(call: Call) returns (e: Event)
      requires Valid()
      modifies this, refCount
      ensures Valid() && e.call == call && |mem| == |old(mem)|
      ensures call.Booted? ==> e.n == 0 && (e.ok <==> call.pid !in old(size) && |call.code| < PGSIZE && |old(freelist)| >= 7)
      ensures Views(size, refs, mem) == Private(Views(old(size), old(refs), old(mem)), e)
      ensures e.free == |old(freelist)|
      ensures Writable(old(refs)) ==> Writable(refs) && Served(Views(old(size), old(refs), old(mem)), e)
    {
      hide Consistent, Whole, Sized, Writable, StoresShared, CopyPlan, ForkNeeds, TablesFor;
      ghost var size0, refs0, mem0, now0 := size, refs, mem, Now();
      var free := |freelist|;
      e := Event(call, false, 0, free);
      match call
      case Booted(pid, code) =>
        if pid !in size && |code| < PGSIZE && |freelist| >= 7 {
          var res := UserInit(pid, code);
          e := Event(call, true, 0, free);
        }
      case Forked(parent, child) =>
        if parent in size && child !in size {
          var ok := Fork(parent, child);
          ServedFork(size0, refs0, mem0, free, parent, child, ok);
          e := Event(call, ok, 0, free);
        }
      case Stored(pid, a, b) =>
        if pid in size {
          var res := Store(pid, a, b);
          if Writable(refs0) { ServedStore(size0, refs0, mem0, free, pid, a, b, res.Done?); }
          e := Event(call, res.Done?, 0, free);
        }
      case CopiedOut(pid, dst, src) =>
        if pid in size {
          var res, done := Copyout(pid, dst, src);
          if Writable(refs0) { ServedCopy(size0, now0, mem0, pid, dst, src, done); }
          e := Event(call, true, done, free);
        }
      case Grown(pid, k) =>
        if pid in size {
          var ok := Grow(pid, k);
          ServedGrow(size0, refs0, mem0, free, pid, k, ok);
          e := Event(call, ok, 0, free);
        }
      case Shrunk(pid, n) =>
        if pid in size && n <= size[pid] {
          Shrink(pid, n);
          e := Event(call, true, 0, free);
        }
      case Exited(pid) =>
        if pid in size {
          Exit(pid);
          e := Event(call, true, 0, free);
        }
    }
  }

  // ---- the specification: every process has memory of its own ----

  datatype Call =
    | Booted(pid: nat, code: seq<int>)
    | Forked(parent: nat, child: nat)
    | Stored(pid: nat, a: nat, b: int)
    | CopiedOut(pid: nat, dst: nat, src: seq<int>)
    | Grown(pid: nat, k: nat)
    | Shrunk(pid: nat, n: nat)
    | Exited(pid: nat)

  /** A call, whether it took effect, for copyout how many bytes arrived, and how many
      pages were free before it. */
  datatype Event = Event(call: Call, ok: bool, n: nat, free: nat)

  /** The effect of an event when fork copies every page at once. */
  ghost function Private(m: Spaces, e: Event): (r: Spaces) {
    if !e.ok then m else
    match e.call
    case Booted(pid, code) => if |code| < PGSIZE then m[pid := [Splice(Filled(0), 0, code)]] else m
    case Forked(parent, child) => if parent in m then m[child := m[parent]] else m
    case Stored(pid, a, b) => if pid in m then m[pid := WriteBytes(m[pid], a, [b])] else m
    case CopiedOut(pid, dst, src) =>
      if pid in m && e.n <= |src| then m[pid := WriteBytes(m[pid], dst, src[..e.n])] else m
    case Grown(pid, k) => if pid in m then m[pid := m[pid] + Zeros(k)] else m
    case Shrunk(pid, n) => if pid in m && n <= |m[pid]| then m[pid := m[pid][..n]] else m
    case Exited(pid) => m - {pid}
  }

  /** Calls fail for want of memory only: m is what the processes see before the event.  A
      store inside a process's memory needs at most one free page, a copy at most one
      for each page it touches. */
  ghost predicate Served(m: Spaces, e: Event) {
    match e.call
    case Booted(pid, code) => e.ok <==> pid !in m && |code| < PGSIZE && e.free >= 7
    case Forked(parent, child) => e.ok <==> parent in m && child !in m && e.free >= 4 + TableCount(|m[parent]|)
    case Stored(pid, a, b) =>
      && (e.ok ==> pid in m && a / PGSIZE < |m[pid]|)
      && (pid in m && a / PGSIZE < |m[pid]| && a < MAXVA && e.free > 0 ==> e.ok)
    case CopiedOut(pid, dst, src) =>
      && (e.ok <==> pid in m)
      && (e.ok && e.n == |src| > 0 ==> (dst + |src| - 1) / PGSIZE < |m[pid]|)
      && (e.ok && dst + |src| <= |m[pid]| * PGSIZE && dst + |src| <= MAXVA && e.free >= PagesHit(dst, |src|) ==> e.n == |src|)
    case Grown(pid, k) =>
      && (e.ok ==> pid in m && e.free >= k)
      && (pid in m && e.free >= k + TablesFor({}, pid, |m[pid]|, k) ==> e.ok)
    case Shrunk(pid, n) => e.ok <==> pid in m && n <= |m[pid]|
    case Exited(pid) => e.ok <==> pid in m
  }

  /** ... over a run from m. */
  ghost predicate AllServed(m: Spaces, events: seq<Event>) {
    forall i :: 0 <= i < |events| ==> Served(PrivateRun(m, events[..i]), events[i])
  }

  ghost function PrivateRun(m: Spaces, events: seq<Event>): (r: Spaces) {
    if events == [] then m
    else Private(PrivateRun(m, events[..|events| - 1]), events[|events| - 1])
  }

  /** The one process whose memory a call may change. */
  function Subject(call: Call): (pid: nat) {
    if call.Forked? then call.child else call.pid
  }

  lemma ServedStore(size: map<nat, nat>, refs: Refs, mem: seq<Page>, free: nat, pid: nat, a: nat, b: int, ok: bool)
    requires Sized(size, refs) && Writable(refs) && pid in size
    requires ok <==> a < MAXVA && var r := User(pid, a / PGSIZE);
      r in refs && ((refs[r].w && refs[r].u) || (refs[r].cow && free > 0))
    ensures Served(Views(size, refs, mem), Event(Stored(pid, a, b), ok, 0, free))
  {
    assert Maps(refs, pid, size[pid]);
    assert User(pid, a / PGSIZE) in refs ==> CanStore(refs, User(pid, a / PGSIZE));
  }

  lemma ServedCopy(size: map<nat, nat>, a: Alloc, mem: seq<Page>, pid: nat, dst: nat, src: seq<int>, n: nat)
    requires Sized(size, a.refs) && Writable(a.refs) && pid in size && n == CopyPlan(a, pid, dst, |src|).done
    ensures Served(Views(size, a.refs, mem), Event(CopiedOut(pid, dst, src), true, n, |a.free|))
  {
    var sz, k := size[pid], PagesHit(dst, |src|);
    assert Maps(a.refs, pid, sz);
    if src != [] {
      var last := (dst + |src| - 1) / PGSIZE;
      if n == |src| {
        CopyInside(a, pid, dst, |src|);
        assert User(pid, last) in a.refs;
      }
      if dst + |src| <= sz * PGSIZE && dst + |src| <= MAXVA && |a.free| >= k {
        forall w: nat | dst / PGSIZE <= w < dst / PGSIZE + k
          ensures w * PGSIZE < MAXVA && User(pid, w) in a.refs && a.refs[User(pid, w)].u
        {
          assert w * PGSIZE <= dst + |src| - 1;
          assert CanStore(a.refs, User(pid, w));
        }
        CopyCompletes(a, pid, dst, |src|, k);
      }
    }
  }

  lemma ServedGrow(size: map<nat, nat>, refs: Refs, mem: seq<Page>, free: nat, pid: nat, k: nat, ok: bool)
    requires pid in size && (ok <==> free >= k + TablesFor(refs.Keys, pid, size[pid], k))
    ensures Served(Views(size, refs, mem), Event(Grown(pid, k), ok, 0, free))
  {
    FewerTables({}, refs.Keys, pid, size[pid], k);
  }

  lemma ServedFork(size: map<nat, nat>, refs: Refs, mem: seq<Page>, free: nat, parent: nat, child: nat, ok: bool)
    requires parent in size && child !in size && (ok <==> free >= ForkNeeds(child, size[parent]))
    ensures Served(Views(size, refs, mem), Event(Forked(parent, child), ok, 0, free))
  {
    ForkTakes(child, size[parent]);
  }

  lemma ServedNext(m: Spaces, events: seq<Event>, e: Event)
    requires AllServed(m, events) && Served(PrivateRun(m, events), e)
    ensures AllServed(m, events + [e])
  {
    var all := events + [e];
    forall i | 0 <= i < |all| ensures Served(PrivateRun(m, all[..i]), all[i]) {
      if i < |events| { assert all[..i] == events[..i]; } else { assert all[..i] == events; }
    }
  }

  lemma FirstServed(m: Spaces, e: Event)
    requires Served(m, e)
    ensures AllServed(m, [e]) && PrivateRun(m, [e]) == Private(m, e)
  {
    assert [e][..0] == [];
  }

  lemma {:induction false} ServedJoin(m: Spaces, first: seq<Event>, rest: seq<Event>)
    requires AllServed(m, first) && AllServed(PrivateRun(m, first), rest)
    ensures AllServed(m, first + rest)
  {
    hide PrivateRun, Served;
    var all := first + rest;
    forall i | 0 <= i < |all| ensures Served(PrivateRun(m, all[..i]), all[i]) {
      if i < |first| {
        assert all[..i] == first[..i];
      } else {
        assert all[..i] == first + rest[..i - |first|];
        RunsJoin(m, first, rest[..i - |first|]);
      }
    }
  }

  /** Isolation over whole runs: a process whose memory no event is about sees
      at the end what it saw at the start. */
  lemma {:induction false} RunIsolation(m: Spaces, events: seq<Event>, p: nat)
    requires p in m && forall i :: 0 <= i < |events| ==> Subject(events[i].call) != p
    ensures p in PrivateRun(m, events) && PrivateRun(m, events)[p] == m[p]
  {
    if events != [] {
      RunIsolation(m, events[..|events| - 1], p);
    }
  }

  method BootFirst(n: nat, pid: nat, code: seq<int>) returns (kernel: Kernel, events: seq<Event>)
    ensures kernel.Valid() && |kernel.mem| == n && fresh(kernel) && fresh(kernel.refCount) && Writable(kernel.refs)
    ensures events == [Event(Booted(pid, code), n >= 7 && |code| < PGSIZE, 0, n)]
    ensures Views(kernel.size, kernel.refs, kernel.mem) == PrivateRun(map[], events) && AllServed(map[], events)
  {
    kernel := new Kernel(n);
    assert Views(kernel.size, kernel.refs, kernel.mem) == map[] && Writable(kernel.refs);
    hide Consistent, Whole, Sized, Private, Served, Views, Writable, AllServed;
    var e := kernel.Perform(Booted(pid, code));
    FirstServed(map[], e);
    events := [e];
  }

  /** From boot with n pages left by the kernel's page table, stacks and rings: the first
      process comes to be exactly if there are seven and its code is shorter than a
      page, every later state shows what private memories would, and calls fail for
      want of memory only. */
  method BootAndRun(n: nat, pid: nat, code: seq<int>, calls: seq<Call>) returns (kernel: Kernel, events: seq<Event>)
    ensures kernel.Valid() && |kernel.mem| == n && |events| == |calls| + 1
    ensures events[0] == Event(Booted(pid, code), n >= 7 && |code| < PGSIZE, 0, n)
    ensures forall i :: 0 <= i < |calls| ==> events[i + 1].call == calls[i]
    ensures Views(kernel.size, kernel.refs, kernel.mem) == PrivateRun(map[], events)
    ensures AllServed(map[], events)
  {
    hide Consistent, Whole, Sized, Private, Served, Views, Writable, AllServed;
    kernel, events := BootFirst(n, pid, code);
    ghost var first := events;
    var rest := kernel.Run(calls);
    ServedJoin(map[], first, rest);
    RunsJoin(map[], first, rest);
    events := events + rest;
  }

  lemma {:induction false} RunsJoin(m: Spaces, first: seq<Event>, rest: seq<Event>)
    ensures PrivateRun(m, first + rest) == PrivateRun(PrivateRun(m, first), rest)
    decreases |rest|
  {
    if rest == [] {
      assert first + rest == first;
    } else {
      var k := |rest| - 1;
      assert (first + rest)[..|first + rest| - 1] == first + rest[..k];
      RunsJoin(m, first, rest[..k]);
    }
  }

  /** Nothing leaks: with every process gone, every page is on the free list. */
  lemma AllPagesBack(counts: seq<int>, free: seq<nat>, refs: Refs)
    requires Consistent(counts, free, refs) && Sized(map[], refs)
    ensures refs == map[] && forall p :: 0 <= p < |counts| ==> counts[p] == 0 && p in free
  {
    forall p | 0 <= p < |counts| ensures counts[p] == 0 && p in free { assert RefsTo(refs, p) == {}; }
  }
}
