/** vm.c: walk, mappages, uvmunmap and freewalk on Sv39 page tables refine operations
    on flat maps from pages to PTEs. */
module Sv39 {
  import opened PageTree
  import opened Params

  datatype Outcome = Done | NoMemory | Panic

  /** How freewalk ends: with all tables freed, with its panic at a leaf, or going on
      into a page that is no table, because a valid entry of a lowest table has none
      of the bits R, W and X. */
  datatype Walked = Freed | Leaf | Astray

  /** Pages kalloc can hand out. */
  ghost predicate FreeOk(free: seq<int>, mem: Memory) {
    && (forall i :: 0 <= i < |free| ==> free[i] != 0 && free[i] % 0x1000 == 0 && free[i] !in mem)
    && forall i, j :: 0 <= i < j < |free| ==> free[i] != free[j]
  }

  /** The k-th frame from pa on, in 64 bits. */
  function FrameAddr(pa: int, k: int): (r: int) {
    (pa + k * 0x1000) % WORD
  }

  lemma NextFrame(pa: int, k: int)
    ensures (FrameAddr(pa, k) + 0x1000) % WORD == FrameAddr(pa, k + 1)
    ensures pa % 0x1000 == 0 ==> FrameAddr(pa, k) % 0x1000 == 0
    ensures 0 <= pa < WORD ==> FrameAddr(pa, 0) == pa
  {
    var q, x := (pa + k * 0x1000) / 0x1_0000_0000_0000_0000, (pa + k * 0x1000) % 0x1_0000_0000_0000_0000;
    assert pa + k * 0x1000 == 0x1_0000_0000_0000_0000 * q + x;
    if x + 0x1000 < 0x1_0000_0000_0000_0000 {
      assert pa + (k + 1) * 0x1000 == 0x1_0000_0000_0000_0000 * q + (x + 0x1000);
    } else {
      assert pa + (k + 1) * 0x1000 == 0x1_0000_0000_0000_0000 * (q + 1) + (x + 0x1000 - 0x1_0000_0000_0000_0000);
    }
    if pa % 0x1000 == 0 {
      assert x == 0x1000 * (pa / 0x1000 + k - 0x10_0000_0000_0000 * q);
    }
  }

  /** Pages first .. first + k - 1 of table r0 map to consecutive frames from pa on;
      every other PTE of every table is as in mem. */
  ghost predicate MappedTo(
    mem: Memory, mem1: Memory, roots: set<int>, r0: int, first: nat, k: nat, pa: int, perm: nat)
  {
    forall r: int, v: int :: 0 <= v < MAXVA ==>
      Flat(mem1, roots, r, v) ==
        if r == r0 && first <= v / 0x1000 < first + k then LeafPte(FrameAddr(pa, v / 0x1000 - first), perm)
        else Flat(mem, roots, r, v)
  }

  /** The same with the pages unmapped. */
  ghost predicate Unmapped(mem: Memory, mem1: Memory, roots: set<int>, r0: int, first: nat, k: nat) {
    forall r: int, v: int :: 0 <= v < MAXVA ==>
      Flat(mem1, roots, r, v) ==
        if r == r0 && first <= v / 0x1000 < first + k then 0 else Flat(mem, roots, r, v)
  }

  /** mappages after k pages, at address a and frame pa1. */
  ghost predicate MapInv(
    mem: Memory, mem1: Memory, roots: set<int>, r0: int, first: nat, k: nat, pa: int, perm: nat, a: nat, pa1: int)
  {
    && a == PageAddr(first + k) && pa1 == FrameAddr(pa, k)
    && MappedTo(mem, mem1, roots, r0, first, k, pa, perm) && AllMappable(mem, roots, r0, first, k)
  }

  /** One more page, seen from before the call. */
  lemma MapStep(
    mem: Memory, mem1: Memory, mem2: Memory, roots: set<int>, r0: int, first: nat, k: nat, pa: int, perm: nat,
    a: nat, pa1: int)
    requires MapInv(mem, mem1, roots, r0, first, k, pa, perm, a, pa1) && a < MAXVA
    ensures Flat(mem1, roots, r0, a) == Flat(mem, roots, r0, a)
    ensures SameFlat(mem1, mem2, roots) ==> MapInv(mem, mem2, roots, r0, first, k, pa, perm, a, pa1)
    ensures FlatPut(mem1, mem2, roots, r0, a, LeafPte(pa1, perm)) && Mappable(Flat(mem1, roots, r0, a)) ==>
      MapInv(mem, mem2, roots, r0, first, k + 1, pa, perm, a + 0x1000, (pa1 + 0x1000) % WORD)
  {
    NextFrame(pa, k);
    hide Flat, LeafPte, Mappable, FrameAddr;
    assert a / 0x1000 == first + k;
    if Mappable(Flat(mem1, roots, r0, a)) {
      forall x | first <= x < first + (k + 1) ensures Mappable(Flat(mem, roots, r0, PageAddr(x))) {}
    }
  }

  /** uvmunmap after k pages, at address a. */
  ghost predicate UnmapInv(
    mem: Memory, mem1: Memory, roots: set<int>, r0: int, first: nat, k: nat, a: nat, until: nat,
    freed: seq<int>, doFree: bool)
  {
    && a == PageAddr(first + k) && (first + k <= until || k == 0)
    && Unmapped(mem, mem1, roots, r0, first, k) && AllUnmappable(mem, roots, r0, first, k)
    && freed == if doFree then Frames(mem, roots, r0, first, k) else []
  }

  lemma UnmapStep(
    mem: Memory, mem1: Memory, mem2: Memory, roots: set<int>, r0: int, first: nat, k: nat, a: nat, until: nat,
    freed: seq<int>, doFree: bool)
    requires UnmapInv(mem, mem1, roots, r0, first, k, a, until, freed, doFree) && a < MAXVA && a < PageAddr(until)
    ensures Flat(mem1, roots, r0, a) == Flat(mem, roots, r0, a) && a + 0x1000 <= PageAddr(until)
    ensures FlatPut(mem1, mem2, roots, r0, a, 0) && Unmappable(Flat(mem1, roots, r0, a)) ==>
      UnmapInv(mem, mem2, roots, r0, first, k + 1, a + 0x1000, until,
               if doFree then freed + [PTE2PA(Flat(mem1, roots, r0, a))] else freed, doFree)
  {
    hide Flat, Unmappable, PTE2PA;
    assert a / 0x1000 == first + k;
    if Unmappable(Flat(mem1, roots, r0, a)) {
      forall x | first <= x < first + (k + 1) ensures Unmappable(Flat(mem, roots, r0, PageAddr(x))) {}
    }
  }

  lemma PutAfterSame(mem: Memory, mem1: Memory, mem2: Memory, roots: set<int>, r0: int, va: nat, pte: int)
    requires SameFlat(mem, mem1, roots) && FlatPut(mem1, mem2, roots, r0, va, pte)
    ensures FlatPut(mem, mem2, roots, r0, va, pte)
  {
    hide Flat;
  }

  /** mappages may put a PTE here. */
  predicate Mappable(pte: int) {
    !HasV(pte) || HasCow(pte)
  }

  /** uvmunmap may clear it. */
  predicate Unmappable(pte: int) {
    HasV(pte) && PTE_FLAGS(pte) != 1
  }

  class PageTables {
    var mem: Memory
    var free: seq<int>
    var roots: set<int>

    ghost predicate Valid()
      reads this
    {
      Forest(mem, roots) && FreeOk(free, mem)
    }

    /** No page table yet, and the pages kalloc can hand out. */
    constructor (free: seq<int>)
      requires FreeOk(free, map[])
      ensures Valid() && this.free == free && roots == {}
    {
      mem, this.free, roots := map[], free, {};
    }

    /** uvmcreate: an empty page table, or 0 without memory. */
    method UvmCreate() returns (root: int)
      requires Valid()
      modifies this
      ensures Valid() && (root == 0 <==> old(free) == [])
      ensures root == 0 ==> mem == old(mem) && roots == old(roots)
      ensures root != 0 ==> root !in old(roots) && roots == old(roots) + {root}
      ensures forall r: int, va: nat ::
        Flat(mem, roots, r, va) == if r == root then 0 else Flat(old(mem), old(roots), r, va)
    {
      if free == [] {
        NoRoot(mem, roots);
        return 0;
      }
      root := free[0];
      NewRoot(mem, roots, root);
      hide Flat, Forest;
      mem, free, roots := mem[root := Table(Zeros())], free[1..], roots + {root};
    }

    /** walk: the lowest table for va, made on the way if alloc is set and pages
        last.  No PTE of any page changes. */
    method Walk(root: int, va: nat, alloc: bool) returns (t: int)
      requires Valid() && root in roots && va < MAXVA
      modifies this`mem, this`free
      ensures Valid() && SameFlat(old(mem), mem, roots)
      ensures t == 0 ==> !alloc || free == []
      ensures !alloc ==> t == PageOf(mem, roots, Low(root, PX(2, va), PX(1, va))) && mem == old(mem) && free == old(free)
      ensures t != 0 ==> t == PageOf(mem, roots, Low(root, PX(2, va), PX(1, va))) && t in mem && |mem[t].ptes| == 512
    {
      hide Flat, PX;
      t := root;
      ghost var n := Root(root);
      var level := 2;
      RootPage(mem, roots, root);
      while level > 0
        invariant 0 <= level <= 2 && Valid() && SameFlat(old(mem), mem, roots)
        invariant !alloc ==> mem == old(mem) && free == old(free)
        invariant t != 0 && t == PageOf(mem, roots, n) && t in mem && |mem[t].ptes| == 512 && n.r == root
        invariant n == if level == 2 then Root(root) else if level == 1 then Mid(root, PX(2, va))
                       else Low(root, PX(2, va), PX(1, va))
      {
        var i := PX(level, va);
        var pte := mem[t].ptes[i];
        NextPage(mem, roots, n, i);
        if HasV(pte) {
          t := PTE2PA(pte);
        } else {
          if !alloc || free == [] { return 0; }
          var p := free[0];
          HangNode(mem, roots, n, i, p);
          HungFree(mem, free, t, i, p);
          ghost var mem1 := mem;
          free := free[1..];
          mem := Hang(mem, t, i, p);
          t := p;
          SameFlatTwice(old(mem), mem1, mem, roots);
        }
        n := Deeper(n, i);
        level := level - 1;
        PageThere(mem, roots, n, t);
      }
    }

    /** One page of mappages. */
    method MapOne(root: int, a: nat, pa: int, perm: nat) returns (o: Outcome)
      requires Valid() && root in roots && a < MAXVA
      modifies this`mem, this`free
      ensures Valid()
      ensures o == Done ==> Mappable(Flat(old(mem), roots, root, a))
      ensures o == Done ==> FlatPut(old(mem), mem, roots, root, a, LeafPte(pa, perm))
      ensures o != Done ==> SameFlat(old(mem), mem, roots)
      ensures o == NoMemory ==> free == []
      ensures o == Panic ==> !Mappable(Flat(old(mem), roots, root, a))
    {
      hide Flat, PX, FlatPut, Forest, FreeOk, HasV, HasCow, LeafPte;
      var t := Walk(root, a, true);
      if t == 0 { return NoMemory; }
      FlatHere(mem, roots, root, a, t);
      if HasV(mem[t].ptes[PX(0, a)]) && !HasCow(mem[t].ptes[PX(0, a)]) { return Panic; }
      ghost var mem1 := mem;
      PutPte(mem, roots, root, a, LeafPte(pa, perm));
      StoredFree(mem, free, t, PX(0, a), LeafPte(pa, perm));
      mem := Stored(mem, t, PX(0, a), LeafPte(pa, perm));
      PutAfterSame(old(mem), mem1, mem, roots, root, a, LeafPte(pa, perm));
      return Done;
    }

    /** mappages' loop, from page `first` at address a0 on; it stops at address a. */
    method MapLoop(root: int, a0: nat, last: nat, pa: int, perm: nat, ghost first: nat)
      returns (o: Outcome, a: nat, pa1: int, ghost k: nat)
      requires Valid() && root in roots && a0 == PageAddr(first) && 0 <= pa < WORD
      modifies this`mem, this`free
      ensures Valid() && MapInv(old(mem), mem, roots, root, first, k, pa, perm, a, pa1)
      ensures o == Done ==> a == last + 0x1000
      ensures o == NoMemory ==> free == []
      ensures o == Panic ==> a >= MAXVA || !Mappable(Flat(old(mem), roots, root, a))
    {
      k := 0;
      MappedNone(mem, roots, root, first, pa, perm);
      hide Flat, FlatPut, SameFlat, Forest, FreeOk, LeafPte, Mappable, MapInv;
      a, pa1 := a0, pa;
      while true
        invariant Valid() && MapInv(old(mem), mem, roots, root, first, k, pa, perm, a, pa1)
        decreases MAXVA - a
      {
        if a >= MAXVA { return Panic, a, pa1, k; }
        ghost var mem1 := mem;
        o := MapOne(root, a, pa1, perm);
        MapStep(old(mem), mem1, mem, roots, root, first, k, pa, perm, a, pa1);
        if o != Done { return; }
        a, pa1, k := a + 0x1000, (pa1 + 0x1000) % WORD, k + 1;
        if a == last + 0x1000 { return; }
      }
    }

    /** mappages: the pages from va's to that of va + size - 1 (modulo 2^64) map to
        consecutive frames; k is how many were done.  It stops at a page without
        room for a table, and panics at one that is mapped and not copy-on-write or
        lies beyond MAXVA; nothing outside the range ever changes. */
    method MapPages(root: int, va: nat, size: nat, pa: int, perm: nat) returns (o: Outcome, ghost k: nat)
      requires Valid() && root in roots && va < WORD && size < WORD && 0 <= pa < WORD && perm < 0x400
      modifies this`mem, this`free
      ensures Valid() && MappedTo(old(mem), mem, roots, root, va / 0x1000, k, pa, perm)
      ensures o == Done ==> va / 0x1000 + k == (va + size - 1) % WORD / 0x1000 + 1
      ensures AllMappable(old(mem), roots, root, va / 0x1000, k)
      ensures o == NoMemory ==> free == []
      ensures o == Panic ==>
        || size == 0 || PageAddr(va / 0x1000 + k) >= MAXVA
        || !Mappable(Flat(old(mem), roots, root, PageAddr(va / 0x1000 + k)))
    {
      hide Flat, Forest, FreeOk, MappedTo, Mappable, AllMappable;
      if size == 0 {
        MappedNone(mem, roots, root, va / 0x1000, pa, perm);
        return Panic, 0;
      }
      var a, pa1;
      o, a, pa1, k := MapLoop(root, PGROUNDDOWN(va), PGROUNDDOWN((va + size - 1) % WORD), pa, perm, va / 0x1000);
    }

    /** One page of uvmunmap. */
    method UnmapOne(root: int, a: nat) returns (ok: bool, pte: int)
      requires Valid() && root in roots && a < MAXVA
      modifies this`mem, this`free
      ensures Valid() && free == old(free) && ok == Unmappable(Flat(old(mem), roots, root, a))
      ensures !ok ==> mem == old(mem)
      ensures ok ==> pte == Flat(old(mem), roots, root, a) && FlatPut(old(mem), mem, roots, root, a, 0)
    {
      hide Flat, PX, FlatPut, Forest, FreeOk, HasV, PTE_FLAGS;
      pte := 0;
      var t := Walk(root, a, false);
      FlatHere(mem, roots, root, a, t);
      if t == 0 { return false, 0; }
      pte := mem[t].ptes[PX(0, a)];
      if !HasV(pte) { return false, 0; }
      if PTE_FLAGS(pte) == 1 { return false, 0; }
      PutPte(mem, roots, root, a, 0);
      StoredFree(mem, free, t, PX(0, a), 0);
      mem := Stored(mem, t, PX(0, a), 0);
      ok := true;
    }

    /** uvmunmap's loop, from page `first` at address va on; it stops at address a. */
    method UnmapLoop(root: int, va: nat, end: nat, doFree: bool, ghost first: nat, ghost until: nat)
      returns (o: Outcome, a: nat, freed: seq<int>, ghost k: nat)
      requires Valid() && root in roots && va == PageAddr(first) && end == PageAddr(until)
      modifies this`mem, this`free
      ensures Valid() && free == old(free) && o != NoMemory
      ensures UnmapInv(old(mem), mem, roots, root, first, k, a, until, freed, doFree)
      ensures o == Done ==> a == Later(va, end)
      ensures o == Panic ==> a >= MAXVA || !Unmappable(Flat(old(mem), roots, root, a))
    {
      k, freed := 0, [];
      UnmappedNone(mem, roots, root, first, until, doFree);
      hide Flat, FlatPut, Forest, FreeOk, PTE2PA, Unmappable, UnmapInv;
      a := va;
      while a < end
        invariant Valid() && free == old(free)
        invariant UnmapInv(old(mem), mem, roots, root, first, k, a, until, freed, doFree)
        invariant a <= end || a == va
      {
        if a >= MAXVA { return Panic, a, freed, k; }
        ghost var mem1 := mem;
        var ok, pte := UnmapOne(root, a);
        UnmapStep(old(mem), mem1, mem, roots, root, first, k, a, until, freed, doFree);
        if !ok { return Panic, a, freed, k; }
        if doFree { freed := freed + [PTE2PA(pte)]; }
        a, k := a + 0x1000, k + 1;
      }
      o := Done;
    }

    /** uvmunmap: the PTEs of the npages pages from va on (up to the end modulo
        2^64) are cleared and, with do_free, their frames handed to kfree in order.
        It panics at a page that is not mapped by a leaf; nothing outside the range
        changes. */
    method UvmUnmap(root: int, va: nat, npages: nat, doFree: bool)
      returns (o: Outcome, freed: seq<int>, ghost k: nat)
      requires Valid() && root in roots && va < WORD && npages < WORD
      modifies this`mem, this`free
      ensures Valid() && Unmapped(old(mem), mem, roots, root, va / 0x1000, k) && free == old(free) && o != NoMemory
      ensures o == Done ==> va % 0x1000 == 0 && PageAddr(va / 0x1000 + k) == Later(va, (va + npages * 0x1000) % WORD)
      ensures AllUnmappable(old(mem), roots, root, va / 0x1000, k)
      ensures o == Panic ==>
        || va % 0x1000 != 0 || PageAddr(va / 0x1000 + k) >= MAXVA
        || !Unmappable(Flat(old(mem), roots, root, PageAddr(va / 0x1000 + k)))
      ensures freed == if doFree then Frames(old(mem), roots, root, va / 0x1000, k) else []
    {
      hide Flat, Forest, FreeOk, Unmapped, Unmappable, AllUnmappable;
      if va % 0x1000 != 0 {
        UnmappedNone(mem, roots, root, va / 0x1000, 0, doFree);
        return Panic, [], 0;
      }
      EndAligned(va, npages);
      var a;
      o, a, freed, k := UnmapLoop(root, va, (va + npages * 0x1000) % WORD, doFree, va / 0x1000,
                                 (va + npages * 0x1000) % WORD / 0x1000);
    }

    /** freewalk of a lowest table. */
    method FreeLow(t: int, ghost n: Node) returns (o: Walked)
      requires Valid() && n.Low? && t == PageOf(mem, roots, n) != 0
      modifies this`mem, this`free
      ensures o == Freed <==> NoEntry(old(mem), roots, n)
      ensures o == Freed ==> FreedTree(old(mem), mem, roots, n) && FreeOk(free, mem) && free == [t] + old(free)
      ensures o != Freed ==> SomeEntry(old(mem), roots, n, o == Leaf)
      ensures forall p :: InTree(old(mem), roots, n, p) <==> p == t
    {
      hide NoEntry, SomeEntry, FreedTree, InTree, Forest, FreeOk, PageOf, HasV, HasRWX;
      FreedLow(mem, roots, n, t);
      PageThere(mem, roots, n, t);
      for i := 0 to 512
        invariant mem == old(mem) && free == old(free) && forall k :: 0 <= k < i ==> !HasV(mem[t].ptes[k])
      {
        var pte := mem[t].ptes[i];
        if HasV(pte) && !HasRWX(pte) { return Astray; }
        if HasV(pte) { return Leaf; }
      }
      KfreeOk(free, mem, t);
      mem, free := mem - {t}, [t] + free;
      return Freed;
    }

    /** freewalk of the table t, `level` levels above the lowest: it succeeds exactly
        if no entry of a lowest table below is valid, and then t and the tables below
        it, each once, are back on the free list and nothing else has changed. */
    method FreeTable(t: int, level: nat, ghost n: Node) returns (o: Walked, ghost freed: seq<int>)
      requires Valid() && n.r in roots && t == PageOf(mem, roots, n) != 0
      requires level == if n.Root? then 2 else if n.Mid? then 1 else 0
      modifies this`mem, this`free
      ensures o == Freed <==> NoEntry(old(mem), roots, n)
      ensures o == Freed ==> FreedTree(old(mem), mem, roots, n) && FreeOk(free, mem) && free == freed + old(free)
      ensures o == Freed ==> forall p :: p in freed <==> InTree(old(mem), roots, n, p)
      ensures o != Freed ==> SomeEntry(old(mem), roots, n, o == Leaf)
      decreases level
    {
      hide Forest, FreeOk, Pruned, NoEntry, SomeEntry, NoEntryBefore, FreedTree, FreedBefore, InTree, PageOf, HasV, HasRWX, PTE2PA;
      if level == 0 {
        o := FreeLow(t, n);
        return o, [t];
      }
      freed := [];
      PrunedStart(mem, roots, n, t);
      FreedNone(mem, roots, n, t);
      for i := 0 to 512
        invariant Forest(old(mem), roots) && FreeOk(free, mem) && free == freed + old(free)
        invariant Pruned(old(mem), mem, roots, n, t, i) && NoEntryBefore(old(mem), roots, n, i)
        invariant FreedBefore(old(mem), roots, n, i, freed)
      {
        PrunedForest(old(mem), mem, roots, n, t, i);
        PrunedHere(old(mem), mem, roots, n, t, i);
        var pte := mem[t].ptes[i];
        if HasV(pte) && !HasRWX(pte) {
          ghost var mem1, more := mem, [];
          o, more := FreeTable(PTE2PA(pte), level - 1, Deeper(n, i));
          if o != Freed {
            EntryUp(old(mem), mem1, roots, n, t, i, o == Leaf);
            SomeNot(old(mem), roots, n, o == Leaf);
            return o, [];
          }
          PrunedNext(old(mem), mem1, mem, roots, n, t, i);
          StoredFree(mem, free, t, i, 0);
          FreedMore(old(mem), mem1, roots, n, t, i, freed, more);
          mem := Stored(mem, t, i, 0);
          freed := more + freed;
        } else {
          assert !HasV(pte);  // no entry of an upper table is a leaf
          PrunedSkip(old(mem), mem, roots, n, t, i);
          FreedSame(old(mem), mem, roots, n, t, i, freed);
        }
      }
      PrunedEnd(old(mem), mem, roots, n, t);
      FreedLast(old(mem), roots, n, t, freed);
      PageThere(old(mem), roots, n, t);
      StillThere(old(mem), mem, roots, n, t);
      KfreeOk(free, mem, t);
      mem, free := mem - {t}, [t] + free;
      return Freed, [t] + freed;
    }

    /** freewalk of a page table: it succeeds exactly if no page is mapped.  Then every
        page of the table, and no other, is back on the free list, once, and all other
        page tables are as they were. */
    method FreeWalk(root: int) returns (o: Walked, ghost freed: seq<int>)
      requires Valid() && root in roots
      modifies this
      ensures o == Freed <==> forall va: nat :: !HasV(Flat(old(mem), old(roots), root, va))
      ensures o == Freed ==> Valid() && roots == old(roots) - {root} && free == freed + old(free)
      ensures o == Freed ==> forall p :: p in freed <==> InTree(old(mem), old(roots), Root(root), p)
      ensures o == Freed ==> forall r: int, va: nat :: r != root ==>
        Flat(mem, roots, r, va) == Flat(old(mem), old(roots), r, va)
      ensures o != Freed ==> exists va: nat ::
        HasV(Flat(old(mem), old(roots), root, va)) && HasRWX(Flat(old(mem), old(roots), root, va)) == (o == Leaf)
    {
      RootPage(mem, roots, root);
      EntriesFlat(mem, roots, root);
      hide Flat, Forest, FreeOk, NoEntry, SomeEntry, FreedTree, InTree, HasV, HasRWX, PageOf;
      o, freed := FreeTable(root, 2, Root(root));
      if o == Freed {
        RootGone(old(mem), mem, roots, root);
        roots := roots - {root};
      }
    }
  }

  /** kfree puts a table back that no list has. */
  lemma KfreeOk(free: seq<int>, mem: Memory, t: int)
    requires FreeOk(free, mem) && t in mem && t != 0 && t % 0x1000 == 0
    ensures FreeOk([t] + free, mem - {t})
  {
  }

  /** The pages in `freed` are exactly those that were below n through entries
      before i. */
  ghost predicate FreedBefore(mem0: Memory, roots: set<int>, n: Node, i: int, freed: seq<int>) {
    forall p :: p in freed <==> Gone(mem0, roots, n, i, p)
  }

  lemma FreedNone(mem: Memory, roots: set<int>, n: Node, t: int)
    requires Forest(mem, roots) && !n.Low? && t == PageOf(mem, roots, n) != 0
    ensures FreedBefore(mem, roots, n, 0, [])
  {
    forall m | Below(m, n, 0) ensures PageOf(mem, roots, m) == 0 {}
  }

  lemma FreedSame(mem0: Memory, mem: Memory, roots: set<int>, n: Node, t: int, i: int, freed: seq<int>)
    requires Forest(mem0, roots) && !n.Low? && t == PageOf(mem0, roots, n) != 0
    requires Pruned(mem0, mem, roots, n, t, i) && Pruned(mem0, mem, roots, n, t, i + 1)
    requires FreedBefore(mem0, roots, n, i, freed)
    ensures FreedBefore(mem0, roots, n, i + 1, freed)
  {
    forall p ensures Gone(mem0, roots, n, i + 1, p) <==> Gone(mem0, roots, n, i, p) {
      if m :| Below(m, n, i) && PageOf(mem0, roots, m) == p != 0 { assert Below(m, n, i + 1); }
      if m :| Below(m, n, i + 1) && PageOf(mem0, roots, m) == p != 0 { assert p in mem0; }
    }
  }

  lemma FreedMore(
    mem0: Memory, mem: Memory, roots: set<int>, n: Node, t: int, i: int, freed: seq<int>, more: seq<int>)
    requires Forest(mem0, roots) && !n.Low? && t == PageOf(mem0, roots, n) != 0 && Pruned(mem0, mem, roots, n, t, i)
    requires FreedBefore(mem0, roots, n, i, freed) && i < 512
    requires forall p :: p in more <==> InTree(mem, roots, Deeper(n, i), p)
    ensures FreedBefore(mem0, roots, n, i + 1, more + freed)
  {
    SubtreeKept(mem0, mem, roots, n, t, i);
    hide Forest, Pruned, InTree, Gone, PageOf;
    forall p ensures p in more + freed <==> Gone(mem0, roots, n, i + 1, p) { GoneOrIn(mem0, roots, n, i, p); }
  }

  lemma FreedLast(mem0: Memory, roots: set<int>, n: Node, t: int, freed: seq<int>)
    requires FreedBefore(mem0, roots, n, 512, freed)
    requires forall p :: InTree(mem0, roots, n, p) <==> p == t || Gone(mem0, roots, n, 512, p)
    ensures forall p :: p in [t] + freed <==> InTree(mem0, roots, n, p)
  {
    hide InTree, Gone;
  }

  /** The table as the loop finds it. */
  lemma PrunedHere(mem0: Memory, mem: Memory, roots: set<int>, n: Node, t: int, i: int)
    requires Forest(mem0, roots) && !n.Low? && t == PageOf(mem0, roots, n) != 0 && Pruned(mem0, mem, roots, n, t, i)
    requires Forest(mem, roots) && i < 512
    ensures t in mem && |mem[t].ptes| == 512
    ensures HasV(mem[t].ptes[i]) ==>
      !HasRWX(mem[t].ptes[i]) && PageOf(mem, roots, Deeper(n, i)) == PTE2PA(mem[t].ptes[i]) != 0
  {
    PrunedPages(mem0, mem, roots, n, t, i);
    hide Pruned;
    UpperEntry(mem, roots, n, t, i);
  }

  lemma StillThere(mem0: Memory, mem: Memory, roots: set<int>, n: Node, t: int)
    requires Pruned(mem0, mem, roots, n, t, 512)
    ensures t in mem
  {
  }

  lemma SomeNot(mem: Memory, roots: set<int>, n: Node, rwx: bool)
    requires SomeEntry(mem, roots, n, rwx)
    ensures !NoEntry(mem, roots, n)
  {
    var m, k :| EntryAt(mem, roots, n, m, k, rwx);
  }

  lemma EndAligned(va: nat, npages: nat)
    requires va % 0x1000 == 0
    ensures (va + npages * 0x1000) % WORD % 0x1000 == 0
  {
    var x := va / 0x1000 + npages;
    assert va + npages * 0x1000 == x * 0x1000;
    var q := x * 0x1000 / WORD;
    assert x * 0x1000 % WORD == (x - q * (WORD / 0x1000)) * 0x1000;
  }

  function Later(a: nat, b: nat): (m: int) {
    if a < b then b else a
  }

  ghost predicate AllMappable(mem: Memory, roots: set<int>, r: int, first: nat, k: nat) {
    forall x :: first <= x < first + k ==> Mappable(Flat(mem, roots, r, PageAddr(x)))
  }

  ghost predicate AllUnmappable(mem: Memory, roots: set<int>, r: int, first: nat, k: nat) {
    forall x :: first <= x < first + k ==> Unmappable(Flat(mem, roots, r, PageAddr(x)))
  }

  lemma {:induction false} FrameAt(mem: Memory, roots: set<int>, r: int, first: nat, k: nat, x: nat)
    requires x < k
    ensures |Frames(mem, roots, r, first, k)| == k
    ensures Frames(mem, roots, r, first, k)[x] == PTE2PA(Flat(mem, roots, r, PageAddr(first + x)))
  {
    hide PTE2PA, Flat;
    if k > 1 { FrameAt(mem, roots, r, first, k - 1, if x < k - 1 then x else 0); }
  }

  /** The frames that k pages from `first` on map to. */
  ghost function Frames(mem: Memory, roots: set<int>, r: int, first: nat, k: nat): (s: seq<int>)
  {
    if k == 0 then [] else Frames(mem, roots, r, first, k - 1) + [PTE2PA(Flat(mem, roots, r, PageAddr(first + k - 1)))]
  }

  lemma NoRoot(mem: Memory, roots: set<int>)
    requires Forest(mem, roots)
    ensures forall va: nat :: Flat(mem, roots, 0, va) == 0
  {
  }

  /** A zeroed page becomes an empty page table; the others do not notice. */
  lemma NewRoot(mem: Memory, roots: set<int>, p: int)
    requires Forest(mem, roots) && p != 0 && p % 0x1000 == 0 && p !in mem
    ensures p !in roots
    ensures Forest(mem[p := Table(Zeros())], roots + {p})
    ensures forall r: int, va: nat ::
      Flat(mem[p := Table(Zeros())], roots + {p}, r, va) == if r == p then 0 else Flat(mem, roots, r, va)
  {
    var mem1, roots1 := mem[p := Table(Zeros())], roots + {p};
    assert p in roots ==> PageOf(mem, roots, Root(p)) == p;
    forall n ensures PageOf(mem1, roots1, n) == if n == Root(p) then p else PageOf(mem, roots, n) {
      if n.r in roots {
        assert PageOf(mem, roots, Root(n.r)) == n.r;
        if n.Low? { assert PageOf(mem, roots, Mid(n.r, n.i)) == Child(mem, n.r, n.i); }
      }
    }
    forall n: Node, i: int ensures TableEntry(mem1, roots1, n, i) { assert TableEntry(mem, roots, n, i); }
    forall r: int, va: nat ensures Flat(mem1, roots1, r, va) == if r == p then 0 else Flat(mem, roots, r, va) {
      var n := Low(r, PX(2, va), PX(1, va));
      assert PageOf(mem1, roots1, n) == PageOf(mem, roots, n);
    }
  }

  lemma MappedNone(mem: Memory, roots: set<int>, r0: int, first: nat, pa: int, perm: nat)
    requires 0 <= pa < WORD
    ensures MapInv(mem, mem, roots, r0, first, 0, pa, perm, PageAddr(first), pa)
  {
  }

  lemma UnmappedNone(mem: Memory, roots: set<int>, r0: int, first: nat, until: nat, doFree: bool)
    ensures UnmapInv(mem, mem, roots, r0, first, 0, PageAddr(first), until, [], doFree)
  {
  }

  /** The entry walk found is the page's PTE. */
  lemma FlatHere(mem: Memory, roots: set<int>, r: int, va: nat, t: int)
    requires Forest(mem, roots) && t == PageOf(mem, roots, Low(r, PX(2, va), PX(1, va)))
    ensures if t == 0 then Flat(mem, roots, r, va) == 0 && !HasV(0)
            else t in mem && |mem[t].ptes| == 512 && Flat(mem, roots, r, va) == mem[t].ptes[PX(0, va)]
  {
  }

  lemma StoredFree(mem: Memory, free: seq<int>, t: int, i: int, v: int)
    requires FreeOk(free, mem) && t in mem && 0 <= i < |mem[t].ptes|
    ensures FreeOk(free, Stored(mem, t, i, v))
  {
  }

  /** Unmapping what was just mapped restores every table, if the pages were not
      mapped before; and what it frees are the frames that were mapped. */
  lemma MapUnmap(
    mem: Memory, mem1: Memory, mem2: Memory, roots: set<int>, r0: int, first: nat, k: nat, pa: int, perm: nat)
    requires MappedTo(mem, mem1, roots, r0, first, k, pa, perm) && Unmapped(mem1, mem2, roots, r0, first, k)
    requires pa % 0x1000 == 0 && perm < 0x400 && first + k <= MAXPAGE
    requires forall v: int :: 0 <= v < MAXVA && first <= v / 0x1000 < first + k ==> Flat(mem, roots, r0, v) == 0
    ensures forall r: int, v: int :: 0 <= v < MAXVA ==> Flat(mem2, roots, r, v) == Flat(mem, roots, r, v)
    ensures FramesAre(Frames(mem1, roots, r0, first, k), k, pa)
  {
    hide Flat, LeafPte, PTE2PA, PTE_FLAGS, HasV, HasCow, Frames, FrameAddr;
    var fs := Frames(mem1, roots, r0, first, k);
    FrameCount(mem1, roots, r0, first, k);
    forall x: nat | x < k ensures fs[x] == FrameAddr(pa, x) {
      FrameAt(mem1, roots, r0, first, k, x);
      assert PageAddr(first + x) / 0x1000 == first + x;
      NextFrame(pa, x);
      PteRoundTrip(FrameAddr(pa, x), perm);
    }
  }

  ghost predicate FramesAre(fs: seq<int>, k: nat, pa: int) {
    |fs| == k && forall x: nat :: x < k ==> fs[x] == FrameAddr(pa, x)
  }

  lemma FrameCount(mem: Memory, roots: set<int>, r: int, first: nat, k: nat)
    ensures |Frames(mem, roots, r, first, k)| == k
  {
  }

  /** Following an entry of an upper table. */
  lemma NextPage(mem: Memory, roots: set<int>, n: Node, i: int)
    requires Forest(mem, roots) && !n.Low? && n.r in roots && 0 <= i < 512 && PageOf(mem, roots, n) != 0
    ensures var t := PageOf(mem, roots, n);
      && t in mem && |mem[t].ptes| == 512
      && PageOf(mem, roots, Deeper(n, i)) == (if HasV(mem[t].ptes[i]) then PTE2PA(mem[t].ptes[i]) else 0)
      && (HasV(mem[t].ptes[i]) ==> PTE2PA(mem[t].ptes[i]) != 0)
      && (!HasV(mem[t].ptes[i]) && n.Root? ==> forall j: int :: PageOf(mem, roots, Low(n.r, i, j)) == 0)
  {
    assert TableEntry(mem, roots, n, i);
  }

  lemma HungFree(mem: Memory, free: seq<int>, t: int, i: int, p: int)
    requires FreeOk(free, mem) && free != [] && p == free[0] && t in mem && 0 <= i < |mem[t].ptes|
    ensures FreeOk(free[1..], Hang(mem, t, i, p))
  {
  }

  lemma RootPage(mem: Memory, roots: set<int>, root: int)
    requires Forest(mem, roots) && root in roots
    ensures root != 0 && PageOf(mem, roots, Root(root)) == root && root in mem && |mem[root].ptes| == 512
    ensures SameFlat(mem, mem, roots)
  {
    assert PageOf(mem, roots, Root(root)) == root;
  }

  lemma PageThere(mem: Memory, roots: set<int>, n: Node, t: int)
    requires Forest(mem, roots) && t == PageOf(mem, roots, n) != 0
    ensures t in mem && |mem[t].ptes| == 512 && t % 0x1000 == 0
  {
  }
}
