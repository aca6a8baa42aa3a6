/** Reference counts of physical pages (kalloc.c) over the references that
    exist: user mappings, page-table pages and trapframes.  Pages are numbered
    from the first page after the kernel. */
module PageRefs {

  /** Everything that can hold a page: a user mapping of virtual page `vpn`, a
      second- or last-level page-table page (by index), the root table, the
      trapframe. */
  datatype Ref =
    | User(pid: nat, vpn: nat)
    | Dir1(pid: nat, index: nat)
    | Dir0(pid: nat, index: nat)
    | Root(pid: nat)
    | Frame(pid: nat)

  /** The page number and the PTE_W, PTE_U and PTE_COW bits. */
  datatype Pte = Pte(page: nat, w: bool, u: bool, cow: bool)

  type Refs = map<Ref, Pte>

  ghost function RefsTo(refs: Refs, p: nat): (s: set<Ref>) {
    set r | r in refs && refs[r].page == p
  }

  ghost predicate Counted(counts: seq<int>, refs: Refs) {
    forall p :: 0 <= p < |counts| ==> counts[p] == |RefsTo(refs, p)|
  }

  /** The free list holds exactly the zero-count pages, once each. */
  ghost predicate FreeExact(counts: seq<int>, free: seq<nat>) {
    && (forall i :: 0 <= i < |free| ==> free[i] < |counts| && counts[free[i]] == 0)
    && (forall i, j :: 0 <= i < j < |free| ==> free[i] != free[j])
    && (forall p :: 0 <= p < |counts| && counts[p] == 0 ==> p in free)
  }

  ghost predicate InRange(n: nat, refs: Refs) {
    forall r :: r in refs ==> refs[r].page < n
  }

  /** Two references share a page only as copy-on-write user mappings; so a
      mapping without PTE_COW is the only reference to its page.  A writable
      mapping is never copy-on-write. */
  ghost predicate Isolated(refs: Refs) {
    && (forall r, q :: r in refs && q in refs && r != q && refs[r].page == refs[q].page ==>
          r.User? && refs[r].cow)
    && (forall r :: r in refs && refs[r].w ==> !refs[r].cow)
  }

  ghost predicate Consistent(counts: seq<int>, free: seq<nat>, refs: Refs) {
    Counted(counts, refs) && FreeExact(counts, free) && InRange(|counts|, refs) && Isolated(refs)
  }

  // ---- how one reference changes the sets ----

  lemma AddTo(refs: Refs, r: Ref, pte: Pte, p: nat)
    requires r !in refs
    ensures RefsTo(refs[r := pte], p) == RefsTo(refs, p) + (if p == pte.page then {r} else {})
    ensures |RefsTo(refs[r := pte], p)| == |RefsTo(refs, p)| + (if p == pte.page then 1 else 0)
  {
    assert r !in RefsTo(refs, p);
  }

  lemma RemoveFrom(refs: Refs, r: Ref, p: nat)
    requires r in refs
    ensures RefsTo(refs - {r}, p) == RefsTo(refs, p) - (if p == refs[r].page then {r} else {})
    ensures |RefsTo(refs - {r}, p)| == |RefsTo(refs, p)| - (if p == refs[r].page then 1 else 0)
  {
    if p == refs[r].page { assert r in RefsTo(refs, p); }
  }

  /** A page with no references is referenced by nothing. */
  lemma Unreferenced(counts: seq<int>, refs: Refs, p: nat)
    requires Counted(counts, refs) && p < |counts| && counts[p] == 0
    ensures forall r :: r in refs ==> refs[r].page != p
  {
    assert RefsTo(refs, p) == {};
    forall r | r in refs ensures refs[r].page != p {
      assert r !in RefsTo(refs, p);
    }
  }

  lemma Referenced(counts: seq<int>, refs: Refs, r: Ref)
    requires Counted(counts, refs) && r in refs && refs[r].page < |counts|
    ensures counts[refs[r].page] >= 1
  {
    assert r in RefsTo(refs, refs[r].page);
  }

  // ---- the free list ----

  lemma FreePop(counts: seq<int>, free: seq<nat>)
    requires FreeExact(counts, free) && free != []
    ensures FreeExact(counts[free[0] := counts[free[0]] + 1], free[1..])
  {
    var counts1 := counts[free[0] := counts[free[0]] + 1];
    forall q | 0 <= q < |counts1| && counts1[q] == 0 ensures q in free[1..] {
      var i :| 0 <= i < |free| && free[i] == q;
      assert free[1..][i - 1] == q;
    }
  }

  lemma FreeUntouched(counts: seq<int>, free: seq<nat>, p: nat)
    requires FreeExact(counts, free) && p < |counts| && counts[p] >= 1
    ensures FreeExact(counts[p := counts[p] + 1], free)
  {
    var counts1 := counts[p := counts[p] + 1];
    forall q | 0 <= q < |counts1| && counts1[q] == 0 ensures q in free { assert counts[q] == 0; }
  }

  function FreeAfter(free: seq<nat>, p: nat, count: int): (f: seq<nat>) {
    if count == 0 then [p] + free else free
  }

  lemma FreePush(counts: seq<int>, free: seq<nat>, p: nat)
    requires FreeExact(counts, free) && p < |counts| && counts[p] >= 1
    ensures FreeExact(counts[p := counts[p] - 1], FreeAfter(free, p, counts[p] - 1))
  {
    var counts1, free1 := counts[p := counts[p] - 1], FreeAfter(free, p, counts[p] - 1);
    forall q | 0 <= q < |counts1| && counts1[q] == 0 ensures q in free1 {
      if q == p { assert free1[0] == p; } else { assert q in free; }
    }
  }

  // ---- the five ways the kernel changes references ----

  lemma CountedAdd(counts: seq<int>, refs: Refs, r: Ref, pte: Pte)
    requires Counted(counts, refs) && r !in refs && pte.page < |counts|
    ensures Counted(counts[pte.page := counts[pte.page] + 1], refs[r := pte])
  {
    var counts1 := counts[pte.page := counts[pte.page] + 1];
    forall q | 0 <= q < |counts1| ensures counts1[q] == |RefsTo(refs[r := pte], q)| {
      AddTo(refs, r, pte, q);
    }
  }

  lemma CountedRemove(counts: seq<int>, refs: Refs, r: Ref)
    requires Counted(counts, refs) && r in refs && refs[r].page < |counts|
    ensures Counted(counts[refs[r].page := counts[refs[r].page] - 1], refs - {r})
  {
    var counts1 := counts[refs[r].page := counts[refs[r].page] - 1];
    forall q | 0 <= q < |counts1| ensures counts1[q] == |RefsTo(refs - {r}, q)| {
      RemoveFrom(refs, r, q);
    }
  }

  /** kalloc, and the new page given to a new reference. */
  lemma AllocRef(counts: seq<int>, free: seq<nat>, refs: Refs, r: Ref, pte: Pte)
    requires Consistent(counts, free, refs) && free != [] && r !in refs
    requires pte.page == free[0] && (pte.w ==> !pte.cow)
    ensures Consistent(counts[free[0] := counts[free[0]] + 1], free[1..], refs[r := pte])
  {
    Unreferenced(counts, refs, free[0]);
    FreePop(counts, free);
    hide Counted, FreeExact;
    CountedAdd(counts, refs, r, pte);
  }

  /** uvmcopy: the child maps the parent's page, and refInc counts it. */
  lemma ShareRef(counts: seq<int>, free: seq<nat>, refs: Refs, parent: Ref, child: Ref, pte: Pte)
    requires Consistent(counts, free, refs) && parent in refs && child !in refs
    requires parent.User? && child.User? && refs[parent].cow && pte.cow && !pte.w
    requires pte.page == refs[parent].page
    ensures Consistent(counts[pte.page := counts[pte.page] + 1], free, refs[child := pte])
  {
    hide Counted, FreeExact;
    Referenced(counts, refs, parent);
    FreeUntouched(counts, free, pte.page);
    CountedAdd(counts, refs, child, pte);
    assert Isolated(refs[child := pte]) by {
      forall r | r in refs && r != child && refs[r].page == pte.page ensures r.User? && refs[r].cow {
        if r != parent { assert refs[r].page == refs[parent].page; }
      }
    }
  }

  /** kfree of the page a reference held, and the reference gone. */
  lemma DropRef(counts: seq<int>, free: seq<nat>, refs: Refs, r: Ref)
    requires Consistent(counts, free, refs) && r in refs
    ensures var p := refs[r].page;
      Consistent(counts[p := counts[p] - 1], FreeAfter(free, p, counts[p] - 1), refs - {r})
  {
    hide Counted, FreeExact;
    Referenced(counts, refs, r);
    FreePush(counts, free, refs[r].page);
    CountedRemove(counts, refs, r);
  }

  lemma MoveIsolated(n: nat, refs: Refs, r: Ref, pte: Pte)
    requires Isolated(refs) && InRange(n, refs) && r in refs && pte.page < n && (pte.w ==> !pte.cow)
    requires forall q :: q in refs ==> refs[q].page != pte.page
    ensures Isolated(refs[r := pte]) && InRange(n, refs[r := pte])
  {
  }

  /** kalloc for a mapping that then gives up its old page with kfree. */
  lemma MoveRef(counts: seq<int>, free: seq<nat>, refs: Refs, r: Ref, pte: Pte)
    requires Consistent(counts, free, refs) && free != [] && r in refs
    requires pte.page == free[0] && (pte.w ==> !pte.cow)
    ensures var p := refs[r].page;
      && free[0] != p && counts[free[0]] == 0 && counts[p] >= 1
      && Consistent(counts[free[0] := counts[free[0]] + 1][p := counts[p] - 1],
                    FreeAfter(free[1..], p, counts[p] - 1), refs[r := pte])
  {
    var p, m := refs[r].page, free[0];
    Referenced(counts, refs, r);
    Unreferenced(counts, refs, m);
    FreePop(counts, free);
    MoveIsolated(|counts|, refs, r, pte);
    hide Counted, FreeExact, Isolated, InRange;
    FreePush(counts[m := counts[m] + 1], free[1..], p);
    CountedRemove(counts, refs, r);
    CountedAdd(counts[p := counts[p] - 1], refs - {r}, r, pte);
    assert refs[r := pte] == (refs - {r})[r := pte];
    assert counts[p := counts[p] - 1][m := counts[m] + 1] == counts[m := counts[m] + 1][p := counts[p] - 1];
  }

  /** Only the bits of one entry change. */
  lemma Reflag(counts: seq<int>, free: seq<nat>, refs: Refs, r: Ref, pte: Pte)
    requires Consistent(counts, free, refs) && r in refs && r.User?
    requires pte.page == refs[r].page && pte.cow && !pte.w
    ensures Consistent(counts, free, refs[r := pte])
  {
    var refs1 := refs[r := pte];
    forall q | 0 <= q < |counts| ensures counts[q] == |RefsTo(refs1, q)| {
      assert RefsTo(refs1, q) == RefsTo(refs, q);
    }
  }

  /** Counts are determined by which pages are referenced: two consistent
      states with the same targets have the same counts. */
  lemma SameTargetsSameCounts(counts: seq<int>, refs: Refs, counts1: seq<int>, refs1: Refs)
    requires Counted(counts, refs) && Counted(counts1, refs1) && |counts| == |counts1|
    requires refs.Keys == refs1.Keys && forall r :: r in refs ==> refs[r].page == refs1[r].page
    ensures counts == counts1
  {
    forall p | 0 <= p < |counts| ensures counts[p] == counts1[p] {
      assert RefsTo(refs, p) == RefsTo(refs1, p);
    }
  }
}
