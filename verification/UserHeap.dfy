/** umalloc.c: malloc, free and morecore over the circular free list. */
module UserHeap {
  import opened FreeBlocks

  const HEADER: nat := 16

  /** Units for a request, header included. */
  function Units(nbytes: nat): (n: nat)
    ensures n >= 1 && (n - 1) * HEADER >= nbytes && (n >= 2 ==> nbytes > (n - 2) * HEADER)
  {
    (nbytes + HEADER - 1) / HEADER + 1
  }

  function Max(x: int, y: int): (m: int)
    ensures m >= x && m >= y && (m == x || m == y)
  {
    if x < y then y else x
  }

  /** The argument sbrk receives: nu * sizeof(Header) converted to int. */
  function SbrkArg(nu: nat): (arg: int) {
    var x := nu * HEADER % 0x1_0000_0000;
    if x >= 0x8000_0000 then x - 0x1_0000_0000 else x
  }

  /** sbrk receives the amount meant. */
  predicate Exact(nunits: nat) {
    SbrkArg(Max(nunits, 4096)) == Max(nunits, 4096) * HEADER
  }

  /** morecore asks the kernel for the units it then adds to the list if and only
      if the request is below 2^31 - 31 bytes; a larger one is truncated. */
  lemma SbrkExactIff(nbytes: nat)
    requires nbytes < 0x1_0000_0000
    ensures Exact(Units(nbytes)) <==> nbytes <= 0x7FFF_FFE0
  {
  }

  /** Where sbrk leaves a break that was at unit `at`; growproc does not go below 0. */
  function NewBreak(at: int, nu: nat): (b: int) {
    var b := at + SbrkArg(nu) / HEADER;
    if b < 0 then at else b
  }

  /** The break is behind the units meant exactly if the amount was. */
  lemma BreakReaches(at: int, nu: nat)
    requires nu >= 1 && at >= 0
    ensures NewBreak(at, nu) >= at + nu <==> SbrkArg(nu) == nu * HEADER
  {
    var q := nu * 16 / 0x1_0000_0000;
    assert nu * 16 % 0x1_0000_0000 == nu * 16 - 0x1_0000_0000 * q;
    assert SbrkArg(nu) == 16 * (nu - 0x1000_0000 * q) || SbrkArg(nu) == 16 * (nu - 0x1000_0000 * (q + 1));
  }

  /** The worst case: sbrk(0) succeeds and 2^28 units are added to the list. */
  lemma SbrkWraps()
    ensures Units(0xFFFF_FFF0) == 0x1000_0000 && SbrkArg(Units(0xFFFF_FFF0)) == 0
  {
  }

  // ---- blocks handed out ----

  ghost predicate InLive(live: Links, u: int) {
    exists a :: a in live && Covers(Blk(a, live[a]), u)
  }

  ghost function UnitsOf(b: Blk): (s: set<int>)
    ensures forall u :: u in s <==> Covers(b, u)
  {
    set u | b.a <= u < b.a + b.n && Covers(b, u)
  }

  ghost predicate Disjoint(b: Blk, c: Blk) {
    b.a + b.n <= c.a || c.a + c.n <= b.a
  }

  /** Live blocks keep their size headers and do not overlap each other. */
  ghost predicate LiveOk(live: Links, size: Links) {
    && (forall a :: a in live ==> a in size && size[a] == live[a] >= 1)
    && (forall a, b :: a in live && b in live && a != b ==> Disjoint(Blk(a, live[a]), Blk(b, live[b])))
  }

  /** Every unit morecore took over is in a free block or in a live block, not in both,
      and no other unit is in either. */
  ghost predicate Conserved(fl: seq<Blk>, live: Links, got: set<int>) {
    forall u :: (u in got <==> InFree(fl, u) || InLive(live, u)) && !(InFree(fl, u) && InLive(live, u))
  }

  ghost predicate Apart(fl: seq<Blk>, b: Blk) {
    forall i :: 0 <= i < |fl| ==> Disjoint(fl[i], b)
  }

  /** Blocks are apart from a block none of whose units is free. */
  lemma ApartByUnits(fl: seq<Blk>, base: int, b: Blk)
    requires Sorted(fl, base) && b.n >= 1 && base < b.a
    requires forall u :: Covers(b, u) ==> !InFree(fl, u)
    ensures Apart(fl, b)
  {
    forall i | 0 <= i < |fl| ensures Disjoint(fl[i], b) {
      var u := Max(fl[i].a, b.a);
      assert Covers(b, u) && Covers(fl[i], u) ==> InFree(fl, u);
    }
  }

  /** A block none of whose units is live does not overlap live blocks. */
  lemma DisjointByUnits(live: Links, size: Links, b: Blk)
    requires LiveOk(live, size) && b.n >= 1 && forall u :: Covers(b, u) ==> !InLive(live, u)
    ensures forall a :: a in live ==> a != b.a && Disjoint(Blk(a, live[a]), b)
  {
    forall a | a in live ensures a != b.a && Disjoint(Blk(a, live[a]), b) {
      var u := Max(a, b.a);
      assert Covers(b, u) && Covers(Blk(a, live[a]), u) ==> InLive(live, u);
    }
  }

  /** The free list is sound: one address-ordered cycle through base. */
  ghost predicate ListOk(ptr: Links, size: Links, fl: seq<Blk>, base: int) {
    Sorted(fl, base) && NoneTouch(fl) && Linked(ptr, size, fl)
  }

  ghost predicate OnList(fl: seq<Blk>, p: int) {
    exists i :: 0 <= i < |fl| && fl[i].a == p
  }

  /** Where a block apart from all free blocks belongs. */
  lemma {:induction false} FindPos(fl: seq<Blk>, base: int, b: Blk, m: nat) returns (k: int)
    requires Sorted(fl, base) && Apart(fl, b) && b.n >= 1 && base < b.a && 1 <= m <= |fl|
    requires m < |fl| ==> b.a < fl[m].a
    ensures Between(fl, k, b)
    decreases m
  {
    assert Disjoint(fl[m - 1], b);
    if fl[m - 1].a < b.a {
      k := m - 1;
      if m < |fl| { assert Disjoint(fl[m], b); }
    } else {
      k := FindPos(fl, base, b, m - 1);
    }
  }

  /** The position is unique: the search in free() stops nowhere else. */
  lemma PosUnique(fl: seq<Blk>, base: int, b: Blk, k: int, i: int)
    requires Sorted(fl, base) && Between(fl, k, b) && b.n >= 1 && 0 <= i < |fl|
    requires fl[i].a < b.a && (i + 1 < |fl| ==> b.a < fl[i + 1].a)
    ensures i == k
  {
    Ascending(fl, base, i + 1, k);
    Ascending(fl, base, k + 1, i);
  }

  lemma Ascending(fl: seq<Blk>, base: int, i: int, j: int)
    requires Sorted(fl, base)
    ensures 0 <= i <= j < |fl| ==> fl[i].a <= fl[j].a
  {
  }

  /** The list after b is linked in at position k and joined to its right
      neighbour if they touch (the first `if` of free()). */
  ghost function JoinRight(fl: seq<Blk>, k: int, b: Blk): (r: seq<Blk>)
    requires 0 <= k < |fl|
    ensures |r| > k + 1 && r[k] == fl[k] && r[k + 1].a == b.a
  {
    var fl1 := Insert(fl, k, b);
    if Gap(fl1, k + 1) then fl1 else Merge(fl1, k + 1)
  }

  /** The list after free() has put b at position k. */
  ghost function Freed(fl: seq<Blk>, k: int, b: Blk): (r: seq<Blk>)
    requires 0 <= k < |fl|
  {
    var fl2 := JoinRight(fl, k, b);
    if Gap(fl2, k) then fl2 else Merge(fl2, k)
  }

  lemma RightJoined(fl: seq<Blk>, base: int, k: int, b: Blk)
    requires Sorted(fl, base) && NoneTouch(fl) && Between(fl, k, b) && b.n >= 1
    ensures var fl2 := JoinRight(fl, k, b);
      Sorted(fl2, base) && (forall i :: i != k ==> Gap(fl2, i)) && fl2[k + 1].n >= b.n
  {
    var fl1 := Insert(fl, k, b);
    InsertSorted(fl, base, k, b);
    InsertGaps(fl, k, b);
    if !Gap(fl1, k + 1) {
      MergeSorted(fl1, base, k + 1);
      MergeGaps(fl1, k + 1);
      var fl2 := Merge(fl1, k + 1);
      forall i | i != k ensures Gap(fl2, i) { assert i < k ==> Gap(fl1, i); }
    }
  }

  /** Coalescing on both sides leaves an ordered list with no touching blocks,
      with block k in place and one block at least as large as b. */
  lemma FreedOk(fl: seq<Blk>, base: int, k: int, b: Blk)
    requires Sorted(fl, base) && NoneTouch(fl) && Between(fl, k, b) && b.n >= 1 && base < b.a
    ensures var r := Freed(fl, k, b);
      && Sorted(r, base) && NoneTouch(r) && k < |r| && r[k].a == fl[k].a
      && exists t :: 0 <= t < |r| && r[t].n >= b.n
  {
    var fl2 := JoinRight(fl, k, b);
    RightJoined(fl, base, k, b);
    if Gap(fl2, k) {
      assert fl2[k + 1].n >= b.n;
    } else {
      assert k >= 1;
      MergeSorted(fl2, base, k);
      MergeGaps(fl2, k);
      var r := Merge(fl2, k);
      forall i ensures Gap(r, i) { assert i < k ==> Gap(fl2, i); }
      assert r[k].n >= b.n;
    }
  }

  /** The blocks of fl are blocks of fl0, but for one that holds all of b. */
  ghost predicate Around(fl0: seq<Blk>, fl: seq<Blk>, b: Blk) {
    forall t :: 0 <= t < |fl| ==> fl[t] in fl0 || (fl[t].a <= b.a && b.a + b.n <= fl[t].a + fl[t].n)
  }

  /** ... and that one is block i. */
  ghost predicate AroundAt(fl0: seq<Blk>, fl: seq<Blk>, b: Blk, i: int) {
    && 0 <= i < |fl| && fl[i].a <= b.a && b.a + b.n <= fl[i].a + fl[i].n
    && forall t :: 0 <= t < |fl| && t != i ==> fl[t] in fl0
  }

  lemma InsertAround(fl: seq<Blk>, k: int, b: Blk)
    requires 0 <= k < |fl|
    ensures AroundAt(fl, Insert(fl, k, b), b, k + 1)
  {
    var r := Insert(fl, k, b);
    forall t | 0 <= t < |r| && t != k + 1 ensures r[t] in fl { assert r[t] == fl[if t <= k then t else t - 1]; }
  }

  /** Merging the block with either neighbour it touches. */
  lemma MergeAround(fl0: seq<Blk>, fl: seq<Blk>, b: Blk, i: int, m: int)
    requires AroundAt(fl0, fl, b, i) && (m == i || m == i - 1) && 0 <= m < |fl| - 1 && !Gap(fl, m)
    requires fl[m].n >= 0 && fl[m + 1].n >= 0
    ensures AroundAt(fl0, Merge(fl, m), b, m)
  {
    var r := Merge(fl, m);
    forall t | 0 <= t < |r| && t != m ensures r[t] in fl0 { assert r[t] == fl[if t < m then t else t + 1]; }
  }

  lemma FreedAround(fl: seq<Blk>, base: int, k: int, b: Blk)
    requires Sorted(fl, base) && NoneTouch(fl) && Between(fl, k, b) && b.n >= 1
    ensures Around(fl, Freed(fl, k, b), b)
  {
    var fl1, fl2 := Insert(fl, k, b), JoinRight(fl, k, b);
    SizesIn(fl, base, k, b);
    InsertAround(fl, k, b);
    hide Sorted, NoneTouch, Between, AroundAt, Gap, Insert, Merge;
    if !Gap(fl1, k + 1) { MergeAround(fl, fl1, b, k + 1, k + 1); }
    if !Gap(fl2, k) { MergeAround(fl, fl2, b, k + 1, k); }
    AroundSomewhere(fl, Freed(fl, k, b), b, if Gap(fl2, k) then k + 1 else k);
  }

  lemma SizesIn(fl: seq<Blk>, base: int, k: int, b: Blk)
    requires Sorted(fl, base) && 0 <= k < |fl| && b.n >= 1
    ensures var fl1 := Insert(fl, k, b); !Gap(fl1, k + 1) ==> k + 2 < |fl1| && fl1[k + 1].n >= 0 && fl1[k + 2].n >= 0
    ensures var fl2 := JoinRight(fl, k, b); fl2[k].n >= 0 && fl2[k + 1].n >= 0
  {
    hide NoneTouch;
    assert fl[k].n >= 0 && (k + 1 < |fl| ==> fl[k + 1].n >= 0);
  }

  lemma AroundSomewhere(fl0: seq<Blk>, fl: seq<Blk>, b: Blk, i: int)
    requires AroundAt(fl0, fl, b, i)
    ensures Around(fl0, fl, b)
  {
  }

  /** Once all that was free is too small, a block large enough is the one that ends at
      the new top. */
  lemma TailAtTop(
    fl0: seq<Blk>, fl: seq<Blk>, live: Links, got: set<int>, top: int, at: int, nunits: nat, t: int)
    requires AllSmall(fl0, nunits) && Around(fl0, fl, Blk(at, Max(nunits, 4096))) && top == at + Max(nunits, 4096)
    requires Conserved(fl, live, got) && forall u :: u in got ==> u < top
    requires 0 <= t < |fl| && 1 <= nunits <= fl[t].n
    ensures Tail(fl, t, nunits).a + nunits == top
  {
    assert Covers(fl[t], fl[t].a + fl[t].n - 1);
    assert InFree(fl, fl[t].a + fl[t].n - 1);
  }

  /** ... that covers exactly the old units and the new ones. */
  lemma FreedUnits(fl: seq<Blk>, base: int, k: int, b: Blk, u: int)
    requires Sorted(fl, base) && NoneTouch(fl) && Between(fl, k, b) && b.n >= 1
    ensures InFree(Freed(fl, k, b), u) <==> InFree(fl, u) || Covers(b, u)
  {
    var fl1, fl2 := Insert(fl, k, b), JoinRight(fl, k, b);
    InsertUnits(fl, k, b, u);
    RightJoined(fl, base, k, b);
    InsertSorted(fl, base, k, b);
    if !Gap(fl1, k + 1) { MergeUnits(fl1, k + 1, u); }
    if !Gap(fl2, k) { MergeUnits(fl2, k, u); }
  }

  /** All of this together. */
  lemma FreedFacts(fl: seq<Blk>, base: int, k: int, b: Blk)
    requires Sorted(fl, base) && NoneTouch(fl) && Between(fl, k, b) && b.n >= 1 && base < b.a
    ensures var r := Freed(fl, k, b);
      && Sorted(r, base) && NoneTouch(r) && OnList(r, fl[k].a) && Around(fl, r, b)
      && (exists t :: 0 <= t < |r| && r[t].n >= b.n)
      && forall u :: InFree(r, u) <==> InFree(fl, u) || Covers(b, u)
  {
    hide Sorted, NoneTouch, Between, Freed, InFree, Covers, Around;
    assert 0 <= k < |fl| by { PlaceIn(fl, k, b); }
    FreedOk(fl, base, k, b);
    FreedAround(fl, base, k, b);
    forall u ensures InFree(Freed(fl, k, b), u) <==> InFree(fl, u) || Covers(b, u) { FreedUnits(fl, base, k, b, u); }
  }

  lemma PlaceIn(fl: seq<Blk>, k: int, b: Blk)
    requires Between(fl, k, b)
    ensures 0 <= k < |fl|
  {
  }

  /** What free() reads at position k, and that its tests are the gaps. */
  lemma Neighbours(ptr: Links, size: Links, fl: seq<Blk>, base: int, k: int, b: Blk)
    requires ListOk(ptr, size, fl, base) && Between(fl, k, b) && b.n >= 1 && base < b.a
    ensures var fl1 := Insert(fl, k, b); var p := fl[k].a;
      && p in ptr && ptr[p] in ptr && ptr[p] in size && p in size && p != b.a && ptr[p] != b.a
      && size[p] == fl[k].n
      && (Gap(fl1, k + 1) <==> b.a + b.n != ptr[p])
      && (Gap(JoinRight(fl, k, b), k) <==> p + size[p] != b.a)
      && (!Gap(fl1, k + 1) ==> ptr[p] == fl1[k + 2].a && ptr[p] != p && size[ptr[p]] == fl1[k + 2].n)
  {
    assert LinkedAt(ptr, size, fl, k) && LinkedAt(ptr, size, fl, Succ(fl, k));
  }

  lemma RightLinked(ptr: Links, size: Links, fl: seq<Blk>, base: int, k: int, b: Blk)
    requires ListOk(ptr, size, fl, base) && Between(fl, k, b) && b.n >= 1 && base < b.a
    requires b.a in size && size[b.a] == b.n
    requires fl[k].a in ptr && ptr[fl[k].a] in ptr && ptr[fl[k].a] in size
    ensures var p := fl[k].a; var q := ptr[p];
      if b.a + b.n != q
      then Linked(ptr[b.a := q][p := b.a], size, JoinRight(fl, k, b))
      else Linked(ptr[b.a := ptr[q]][p := b.a], size[b.a := b.n + size[q]], JoinRight(fl, k, b))
  {
    var fl1, p := Insert(fl, k, b), fl[k].a;
    var q := ptr[p];
    Neighbours(ptr, size, fl, base, k, b);
    InsertLinked(ptr, size, fl, base, k, b);
    if b.a + b.n == q {
      var ptrA := ptr[b.a := q][p := b.a];
      InsertSorted(fl, base, k, b);
      hide Sorted, Linked, NoneTouch;
      MergeLinked(ptrA, size, fl1, base, k + 1);
      assert ptrA[b.a := ptrA[q]] == ptr[b.a := ptr[q]][p := b.a];
    }
  }

  lemma LeftLinked(ptr: Links, size: Links, fl: seq<Blk>, base: int, k: int, b: Blk)
    requires Sorted(fl, base) && 0 <= k < |fl| - 1 && fl[k + 1].a == b.a
    requires Linked(ptr[fl[k].a := b.a], size, fl)
    ensures fl[k].a in size && b.a in ptr && b.a in size
    ensures Linked(ptr[fl[k].a := ptr[b.a]], size[fl[k].a := size[fl[k].a] + size[b.a]], Merge(fl, k))
  {
    var p := fl[k].a;
    var ptr1 := ptr[p := b.a];
    assert LinkedAt(ptr1, size, fl, k) && LinkedAt(ptr1, size, fl, k + 1);
    MergeLinked(ptr1, size, fl, base, k);
    assert ptr1[p := ptr1[b.a]] == ptr[p := ptr[b.a]];
  }

  /** A live header is not a header of the free list. */
  lemma LiveNotOnList(fl: seq<Blk>, live: Links, size: Links, got: set<int>, base: int, a: int)
    requires Sorted(fl, base) && LiveOk(live, size) && Conserved(fl, live, got) && a in live
    requires forall u :: u in got ==> base < u
    ensures !OnList(fl, a) && base < a
  {
    assert Covers(Blk(a, live[a]), a) && InLive(live, a);
    assert !InFree(fl, a) && a in got;
    forall i | 0 <= i < |fl| ensures fl[i].a != a {
      assert i >= 1 && fl[i].a == a ==> Covers(fl[i], a);
    }
  }

  /** Taking a live block out of the live set takes exactly its units out. */
  lemma LiveRemove(live: Links, size: Links, a: int, u: int)
    requires LiveOk(live, size) && a in live
    ensures InLive(live - {a}, u) <==> InLive(live, u) && !Covers(Blk(a, live[a]), u)
  {
    if InLive(live, u) && !Covers(Blk(a, live[a]), u) {
      var c :| c in live && Covers(Blk(c, live[c]), u);
      assert c in live - {a};
    }
    if InLive(live - {a}, u) {
      var c :| c in live - {a} && Covers(Blk(c, (live - {a})[c]), u);
      assert Disjoint(Blk(c, live[c]), Blk(a, live[a]));
    }
  }

  lemma LiveAdd(live: Links, a: int, n: int, u: int)
    requires a !in live
    ensures InLive(live[a := n], u) <==> InLive(live, u) || Covers(Blk(a, n), u)
  {
    var live1 := live[a := n];
    if InLive(live, u) {
      var c :| c in live && Covers(Blk(c, live[c]), u);
      assert c in live1 && Covers(Blk(c, live1[c]), u);
    }
    if Covers(Blk(a, n), u) { assert Covers(Blk(a, live1[a]), u); }
  }

  /** The units of a live block, moved to the free list. */
  lemma ConservedFree(fl: seq<Blk>, fl1: seq<Blk>, live: Links, size: Links, got: set<int>, a: int)
    requires LiveOk(live, size) && Conserved(fl, live, got) && a in live
    requires forall u :: InFree(fl1, u) <==> InFree(fl, u) || Covers(Blk(a, live[a]), u)
    ensures Conserved(fl1, live - {a}, got)
  {
    forall u ensures (u in got <==> InFree(fl1, u) || InLive(live - {a}, u))
                     && !(InFree(fl1, u) && InLive(live - {a}, u))
    {
      LiveRemove(live, size, a, u);
      assert Covers(Blk(a, live[a]), u) ==> InLive(live, u);
    }
  }

  /** New units, added to the free list. */
  lemma ConservedMore(fl: seq<Blk>, fl1: seq<Blk>, live: Links, got: set<int>, b: Blk)
    requires Conserved(fl, live, got) && forall u :: u in got ==> !Covers(b, u)
    requires forall u :: InFree(fl1, u) <==> InFree(fl, u) || Covers(b, u)
    ensures Conserved(fl1, live, got + UnitsOf(b))
  {
  }

  /** Free units, handed out. */
  lemma ConservedTake(fl: seq<Blk>, fl1: seq<Blk>, live: Links, got: set<int>, b: Blk)
    requires Conserved(fl, live, got) && b.a !in live && forall u :: Covers(b, u) ==> InFree(fl, u)
    requires forall u :: InFree(fl1, u) <==> InFree(fl, u) && !Covers(b, u)
    ensures Conserved(fl1, live[b.a := b.n], got)
  {
    forall u ensures (u in got <==> InFree(fl1, u) || InLive(live[b.a := b.n], u))
                     && !(InFree(fl1, u) && InLive(live[b.a := b.n], u))
    {
      LiveAdd(live, b.a, b.n, u);
    }
  }

  lemma ListedAt(fl: seq<Blk>, t: int)
    requires 0 <= t < |fl|
    ensures OnList(fl, fl[t].a)
  {
  }

  lemma ListPositive(fl: seq<Blk>, base: int, p: int)
    requires Sorted(fl, base) && 0 < base && OnList(fl, p)
    ensures p > 0
  {
    var i :| 0 <= i < |fl| && fl[i].a == p;
    Ascending(fl, base, 0, i);
  }

  /** A region from the break up is apart from every block. */
  lemma FreshRegion(fl: seq<Blk>, live: Links, size: Links, got: set<int>, base: int, b: Blk)
    requires Sorted(fl, base) && LiveOk(live, size) && Conserved(fl, live, got)
    requires base < b.a && b.n >= 1 && forall u :: u in got ==> base < u < b.a
    ensures Apart(fl, b) && (forall i :: 0 <= i < |fl| ==> fl[i].a != b.a)
    ensures forall u :: u in got ==> !Covers(b, u)
    ensures forall a :: a in live ==> !OnList(fl, a) && a != b.a
  {
    ApartByUnits(fl, base, b);
    forall i | 0 <= i < |fl| ensures fl[i].a != b.a { assert i >= 1 ==> Disjoint(fl[i], b); }
    forall a | a in live ensures !OnList(fl, a) && a != b.a {
      LiveNotOnList(fl, live, size, got, base, a);
      assert Covers(Blk(a, live[a]), a) && InLive(live, a);
    }
  }

  /** Headers off the list keep their sizes. */
  lemma LiveKept(fl: seq<Blk>, live: Links, size: Links, size1: Links, hp: int, n: int)
    requires LiveOk(live, size) && forall a :: a in live ==> !OnList(fl, a) && a != hp
    requires forall a :: a in size[hp := n] && a != hp && !OnList(fl, a) ==> a in size1 && size1[a] == size[hp := n][a]
    ensures LiveOk(live, size1)
  {
    hide OnList;
  }

  lemma RegionBelow(got1: set<int>, base: int, hp: int, n: int, got: set<int>)
    requires got1 == got + UnitsOf(Blk(hp, n)) && n >= 1 && base < hp
    requires forall u :: u in got ==> base < u < hp
    ensures forall u :: u in got1 ==> base < u < hp + n
  {
  }

  /** The last m units of free block t, as a block of their own. */
  function Tail(fl: seq<Blk>, t: int, m: int): (b: Blk)
    requires 0 <= t < |fl|
  {
    Blk(fl[t].a + fl[t].n - m, m)
  }

  /** The list once those units are taken. */
  function Taken(fl: seq<Blk>, t: int, m: int): (r: seq<Blk>)
    requires 1 <= t < |fl|
  {
    if m == fl[t].n then Remove(fl, t) else Shrunk(fl, t, m)
  }

  lemma TakenOk(fl: seq<Blk>, base: int, t: int, m: int)
    requires Sorted(fl, base) && NoneTouch(fl) && 1 <= t < |fl| && 1 <= m <= fl[t].n
    ensures Sorted(Taken(fl, t, m), base) && NoneTouch(Taken(fl, t, m)) && OnList(Taken(fl, t, m), fl[t - 1].a)
    ensures forall u :: InFree(Taken(fl, t, m), u) <==> InFree(fl, u) && !Covers(Tail(fl, t, m), u)
    ensures forall u :: Covers(Tail(fl, t, m), u) ==> InFree(fl, u)
  {
    if m == fl[t].n {
      RemoveSorted(fl, base, t);
      RemoveGaps(fl, base, t);
      forall u ensures InFree(Remove(fl, t), u) <==> InFree(fl, u) && !Covers(fl[t], u) { RemoveUnits(fl, base, t, u); }
    } else {
      ShrinkSorted(fl, base, t, m);
      forall u ensures InFree(Shrunk(fl, t, m), u) <==> InFree(fl, u) && !Covers(Tail(fl, t, m), u) {
        ShrinkUnits(fl, base, t, m, u);
      }
    }
    assert Taken(fl, t, m)[t - 1].a == fl[t - 1].a;
    forall u | Covers(Tail(fl, t, m), u) ensures InFree(fl, u) { assert Covers(fl[t], u); }
  }

  /** The links malloc leaves: block t unlinked, or shortened with the header of
      the tail written behind it. */
  lemma TakenLinked(ptr: Links, size: Links, fl: seq<Blk>, base: int, t: int, m: int)
    requires Sorted(fl, base) && Linked(ptr, size, fl) && 1 <= t < |fl| && 1 <= m <= fl[t].n
    ensures fl[t].a in ptr && fl[t].a in size && size[fl[t].a] == fl[t].n
    ensures m == fl[t].n ==> Linked(ptr[fl[t - 1].a := ptr[fl[t].a]], size, Taken(fl, t, m))
    ensures m != fl[t].n ==>
      Linked(ptr, size[fl[t].a := fl[t].n - m][Tail(fl, t, m).a := m], Taken(fl, t, m))
  {
    assert LinkedAt(ptr, size, fl, t);
    if m == fl[t].n {
      RemoveLinked(ptr, size, fl, base, t);
    } else {
      ShrinkLinked(ptr, size, fl, base, t, m);
      forall i | 0 <= i < |fl| ensures Shrunk(fl, t, m)[i].a != Tail(fl, t, m).a {
        Ascending(fl, base, i, t);
        assert i > t ==> fl[t].a + fl[t].n <= fl[i].a;
      }
      LinkedElsewhere(ptr, size[fl[t].a := fl[t].n - m], Shrunk(fl, t, m), Tail(fl, t, m).a, m);
    }
  }

  /** The taken block is new among the live ones. */
  lemma TakenLive(fl: seq<Blk>, live: Links, size: Links, size1: Links, got: set<int>, base: int, t: int, m: int)
    requires Sorted(fl, base) && LiveOk(live, size) && Conserved(fl, live, got) && 1 <= t < |fl| && 1 <= m <= fl[t].n
    requires forall u :: u in got ==> base < u
    requires forall u :: Covers(Tail(fl, t, m), u) ==> InFree(fl, u)
    requires forall a :: a in size && a != fl[t].a && a != Tail(fl, t, m).a ==> a in size1 && size1[a] == size[a]
    requires Tail(fl, t, m).a in size1 && size1[Tail(fl, t, m).a] == m
    ensures Tail(fl, t, m).a !in live && LiveOk(live[Tail(fl, t, m).a := m], size1)
  {
    DisjointByUnits(live, size, Tail(fl, t, m));
    forall a | a in live ensures a != fl[t].a { LiveNotOnList(fl, live, size, got, base, a); }
  }

  /** Position s of a tour of the circle that starts after position f. */
  function Tour(n: nat, f: nat, s: nat): (i: int) {
    if f + s < n then f + s else f + s - n
  }

  /** A tour of n steps meets every position. */
  lemma TourMeetsAll(n: nat, f: nat, i: nat) returns (s: nat)
    requires f < n && i < n
    ensures 1 <= s <= n && Tour(n, f, s) == i
  {
    s := if i > f then i - f else i + n - f;
  }

  ghost predicate AllSmall(fl: seq<Blk>, nunits: nat) {
    forall i :: 0 <= i < |fl| ==> fl[i].n < nunits
  }

  /** malloc's loop is at step s of its tour, and the blocks it passed are too
      small. */
  ghost predicate Touring(fl: seq<Blk>, freep: int, f: int, s: int, prevp: int, p: int, nunits: nat) {
    && 0 <= f < |fl| && fl[f].a == freep && 1 <= s <= |fl|
    && p == fl[Tour(|fl|, f, s)].a && prevp == fl[Tour(|fl|, f, s - 1)].a
    && forall j {:trigger Tour(|fl|, f, j)} :: 1 <= j < s ==> fl[Tour(|fl|, f, j)].n < nunits
  }

  lemma TourStart(ptr: Links, size: Links, fl: seq<Blk>, base: int, freep: int, nunits: nat) returns (f: int)
    requires Sorted(fl, base) && Linked(ptr, size, fl) && OnList(fl, freep)
    ensures freep in ptr && Touring(fl, freep, f, 1, freep, ptr[freep], nunits)
  {
    f :| 0 <= f < |fl| && fl[f].a == freep;
    assert LinkedAt(ptr, size, fl, f);
  }

  /** What malloc sees at step s: the size of header p, the next step when p is
      not freep, and when it is and is too small, that every block is. */
  lemma TourAt(
    ptr: Links, size: Links, fl: seq<Blk>, base: int, freep: int, f: int, s: int, prevp: int, p: int, nunits: nat)
    requires Sorted(fl, base) && Linked(ptr, size, fl) && Touring(fl, freep, f, s, prevp, p, nunits) && nunits >= 1
    ensures var t := Tour(|fl|, f, s);
      && 0 <= t < |fl| && 1 <= s <= |fl| && p in size && p in ptr && size[p] == fl[t].n && p == fl[t].a
      && (size[p] >= nunits ==> 1 <= t && prevp == fl[t - 1].a)
      && (p != freep && size[p] < nunits ==> s < |fl| && Touring(fl, freep, f, s + 1, p, ptr[p], nunits))
      && (p == freep && size[p] < nunits ==> AllSmall(fl, nunits))
  {
    var n, t := |fl|, Tour(|fl|, f, s);
    assert LinkedAt(ptr, size, fl, t);
    if p == freep {
      assert t == f;
      if size[p] < nunits {
        forall i | 0 <= i < n ensures fl[i].n < nunits {
          var j := TourMeetsAll(n, f, i);
        }
      }
    } else if size[p] < nunits {
      forall j {:trigger Tour(n, f, j)} | 1 <= j < s + 1 ensures fl[Tour(n, f, j)].n < nunits {}
    }
  }

  class Heap {
    const base: int          // address of the static header
    var ptr: Links           // s.ptr of the headers in memory
    var size: Links          // s.size of the headers in memory
    var freep: int           // 0 before the first malloc
    var brk: int             // the end of the process image, in units
    ghost var top: int       // the end of what morecore took over
    ghost var fl: seq<Blk>   // the free list in address order
    ghost var live: Links    // blocks handed out: header address to units
    ghost var got: set<int>  // the units morecore took over

    /** Every unit the heap deals in is memory of the process. */
    ghost predicate Valid()
      reads this
    {
      Sane() && top <= brk
    }

    ghost predicate Sane()
      reads this
    {
      && 0 < base < top && Sorted(fl, base) && NoneTouch(fl)
      && LiveOk(live, size) && Conserved(fl, live, got)
      && (forall u :: u in got ==> base < u < top)
      && (freep == 0 ==> fl == [Blk(base, 0)] && live == map[])
      && (freep != 0 ==> Linked(ptr, size, fl) && OnList(fl, freep))
    }

    constructor (base: int, brk: int)
      requires 0 < base < brk
      ensures Valid() && freep == 0 && live == map[] && got == {}
    {
      this.base, this.brk, ptr, size, freep := base, brk, map[], map[], 0;
      fl, live, got, top := [Blk(base, 0)], map[], {}, brk;
    }

    /** The two `if`s of free(): link block b in after header p. */
    method Splice(bp: int, p: int, ghost k: int)
      requires ListOk(ptr, size, fl, base) && bp in size && size[bp] >= 1 && base < bp
      requires Between(fl, k, Blk(bp, size[bp])) && p == fl[k].a
      modifies this`ptr, this`size, this`fl
      ensures fl == Freed(old(fl), k, Blk(bp, old(size)[bp])) && Linked(ptr, size, fl)
      ensures forall a :: a in old(size) && a != bp && a != p ==> a in size && size[a] == old(size)[a]
    {
      ghost var b, ptr0, size0 := Blk(bp, size[bp]), ptr, size;
      Neighbours(ptr, size, fl, base, k, b);
      RightLinked(ptr, size, fl, base, k, b);
      RightJoined(fl, base, k, b);
      hide Sorted, Linked, NoneTouch, JoinRight;
      var q := ptr[p];
      if bp + size[bp] == q {
        size := size[bp := size[bp] + size[q]];
        ptr := ptr[bp := ptr[q]];
      } else {
        ptr := ptr[bp := q];
      }
      ghost var fl2 := JoinRight(fl, k, b);
      if p + size[p] == bp {
        LeftLinked(ptr, size, fl2, base, k, b);
        size := size[p := size[p] + size[bp]];
        ptr := ptr[p := ptr[bp]];
      } else {
        ptr := ptr[p := bp];
      }
      fl := Freed(fl, k, b);
    }

    /** free() of the block whose header is bp: search for its place, link it. */
    method Link(bp: int)
      requires ListOk(ptr, size, fl, base) && OnList(fl, freep)
      requires bp in size && size[bp] >= 1 && base < bp && Apart(fl, Blk(bp, size[bp]))
      modifies this`ptr, this`size, this`fl, this`freep
      ensures ListOk(ptr, size, fl, base) && OnList(fl, freep)
      ensures forall u :: InFree(fl, u) <==> InFree(old(fl), u) || Covers(Blk(bp, old(size)[bp]), u)
      ensures exists t :: 0 <= t < |fl| && fl[t].n >= old(size)[bp]
      ensures Around(old(fl), fl, Blk(bp, old(size)[bp]))
      ensures forall a :: a in old(size) && a != bp && !OnList(old(fl), a) ==> a in size && size[a] == old(size)[a]
    {
      ghost var b := Blk(bp, size[bp]);
      ghost var k := FindPos(fl, base, b, |fl|);
      ghost var i :| 0 <= i < |fl| && fl[i].a == freep;
      var p := freep;
      assert LinkedAt(ptr, size, fl, i);
      while !(bp > p && bp < ptr[p])
        invariant ptr == old(ptr) && size == old(size) && fl == old(fl)
        invariant 0 <= i < |fl| && p == fl[i].a && p in ptr
        invariant LinkedAt(ptr, size, fl, i)
        decreases if i <= k then k - i else k - i + |fl|
      {
        Ascending(fl, base, 0, i);
        if p >= ptr[p] && (bp > p || bp < ptr[p]) { break; }
        p := ptr[p];
        i := Succ(fl, i);
        assert LinkedAt(ptr, size, fl, i);
      }
      Ascending(fl, base, 0, i);
      PosUnique(fl, base, b, k, i);
      hide Linked, Apart, InFree, Covers, Around, Sorted, NoneTouch, Between, Freed;
      FreedFacts(fl, base, k, b);
      Splice(bp, p, k);
      freep := p;
    }

    method Free(ap: int)
      requires Sane() && ap - 1 in live
      modifies this
      ensures Sane() && live == old(live) - {ap - 1} && got == old(got) && brk == old(brk) && top == old(top)
    {
      var bp := ap - 1;
      ghost var fl0, live0, size0 := fl, live, size;
      assert forall u :: Covers(Blk(bp, live[bp]), u) ==> InLive(live, u);
      LiveNotOnList(fl, live, size, got, base, bp);
      ApartByUnits(fl, base, Blk(bp, size[bp]));
      forall a | a in live ensures !OnList(fl, a) { LiveNotOnList(fl, live, size, got, base, a); }
      hide Sorted, NoneTouch, Linked, InFree, InLive, Covers;
      Link(bp);
      ConservedFree(fl0, fl, live, size0, got, bp);
      live := live - {bp};
      hide Conserved, OnList;
    }

    /** morecore: at least 4096 units from sbrk, freed into the list.  They begin at
        the break, which the program itself may have moved up to `at`; the break then
        goes where the int that sbrk receives takes it. */
    method Morecore(nu: nat, grant: bool, at: int) returns (p: int)
      requires Sane() && freep != 0 && 1 <= nu && top <= at
      modifies this
      ensures Sane() && live == old(live) && freep != 0
      ensures p == (if grant then freep else 0)
      ensures grant ==> exists t :: 0 <= t < |fl| && fl[t].n >= nu
      ensures grant ==> Around(old(fl), fl, Blk(at, Max(nu, 4096)))
      ensures grant ==> brk == NewBreak(at, Max(nu, 4096)) && top == at + Max(nu, 4096)
      ensures grant ==> got == old(got) + UnitsOf(Blk(at, Max(nu, 4096)))
      ensures !grant ==> fl == old(fl) && got == old(got) && brk == old(brk) && top == old(top)
    {
      if !grant { return 0; }
      hide Sorted, NoneTouch, Linked, Conserved, LiveOk, OnList, Around, NewBreak, Max, UnitsOf;
      var n := Max(nu, 4096);
      brk := NewBreak(at, n);
      TakeOver(at, n);
      return freep;
    }

    /** A header for n units at hp, and free() of them. */
    method TakeOver(hp: int, n: nat)
      requires Sane() && freep != 0 && 1 <= n && top <= hp
      modifies this`ptr, this`size, this`fl, this`freep, this`got, this`top
      ensures Sane() && freep != 0 && top == hp + n && got == old(got) + UnitsOf(Blk(hp, n))
      ensures Around(old(fl), fl, Blk(hp, n)) && exists t :: 0 <= t < |fl| && fl[t].n >= n
    {
      hide Sorted, NoneTouch, Linked, InFree, InLive, Covers, OnList, Around, LiveOk, Conserved, UnitsOf, Apart;
      ghost var fl0, size0, b := fl, size, Blk(hp, n);
      FreshRegion(fl, live, size, got, base, b);
      LinkedElsewhere(ptr, size, fl, hp, n);
      size := size[hp := n];
      Link(hp);
      LiveKept(fl0, live, size0, size, hp, n);
      ConservedMore(fl0, fl, live, got, b);
      got, top := got + UnitsOf(b), hp + n;
      RegionBelow(got, base, hp, n, old(got));
      ListPositive(fl, base, freep);
    }

    /** malloc once header p, after prevp, is large enough. */
    method Take(prevp: int, p: int, nunits: nat, ghost t: int) returns (r: int)
      requires Sane() && freep != 0 && 1 <= t < |fl| && 1 <= nunits <= fl[t].n
      requires p == fl[t].a && prevp == fl[t - 1].a
      modifies this`ptr, this`size, this`freep, this`fl, this`live
      ensures Sane() && freep != 0 && r > 0 && r - 1 !in old(live) && live == old(live)[r - 1 := nunits]
      ensures r - 1 == Tail(old(fl), t, nunits).a
    {
      hide Sorted, NoneTouch, Linked, InFree, InLive, Covers, Taken, Conserved, OnList, LiveOk;
      ghost var fl0, size0, b := fl, size, Tail(fl, t, nunits);
      TakenOk(fl, base, t, nunits);
      TakenLinked(ptr, size, fl, base, t, nunits);
      ListedAt(fl, t);
      ListPositive(fl, base, p);
      var a := p;
      if size[p] == nunits {
        ptr := ptr[prevp := ptr[p]];
      } else {
        size := size[p := size[p] - nunits];
        a := p + size[p];
        size := size[a := nunits];
      }
      TakenLive(fl0, live, size0, size, got, base, t, nunits);
      fl := Taken(fl0, t, nunits);
      ConservedTake(fl0, fl, live, got, b);
      live := live[a := nunits];
      freep := prevp;
      ListPositive(fl, base, freep);
      return a + 1;
    }

    /** malloc: first fit from freep on, asking sbrk at most once.  `grant` is whether
        sbrk succeeds, `at` where the break is then.  The heap stays within the memory
        of the process except if sbrk grants a request above 2^31 - 32 bytes that no
        free block can serve; then the block returned reaches beyond the break. */
    method Malloc(nbytes: nat, grant: bool, at: int) returns (r: int)
      requires Valid() && nbytes < 0x1_0000_0000 && brk <= at
      modifies this
      ensures Sane() && freep != 0
      ensures Valid() <==> !(grant && nbytes > 0x7FFF_FFE0 && AllSmall(old(fl), Units(nbytes)))
      ensures !Valid() ==> r != 0 && r - 1 + Units(nbytes) > brk
      ensures r == 0 ==> !grant && live == old(live) && got == old(got) && AllSmall(fl, Units(nbytes))
      ensures r != 0 ==> r - 1 !in old(live) && live == old(live)[r - 1 := Units(nbytes)]
      ensures got == if grant && AllSmall(old(fl), Units(nbytes))
                     then old(got) + UnitsOf(Blk(at, Max(Units(nbytes), 4096))) else old(got)
    {
      SbrkExactIff(nbytes);
      hide Sorted, NoneTouch, Linked, LiveOk, Conserved, OnList, AllSmall, Covers, NewBreak, SbrkArg;
      if freep == 0 { Init(); }
      r := Search(Units(nbytes), grant, at);
      BreakReaches(at, Max(Units(nbytes), 4096));
    }

    /** malloc's loop. */
    method Search(nunits: nat, grant: bool, at: int) returns (r: int)
      requires Sane() && freep != 0 && nunits >= 1 && top <= at
      modifies this
      ensures Sane() && freep != 0
      ensures r == 0 ==> !grant && live == old(live) && AllSmall(fl, nunits)
      ensures r != 0 ==> r - 1 !in old(live) && live == old(live)[r - 1 := nunits]
      ensures grant && AllSmall(old(fl), nunits) ==>
        && r != 0 && got == old(got) + UnitsOf(Blk(at, Max(nunits, 4096)))
        && brk == NewBreak(at, Max(nunits, 4096)) && top == at + Max(nunits, 4096)
        && r - 1 + nunits == top
      ensures !(grant && AllSmall(old(fl), nunits)) ==> got == old(got) && brk == old(brk) && top == old(top)
    {
      hide Sorted, NoneTouch, Linked, LiveOk, Conserved, OnList, Touring, Max, NewBreak, Around, Covers;
      var prevp := freep;
      ghost var f := TourStart(ptr, size, fl, base, freep, nunits);
      var p := ptr[prevp];
      ghost var s, grown := 1, false;
      while true
        invariant Sane() && freep != 0 && live == old(live) && Touring(fl, freep, f, s, prevp, p, nunits)
        invariant !grown ==> fl == old(fl) && got == old(got) && brk == old(brk) && top == old(top)
        invariant grown ==> !AllSmall(fl, nunits) && AllSmall(old(fl), nunits) && grant
        invariant grown ==> got == old(got) + UnitsOf(Blk(at, Max(nunits, 4096)))
        invariant grown ==> brk == NewBreak(at, Max(nunits, 4096)) && top == at + Max(nunits, 4096)
        invariant grown ==> Around(old(fl), fl, Blk(at, Max(nunits, 4096)))
        decreases if grown then 0 else 1, |fl| - s
      {
        TourAt(ptr, size, fl, base, freep, f, s, prevp, p, nunits);
        if size[p] >= nunits {
          ghost var t := Tour(|fl|, f, s);
          if grown { TailAtTop(old(fl), fl, live, got, top, at, nunits, t); }
          r := Take(prevp, p, nunits, t);
          return;
        }
        if p == freep {
          p := Morecore(nunits, grant, at);
          if p == 0 { return 0; }
          f := TourStart(ptr, size, fl, base, freep, nunits);
          s, grown := 1, true;
        } else {
          s := s + 1;
        }
        prevp := p;
        p := ptr[p];
      }
    }

    method Init()
      requires Sane() && freep == 0
      modifies this`ptr, this`size, this`freep
      ensures Sane() && freep == base
    {
      ptr := ptr[base := base];
      size := size[base := 0];
      freep := base;
      assert LinkedAt(ptr, size, fl, 0);
      assert fl[0].a == freep;
    }
  }
}
