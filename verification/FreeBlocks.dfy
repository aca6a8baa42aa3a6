/** The free list of the Kernighan & Ritchie allocator (umalloc.c) as a list of
    blocks in address order, and the links that represent it in memory.
    Addresses and sizes count Header-sized units. */
module FreeBlocks {

  datatype Blk = Blk(a: int, n: int)

  type Links = map<int, int>

  /** In address order, `base` (an empty block) first, no two overlapping. */
  ghost predicate Sorted(fl: seq<Blk>, base: int) {
    && |fl| >= 1 && fl[0] == Blk(base, 0)
    && (forall i :: 1 <= i < |fl| ==> fl[i].n >= 1)
    && (forall i, j :: 0 <= i < j < |fl| ==> fl[i].a < fl[j].a && fl[i].a + fl[i].n <= fl[j].a)
  }

  /** Block i and the one after it do not touch. */
  ghost predicate Gap(fl: seq<Blk>, i: int) {
    0 <= i < |fl| - 1 ==> fl[i].a + fl[i].n != fl[i + 1].a
  }

  ghost predicate NoneTouch(fl: seq<Blk>) {
    forall i :: Gap(fl, i)
  }

  /** The next position on the circle. */
  function Succ(fl: seq<Blk>, i: int): (j: int) {
    if i + 1 < |fl| then i + 1 else 0
  }

  /** Header i of the list: its size, and the address of the next header. */
  ghost predicate LinkedAt(ptr: Links, size: Links, fl: seq<Blk>, i: int) {
    && 0 <= i < |fl| && fl[i].a in ptr && fl[i].a in size
    && size[fl[i].a] == fl[i].n && ptr[fl[i].a] == fl[Succ(fl, i)].a
  }

  /** One cycle through all blocks. */
  ghost predicate Linked(ptr: Links, size: Links, fl: seq<Blk>) {
    forall i :: 0 <= i < |fl| ==> LinkedAt(ptr, size, fl, i)
  }

  ghost predicate Covers(b: Blk, u: int) {
    b.a <= u < b.a + b.n
  }

  /** Unit u belongs to a free block. */
  ghost predicate InFree(fl: seq<Blk>, u: int) {
    exists i :: 0 <= i < |fl| && Covers(fl[i], u)
  }

  // ---- insertion ----

  function Insert(fl: seq<Blk>, k: int, b: Blk): (r: seq<Blk>)
    requires 0 <= k < |fl|
    ensures |r| == |fl| + 1
    ensures forall i :: 0 <= i < |r| ==> r[i] == if i <= k then fl[i] else if i == k + 1 then b else fl[i - 1]
  {
    fl[..k + 1] + [b] + fl[k + 1..]
  }

  /** Position k is where b goes: after block k, before the next one. */
  ghost predicate Between(fl: seq<Blk>, k: int, b: Blk) {
    && 0 <= k < |fl| && fl[k].a < b.a && fl[k].a + fl[k].n <= b.a
    && (k + 1 < |fl| ==> b.a + b.n <= fl[k + 1].a)
  }

  lemma InsertSorted(fl: seq<Blk>, base: int, k: int, b: Blk)
    requires Sorted(fl, base) && Between(fl, k, b) && b.n >= 1
    ensures Sorted(Insert(fl, k, b), base)
  {
    var r := Insert(fl, k, b);
    forall i, j | 0 <= i < j < |r| ensures r[i].a < r[j].a && r[i].a + r[i].n <= r[j].a {
      assert i < k ==> fl[i].a + fl[i].n <= fl[k].a;
      assert k + 1 < j - 1 < |fl| ==> fl[k + 1].a < fl[j - 1].a;
    }
  }

  /** Only the new block can touch a neighbour. */
  lemma InsertGaps(fl: seq<Blk>, k: int, b: Blk)
    requires NoneTouch(fl) && 0 <= k < |fl|
    ensures forall i :: i != k && i != k + 1 ==> Gap(Insert(fl, k, b), i)
  {
    forall i | i != k && i != k + 1 ensures Gap(Insert(fl, k, b), i) {
      assert Gap(fl, i) && Gap(fl, i - 1);
    }
  }

  lemma InsertUnits(fl: seq<Blk>, k: int, b: Blk, u: int)
    requires 0 <= k < |fl|
    ensures InFree(Insert(fl, k, b), u) <==> InFree(fl, u) || Covers(b, u)
  {
    var r := Insert(fl, k, b);
    if InFree(fl, u) {
      var i :| 0 <= i < |fl| && Covers(fl[i], u);
      assert Covers(r[if i <= k then i else i + 1], u);
    }
    if Covers(b, u) { assert Covers(r[k + 1], u); }
    if InFree(r, u) {
      var i :| 0 <= i < |r| && Covers(r[i], u);
      if i != k + 1 { assert Covers(fl[if i <= k then i else i - 1], u); }
    }
  }

  lemma InsertLinked(ptr: Links, size: Links, fl: seq<Blk>, base: int, k: int, b: Blk)
    requires Sorted(fl, base) && Linked(ptr, size, fl) && Between(fl, k, b)
    requires b.a in size && size[b.a] == b.n && fl[k].a in ptr
    ensures Linked(ptr[b.a := ptr[fl[k].a]][fl[k].a := b.a], size, Insert(fl, k, b))
  {
    var r, ptr1 := Insert(fl, k, b), ptr[b.a := ptr[fl[k].a]][fl[k].a := b.a];
    assert LinkedAt(ptr, size, fl, k);
    forall i | 0 <= i < |r| ensures LinkedAt(ptr1, size, r, i) {
      if i != k + 1 {
        var j := if i <= k then i else i - 1;
        assert LinkedAt(ptr, size, fl, j);
        assert k + 1 < j ==> fl[k + 1].a < fl[j].a;
        assert j < k ==> fl[j].a < fl[k].a;
      }
    }
  }

  // ---- merging block i with the next ----

  function Merge(fl: seq<Blk>, i: int): (r: seq<Blk>)
    requires 0 <= i < |fl| - 1
    ensures |r| == |fl| - 1
    ensures forall j :: 0 <= j < |r| ==>
      r[j] == if j < i then fl[j] else if j == i then Blk(fl[i].a, fl[i].n + fl[i + 1].n) else fl[j + 1]
  {
    fl[..i] + [Blk(fl[i].a, fl[i].n + fl[i + 1].n)] + fl[i + 2..]
  }

  lemma MergeSorted(fl: seq<Blk>, base: int, i: int)
    requires Sorted(fl, base) && 1 <= i < |fl| - 1 && !Gap(fl, i)
    ensures Sorted(Merge(fl, i), base)
  {
  }

  lemma MergeGaps(fl: seq<Blk>, i: int)
    requires 0 <= i < |fl| - 1 && !Gap(fl, i)
    ensures forall j :: j < i && Gap(fl, j) ==> Gap(Merge(fl, i), j)
    ensures Gap(fl, i + 1) ==> Gap(Merge(fl, i), i)
    ensures (forall j :: j > i + 1 ==> Gap(fl, j)) ==> forall j :: j > i ==> Gap(Merge(fl, i), j)
  {
    if forall j :: j > i + 1 ==> Gap(fl, j) {
      forall j | j > i ensures Gap(Merge(fl, i), j) { assert Gap(fl, j + 1); }
    }
  }

  lemma MergeUnits(fl: seq<Blk>, i: int, u: int)
    requires 0 <= i < |fl| - 1 && !Gap(fl, i) && fl[i].n >= 0 && fl[i + 1].n >= 0
    ensures InFree(Merge(fl, i), u) <==> InFree(fl, u)
  {
    var r := Merge(fl, i);
    if InFree(fl, u) {
      var j :| 0 <= j < |fl| && Covers(fl[j], u);
      assert Covers(r[if j <= i then j else j - 1], u);
    }
    if InFree(r, u) {
      var j :| 0 <= j < |r| && Covers(r[j], u);
      if j == i {
        assert Covers(fl[i], u) || Covers(fl[i + 1], u);
      } else {
        assert Covers(fl[if j < i then j else j + 1], u);
      }
    }
  }

  lemma MergeLinked(ptr: Links, size: Links, fl: seq<Blk>, base: int, i: int)
    requires Sorted(fl, base) && Linked(ptr, size, fl) && 0 <= i < |fl| - 1
    requires fl[i].a in ptr && fl[i + 1].a in ptr
    ensures Linked(ptr[fl[i].a := ptr[fl[i + 1].a]], size[fl[i].a := fl[i].n + fl[i + 1].n], Merge(fl, i))
  {
    var r := Merge(fl, i);
    var ptr1, size1 := ptr[fl[i].a := ptr[fl[i + 1].a]], size[fl[i].a := fl[i].n + fl[i + 1].n];
    forall j | 0 <= j < |r| ensures LinkedAt(ptr1, size1, r, j) {
      assert LinkedAt(ptr, size, fl, if j < i then j else j + 1);
      assert j < i ==> fl[j].a < fl[i].a;
      assert j > i ==> fl[i].a < fl[j + 1].a;
    }
  }

  // ---- taking a block, or the end of a block ----

  function Remove(fl: seq<Blk>, t: int): (r: seq<Blk>)
    requires 1 <= t < |fl|
    ensures |r| == |fl| - 1
    ensures forall j :: 0 <= j < |r| ==> r[j] == if j < t then fl[j] else fl[j + 1]
  {
    fl[..t] + fl[t + 1..]
  }

  lemma RemoveSorted(fl: seq<Blk>, base: int, t: int)
    requires Sorted(fl, base) && 1 <= t < |fl|
    ensures Sorted(Remove(fl, t), base)
  {
  }

  lemma RemoveGaps(fl: seq<Blk>, base: int, t: int)
    requires Sorted(fl, base) && NoneTouch(fl) && 1 <= t < |fl|
    ensures NoneTouch(Remove(fl, t))
  {
    forall i ensures Gap(Remove(fl, t), i) {
      assert Gap(fl, i) && Gap(fl, i + 1);
      if i == t - 1 && t + 1 < |fl| {
        assert fl[t - 1].a + fl[t - 1].n <= fl[t].a;
        assert fl[t].a < fl[t + 1].a;
      }
    }
  }

  lemma RemoveUnits(fl: seq<Blk>, base: int, t: int, u: int)
    requires Sorted(fl, base) && 1 <= t < |fl|
    ensures InFree(Remove(fl, t), u) <==> InFree(fl, u) && !Covers(fl[t], u)
  {
    var r := Remove(fl, t);
    if InFree(fl, u) && !Covers(fl[t], u) {
      var i :| 0 <= i < |fl| && Covers(fl[i], u);
      assert Covers(r[if i < t then i else i - 1], u);
    }
    if InFree(r, u) {
      var i :| 0 <= i < |r| && Covers(r[i], u);
      assert Covers(fl[if i < t then i else i + 1], u);
    }
  }

  lemma RemoveLinked(ptr: Links, size: Links, fl: seq<Blk>, base: int, t: int)
    requires Sorted(fl, base) && Linked(ptr, size, fl) && 1 <= t < |fl| && fl[t].a in ptr
    ensures Linked(ptr[fl[t - 1].a := ptr[fl[t].a]], size, Remove(fl, t))
  {
    var r, ptr1 := Remove(fl, t), ptr[fl[t - 1].a := ptr[fl[t].a]];
    assert LinkedAt(ptr, size, fl, t) && LinkedAt(ptr, size, fl, t - 1);
    forall j | 0 <= j < |r| ensures LinkedAt(ptr1, size, r, j) {
      assert LinkedAt(ptr, size, fl, if j < t then j else j + 1);
      assert j < t - 1 ==> fl[j].a < fl[t - 1].a;
      assert j >= t ==> fl[t - 1].a < fl[j + 1].a;
    }
  }

  /** Block t without its last m units. */
  function Shrunk(fl: seq<Blk>, t: int, m: int): (r: seq<Blk>)
    requires 0 <= t < |fl|
  {
    fl[t := Blk(fl[t].a, fl[t].n - m)]
  }

  lemma ShrinkSorted(fl: seq<Blk>, base: int, t: int, m: int)
    requires Sorted(fl, base) && NoneTouch(fl) && 1 <= t < |fl| && 1 <= m < fl[t].n
    ensures Sorted(Shrunk(fl, t, m), base) && NoneTouch(Shrunk(fl, t, m))
  {
    forall i ensures Gap(Shrunk(fl, t, m), i) { assert Gap(fl, i); }
  }

  lemma ShrinkUnits(fl: seq<Blk>, base: int, t: int, m: int, u: int)
    requires Sorted(fl, base) && 1 <= t < |fl| && 1 <= m < fl[t].n
    ensures InFree(Shrunk(fl, t, m), u) <==> InFree(fl, u) && !Covers(Blk(fl[t].a + fl[t].n - m, m), u)
  {
    var r := Shrunk(fl, t, m);
    if InFree(fl, u) && !Covers(Blk(fl[t].a + fl[t].n - m, m), u) {
      var i :| 0 <= i < |fl| && Covers(fl[i], u);
      assert Covers(r[i], u);
    }
    if InFree(r, u) {
      var i :| 0 <= i < |r| && Covers(r[i], u);
      assert Covers(fl[i], u);
    }
  }

  lemma ShrinkLinked(ptr: Links, size: Links, fl: seq<Blk>, base: int, t: int, m: int)
    requires Sorted(fl, base) && Linked(ptr, size, fl) && 1 <= t < |fl|
    ensures Linked(ptr, size[fl[t].a := fl[t].n - m], Shrunk(fl, t, m))
  {
    var r, size1 := Shrunk(fl, t, m), size[fl[t].a := fl[t].n - m];
    forall j | 0 <= j < |r| ensures LinkedAt(ptr, size1, r, j) {
      assert r[Succ(r, j)].a == fl[Succ(fl, j)].a;
      assert LinkedAt(ptr, size, fl, j);
      assert j < t ==> fl[j].a < fl[t].a;
      assert j > t ==> fl[t].a < fl[j].a;
    }
  }

  /** Writing the header of a block outside the list leaves the list linked. */
  lemma LinkedElsewhere(ptr: Links, size: Links, fl: seq<Blk>, a: int, n: int)
    requires Linked(ptr, size, fl) && forall i :: 0 <= i < |fl| ==> fl[i].a != a
    ensures Linked(ptr, size[a := n], fl)
  {
    var size1 := size[a := n];
    forall i | 0 <= i < |fl| ensures LinkedAt(ptr, size1, fl, i) { assert LinkedAt(ptr, size, fl, i); }
  }
}
