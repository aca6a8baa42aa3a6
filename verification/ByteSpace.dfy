/** A user address space as a flat array of bytes, cut into pages. */
module ByteSpace {
  const PGSIZE: nat := 4096

  datatype Page = Page(bytes: seq<int>)

  type Space = seq<Page>

  /** memset of a whole page. */
  function Filled(b: int): (pg: Page)
    ensures |pg.bytes| == PGSIZE && forall o :: 0 <= o < PGSIZE ==> pg.bytes[o] == b
  {
    Page(seq(PGSIZE, o => b))
  }

  ghost predicate Whole(pages: seq<Page>) {
    forall v :: 0 <= v < |pages| ==> |pages[v].bytes| == PGSIZE
  }

  /** The byte at offset o of page v after `src` is written at address dst. */
  ghost function ByteAfter(pg: Page, v: int, dst: int, src: seq<int>, o: int): (b: int)
    requires 0 <= o < |pg.bytes|
  {
    var a := v * PGSIZE + o;
    if dst <= a < dst + |src| then src[a - dst] else pg.bytes[o]
  }

  ghost function PageAfter(pg: Page, v: int, dst: int, src: seq<int>): (r: Page)
    ensures |r.bytes| == |pg.bytes|
    ensures forall o :: 0 <= o < |pg.bytes| ==> r.bytes[o] == ByteAfter(pg, v, dst, src, o)
  {
    Page(seq(|pg.bytes|, o requires 0 <= o < |pg.bytes| => ByteAfter(pg, v, dst, src, o)))
  }

  /** The space after `src` is written at address dst, byte by byte. */
  ghost function WriteBytes(space: Space, dst: int, src: seq<int>): (r: Space)
    ensures |r| == |space|
    ensures forall v :: 0 <= v < |space| ==> r[v] == PageAfter(space[v], v, dst, src)
  {
    seq(|space|, v requires 0 <= v < |space| => PageAfter(space[v], v, dst, src))
  }

  /** memmove of `src` to offset `off` inside one page. */
  function Splice(pg: Page, off: nat, src: seq<int>): (r: Page)
    requires off + |src| <= |pg.bytes|
    ensures |r.bytes| == |pg.bytes|
  {
    Page(pg.bytes[..off] + src + pg.bytes[off + |src|..])
  }

  lemma PageUntouched(pg: Page, v: int, dst: int, src: seq<int>)
    requires |pg.bytes| == PGSIZE && (dst + |src| <= v * PGSIZE || (v + 1) * PGSIZE <= dst)
    ensures PageAfter(pg, v, dst, src) == pg
  {
    assert PageAfter(pg, v, dst, src).bytes == pg.bytes;
  }

  lemma PageSpliced(pg: Page, v: int, dst: int, src: seq<int>)
    requires |pg.bytes| == PGSIZE && v * PGSIZE <= dst && dst + |src| <= (v + 1) * PGSIZE
    ensures PageAfter(pg, v, dst, src) == Splice(pg, dst - v * PGSIZE, src)
  {
    assert PageAfter(pg, v, dst, src).bytes == Splice(pg, dst - v * PGSIZE, src).bytes;
  }

  /** A write that stays inside page v is a memmove into that page. */
  lemma WriteInsidePage(space: Space, v: int, dst: int, src: seq<int>)
    requires Whole(space) && 0 <= v < |space|
    requires v * PGSIZE <= dst && dst + |src| <= (v + 1) * PGSIZE
    ensures WriteBytes(space, dst, src) == space[v := Splice(space[v], dst - v * PGSIZE, src)]
  {
    forall w | 0 <= w < |space|
      ensures WriteBytes(space, dst, src)[w] == space[v := Splice(space[v], dst - v * PGSIZE, src)][w]
    {
      if w == v {
        PageSpliced(space[v], v, dst, src);
      } else {
        assert w < v ==> (w + 1) * PGSIZE <= v * PGSIZE;
        assert w > v ==> (v + 1) * PGSIZE <= w * PGSIZE;
        PageUntouched(space[w], w, dst, src);
      }
    }
  }

  /** Two writes in a row are one write of the concatenation. */
  lemma WriteTwice(space: Space, dst: int, a: seq<int>, b: seq<int>)
    ensures WriteBytes(WriteBytes(space, dst, a), dst + |a|, b) == WriteBytes(space, dst, a + b)
  {
    var mid := WriteBytes(space, dst, a);
    forall v | 0 <= v < |space|
      ensures WriteBytes(mid, dst + |a|, b)[v] == WriteBytes(space, dst, a + b)[v]
    {
      PageTwice(space[v], v, dst, a, b);
    }
  }

  /** Appending the next m bytes of src to what has been written. */
  lemma WriteMore(space: Space, dst: int, src: seq<int>, done: nat, m: nat)
    requires done + m <= |src|
    ensures WriteBytes(WriteBytes(space, dst, src[..done]), dst + done, src[done..][..m]) ==
            WriteBytes(space, dst, src[..done + m])
  {
    WriteTwice(space, dst, src[..done], src[done..][..m]);
    assert src[..done] + src[done..][..m] == src[..done + m];
  }

  lemma PageTwice(pg: Page, v: int, dst: int, a: seq<int>, b: seq<int>)
    ensures PageAfter(PageAfter(pg, v, dst, a), v, dst + |a|, b) == PageAfter(pg, v, dst, a + b)
  {
    assert PageAfter(PageAfter(pg, v, dst, a), v, dst + |a|, b).bytes == PageAfter(pg, v, dst, a + b).bytes;
  }

  lemma WriteNothing(space: Space, dst: int)
    ensures WriteBytes(space, dst, []) == space
  {
    forall v | 0 <= v < |space| ensures WriteBytes(space, dst, [])[v] == space[v] {
      assert PageAfter(space[v], v, dst, []).bytes == space[v].bytes;
    }
  }
}
