/** pipe.c: the pipe ring buffer.  Each method is what a call does while it holds
    pi->lock, up to the point where it returns or goes to sleep; a sleeper comes back
    with another call.  Counters have 32 bits and wrap. */
module Pipe {
  const PIPESIZE: nat := 512
  const WORD: nat := 0x1_0000_0000

  /** How a section of pipewrite ends: -1 because the read end is closed or the
      writer is killed, asleep on a full pipe, or at the end. */
  datatype WriteEnd = Refused | Blocked | Wrote

  /** ... of piperead: -1 because the reader is killed, asleep on an empty pipe, or
      with bytes. */
  datatype ReadEnd = Killed | Waits | Got

  /** Below 2^32 apart, counters are equal just when the counts are. */
  lemma SameCount(r: nat, w: nat)
    requires r <= w <= r + PIPESIZE
    ensures r % WORD == w % WORD <==> r == w
    ensures w % WORD == (r % WORD + PIPESIZE) % WORD <==> w == r + PIPESIZE
  {
    Ahead(r, w - r);
    Ahead(r, PIPESIZE);
  }

  /** Where k steps lead on a counter. */
  lemma Ahead(r: nat, k: nat)
    requires k <= 512
    ensures var x := r % 0x1_0000_0000;
      (r + k) % 0x1_0000_0000 == (if x + k < 0x1_0000_0000 then x + k else x + k - 0x1_0000_0000)
    ensures (r % 0x1_0000_0000 + k) % 0x1_0000_0000 == (r + k) % 0x1_0000_0000
  {
    var q, x := r / 0x1_0000_0000, r % 0x1_0000_0000;
    assert r == 0x1_0000_0000 * q + x;
  }

  lemma NextCount(n: nat)
    ensures (n % WORD + 1) % WORD == (n + 1) % WORD && n % WORD % PIPESIZE == n % PIPESIZE
  {
    var q, x := n / 0x1_0000_0000, n % 0x1_0000_0000;
    Slot(q, x);
    if x + 1 < 0x1_0000_0000 {
      assert n + 1 == 0x1_0000_0000 * q + (x + 1);
    } else {
      assert n + 1 == 0x1_0000_0000 * (q + 1);
    }
  }

  lemma Slot(q: nat, x: int)
    ensures (0x1_0000_0000 * q + x) % 512 == x % 512
  {
    assert 0x1_0000_0000 * q + x == 512 * (0x80_0000 * q + x / 512) + x % 512;
  }

  lemma SlotsApart(j: nat, k: nat)
    requires j < k < j + PIPESIZE
    ensures j % PIPESIZE != k % PIPESIZE
  {
  }

  /** The bytes written and not consumed are in the ring. */
  ghost predicate Holds(data: seq<int>, written: seq<int>, r: nat) {
    && |data| == PIPESIZE && r <= |written| <= r + PIPESIZE
    && forall k :: r <= k < |written| ==> data[k % PIPESIZE] == written[k]
  }

  lemma HoldsPut(data: seq<int>, written: seq<int>, r: nat, ch: int)
    requires Holds(data, written, r) && |written| < r + PIPESIZE
    ensures Holds(data[|written| % PIPESIZE := ch], written + [ch], r)
  {
    forall k | r <= k < |written| ensures k % PIPESIZE != |written| % PIPESIZE { SlotsApart(k, |written|); }
  }

  class Pipe {
    const data: array<int>
    var nread: int
    var nwrite: int
    var readopen: bool
    var writeopen: bool
    ghost var written: seq<int>   // every byte ever put in
    ghost var consumed: seq<int>  // every byte ever taken out
    ghost var readers: bool       // somebody sleeps on nread
    ghost var writers: bool       // somebody sleeps on nwrite

    /** Consumed bytes are the first ones written, at most PIPESIZE are pending, and
        writers sleep only while the pipe is full and has a read end. */
    ghost predicate Valid()
      reads this, data
    {
      && nread == |consumed| % WORD && nwrite == |written| % WORD
      && Holds(data[..], written, |consumed|) && consumed <= written
      && (writers ==> |written| == |consumed| + PIPESIZE && readopen)
    }

    /** Somebody sleeps in piperead although there is something to return. */
    ghost predicate Stranded()
      reads this
    {
      readers && (consumed != written || !writeopen)
    }

    /** pipealloc. */
    constructor ()
      ensures Valid() && fresh(data) && written == [] && consumed == [] && readopen && writeopen && !readers && !writers
    {
      data := new int[PIPESIZE];
      nread, nwrite, readopen, writeopen := 0, 0, true, true;
      written, consumed, readers, writers := [], [], false, false;
    }

    /** One byte of pipewrite into a pipe that is not full. */
    method Put(ch: int)
      requires Valid() && |written| < |consumed| + PIPESIZE
      modifies data, this`nwrite, this`written
      ensures Valid() && written == old(written) + [ch]
    {
      NextCount(|written|);
      HoldsPut(data[..], written, |consumed|, ch);
      data[nwrite % PIPESIZE] := ch;
      nwrite := (nwrite + 1) % WORD;
      written := written + [ch];
    }

    /** One byte of piperead out of a pipe that is not empty. */
    method Pop() returns (ch: int)
      requires Valid() && |consumed| < |written| && !writers
      modifies this`nread, this`consumed
      ensures Valid() && consumed == old(consumed) + [ch]
    {
      NextCount(|consumed|);
      ch := data[nread % PIPESIZE];
      nread := (nread + 1) % WORD;
      consumed := consumed + [ch];
    }

    /** pipewrite from byte `start` on; killed(pr) is found true at byte killAt and
        copyin fails at byte faultAt (-1 for never).  It stops at the first byte at
        which anything stops it.  If nobody slept beside data before, somebody does
        afterwards exactly if the writer is killed with bytes of its own in the pipe
        and more to write. */
    method Write(src: seq<int>, start: nat, killAt: int, faultAt: int) returns (i: nat, how: WriteEnd)
      requires Valid() && start <= |src|
      modifies data, this`nwrite, this`written, this`readers, this`writers
      ensures Valid() && start <= i <= |src| && written == old(written) + src[start..i]
      ensures var full := start + |consumed| + PIPESIZE - |old(written)|;
        && (i == |src| || !readopen || i == killAt || i == full || i == faultAt)
        && (!readopen ==> i == start) && (start <= killAt ==> i <= killAt)
        && i <= full && (start <= faultAt ==> i <= faultAt)
        && how == (if i == |src| then Wrote else if !readopen || i == killAt then Refused
                   else if i == full then Blocked else Wrote)
      ensures writers == (old(writers) || how == Blocked) && readers == (old(readers) && how == Refused)
      ensures !old(Stranded()) ==> (Stranded() <==>
        && old(readers) && readopen && start < killAt < |src| && killAt <= start + PIPESIZE
        && !(start <= faultAt < killAt))
    {
      i := start;
      assert src[start..i] == [];
      while i < |src|
        invariant Valid() && start <= i <= |src| && written == old(written) + src[start..i]
        invariant writers == old(writers) && readers == old(readers)
        invariant (!readopen ==> i == start) && (start <= killAt ==> i <= killAt) && (start <= faultAt ==> i <= faultAt)
      {
        if !readopen || i == killAt { return i, Refused; }
        SameCount(|consumed|, |written|);
        if nwrite == (nread + PIPESIZE) % WORD {
          readers, writers := false, true;
          return i, Blocked;
        }
        if i == faultAt { break; }
        Put(src[i]);
        i := i + 1;
      }
      readers := false;
      how := Wrote;
    }

    /** piperead of n bytes; copyout fails at byte faultAt, which is then lost. */
    method Read(n: nat, killed: bool, faultAt: int) returns (bytes: seq<int>, how: ReadEnd)
      requires Valid()
      modifies this`nread, this`consumed, this`readers, this`writers
      ensures Valid() && |bytes| <= n
      ensures how != Got ==> bytes == [] && consumed == old(consumed) == written && writeopen && writers == old(writers)
      ensures readers == (old(readers) || how == Waits)
      ensures how == Killed <==> killed && old(consumed) == written && writeopen
      ensures how == Waits <==> !killed && old(consumed) == written && writeopen
      ensures how == Got && |bytes| != faultAt ==> consumed == old(consumed) + bytes
      ensures how == Got && |bytes| != faultAt && |bytes| < n ==> consumed == written
      ensures how == Got && bytes == [] && n > 0 && faultAt != 0 ==> consumed == written && !writeopen
      ensures how == Got ==> !writers && old(consumed) + bytes <= consumed && |consumed| <= |old(consumed)| + |bytes| + 1
      ensures how == Got && |bytes| == faultAt < n && |old(consumed)| + faultAt < |written| ==>
        |consumed| == |old(consumed)| + faultAt + 1
      ensures !old(Stranded()) ==> !Stranded()
    {
      bytes := [];
      SameCount(|consumed|, |written|);
      if nread == nwrite && writeopen {
        assert consumed == written;
        if killed { return [], Killed; }
        readers := true;
        return [], Waits;
      }
      writers := false;
      how := Got;
      while |bytes| < n
        invariant Valid() && |bytes| <= n && consumed == old(consumed) + bytes && !writers
        invariant readers == old(readers) && (bytes == [] ==> |consumed| < |written| || !writeopen)
        decreases n - |bytes|
      {
        SameCount(|consumed|, |written|);
        if nread == nwrite { break; }
        var ch := Pop();
        if |bytes| == faultAt { return; }
        bytes := bytes + [ch];
      }
    }

    /** pipeclose. */
    method Close(writable: bool)
      requires Valid()
      modifies this`readopen, this`writeopen, this`readers, this`writers
      ensures Valid() && readopen == (old(readopen) && writable) && writeopen == (old(writeopen) && !writable)
      ensures if writable then !readers && writers == old(writers) else !writers && readers == old(readers)
      ensures !old(Stranded()) ==> !Stranded()
    {
      if writable {
        writeopen, readers := false, false;
      } else {
        readopen, writers := false, false;
      }
    }

    /** Any interleaving of sections: bytes come out in the order they went in, and
        unless a writer is killed between two of its bytes no reader is left asleep
        beside data. */
    method Run(calls: seq<Call>) returns (put: seq<int>, got: seq<int>)
      requires Valid() && !Stranded()
      modifies this, data
      ensures Valid() && written == old(written) + put
      ensures (forall c :: c in calls ==> Clean(c)) ==> consumed == old(consumed) + got
      ensures (forall c :: c in calls ==> !KilledMidway(c)) ==> !Stranded()
    {
      put, got := [], [];
      for k := 0 to |calls|
        invariant Valid() && written == old(written) + put
        invariant (forall c :: c in calls ==> Clean(c)) ==> consumed == old(consumed) + got
        invariant (forall c :: c in calls ==> !KilledMidway(c)) ==> !Stranded()
      {
        assert calls[k] in calls;
        match calls[k]
        case WriteCall(src, start, killAt, faultAt) =>
          if start <= |src| {
            var i, how := Write(src, start, killAt, faultAt);
            put := put + src[start..i];
          }
        case ReadCall(n, killed, faultAt) =>
          var bytes, how := Read(n, killed, faultAt);
          got := got + bytes;
        case CloseCall(writable) => Close(writable);
      }
    }
  }

  datatype Call =
    | WriteCall(src: seq<int>, start: nat, killAt: int, faultAt: int)
    | ReadCall(n: nat, killed: bool, faultAt: int)
    | CloseCall(writable: bool)

  /** copyout never fails in this call. */
  predicate Clean(c: Call) {
    c.ReadCall? ==> c.faultAt == -1
  }

  /** The writer is killed between two bytes of one section. */
  predicate KilledMidway(c: Call) {
    c.WriteCall? && c.start < c.killAt < |c.src| && c.killAt <= c.start + PIPESIZE
  }

  /** A killed writer does strand readers: the reader sleeps, the writer puts one byte
      in, is killed, and returns without waking anybody. */
  method StrandedReader() returns (p: Pipe)
    ensures p.Stranded() && p.written == [7] && p.consumed == []
  {
    p := new Pipe();
    var bytes, slept := p.Read(1, false, -1);
    var i, how := p.Write([7, 8], 0, 1, -1);
    assert p.consumed == [] && p.written == [7, 8][0..i];
  }
}
