/** virtio_disk.c: the request ring between the driver and a device that takes and
    completes requests in any order.  Every method is one atomic step: what the
    driver does under vdisk_lock, or what the device does with one entry. */
module VirtioRing {
  import opened Params

  const NUM: nat := 8
  /** The rings' index fields have 16 bits. */
  const WRAP: nat := 0x1_0000

  type Bytes = seq<int>

  /** What a descriptor points to. */
  datatype Target = Nothing | Header(i: int) | Buffer(b: int) | StatusOf(i: int)
  datatype Desc = Desc(addr: Target, chained: bool, deviceWrites: bool, next: int)
  /** struct virtio_blk_req. */
  datatype Op = Op(out: bool, block: int)
  /** info[i]: the buffer (-1 for none) and the status byte. */
  datatype Info = Info(b: int, status: int)

  const EMPTY: Desc := Desc(Nothing, false, false, 0)

  datatype Phase = Queued | Taken | Done | Seen

  /** A request: its other two descriptors, its buffer, what it asks for, how far it
      is, and, from Done on, the status the device reported (0 for success) and the
      contents it moved. */
  datatype Req = Req(d1: int, d2: int, b: int, op: Op, phase: Phase, status: int, moved: Bytes)
  type Reqs = map<int, Req>

  function Val(m: map<int, Bytes>, k: int): (v: Bytes) {
    if k in m then m[k] else []
  }

  // ---- the invariant ----

  /** The chain of the request with head h: three descriptors of its own, formatted
      for the device. */
  ghost predicate Chain(desc: seq<Desc>, ops: seq<Op>, info: seq<Info>, owner: seq<int>, h: int, r: Req) {
    && |desc| == NUM && |ops| == NUM && |info| == NUM && |owner| == NUM
    && 0 <= h < NUM && 0 <= r.d1 < NUM && 0 <= r.d2 < NUM && h != r.d1 && h != r.d2 && r.d1 != r.d2
    && owner[h] == h && owner[r.d1] == h && owner[r.d2] == h
    && desc[h] == Desc(Header(h), true, false, r.d1) && ops[h] == r.op
    && desc[r.d1] == Desc(Buffer(r.b), true, !r.op.out, r.d2)
    && desc[r.d2] == Desc(StatusOf(h), false, true, 0)
    && info[h] == Info(r.b, r.status) && (r.phase == Seen ==> r.status == 0)
  }

  ghost predicate Chains(desc: seq<Desc>, ops: seq<Op>, info: seq<Info>, owner: seq<int>, reqs: Reqs) {
    forall h :: h in reqs ==> Chain(desc, ops, info, owner, h, reqs[h])
  }

  /** Every descriptor is free or belongs to one chain. */
  ghost predicate Owners(free: seq<bool>, owner: seq<int>, reqs: Reqs) {
    && |free| == NUM && |owner| == NUM
    && forall i :: 0 <= i < NUM ==>
         if free[i] then owner[i] == -1
         else owner[i] in reqs && (i == owner[i] || i == reqs[owner[i]].d1 || i == reqs[owner[i]].d2)
  }

  /** The entries from position `from` on of a ring are `heads`, which are exactly
      the requests in that phase. */
  ghost predicate Ring(ring: seq<int>, from: nat, heads: seq<int>, reqs: Reqs, phase: Phase) {
    && |ring| == NUM && Distinct(heads) && |heads| <= NUM
    && (forall k :: 0 <= k < |heads| ==> ring[(from + k) % NUM] == heads[k])
    && (forall h :: h in reqs && reqs[h].phase == phase <==> h in heads)
  }

  /** Buffers: one request each, and busy until the driver has seen its completion;
      a completed read has filled its buffer. */
  ghost predicate Buffers(reqs: Reqs, busy: set<int>, bdata: map<int, Bytes>) {
    && (forall h :: h in reqs ==> (reqs[h].b in busy <==> reqs[h].phase != Seen) && reqs[h].b != -1)
    && (forall b :: b in busy ==> exists h :: h in reqs && reqs[h].b == b)
    && (forall g, h :: g in reqs && h in reqs && g != h ==> reqs[g].b != reqs[h].b)
    && (forall h :: h in reqs && (reqs[h].phase == Done || reqs[h].phase == Seen) ==>
          Val(bdata, reqs[h].b) == reqs[h].moved)
  }

  // ---- submitting ----

  function Cleared(free: seq<bool>, h: int, d1: int, d2: int): (r: seq<bool>)
    requires |free| == NUM && 0 <= h < NUM && 0 <= d1 < NUM && 0 <= d2 < NUM
  {
    free[h := false][d1 := false][d2 := false]
  }

  /** Three free descriptors, all different. */
  ghost predicate Three(free: seq<bool>, h: int, d1: int, d2: int) {
    && |free| == NUM && 0 <= h < NUM && 0 <= d1 < NUM && 0 <= d2 < NUM && h != d1 && h != d2 && d1 != d2
    && free[h] && free[d1] && free[d2]
  }

  lemma FreeHead(desc: seq<Desc>, ops: seq<Op>, info: seq<Info>, free: seq<bool>, owner: seq<int>, reqs: Reqs, i: int)
    requires Owners(free, owner, reqs) && Chains(desc, ops, info, owner, reqs) && 0 <= i < NUM && free[i]
    ensures forall h :: h in reqs ==> reqs[h].d1 != i && reqs[h].d2 != i && h != i
  {
    forall h | h in reqs ensures reqs[h].d1 != i && reqs[h].d2 != i && h != i {
      assert Chain(desc, ops, info, owner, h, reqs[h]);
    }
  }

  lemma SubmitOwners(free: seq<bool>, owner: seq<int>, reqs: Reqs, h: int, r: Req)
    requires Owners(free, owner, reqs) && h !in reqs && Three(free, h, r.d1, r.d2)
    ensures Owners(Cleared(free, h, r.d1, r.d2), owner[h := h][r.d1 := h][r.d2 := h], reqs[h := r])
  {
  }

  lemma SubmitChains(
    desc: seq<Desc>, ops: seq<Op>, info: seq<Info>, owner: seq<int>, reqs: Reqs,
    desc1: seq<Desc>, ops1: seq<Op>, info1: seq<Info>, h: int, r: Req)
    requires Chains(desc, ops, info, owner, reqs) && |desc| == NUM && |ops| == NUM && |info| == NUM && |owner| == NUM
    requires 0 <= h < NUM && 0 <= r.d1 < NUM && 0 <= r.d2 < NUM && h != r.d1 && h != r.d2 && r.d1 != r.d2
    requires forall g :: g in reqs ==> g != h && reqs[g].d1 != h && reqs[g].d2 != h
    requires forall g :: g in reqs ==> g != r.d1 && reqs[g].d1 != r.d1 && reqs[g].d2 != r.d1
    requires forall g :: g in reqs ==> g != r.d2 && reqs[g].d1 != r.d2 && reqs[g].d2 != r.d2
    requires r.phase == Queued && r.status == 0xff && ops1 == ops[h := r.op] && info1 == info[h := Info(r.b, 0xff)]
    requires desc1 == desc[h := Desc(Header(h), true, false, r.d1)][r.d1 := Desc(Buffer(r.b), true, !r.op.out, r.d2)]
                          [r.d2 := Desc(StatusOf(h), false, true, 0)]
    ensures Chains(desc1, ops1, info1, owner[h := h][r.d1 := h][r.d2 := h], reqs[h := r])
  {
    var owner1, reqs1 := owner[h := h][r.d1 := h][r.d2 := h], reqs[h := r];
    forall g | g in reqs1 ensures Chain(desc1, ops1, info1, owner1, g, reqs1[g]) {
      if g != h { assert Chain(desc, ops, info, owner, g, reqs[g]); }
    }
  }

  /** Different positions less than NUM apart are different slots. */
  lemma SlotsApart(from: nat, j: nat, k: nat)
    requires j < k < j + NUM
    ensures (from + j) % NUM != (from + k) % NUM
  {
  }

  /** A new head in the next slot overwrites no entry still to be read. */
  lemma RingPush(ring: seq<int>, from: nat, heads: seq<int>, reqs: Reqs, phase: Phase, h: int, r: Req)
    requires Ring(ring, from, heads, reqs, phase) && |heads| < NUM && r.phase == phase
    requires h in reqs ==> reqs[h].phase != phase
    ensures Ring(ring[(from + |heads|) % NUM := h], from, heads + [h], reqs[h := r], phase)
  {
    var ring1, heads1, reqs1 := ring[(from + |heads|) % NUM := h], heads + [h], reqs[h := r];
    forall k | 0 <= k < |heads1| ensures ring1[(from + k) % NUM] == heads1[k] {
      if k < |heads| { SlotsApart(from, k, |heads|); }
    }
    forall g ensures g in reqs1 && reqs1[g].phase == phase <==> g in heads1 {
      assert g in heads1 <==> g in heads || g == h;
    }
  }

  lemma RingPop(ring: seq<int>, from: nat, heads: seq<int>, reqs: Reqs, phase: Phase, r: Req)
    requires Ring(ring, from, heads, reqs, phase) && heads != [] && r.phase != phase
    ensures Ring(ring, from + 1, heads[1..], reqs[heads[0] := r], phase)
  {
    var heads1, reqs1 := heads[1..], reqs[heads[0] := r];
    forall k | 0 <= k < |heads1| ensures ring[(from + 1 + k) % NUM] == heads1[k] {
      assert ring[(from + (k + 1)) % NUM] == heads[k + 1];
    }
    forall g ensures g in reqs1 && reqs1[g].phase == phase <==> g in heads1 {
      assert g in heads <==> g == heads[0] || g in heads1;
    }
  }

  /** A request that is and stays outside a phase does not concern its ring. */
  lemma RingOther(ring: seq<int>, from: nat, heads: seq<int>, reqs: Reqs, phase: Phase, h: int, r: Req)
    requires Ring(ring, from, heads, reqs, phase) && r.phase != phase && (h in reqs ==> reqs[h].phase != phase)
    ensures Ring(ring, from, heads, reqs[h := r], phase)
  {
  }

  lemma RingWithout(ring: seq<int>, from: nat, heads: seq<int>, reqs: Reqs, phase: Phase, h: int)
    requires Ring(ring, from, heads, reqs, phase) && h in reqs && reqs[h].phase != phase
    ensures Ring(ring, from, heads, reqs - {h}, phase)
  {
  }

  /** Distinct heads that miss a descriptor are fewer than NUM. */
  lemma RoomLeft(heads: seq<int>, x: int)
    requires Distinct(heads) && 0 <= x < NUM && x !in heads
    requires forall k :: 0 <= k < |heads| ==> 0 <= heads[k] < NUM
    ensures |heads| < NUM
  {
    hide Below, Elems;
    DistinctSize(heads);
    ElemsBelow(heads, x);
    assert x in Below(NUM);
    SubsetSize(Elems(heads), Below(NUM) - {x});
    assert |Below(NUM) - {x}| == NUM - 1;
  }

  lemma ElemsBelow(heads: seq<int>, x: int)
    requires x !in heads && forall k :: 0 <= k < |heads| ==> 0 <= heads[k] < NUM
    ensures Elems(heads) <= Below(NUM) - {x}
  {
    hide Below;
  }

  ghost function Elems(s: seq<int>): (r: set<int>) {
    set i | i in s
  }

  ghost function Below(n: nat): (r: set<int>)
    ensures |r| == n && forall i :: 0 <= i < n <==> i in r
  {
    if n == 0 then {} else Below(n - 1) + {n - 1}
  }

  lemma {:induction false} DistinctSize(s: seq<int>)
    requires Distinct(s)
    ensures |Elems(s)| == |s|
  {
    if s != [] {
      var t := s[..|s| - 1];
      DistinctSize(t);
      assert Elems(s) == Elems(t) + {s[|s| - 1]};
    }
  }

  lemma SubsetSize(a: set<int>, b: set<int>)
    requires a <= b
    ensures |a| <= |b|
  {
    assert b == a + (b - a);
  }

  lemma SubmitBuffers(reqs: Reqs, busy: set<int>, bdata: map<int, Bytes>, h: int, r: Req)
    requires Buffers(reqs, busy, bdata) && h !in reqs && r.phase == Queued && r.b != -1
    requires forall g :: g in reqs ==> reqs[g].b != r.b
    ensures Buffers(reqs[h := r], busy + {r.b}, bdata)
  {
    var reqs1 := reqs[h := r];
    forall b | b in busy + {r.b} ensures exists g :: g in reqs1 && reqs1[g].b == b {
      if b == r.b {
        assert reqs1[h].b == b;
      } else {
        var g :| g in reqs && reqs[g].b == b;
        assert reqs1[g].b == b;
      }
    }
  }

  /** struct disk, the two rings, and the buffers with b->disk == 1. */
  datatype Driver = Driver(
    free: seq<bool>, desc: seq<Desc>, ops: seq<Op>, info: seq<Info>,
    avail: seq<int>, availIdx: int, takenIdx: int, used: seq<int>, usedIdx: int, seenIdx: int, busy: set<int>)

  /** The requests in flight: who owns each descriptor, the heads still to be read
      in either ring, and how many entries were ever read from it. */
  datatype Flight = Flight(
    owner: seq<int>, reqs: Reqs, queued: seq<int>, completed: seq<int>, nTaken: nat, nSeen: nat)

  /** The rings, whose 16-bit indices count modulo 2^16. */
  ghost predicate Rings(d: Driver, g: Flight) {
    && Ring(d.avail, g.nTaken, g.queued, g.reqs, Queued) && Ring(d.used, g.nSeen, g.completed, g.reqs, Done)
    && Is16(d.takenIdx, g.nTaken) && Is16(d.availIdx, g.nTaken + |g.queued|)
    && Is16(d.seenIdx, g.nSeen) && Is16(d.usedIdx, g.nSeen + |g.completed|)
  }

  predicate Sized(d: Driver) {
    && |d.free| == NUM && |d.desc| == NUM && |d.ops| == NUM && |d.info| == NUM && |d.avail| == NUM && |d.used| == NUM
  }

  ghost predicate Inv(d: Driver, g: Flight, bdata: map<int, Bytes>) {
    && Sized(d) && Rings(d, g) && Owners(d.free, g.owner, g.reqs)
    && Chains(d.desc, d.ops, d.info, g.owner, g.reqs) && Buffers(g.reqs, d.busy, bdata)
  }

  ghost predicate Idle(g: Flight, b: int) {
    b != -1 && forall h :: h in g.reqs ==> g.reqs[h].b != b
  }

  /** Requests in flight have their descriptors to themselves. */
  lemma DisjointChains(d: Driver, g: Flight, bdata: map<int, Bytes>, x: int, y: int)
    requires Inv(d, g, bdata) && x in g.reqs && y in g.reqs && x != y
    ensures {x, g.reqs[x].d1, g.reqs[x].d2} !! {y, g.reqs[y].d1, g.reqs[y].d2}
    ensures |{x, g.reqs[x].d1, g.reqs[x].d2}| == 3
    ensures !d.free[x] && !d.free[g.reqs[x].d1] && !d.free[g.reqs[x].d2] && g.reqs[x].b != g.reqs[y].b
  {
    assert Chain(d.desc, d.ops, d.info, g.owner, x, g.reqs[x]);
    assert Chain(d.desc, d.ops, d.info, g.owner, y, g.reqs[y]);
  }

  /** The driver has written and queued a request; the flight gains it. */
  function Submitted(d: Driver, h: int, d1: int, d2: int, b: int, op: Op): (r: Driver)
    requires Sized(d) && 0 <= h < NUM && 0 <= d1 < NUM && 0 <= d2 < NUM
  {
    d.(desc := Formatted(d.desc, h, d1, d2, b, op.out),
       ops := d.ops[h := op], info := d.info[h := Info(b, 0xff)], avail := d.avail[d.availIdx % NUM := h],
       availIdx := (d.availIdx + 1) % WRAP, busy := d.busy + {b})
  }

  ghost function Flying(g: Flight, h: int, d1: int, d2: int, b: int, op: Op): (r: Flight)
    requires |g.owner| == NUM && 0 <= h < NUM && 0 <= d1 < NUM && 0 <= d2 < NUM
  {
    g.(owner := g.owner[h := h][d1 := h][d2 := h], reqs := g.reqs[h := Req(d1, d2, b, op, Queued, 0xff, [])],
       queued := g.queued + [h])
  }

  lemma SubmittedInv(
    d: Driver, g: Flight, bdata: map<int, Bytes>, h: int, d1: int, d2: int, b: int, op: Op, d0: Driver)
    requires Inv(d, g, bdata) && Idle(g, b) && Three(d.free, h, d1, d2) && d0 == d.(free := Cleared(d.free, h, d1, d2))
    ensures |g.owner| == NUM && h !in g.reqs
    ensures Inv(Submitted(d0, h, d1, d2, b, op), Flying(g, h, d1, d2, b, op), bdata)
  {
    hide Chains, Chain, Ring, Buffers, Owners, Is16;
    var r := Req(d1, d2, b, op, Queued, 0xff, []);
    SubmitAll(d.desc, d.ops, d.info, d.free, g.owner, g.reqs, d.busy, bdata, h, r);
    SubmitRings(d.desc, d.ops, d.info, g.owner, d.avail, g.nTaken, g.queued, d.used, g.nSeen, g.completed, g.reqs, h, r);
    Next16(d.availIdx, g.nTaken + |g.queued|);
  }

  lemma AllocFailed(d: Driver, d1: Driver, g: Flight, bdata: map<int, Bytes>)
    requires Inv(d, g, bdata) && d1 == d.(desc := d1.desc) && |d1.desc| == NUM
    requires forall i :: 0 <= i < NUM && !d.free[i] ==> d1.desc[i] == d.desc[i]
    ensures Inv(d1, g, bdata)
  {
    ChainsKept(d.desc, d1.desc, d.ops, d.info, g.owner, g.reqs, d.free);
  }

  class Disk {
    var d: Driver
    var bdata: map<int, Bytes>
    var store: map<int, Bytes>
    ghost var g: Flight

    ghost predicate Valid()
      reads this
    {
      Inv(d, g, bdata)
    }

    /** virtio_disk_init: nothing in flight. */
    constructor (store: map<int, Bytes>)
      ensures Valid() && g.reqs == map[] && this.store == store
    {
      d := Driver(seq(NUM, _ => true), seq(NUM, _ => EMPTY), seq(NUM, _ => Op(false, 0)), seq(NUM, _ => Info(-1, 0)),
                  seq(NUM, _ => 0), 0, 0, seq(NUM, _ => 0), 0, 0, {});
      bdata, this.store := map[], store;
      g := Flight(seq(NUM, _ => -1), map[], [], [], 0, 0);
    }

    /** alloc_desc: the first free descriptor, or -1. */
    method AllocDesc() returns (r: int)
      requires Sized(d)
      modifies this`d
      ensures r == -1 ==> d == old(d) && forall i :: 0 <= i < NUM ==> !d.free[i]
      ensures r != -1 ==> 0 <= r < NUM && old(d).free[r] && d == old(d).(free := old(d).free[r := false])
    {
      for i := 0 to NUM
        invariant d == old(d) && forall k :: 0 <= k < i ==> !d.free[k]
      {
        if d.free[i] {
          d := d.(free := d.free[i := false]);
          return i;
        }
      }
      return -1;
    }

    /** free_desc; its panics are the precondition. */
    method FreeDesc(i: int)
      requires Sized(d) && 0 <= i < NUM && !d.free[i]
      modifies this`d
      ensures d == old(d).(free := old(d).free[i := true], desc := old(d).desc[i := EMPTY])
    {
      d := d.(desc := d.desc[i := EMPTY]);
      d := d.(free := d.free[i := true]);
    }

    /** alloc3_desc: three descriptors, or none and the free set as it was. */
    method Alloc3() returns (idx: seq<int>)
      requires Sized(d)
      modifies this`d
      ensures Sized(d)
      ensures idx == [] ==>
        && d == old(d).(desc := d.desc) && (forall i :: 0 <= i < NUM && !d.free[i] ==> d.desc[i] == old(d).desc[i])
        && forall a, b, c :: !Three(d.free, a, b, c)
      ensures idx != [] ==> |idx| == 3 && Three(old(d).free, idx[0], idx[1], idx[2])
      ensures idx != [] ==> d == old(d).(free := Cleared(old(d).free, idx[0], idx[1], idx[2]))
    {
      idx := [];
      while |idx| < 3
        invariant |idx| <= 3 && Distinct(idx) && Sized(d) && d == old(d).(free := d.free)
        invariant forall i :: i in idx ==> 0 <= i < NUM && old(d).free[i]
        invariant forall i :: 0 <= i < NUM ==> d.free[i] == (old(d).free[i] && i !in idx)
        decreases 3 - |idx|
      {
        var x := AllocDesc();
        if x == -1 {
          GiveBack(idx);
          assert d.free == old(d).free;
          NoThree(d.free, idx);
          return [];
        }
        idx := idx + [x];
      }
      assert idx[0] in idx && idx[1] in idx && idx[2] in idx;
      assert d.free == Cleared(old(d).free, idx[0], idx[1], idx[2]);
    }

    /** The loop that undoes a failed alloc3_desc. */
    method GiveBack(idx: seq<int>)
      requires Sized(d) && Distinct(idx) && forall i :: i in idx ==> 0 <= i < NUM && !d.free[i]
      modifies this`d
      ensures Sized(d) && d == old(d).(free := d.free, desc := d.desc)
      ensures forall i :: 0 <= i < NUM ==> d.free[i] == (old(d).free[i] || i in idx)
      ensures forall i :: 0 <= i < NUM && i !in idx ==> d.desc[i] == old(d).desc[i]
    {
      for j := 0 to |idx|
        invariant Sized(d) && d == old(d).(free := d.free, desc := d.desc)
        invariant forall i :: 0 <= i < NUM ==> d.free[i] == (old(d).free[i] || i in idx[..j])
        invariant forall i :: 0 <= i < NUM && i !in idx ==> d.desc[i] == old(d).desc[i]
      {
        assert idx[j] in idx && idx[j] !in idx[..j];
        FreeDesc(idx[j]);
        assert idx[..j + 1] == idx[..j] + [idx[j]];
      }
      assert idx[..|idx|] == idx;
    }

    /** Writing the three descriptors, the header, info and the ring entry. */
    method Format(h: int, d1: int, d2: int, b: int, write: bool, block: int)
      requires Sized(d) && 0 <= h < NUM && 0 <= d1 < NUM && 0 <= d2 < NUM && h != d1 && h != d2 && d1 != d2
      modifies this`d
      ensures d == Submitted(old(d), h, d1, d2, b, Op(write, block))
    {
      d := d.(ops := d.ops[h := Op(write, block)]);
      d := d.(desc := d.desc[h := Desc(Header(h), true, false, d1)]);
      d := d.(desc := d.desc[d1 := Desc(Buffer(b), true, !write, d2)]);
      d := d.(info := d.info[h := Info(d.info[h].b, 0xff)]);
      d := d.(desc := d.desc[d2 := Desc(StatusOf(h), false, true, 0)]);
      d := d.(busy := d.busy + {b});
      d := d.(info := d.info[h := Info(b, d.info[h].status)]);
      d := d.(avail := d.avail[d.availIdx % NUM := h]);
      d := d.(availIdx := (d.availIdx + 1) % WRAP);
    }

    /** virtio_disk_rw up to the notification: -1 when it has to sleep for lack of
        descriptors, and then no request has changed.  Otherwise the request is
        queued behind those the device has not read, none of which is overwritten. */
    method Submit(b: int, write: bool, block: int) returns (h: int)
      requires Valid() && Idle(g, b)
      modifies this`d, this`g
      ensures Valid()
      ensures h == -1 ==> g == old(g) && d == old(d).(desc := d.desc) && forall x, y, z :: !Three(d.free, x, y, z)
      ensures h != -1 ==> h !in old(g).reqs && h in g.reqs && g.queued == old(g).queued + [h]
      ensures h != -1 ==> g.reqs == old(g).reqs[h := Req(g.reqs[h].d1, g.reqs[h].d2, b, Op(write, block), Queued, 0xff, [])]
      ensures h != -1 ==> d.busy == old(d).busy + {b}
    {
      hide Inv, Formatted, Cleared, Idle;
      InvSized(d, g, bdata);
      ghost var d0 := d;
      var idx := Alloc3();
      if idx == [] {
        AllocFailed(d0, d, g, bdata);
        return -1;
      }
      h := idx[0];
      SubmittedInv(d0, g, bdata, h, idx[1], idx[2], b, Op(write, block), d);
      Format(h, idx[1], idx[2], b, write, block);
      g := Flying(g, h, idx[1], idx[2], b, Op(write, block));
    }

    /** The device reads the next entry of the avail ring, -1 if there is none: the
        request submitted longest ago among those it has not read. */
    method Take() returns (h: int)
      requires Valid()
      modifies this`d, this`g
      ensures Valid()
      ensures old(g).queued == [] ==> h == -1 && d == old(d) && g == old(g)
      ensures old(g).queued != [] ==>
        && h == old(g).queued[0] && h in old(g).reqs && g.queued == old(g).queued[1..]
        && g.reqs == old(g).reqs[h := old(g).reqs[h].(phase := Taken)] && g.completed == old(g).completed
    {
      hide Inv;
      InvSized(d, g, bdata);
      TakenInv(d, g, bdata);
      if d.takenIdx == d.availIdx { return -1; }
      h := d.avail[d.takenIdx % NUM];
      d := d.(takenIdx := (d.takenIdx + 1) % WRAP);
      g := TakenOff(g);
    }

    /** The device serves a request it has read, in whatever order: following the
        chain from its head it finds that request's header, buffer and status byte,
        moves the block and reports the head in the used ring.  With a status other
        than 0 it has failed, and what it leaves behind, `junk`, is anything. */
    method Complete(h: int, status: int, junk: Bytes)
      requires Valid() && h in g.reqs && g.reqs[h].phase == Taken
      modifies this`d, this`g, this`bdata, this`store
      ensures Valid() && g.completed == old(g).completed + [h] && g.queued == old(g).queued
      ensures var r := old(g).reqs[h];
        && g.reqs == old(g).reqs[h := r.(phase := Done, status := status, moved := Val(bdata, r.b))]
        && (if r.op.out then
              bdata == old(bdata) && store == old(store)[r.op.block := if status == 0 then Val(bdata, r.b) else junk]
            else
              store == old(store) && bdata == old(bdata)[r.b := if status == 0 then Val(store, r.op.block) else junk])
    {
      hide Inv, Chains;
      InvSized(d, g, bdata);
      ghost var r := g.reqs[h];
      ChainNow(d, g, bdata, h);
      var head := d.desc[h];
      var op := d.ops[head.addr.i];
      var data := d.desc[head.next];
      var last := d.desc[data.next];
      ghost var bdata0 := bdata;
      if op.out {
        store := store[op.block := if status == 0 then Val(bdata, data.addr.b) else junk];
      } else {
        bdata := bdata[data.addr.b := if status == 0 then Val(store, op.block) else junk];
      }
      ghost var d0 := d;
      d := d.(info := d.info[last.addr.i := Info(d.info[last.addr.i].b, status)]);
      d := d.(used := d.used[d.usedIdx % NUM := h]);
      d := d.(usedIdx := (d.usedIdx + 1) % WRAP);
      DoneInv(d0, g, bdata0, h, bdata, d, status);
      g := Landed(g, h, status, Val(bdata, r.b));
    }

    /** One round of virtio_disk_intr: it panics exactly if the request reported has
        failed; otherwise the buffer released is that of the request. */
    method SeeOne() returns (panicked: bool)
      requires Valid() && g.completed != []
      modifies this`d, this`g
      ensures Valid() && old(g).completed[0] in old(g).reqs
      ensures panicked <==> old(g).reqs[old(g).completed[0]].status != 0
      ensures panicked ==> d == old(d) && g == old(g)
      ensures !panicked ==> g == SeenOff(old(g)) && d.busy == old(d).busy - {old(g).reqs[old(g).completed[0]].b}
      ensures old(g).reqs[old(g).completed[0]].phase == Done
    {
      hide Inv;
      InvSized(d, g, bdata);
      SeenInv(d, g, bdata);
      var id := d.used[d.seenIdx % NUM];
      if d.info[id].status != 0 { return true; }
      var b := d.info[id].b;
      d := d.(busy := d.busy - {b});
      d := d.(seenIdx := (d.seenIdx + 1) % WRAP);
      g := SeenOff(g);
      return false;
    }

    /** virtio_disk_intr panics exactly if some request the device has completed has
        failed.  The completed requests in front of the first such one, and no others,
        are seen, and exactly their buffers are no longer busy. */
    method Intr() returns (panicked: bool)
      requires Valid()
      modifies this`d, this`g
      ensures Valid() && g.queued == old(g).queued && g.reqs.Keys == old(g).reqs.Keys
      ensures panicked <==> exists h :: h in old(g).reqs && old(g).reqs[h].phase == Done && old(g).reqs[h].status != 0
      ensures g.completed == FromFailed(old(g).reqs, old(g).completed) && (panicked <==> g.completed != [])
      ensures forall h :: h in g.reqs ==>
        g.reqs[h] == if old(g).reqs[h].phase == Done && h !in g.completed then old(g).reqs[h].(phase := Seen)
                     else old(g).reqs[h]
      ensures d.busy <= old(d).busy
      ensures forall h :: h in g.reqs ==> (g.reqs[h].b in d.busy <==> g.reqs[h].phase != Seen)
    {
      hide Inv;
      CompletedNow(d, g, bdata);
      panicked := false;
      ghost var g0, d0, left := g, d, FromFailed(g.reqs, g.completed);
      while d.seenIdx != d.usedIdx
        invariant Valid() && (d.seenIdx == d.usedIdx <==> g.completed == []) && g.queued == g0.queued
        invariant SeenSome(g0.reqs, g.reqs) && d.busy <= d0.busy && FromFailed(g.reqs, g.completed) == left && !panicked
        decreases |g.completed|
      {
        ghost var g1 := g;
        panicked := SeeOne();
        if panicked { break; }
        FromFailedStep(g1);
        CompletedNow(d, g, bdata);
      }
      SeenExactly(d, g, bdata, g0.reqs);
    }

    /** free_chain: follows the chain of a request to its end, finds each of its three
        descriptors in use, and frees exactly them. */
    method FreeChain(h: int, ghost r: Req)
      requires Sized(d) && Linked(d.desc, h, r.d1, r.d2) && !d.free[h] && !d.free[r.d1] && !d.free[r.d2]
      modifies this`d
      ensures d == Freed(old(d), h, r.d1, r.d2)
    {
      var i := h;
      ghost var k := 0;
      while true
        invariant 0 <= k <= 2 && i == (if k == 0 then h else if k == 1 then r.d1 else r.d2)
        invariant d == if k == 0 then old(d) else if k == 1 then FreedOne(old(d), h)
                       else FreedOne(FreedOne(old(d), h), r.d1)
        decreases 2 - k
      {
        var flag, nxt := d.desc[i].chained, d.desc[i].next;
        FreeDesc(i);
        if flag { i, k := nxt, k + 1; } else { break; }
      }
    }

    /** The end of virtio_disk_rw, once b->disk is 0: the buffer holds what the
        request moved, and its descriptors are free again. */
    method Finish(h: int)
      requires Valid() && h in g.reqs && g.reqs[h].b !in d.busy
      modifies this`d, this`g
      ensures Valid() && g.reqs == old(g).reqs - {h} && g.queued == old(g).queued && g.completed == old(g).completed
      ensures var r := old(g).reqs[h];
        Val(bdata, r.b) == r.moved && r.phase == Seen && r.status == 0 && d.busy == old(d).busy
      ensures forall i :: 0 <= i < NUM && i < |d.free| && i < |old(d).free| ==>
        d.free[i] == (old(d).free[i] || i == h || i == old(g).reqs[h].d1 || i == old(g).reqs[h].d2)
    {
      hide Inv;
      InvSized(d, g, bdata);
      ghost var d0, r := d, g.reqs[h];
      FinishedInv(d, g, bdata, h);
      d := d.(info := d.info[h := Info(-1, d.info[h].status)]);
      FreeChain(h, r);
      g := Finished(g, h);
    }
  }

  /** The oldest completed request has been seen. */
  ghost function SeenOff(g: Flight): (r: Flight)
    requires g.completed != [] && g.completed[0] in g.reqs
  {
    var h := g.completed[0];
    g.(reqs := g.reqs[h := g.reqs[h].(phase := Seen)], completed := g.completed[1..], nSeen := g.nSeen + 1)
  }

  lemma SeenInv(d: Driver, g: Flight, bdata: map<int, Bytes>)
    requires Inv(d, g, bdata) && g.completed != []
    ensures g.completed[0] in g.reqs && d.used[d.seenIdx % NUM] == g.completed[0] && 0 <= g.completed[0] < NUM
    ensures var h := g.completed[0]; d.info[h] == Info(g.reqs[h].b, g.reqs[h].status) && g.reqs[h].phase == Done
    ensures var h := g.completed[0]; g.reqs[h].status == 0 ==>
      Inv(d.(busy := d.busy - {g.reqs[h].b}, seenIdx := (d.seenIdx + 1) % WRAP), SeenOff(g), bdata)
  {
    hide Ring, Owners, Is16;
    RingHead(d.used, g.nSeen, g.completed, g.reqs, Done);
    var h := g.completed[0];
    assert Chain(d.desc, d.ops, d.info, g.owner, h, g.reqs[h]);
    var r := g.reqs[h].(phase := Seen);
    Next16(d.seenIdx, g.nSeen);
    RingPop(d.used, g.nSeen, g.completed, g.reqs, Done, r);
    RingOther(d.avail, g.nTaken, g.queued, g.reqs, Queued, h, r);
    if r.status == 0 { PhaseChains(d.desc, d.ops, d.info, d.free, g.owner, g.reqs, h, r); }
    SeenBuffers(g.reqs, d.busy, bdata, h);
  }

  lemma SeenBuffers(reqs: Reqs, busy: set<int>, bdata: map<int, Bytes>, h: int)
    requires Buffers(reqs, busy, bdata) && h in reqs && reqs[h].phase == Done
    ensures Buffers(reqs[h := reqs[h].(phase := Seen)], busy - {reqs[h].b}, bdata)
  {
    var reqs1 := reqs[h := reqs[h].(phase := Seen)];
    forall b | b in busy - {reqs[h].b} ensures exists x :: x in reqs1 && reqs1[x].b == b {
      var x :| x in reqs && reqs[x].b == b;
      assert reqs1[x].b == b;
    }
  }

  lemma CompletedNow(d: Driver, g: Flight, bdata: map<int, Bytes>)
    requires Inv(d, g, bdata)
    ensures d.seenIdx == d.usedIdx <==> g.completed == []
  {
    hide Chains, Owners, Is16, Buffers;
    Same16(d.seenIdx, g.nSeen, d.usedIdx, |g.completed|);
  }

  /** The completed requests from the first that has failed on. */
  function FromFailed(reqs: Reqs, completed: seq<int>): (r: seq<int>) {
    if completed == [] || (completed[0] in reqs && reqs[completed[0]].status != 0) then completed
    else FromFailed(reqs, completed[1..])
  }

  lemma {:induction false} FromFailedSame(reqs: Reqs, reqs1: Reqs, completed: seq<int>)
    requires reqs1.Keys == reqs.Keys && forall h :: h in reqs ==> reqs1[h].status == reqs[h].status
    ensures FromFailed(reqs1, completed) == FromFailed(reqs, completed)
  {
    if completed != [] { FromFailedSame(reqs, reqs1, completed[1..]); }
  }

  lemma FromFailedStep(g: Flight)
    requires g.completed != [] && g.completed[0] in g.reqs && g.reqs[g.completed[0]].status == 0
    ensures FromFailed(SeenOff(g).reqs, SeenOff(g).completed) == FromFailed(g.reqs, g.completed)
  {
    FromFailedSame(g.reqs, SeenOff(g).reqs, g.completed[1..]);
  }

  /** What an interrupt leaves, given that it only ever turned done requests into seen
      ones: those still in the ring are done, and all that were seen succeeded. */
  lemma SeenExactly(d: Driver, g: Flight, bdata: map<int, Bytes>, reqs0: Reqs)
    requires Inv(d, g, bdata) && SeenSome(reqs0, g.reqs)
    requires g.completed != [] ==> g.completed[0] in g.reqs && g.reqs[g.completed[0]].status != 0
    ensures forall h :: h in g.reqs ==>
      g.reqs[h] == if reqs0[h].phase == Done && h !in g.completed then reqs0[h].(phase := Seen) else reqs0[h]
    ensures forall h :: h in g.reqs ==> (g.reqs[h].b in d.busy <==> g.reqs[h].phase != Seen)
    ensures g.completed != [] <==> exists h :: h in reqs0 && reqs0[h].phase == Done && reqs0[h].status != 0
  {
    hide Owners, Is16, Distinct;
    if g.completed != [] {
      assert g.completed[0] in g.completed;
      assert reqs0[g.completed[0]].phase == Done && reqs0[g.completed[0]].status != 0;
    }
    forall h | h in reqs0 && reqs0[h].phase == Done && reqs0[h].status != 0 ensures g.completed != [] {
      assert Chain(d.desc, d.ops, d.info, g.owner, h, g.reqs[h]);
    }
  }

  /** Some of the requests that were done have been seen since. */
  ghost predicate SeenSome(reqs: Reqs, reqs1: Reqs) {
    reqs1.Keys == reqs.Keys && forall h :: h in reqs ==>
      reqs1[h] == reqs[h] || (reqs[h].phase == Done && reqs1[h] == reqs[h].(phase := Seen))
  }

  /** desc[h] leads to d1 and that to d2, where the chain ends. */
  ghost predicate Linked(desc: seq<Desc>, h: int, d1: int, d2: int) {
    && |desc| == NUM && 0 <= h < NUM && 0 <= d1 < NUM && 0 <= d2 < NUM && h != d1 && h != d2 && d1 != d2
    && desc[h].chained && desc[h].next == d1 && desc[d1].chained && desc[d1].next == d2 && !desc[d2].chained
  }

  function FreedOne(d: Driver, i: int): (r: Driver)
    requires Sized(d) && 0 <= i < NUM
    ensures Sized(r)
  {
    d.(free := d.free[i := true], desc := d.desc[i := EMPTY])
  }

  function Freed(d: Driver, h: int, d1: int, d2: int): (r: Driver)
    requires Sized(d) && 0 <= h < NUM && 0 <= d1 < NUM && 0 <= d2 < NUM
    ensures Sized(r)
  {
    FreedOne(FreedOne(FreedOne(d, h), d1), d2)
  }

  ghost function Finished(g: Flight, h: int): (r: Flight)
    requires h in g.reqs && |g.owner| == NUM && 0 <= h < NUM && 0 <= g.reqs[h].d1 < NUM && 0 <= g.reqs[h].d2 < NUM
  {
    g.(reqs := g.reqs - {h}, owner := g.owner[h := -1][g.reqs[h].d1 := -1][g.reqs[h].d2 := -1])
  }

  lemma FinishedInv(d: Driver, g: Flight, bdata: map<int, Bytes>, h: int)
    requires Inv(d, g, bdata) && h in g.reqs && g.reqs[h].b !in d.busy
    ensures |g.owner| == NUM && Linked(d.desc, h, g.reqs[h].d1, g.reqs[h].d2)
    ensures !d.free[h] && !d.free[g.reqs[h].d1] && !d.free[g.reqs[h].d2]
    ensures g.reqs[h].phase == Seen && g.reqs[h].status == 0 && Val(bdata, g.reqs[h].b) == g.reqs[h].moved
    ensures var r := g.reqs[h];
      Inv(Freed(d.(info := d.info[h := Info(-1, d.info[h].status)]), h, r.d1, r.d2), Finished(g, h), bdata)
  {
    assert Chain(d.desc, d.ops, d.info, g.owner, h, g.reqs[h]);
    var r := g.reqs[h];
    FinishedOwners(d.free, g.owner, g.reqs, d.desc, d.ops, d.info, h);
    hide Ring, Owners, Is16;
    RingWithout(d.used, g.nSeen, g.completed, g.reqs, Done, h);
    RingWithout(d.avail, g.nTaken, g.queued, g.reqs, Queued, h);
    FinishedBuffers(g.reqs, d.busy, bdata, h);
    hide Chains;
    FinishedChains(d.desc, d.ops, d.info, g.owner, g.reqs, h, d.info[h].status);
  }

  lemma FinishedOwners(
    free: seq<bool>, owner: seq<int>, reqs: Reqs, desc: seq<Desc>, ops: seq<Op>, info: seq<Info>, h: int)
    requires Owners(free, owner, reqs) && h in reqs && Chain(desc, ops, info, owner, h, reqs[h])
    ensures !free[h] && !free[reqs[h].d1] && !free[reqs[h].d2]
    ensures Owners(free[h := true][reqs[h].d1 := true][reqs[h].d2 := true],
                   owner[h := -1][reqs[h].d1 := -1][reqs[h].d2 := -1], reqs - {h})
  {
    assert h != -1;
  }

  lemma FinishedBuffers(reqs: Reqs, busy: set<int>, bdata: map<int, Bytes>, h: int)
    requires Buffers(reqs, busy, bdata) && h in reqs && reqs[h].b !in busy
    ensures Buffers(reqs - {h}, busy, bdata)
  {
    var reqs1 := reqs - {h};
    forall b | b in busy ensures exists x :: x in reqs1 && reqs1[x].b == b {
      var x :| x in reqs && reqs[x].b == b;
      assert x in reqs1 && reqs1[x].b == b;
    }
  }

  lemma FinishedChains(
    desc: seq<Desc>, ops: seq<Op>, info: seq<Info>, owner: seq<int>, reqs: Reqs, h: int, status: int)
    requires Chains(desc, ops, info, owner, reqs) && h in reqs && Chain(desc, ops, info, owner, h, reqs[h])
    ensures var r := reqs[h];
      Chains(desc[h := EMPTY][r.d1 := EMPTY][r.d2 := EMPTY], ops, info[h := Info(-1, status)],
             owner[h := -1][r.d1 := -1][r.d2 := -1], reqs - {h})
  {
    var r := reqs[h];
    var desc1, info1 := desc[h := EMPTY][r.d1 := EMPTY][r.d2 := EMPTY], info[h := Info(-1, status)];
    var owner1, reqs1 := owner[h := -1][r.d1 := -1][r.d2 := -1], reqs - {h};
    forall x | x in reqs1 ensures Chain(desc1, ops, info1, owner1, x, reqs1[x]) {
      assert Chain(desc, ops, info, owner, x, reqs[x]);
    }
  }

  /** The oldest queued request is with the device. */
  ghost function TakenOff(g: Flight): (r: Flight)
    requires g.queued != [] && g.queued[0] in g.reqs
  {
    var h := g.queued[0];
    g.(reqs := g.reqs[h := g.reqs[h].(phase := Taken)], queued := g.queued[1..], nTaken := g.nTaken + 1)
  }

  lemma Same16(x: int, n: nat, y: int, k: nat)
    requires Is16(x, n) && Is16(y, n + k) && k <= NUM
    ensures x == y <==> k == 0
  {
  }

  lemma RingHead(ring: seq<int>, from: nat, heads: seq<int>, reqs: Reqs, phase: Phase)
    requires Ring(ring, from, heads, reqs, phase)
    ensures |heads| <= NUM
    ensures heads != [] ==> heads[0] in reqs && reqs[heads[0]].phase == phase && ring[from % NUM] == heads[0]
  {
    if heads != [] {
      assert heads[0] in heads;
      assert ring[(from + 0) % NUM] == heads[0];
    }
  }

  /** A request changes phase: chains and owners stay. */
  lemma PhaseChains(
    desc: seq<Desc>, ops: seq<Op>, info: seq<Info>, free: seq<bool>, owner: seq<int>, reqs: Reqs, h: int, r: Req)
    requires Chains(desc, ops, info, owner, reqs) && Owners(free, owner, reqs) && h in reqs
    requires r == reqs[h].(phase := r.phase, moved := r.moved) && (r.phase == Seen ==> r.status == 0)
    ensures Chains(desc, ops, info, owner, reqs[h := r]) && Owners(free, owner, reqs[h := r])
  {
    var reqs1 := reqs[h := r];
    forall g | g in reqs1 ensures Chain(desc, ops, info, owner, g, reqs1[g]) {
      assert Chain(desc, ops, info, owner, g, reqs[g]);
    }
  }

  lemma TakenInv(d: Driver, g: Flight, bdata: map<int, Bytes>)
    requires Inv(d, g, bdata)
    ensures d.takenIdx == d.availIdx <==> g.queued == []
    ensures g.queued != [] ==> g.queued[0] in g.reqs && d.avail[d.takenIdx % NUM] == g.queued[0]
    ensures g.queued != [] ==> Inv(d.(takenIdx := (d.takenIdx + 1) % WRAP), TakenOff(g), bdata)
  {
    hide Chains, Chain, Ring, Owners, Is16;
    RingHead(d.avail, g.nTaken, g.queued, g.reqs, Queued);
    Same16(d.takenIdx, g.nTaken, d.availIdx, |g.queued|);
    if g.queued != [] {
      var h := g.queued[0];
      var r := g.reqs[h].(phase := Taken);
      Next16(d.takenIdx, g.nTaken);
      RingPop(d.avail, g.nTaken, g.queued, g.reqs, Queued, r);
      RingOther(d.used, g.nSeen, g.completed, g.reqs, Done, h, r);
      PhaseChains(d.desc, d.ops, d.info, d.free, g.owner, g.reqs, h, r);
      TakenBuffers(g.reqs, d.busy, bdata, h);
    }
  }

  lemma TakenBuffers(reqs: Reqs, busy: set<int>, bdata: map<int, Bytes>, h: int)
    requires Buffers(reqs, busy, bdata) && h in reqs && reqs[h].phase == Queued
    ensures Buffers(reqs[h := reqs[h].(phase := Taken)], busy, bdata)
  {
    var reqs1 := reqs[h := reqs[h].(phase := Taken)];
    forall b | b in busy ensures exists x :: x in reqs1 && reqs1[x].b == b {
      var x :| x in reqs && reqs[x].b == b;
      assert reqs1[x].b == b;
    }
  }

  lemma ChainNow(d: Driver, g: Flight, bdata: map<int, Bytes>, h: int)
    requires Inv(d, g, bdata) && h in g.reqs
    ensures Chain(d.desc, d.ops, d.info, g.owner, h, g.reqs[h])
  {
  }

  /** The request with head h is done. */
  ghost function Landed(g: Flight, h: int, status: int, moved: Bytes): (r: Flight)
    requires h in g.reqs
  {
    g.(reqs := g.reqs[h := g.reqs[h].(phase := Done, status := status, moved := moved)], completed := g.completed + [h])
  }

  lemma DoneInv(d: Driver, g: Flight, bdata: map<int, Bytes>, h: int, bdata1: map<int, Bytes>, d1: Driver, status: int)
    requires Inv(d, g, bdata) && h in g.reqs && g.reqs[h].phase == Taken && 0 <= h < NUM
    requires bdata1 == bdata || bdata1 == bdata[g.reqs[h].b := Val(bdata1, g.reqs[h].b)]
    requires d1 == d.(info := d.info[h := Info(d.info[h].b, status)], used := d.used[d.usedIdx % NUM := h],
                      usedIdx := (d.usedIdx + 1) % WRAP)
    ensures Inv(d1, Landed(g, h, status, Val(bdata1, g.reqs[h].b)), bdata1)
  {
    hide Chains, Chain, Ring, Owners, Is16, Buffers;
    var r := g.reqs[h].(phase := Done, status := status, moved := Val(bdata1, g.reqs[h].b));
    StatusChains(d.desc, d.ops, d.info, d.free, g.owner, g.reqs, h, r);
    DoneRoom(d, g, bdata, h);
    RingPush(d.used, g.nSeen, g.completed, g.reqs, Done, h, r);
    RingOther(d.avail, g.nTaken, g.queued, g.reqs, Queued, h, r);
    Next16(d.usedIdx, g.nSeen + |g.completed|);
    DoneBuffers(g.reqs, d.busy, bdata, h, bdata1, r);
  }

  /** Writing the status byte of a request leaves every chain intact. */
  lemma StatusChains(
    desc: seq<Desc>, ops: seq<Op>, info: seq<Info>, free: seq<bool>, owner: seq<int>, reqs: Reqs, h: int, r: Req)
    requires Chains(desc, ops, info, owner, reqs) && Owners(free, owner, reqs) && h in reqs && 0 <= h < |info|
    requires r == reqs[h].(phase := Done, status := r.status, moved := r.moved)
    ensures Chains(desc, ops, info[h := Info(info[h].b, r.status)], owner, reqs[h := r])
    ensures Owners(free, owner, reqs[h := r])
  {
    var info1, reqs1 := info[h := Info(info[h].b, r.status)], reqs[h := r];
    forall x | x in reqs1 ensures Chain(desc, ops, info1, owner, x, reqs1[x]) {
      assert Chain(desc, ops, info, owner, x, reqs[x]);
    }
  }

  lemma DoneRoom(d: Driver, g: Flight, bdata: map<int, Bytes>, h: int)
    requires Inv(d, g, bdata) && h in g.reqs && g.reqs[h].phase == Taken && 0 <= h < NUM
    ensures |g.completed| < NUM
  {
    forall k | 0 <= k < |g.completed| ensures 0 <= g.completed[k] < NUM {
      assert g.completed[k] in g.completed;
      assert Chain(d.desc, d.ops, d.info, g.owner, g.completed[k], g.reqs[g.completed[k]]);
    }
    assert h !in g.completed;
    hide Chains, Chain, Rings, Owners, Buffers;
    RoomLeft(g.completed, h);
  }

  lemma DoneBuffers(reqs: Reqs, busy: set<int>, bdata: map<int, Bytes>, h: int, bdata1: map<int, Bytes>, r: Req)
    requires Buffers(reqs, busy, bdata) && h in reqs && reqs[h].phase == Taken
    requires bdata1 == bdata || bdata1 == bdata[reqs[h].b := Val(bdata1, reqs[h].b)]
    requires r == reqs[h].(phase := Done, status := r.status, moved := Val(bdata1, reqs[h].b))
    ensures Buffers(reqs[h := r], busy, bdata1)
  {
    var reqs1 := reqs[h := r];
    forall b | b in busy ensures exists x :: x in reqs1 && reqs1[x].b == b {
      var x :| x in reqs && reqs[x].b == b;
      assert reqs1[x].b == b;
    }
    forall x | x in reqs1 && (reqs1[x].phase == Done || reqs1[x].phase == Seen)
      ensures Val(bdata1, reqs1[x].b) == reqs1[x].moved
    {
      if x != h { assert reqs[x].b != reqs[h].b; }
    }
  }

  lemma InvSized(d: Driver, g: Flight, bdata: map<int, Bytes>)
    requires Inv(d, g, bdata)
    ensures Sized(d)
  {
  }

  function Formatted(desc: seq<Desc>, h: int, d1: int, d2: int, b: int, write: bool): (r: seq<Desc>)
    requires |desc| == NUM && 0 <= h < NUM && 0 <= d1 < NUM && 0 <= d2 < NUM
    ensures |r| == NUM
  {
    desc[h := Desc(Header(h), true, false, d1)][d1 := Desc(Buffer(b), true, !write, d2)]
        [d2 := Desc(StatusOf(h), false, true, 0)]
  }

  /** Chains, owners and buffers after a submission. */
  lemma SubmitAll(
    desc: seq<Desc>, ops: seq<Op>, info: seq<Info>, free: seq<bool>, owner: seq<int>, reqs: Reqs,
    busy: set<int>, bdata: map<int, Bytes>, h: int, r: Req)
    requires Chains(desc, ops, info, owner, reqs) && Owners(free, owner, reqs) && Buffers(reqs, busy, bdata)
    requires |desc| == NUM && |ops| == NUM && |info| == NUM && Three(free, h, r.d1, r.d2) && r.b != -1
    requires r.phase == Queued && r.status == 0xff
    requires forall g :: g in reqs ==> reqs[g].b != r.b
    ensures h !in reqs && |owner| == NUM
    ensures var owner1, reqs1 := owner[h := h][r.d1 := h][r.d2 := h], reqs[h := r];
      && Owners(Cleared(free, h, r.d1, r.d2), owner1, reqs1) && Buffers(reqs1, busy + {r.b}, bdata)
      && Chains(Formatted(desc, h, r.d1, r.d2, r.b, r.op.out), ops[h := r.op], info[h := Info(r.b, 0xff)], owner1, reqs1)
  {
    FreeHead(desc, ops, info, free, owner, reqs, h);
    FreeHead(desc, ops, info, free, owner, reqs, r.d1);
    FreeHead(desc, ops, info, free, owner, reqs, r.d2);
    hide Chains, Buffers, Chain;
    SubmitOwners(free, owner, reqs, h, r);
    SubmitBuffers(reqs, busy, bdata, h, r);
    SubmitChains(desc, ops, info, owner, reqs, Formatted(desc, h, r.d1, r.d2, r.b, r.op.out),
                 ops[h := r.op], info[h := Info(r.b, 0xff)], h, r);
  }

  lemma SubmitRings(
    desc: seq<Desc>, ops: seq<Op>, info: seq<Info>, owner: seq<int>, avail: seq<int>, nTaken: nat, queued: seq<int>,
    used: seq<int>, nSeen: nat, completed: seq<int>, reqs: Reqs, h: int, r: Req)
    requires Chains(desc, ops, info, owner, reqs) && Ring(avail, nTaken, queued, reqs, Queued)
    requires Ring(used, nSeen, completed, reqs, Done) && h !in reqs && 0 <= h < NUM && r.phase == Queued
    ensures |avail| == NUM
    ensures Ring(avail[(nTaken + |queued|) % NUM := h], nTaken, queued + [h], reqs[h := r], Queued)
    ensures Ring(used, nSeen, completed, reqs[h := r], Done)
  {
    hide Chains, Chain;
    QueueRoom(desc, ops, info, owner, avail, nTaken, queued, reqs, h);
    RingPush(avail, nTaken, queued, reqs, Queued, h, r);
    RingOther(used, nSeen, completed, reqs, Done, h, r);
  }

  /** x is the low 16 bits of n. */
  predicate Is16(x: int, n: nat) {
    x == n % WRAP
  }

  lemma Next16(x: int, n: nat)
    requires Is16(x, n)
    ensures Is16((x + 1) % WRAP, n + 1) && x % NUM == n % NUM
  {
    var q := n / 0x1_0000;
    Slot16(q, x);
    if x + 1 < 0x1_0000 {
      assert n + 1 == 0x1_0000 * q + (x + 1);
    } else {
      assert n + 1 == 0x1_0000 * (q + 1);
    }
  }

  lemma Slot16(q: nat, x: int)
    ensures (0x1_0000 * q + x) % 8 == x % 8
  {
    assert 0x1_0000 * q + x == 8 * (0x2000 * q + x / 8) + x % 8;
  }

  /** Descriptors in use keep what they hold. */
  lemma ChainsKept(
    desc: seq<Desc>, desc1: seq<Desc>, ops: seq<Op>, info: seq<Info>, owner: seq<int>, reqs: Reqs, free: seq<bool>)
    requires Chains(desc, ops, info, owner, reqs) && Owners(free, owner, reqs) && |desc1| == NUM == |desc|
    requires forall i :: 0 <= i < NUM && !free[i] ==> desc1[i] == desc[i]
    ensures Chains(desc1, ops, info, owner, reqs)
  {
    forall h | h in reqs ensures Chain(desc1, ops, info, owner, h, reqs[h]) {
      assert Chain(desc, ops, info, owner, h, reqs[h]);
    }
  }

  /** The queue has room for a head that is not in it. */
  lemma QueueRoom(
    desc: seq<Desc>, ops: seq<Op>, info: seq<Info>, owner: seq<int>, ring: seq<int>, from: nat, heads: seq<int>,
    reqs: Reqs, h: int)
    requires Chains(desc, ops, info, owner, reqs) && (exists p :: Ring(ring, from, heads, reqs, p))
    requires h !in reqs && 0 <= h < NUM
    ensures |heads| < NUM
  {
    var p :| Ring(ring, from, heads, reqs, p);
    forall k | 0 <= k < |heads| ensures 0 <= heads[k] < NUM && heads[k] in reqs {
      assert heads[k] in heads;
      assert Chain(desc, ops, info, owner, heads[k], reqs[heads[k]]);
    }
    RoomLeft(heads, h);
  }

  lemma NoThree(free: seq<bool>, idx: seq<int>)
    requires |free| == NUM && |idx| < 3 && forall i :: 0 <= i < NUM && free[i] ==> i in idx
    ensures forall a, b, c :: !Three(free, a, b, c)
  {
  }
}
