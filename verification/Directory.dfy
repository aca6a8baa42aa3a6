/** fs.c: directories as files of 16-byte entries.  dirlookup, dirlink and the
    entry sys_unlink zeroes, over readi and writei, refine a finite map from
    names (their first 14 bytes, up to a NUL) to inode numbers. */
module Directory {
  import opened BlockBits
  import opened BlockOwners
  import opened FileBytes
  import opened FileSystem

  const DIRSIZ: nat := 14
  const DE: nat := 16

  // ---- names ----

  /** The first index from i on that is n, past the end, or a NUL. */
  function Stop(s: seq<int>, n: nat, i: nat): (k: nat)
    requires i <= n
    ensures i <= k <= n && (i <= |s| ==> k <= |s|)
    ensures forall j :: i <= j < k ==> j < |s| && s[j] != 0
    ensures k < n && k < |s| ==> s[k] == 0
    decreases n - i
  {
    if i >= n || i >= |s| || s[i] == 0 then i else Stop(s, n, i + 1)
  }

  /** The part of a name that counts. */
  function Key(s: seq<int>): (k: seq<int>) {
    s[..Stop(s, DIRSIZ, 0)]
  }

  /** A C string, or at least n bytes. */
  ghost predicate Terminated(s: seq<int>, n: nat) {
    |s| >= n || 0 in s
  }

  /** strncmp with n = DIRSIZ, which is namecmp: zero exactly on equal keys. */
  method Namecmp(p: seq<int>, q: seq<int>) returns (r: int)
    requires Terminated(p, DIRSIZ) && Terminated(q, DIRSIZ)
    ensures r == 0 <==> Key(p) == Key(q)
  {
    var i := 0;
    while i < DIRSIZ && p[i] != 0 && p[i] == q[i]
      invariant i <= DIRSIZ && (i < DIRSIZ ==> i < |p| && i < |q|)
      invariant forall j :: 0 <= j < i ==> j < |p| && j < |q| && p[j] == q[j] != 0
    {
      i := i + 1;
    }
    r := if i == DIRSIZ then 0 else p[i] - q[i];
    KeysEqual(p, q, i);
  }

  lemma KeysEqual(p: seq<int>, q: seq<int>, i: nat)
    requires Terminated(p, DIRSIZ) && Terminated(q, DIRSIZ) && i <= DIRSIZ
    requires forall j :: 0 <= j < i ==> j < |p| && j < |q| && p[j] == q[j] != 0
    requires i < DIRSIZ ==> i < |p| && i < |q| && (p[i] == 0 || p[i] != q[i])
    ensures Key(p) == Key(q) <==> i == DIRSIZ || p[i] == q[i]
  {
    var a, b := Stop(p, DIRSIZ, 0), Stop(q, DIRSIZ, 0);
    assert i <= a && i <= b;
    assert i < a ==> Key(p)[i] == p[i];
    assert i < b ==> Key(q)[i] == q[i];
  }

  /** n NULs. */
  function Nuls(n: nat): (s: seq<int>)
    ensures |s| == n && forall i :: 0 <= i < n ==> s[i] == 0
  {
    seq(n, _ => 0)
  }

  lemma PaddedKey(t: seq<int>, s: seq<int>)
    requires |s| == DIRSIZ && s == Key(t) + Nuls(DIRSIZ - |Key(t)|)
    ensures Key(s) == Key(t)
  {
    var a, b := Stop(s, DIRSIZ, 0), Stop(t, DIRSIZ, 0);
    assert |Key(t)| == b;
    assert b < DIRSIZ ==> s[b] == 0;
    assert forall j :: 0 <= j < b ==> s[j] == Key(t)[j];
    assert a == b;
    assert s[..a] == Key(t);
  }

  /** strncpy(de.name, name, DIRSIZ): the key, then NULs. */
  method Strncpy(t: seq<int>) returns (s: seq<int>)
    requires Terminated(t, DIRSIZ)
    ensures s == Key(t) + Nuls(DIRSIZ - |Key(t)|)
    ensures |s| == DIRSIZ && Key(s) == Key(t)
  {
    s := [];
    var stop := false;
    ghost var k := Stop(t, DIRSIZ, 0);
    while |s| < DIRSIZ && !stop
      invariant |s| <= DIRSIZ && |s| <= |t| && s == t[..|s|]
      invariant if stop then k == |s| - 1 && t[k] == 0 else k >= |s|
      decreases DIRSIZ - |s|
    {
      stop := t[|s|] == 0;
      s := s + [t[|s|]];
    }
    assert s == Key(t) + Nuls(|s| - k);
    while |s| < DIRSIZ
      invariant k <= |s| <= DIRSIZ && s == Key(t) + Nuls(|s| - k)
    {
      assert Nuls(|s| - k) + [0] == Nuls(|s| + 1 - k);
      s := s + [0];
    }
    PaddedKey(t, s);
  }

  // ---- entries ----

  /** The little-endian inode number of entry k; 0 is a free entry. */
  function EntryInum(c: seq<int>, k: int): (v: int) {
    if 0 <= k < |c| / DE then c[DE * k] + 256 * c[DE * k + 1] else 0
  }

  function EntryName(c: seq<int>, k: int): (s: seq<int>) {
    if 0 <= k < |c| / DE then c[DE * k + 2..DE * k + DE] else []
  }

  ghost predicate Live(c: seq<int>, k: int, key: seq<int>) {
    EntryInum(c, k) != 0 && Key(EntryName(c, k)) == key
  }

  /** No name twice. */
  ghost predicate UniqueNames(c: seq<int>) {
    forall i, j :: i != j && EntryInum(c, i) != 0 && EntryInum(c, j) != 0 ==>
      Key(EntryName(c, i)) != Key(EntryName(c, j))
  }

  /** A directory: whole entries, no name twice. */
  ghost predicate IsDir(c: seq<int>) {
    |c| % DE == 0 && UniqueNames(c)
  }

  /** The bindings the first k entries make, an earlier one winning. */
  ghost function BindingsUpTo(c: seq<int>, k: nat): (m: map<seq<int>, int>) {
    if k == 0 then map[]
    else
      var m := BindingsUpTo(c, k - 1);
      var key := Key(EntryName(c, k - 1));
      if EntryInum(c, k - 1) != 0 && key !in m then m[key := EntryInum(c, k - 1)] else m
  }

  /** The map a directory stands for. */
  ghost function Bindings(c: seq<int>): (m: map<seq<int>, int>) {
    BindingsUpTo(c, |c| / DE)
  }

  /** A bound name is that of the first live entry i that carries it; a name that
      is not bound has none. */
  lemma {:induction false} BindingsMean(c: seq<int>, k: nat, key: seq<int>) returns (i: int)
    ensures key !in BindingsUpTo(c, k) ==> forall j :: 0 <= j < k ==> !Live(c, j, key)
    ensures key in BindingsUpTo(c, k) ==>
      0 <= i < k && Live(c, i, key) && EntryInum(c, i) == BindingsUpTo(c, k)[key]
    ensures key in BindingsUpTo(c, k) ==> forall j :: 0 <= j < i ==> !Live(c, j, key)
  {
    hide Key, EntryName, EntryInum;
    i := 0;
    if k > 0 {
      i := BindingsMean(c, k - 1, key);
      if key !in BindingsUpTo(c, k - 1) { i := k - 1; }
    }
  }

  /** With unique names a live entry is the binding. */
  lemma LiveIsBound(c: seq<int>, i: int)
    requires UniqueNames(c) && EntryInum(c, i) != 0
    ensures var key := Key(EntryName(c, i)); key in Bindings(c) && Bindings(c)[key] == EntryInum(c, i)
  {
    assert 0 <= i < |c| / DE;
    hide Key, EntryName, EntryInum, BindingsUpTo;
    var key := Key(EntryName(c, i));
    var j := BindingsMean(c, |c| / DE, key);
    assert Live(c, i, key);
  }

  /** c1 is c with entry k now (v, name); every other entry is as it was. */
  ghost predicate EntryPut(c: seq<int>, c1: seq<int>, k: nat, v: int, key: seq<int>) {
    && EntryInum(c1, k) == v && (v != 0 ==> Key(EntryName(c1, k)) == key)
    && forall i :: i != k ==> EntryInum(c1, i) == EntryInum(c, i) && EntryName(c1, i) == EntryName(c, i)
  }

  lemma PutInums(c: seq<int>, c1: seq<int>, k: nat, v: int, key: seq<int>)
    requires EntryPut(c, c1, k, v, key)
    ensures forall i :: EntryInum(c1, i) == if i == k then v else EntryInum(c, i)
  {
    hide EntryInum;
  }

  /** Filling a free entry under a new name adds exactly that binding. */
  lemma LinkBindings(c: seq<int>, c1: seq<int>, k: nat, v: int, key: seq<int>)
    requires UniqueNames(c) && EntryInum(c, k) == 0 && key !in Bindings(c) && EntryPut(c, c1, k, v, key)
    ensures UniqueNames(c1)
    ensures Bindings(c1) == if v == 0 then Bindings(c) else Bindings(c)[key := v]
  {
    hide Key, EntryName, EntryInum, BindingsUpTo;
    forall i | EntryInum(c, i) != 0 ensures Key(EntryName(c, i)) != key { LiveIsBound(c, i); }
    var want := if v == 0 then Bindings(c) else Bindings(c)[key := v];
    forall x | x in want ensures x in Bindings(c1) && Bindings(c1)[x] == want[x] {
      if v != 0 && x == key {
        LiveIsBound(c1, k);
      } else {
        var i := BindingsMean(c, |c| / DE, x);
        LiveIsBound(c1, i);
      }
    }
    forall x | x in Bindings(c1) ensures x in want {
      var i := BindingsMean(c1, |c1| / DE, x);
      if i != k { LiveIsBound(c, i); }
    }
  }

  /** Zeroing the entry of a name removes exactly that name. */
  lemma UnlinkBindings(c: seq<int>, c1: seq<int>, k: nat, key: seq<int>)
    requires UniqueNames(c) && Live(c, k, key) && EntryPut(c, c1, k, 0, key)
    ensures UniqueNames(c1) && key in Bindings(c) && Bindings(c1) == Bindings(c) - {key}
  {
    hide Key, EntryName, EntryInum, BindingsUpTo;
    LiveIsBound(c, k);
    var want := Bindings(c) - {key};
    forall x | x in want ensures x in Bindings(c1) && Bindings(c1)[x] == want[x] {
      var i := BindingsMean(c, |c| / DE, x);
      LiveIsBound(c1, i);
    }
    forall x | x in Bindings(c1) ensures x in want {
      var i := BindingsMean(c1, |c1| / DE, x);
      LiveIsBound(c, i);
    }
  }

  /** A slice update with one whole entry is an entry update. */
  lemma PutEntry(c: seq<int>, k: nat, de: seq<int>, v: int, key: seq<int>)
    requires |c| % DE == 0 && DE * k <= |c| && |de| == DE
    requires de[0] + 256 * de[1] == v && (v != 0 ==> Key(de[2..]) == key)
    ensures EntryPut(c, Overwritten(c, DE * k, de), k, v, key) && |Overwritten(c, DE * k, de)| % DE == 0
  {
    var c1 := Overwritten(c, DE * k, de);
    assert c1[DE * k..DE * k + DE] == de;
    assert EntryName(c1, k) == de[2..];
    forall i | i != k ensures EntryInum(c1, i) == EntryInum(c, i) && EntryName(c1, i) == EntryName(c, i) {
      if 0 <= i < |c| / DE { SameEntry(c, k, de, i); }
    }
  }

  lemma SameEntry(c: seq<int>, k: nat, de: seq<int>, i: nat)
    requires |c| % DE == 0 && DE * k <= |c| && |de| == DE && i < |c| / DE && i != k
    ensures var c1 := Overwritten(c, DE * k, de); i < |c1| / DE && c1[DE * i..DE * i + DE] == c[DE * i..DE * i + DE]
  {
  }

  /** Reading one aligned entry. */
  lemma EntryBytes(c: seq<int>, k: nat, de: seq<int>)
    requires |c| % DE == 0 && DE * k < |c| < 0x8000_0000 && de == Clamped(c, DE * k, DE)
    ensures |de| == DE && de[0] + 256 * de[1] == EntryInum(c, k) && de[2..] == EntryName(c, k)
  {
    assert DE * k + DE <= |c|;
    assert de == c[DE * k..DE * k + DE];
  }

  lemma SmallFile(inodes: Inodes, disk: Disk, n: nat)
    requires n in inodes && SizesOk(inodes)
    ensures |Content(inodes, disk, n)| <= MAXFILE * 1024
  {
  }

  /** readi of entry k. */
  method ReadEntry(fs: Fs, dp: nat, off: nat, ghost k: nat, ghost c: seq<int>) returns (v: int, name: seq<int>)
    requires fs.Valid() && dp in fs.inodes && off == DE * k && off < fs.inodes[dp].size
    requires c == Content(fs.inodes, fs.disk, dp) && |c| % DE == 0
    modifies fs`bitmap, fs`disk, fs`logged, fs`inodes
    ensures Unchanged(old(fs.inodes), fs.inodes, old(fs.disk), fs.disk, old(fs.bitmap), fs.bitmap)
    ensures fs.logged == old(fs.logged) && off + DE <= |c|
    ensures v == EntryInum(c, k) && name == EntryName(c, k) && |name| == DIRSIZ
  {
    SmallFile(fs.inodes, fs.disk, dp);
    hide Content, EntryInum, EntryName, Owned, NoHoles, SizesOk, Clamped;
    var de := fs.Readi(dp, off, DE);
    EntryBytes(c, k, de);
    return de[0] + 256 * de[1], de[2..];
  }

  ghost predicate Unchanged(
    inodes: Inodes, inodes1: Inodes, disk: Disk, disk1: Disk, bitmap: seq<bv8>, bitmap1: seq<bv8>)
  {
    inodes1 == inodes && disk1 == disk && bitmap1 == bitmap
  }

  /** dirlookup: the binding of the name and where its entry is, or 0. */
  method Dirlookup(fs: Fs, dp: nat, name: seq<int>) returns (inum: int, off: nat, ghost k: nat)
    requires fs.Valid() && dp in fs.inodes && Terminated(name, DIRSIZ) && |Content(fs.inodes, fs.disk, dp)| % DE == 0
    modifies fs`bitmap, fs`disk, fs`logged, fs`inodes
    ensures Unchanged(old(fs.inodes), fs.inodes, old(fs.disk), fs.disk, old(fs.bitmap), fs.bitmap)
    ensures fs.logged == old(fs.logged)
    ensures inum == Bound(Content(fs.inodes, fs.disk, dp), Key(name))
    ensures inum != 0 ==> off == DE * k && Live(Content(fs.inodes, fs.disk, dp), k, Key(name))
    ensures inum != 0 ==> EntryInum(Content(fs.inodes, fs.disk, dp), k) == inum
  {
    ghost var c := Content(fs.inodes, fs.disk, dp);
    hide Content, EntryInum, EntryName, Key, Owned, NoHoles, SizesOk, UniqueNames, Bound, Stop, Live, NoneLive;
    off, k := 0, 0;
    NoneLiveMore(c, 0, Key(name));
    while off < fs.inodes[dp].size
      invariant Unchanged(old(fs.inodes), fs.inodes, old(fs.disk), fs.disk, old(fs.bitmap), fs.bitmap)
      invariant fs.logged == old(fs.logged) && off == DE * k
      invariant NoneLive(c, k, Key(name))
    {
      NoneLiveMore(c, k, Key(name));
      var v, entry := ReadEntry(fs, dp, off, k, c);
      if v != 0 {
        var d := Namecmp(name, entry);
        if d == 0 {
          LookupHit(c, k, Key(name));
          return v, off, k;
        }
      }
      off, k := off + DE, k + 1;
    }
    LookupMiss(c, k, Key(name));
    inum := 0;
  }

  /** The inode number bound to a name, or 0. */
  ghost function Bound(c: seq<int>, key: seq<int>): (v: int) {
    if key in Bindings(c) then Bindings(c)[key] else 0
  }

  lemma LookupHit(c: seq<int>, k: nat, key: seq<int>)
    requires Live(c, k, key) && NoneLive(c, k, key)
    ensures Bound(c, key) == EntryInum(c, k)
  {
    LiveInside(c, k, key);
    hide EntryName, EntryInum, Key, BindingsUpTo;
    var i := BindingsMean(c, |c| / DE, key);
  }

  /** None of the first k entries carries the name. */
  ghost predicate NoneLive(c: seq<int>, k: nat, key: seq<int>) {
    forall i :: 0 <= i < k ==> !Live(c, i, key)
  }

  lemma NoneLiveMore(c: seq<int>, k: nat, key: seq<int>)
    ensures NoneLive(c, 0, key)
    ensures EntryInum(c, k) != 0 && Key(EntryName(c, k)) == key <==> Live(c, k, key)
    ensures NoneLive(c, k, key) && !Live(c, k, key) ==> NoneLive(c, k + 1, key)
  {
    hide EntryInum, EntryName, Key;
  }

  lemma LookupMiss(c: seq<int>, k: nat, key: seq<int>)
    requires DE * k >= |c| && NoneLive(c, k, key)
    ensures Bound(c, key) == 0
  {
    var i := BindingsMean(c, |c| / DE, key);
  }

  /** dirlink's search for a place: the first free entry, or the end. */
  method FindFreeEntry(fs: Fs, dp: nat) returns (off: nat, ghost k: nat)
    requires fs.Valid() && dp in fs.inodes && |Content(fs.inodes, fs.disk, dp)| % DE == 0
    modifies fs`bitmap, fs`disk, fs`logged, fs`inodes
    ensures Unchanged(old(fs.inodes), fs.inodes, old(fs.disk), fs.disk, old(fs.bitmap), fs.bitmap)
    ensures fs.logged == old(fs.logged)
    ensures off == DE * k && off <= fs.inodes[dp].size && EntryInum(Content(fs.inodes, fs.disk, dp), k) == 0
    ensures NoneFree(Content(fs.inodes, fs.disk, dp), k)
  {
    ghost var c := Content(fs.inodes, fs.disk, dp);
    hide Content, EntryInum, EntryName, Key, Owned, NoHoles, SizesOk, NoneFree;
    NoneFreeMore(c, 0);
    off, k := 0, 0;
    while off < fs.inodes[dp].size
      invariant Unchanged(old(fs.inodes), fs.inodes, old(fs.disk), fs.disk, old(fs.bitmap), fs.bitmap)
      invariant fs.logged == old(fs.logged) && off == DE * k && off <= fs.inodes[dp].size
      invariant NoneFree(c, k)
    {
      NoneFreeMore(c, k);
      var v, entry := ReadEntry(fs, dp, off, k, c);
      if v == 0 { return; }
      off, k := off + DE, k + 1;
    }
    PastEnd(c, k);
  }

  /** The first k entries are taken. */
  ghost predicate NoneFree(c: seq<int>, k: nat) {
    forall i :: 0 <= i < k ==> EntryInum(c, i) != 0
  }

  lemma NoneFreeMore(c: seq<int>, k: nat)
    ensures NoneFree(c, 0) && (NoneFree(c, k) && EntryInum(c, k) != 0 ==> NoneFree(c, k + 1))
  {
    hide EntryInum;
  }

  lemma PastEnd(c: seq<int>, k: nat)
    requires DE * k >= |c|
    ensures EntryInum(c, k) == 0
  {
  }

  /** writei of one entry: all of it or none. */
  method WriteEntry(fs: Fs, dp: nat, off: nat, de: seq<int>, ghost k: nat, ghost v: int, ghost key: seq<int>)
    returns (r: int)
    requires fs.Valid() && dp in fs.inodes && off == DE * k && off <= fs.inodes[dp].size && |de| == DE
    requires |Content(fs.inodes, fs.disk, dp)| % DE == 0
    requires de[0] + 256 * de[1] == v && (v != 0 ==> Key(de[2..]) == key)
    modifies fs`bitmap, fs`disk, fs`logged, fs`inodes
    ensures fs.Valid() && fs.inodes.Keys == old(fs.inodes).Keys
    ensures forall n :: n in fs.inodes && n != dp ==>
      Content(fs.inodes, fs.disk, n) == Content(old(fs.inodes), old(fs.disk), n)
    ensures r == DE ==> |Content(fs.inodes, fs.disk, dp)| % DE == 0
    ensures r == DE ==>
      EntryPut(Content(old(fs.inodes), old(fs.disk), dp), Content(fs.inodes, fs.disk, dp), k, v, key)
    ensures r != DE ==> Content(fs.inodes, fs.disk, dp) == Content(old(fs.inodes), old(fs.disk), dp)
    ensures r != DE ==> off == old(fs.inodes)[dp].size && (Full(fs.bitmap, |fs.disk|) || off == MAXFILE * 1024)
  {
    ghost var c := Content(fs.inodes, fs.disk, dp);
    SmallFile(fs.inodes, fs.disk, dp);
    hide Content, Owned, NoHoles, SizesOk, EntryPut, Key, Full, Aligned, Overwritten, Touched;
    r := fs.Writei(dp, off, de);
    AllOrNone(k, r);
    PutEntry(c, k, de, v, key);
    assert de[..DE] == de;
    NothingWritten(c, off, de);
  }

  /** An entry never crosses a block, and the largest file has whole entries. */
  lemma AllOrNone(k: nat, r: int)
    ensures 0 <= r <= DE && Aligned(DE * k, r, DE) ==> r == 0 || r == DE
    ensures DE * k <= MAXFILE * 1024 < DE * k + DE ==> DE * k == MAXFILE * 1024
  {
  }

  lemma NothingWritten(c: seq<int>, off: nat, de: seq<int>)
    requires off <= |c|
    ensures Overwritten(c, off, de[..0]) == c
  {
  }

  /** The bindings with an entry for an inode number cut down to its 16 bits. */
  ghost function Linked(was: map<seq<int>, int>, key: seq<int>, inum: nat): (now: map<seq<int>, int>) {
    if inum % 0x1_0000 == 0 then was else was[key := inum % 0x1_0000]
  }

  /** The entry names the inode exactly if its number fits 16 bits and is not zero;
      65536 leaves no entry and 65537 one for inode 1. */
  lemma LinkedTruly(was: map<seq<int>, int>, key: seq<int>, inum: nat)
    requires key !in was
    ensures Linked(was, key, inum) == was[key := inum] <==> 0 < inum < 0x1_0000
    ensures Linked(was, key, 0x1_0000) == was && Linked(was, key, 0x1_0001) == was[key := 1]
  {
    assert Linked(was, key, inum) == was[key := inum] ==>
      key in Linked(was, key, inum) && Linked(was, key, inum)[key] == inum;
  }

  /** dirlink: on success exactly one binding is added, under a name not bound
      before, to the low 16 bits of the inode number (none if those are zero);
      otherwise no binding changes, and the name was bound, or no entry was free and
      the directory could not grow. */
  method Dirlink(fs: Fs, dp: nat, name: seq<int>, inum: nat) returns (r: int)
    requires fs.Valid() && dp in fs.inodes && Terminated(name, DIRSIZ) && IsDir(Content(fs.inodes, fs.disk, dp))
    modifies fs`bitmap, fs`disk, fs`logged, fs`inodes
    ensures fs.Valid() && fs.inodes.Keys == old(fs.inodes).Keys
    ensures forall n :: n in fs.inodes && n != dp ==>
      Content(fs.inodes, fs.disk, n) == Content(old(fs.inodes), old(fs.disk), n)
    ensures IsDir(Content(fs.inodes, fs.disk, dp)) && (r == 0 || r == -1)
    ensures var was, now := Bindings(Content(old(fs.inodes), old(fs.disk), dp)), Bindings(Content(fs.inodes, fs.disk, dp));
      if r == 0 then
        && Key(name) !in was
        && now == Linked(was, Key(name), inum)
      else
        && now == was
        && (Key(name) in was
            || (NoneFree(Content(old(fs.inodes), old(fs.disk), dp), old(fs.inodes)[dp].size / DE)
                && (Full(fs.bitmap, |fs.disk|) || old(fs.inodes)[dp].size == MAXFILE * 1024)))
  {
    ghost var c := Content(fs.inodes, fs.disk, dp);
    hide Content, EntryInum, EntryName, Key, Owned, NoHoles, SizesOk, UniqueNames, Full, EntryPut, Bindings;
    BoundNonzero(c, Key(name));
    var found, at;
    ghost var k;
    found, at, k := Dirlookup(fs, dp, name);
    if found != 0 { return -1; }
    var off;
    off, k := FindFreeEntry(fs, dp);
    var field := Strncpy(name);
    var v := inum % 0x1_0000;
    var de := [v % 256, v / 256] + field;
    assert de[2..] == field;
    var w := WriteEntry(fs, dp, off, de, k, v, Key(name));
    if w != DE { return -1; }
    LinkBindings(c, Content(fs.inodes, fs.disk, dp), k, v, Key(name));
    return 0;
  }

  lemma BoundNonzero(c: seq<int>, key: seq<int>)
    ensures Bound(c, key) == 0 <==> key !in Bindings(c)
  {
    var i := BindingsMean(c, |c| / DE, key);
  }

  /** Apart from its first two entries the directory has none. */
  ghost predicate OnlyDots(c: seq<int>) {
    forall k :: k >= 2 ==> EntryInum(c, k) == 0
  }

  ghost predicate FreeFrom2(c: seq<int>, k: nat) {
    forall i :: 2 <= i < k ==> EntryInum(c, i) == 0
  }

  lemma FreeFrom2More(c: seq<int>, k: nat)
    requires k >= 2
    ensures FreeFrom2(c, 2) && (FreeFrom2(c, k) && EntryInum(c, k) == 0 ==> FreeFrom2(c, k + 1))
    ensures EntryInum(c, k) != 0 ==> !OnlyDots(c)
  {
    hide EntryInum;
  }

  lemma FreeToEnd(c: seq<int>, k: nat)
    requires DE * k >= |c| && FreeFrom2(c, k)
    ensures OnlyDots(c)
  {
    forall i | i >= 2 ensures EntryInum(c, i) == 0 { if i >= k { PastEnd(c, i); } }
  }

  /** isdirempty. */
  method Isdirempty(fs: Fs, dp: nat) returns (empty: bool)
    requires fs.Valid() && dp in fs.inodes && |Content(fs.inodes, fs.disk, dp)| % DE == 0
    modifies fs`bitmap, fs`disk, fs`logged, fs`inodes
    ensures Unchanged(old(fs.inodes), fs.inodes, old(fs.disk), fs.disk, old(fs.bitmap), fs.bitmap)
    ensures fs.logged == old(fs.logged) && empty == OnlyDots(Content(fs.inodes, fs.disk, dp))
  {
    ghost var c := Content(fs.inodes, fs.disk, dp);
    hide Content, EntryInum, EntryName, Owned, NoHoles, SizesOk, OnlyDots, FreeFrom2;
    var off := 2 * DE;
    ghost var k: nat := 2;
    FreeFrom2More(c, 2);
    while off < fs.inodes[dp].size
      invariant Unchanged(old(fs.inodes), fs.inodes, old(fs.disk), fs.disk, old(fs.bitmap), fs.bitmap)
      invariant fs.logged == old(fs.logged) && off == DE * k && k >= 2 && FreeFrom2(c, k)
    {
      FreeFrom2More(c, k);
      var v, entry := ReadEntry(fs, dp, off, k, c);
      if v != 0 { return false; }
      off, k := off + DE, k + 1;
    }
    FreeToEnd(c, k);
    return true;
  }

  /** How sys_unlink ends: the entry removed, -1, a panic (no such inode, or no links),
      or asleep for good on a lock it holds itself. */
  datatype UnlinkEnd = Removed | Refused | Panicked | Stuck

  function Links(nlink: map<int, int>, ip: int): (n: int) {
    if ip in nlink then nlink[ip] else 0
  }

  /** The checks of sys_unlink; ip is the inode the name is bound to, 0 for none. */
  method UnlinkCheck(fs: Fs, dp: nat, name: seq<int>, dirs: set<int>, nlink: map<int, int>)
    returns (r: UnlinkEnd, ip: int, off: nat, ghost k: nat)
    requires fs.Valid() && dp in fs.inodes && Terminated(name, DIRSIZ) && |Content(fs.inodes, fs.disk, dp)| % DE == 0
    requires forall n :: n in dirs && n in fs.inodes ==> |Content(fs.inodes, fs.disk, n)| % DE == 0
    modifies fs`bitmap, fs`disk, fs`logged, fs`inodes
    ensures Unchanged(old(fs.inodes), fs.inodes, old(fs.disk), fs.disk, old(fs.bitmap), fs.bitmap)
    ensures fs.logged == old(fs.logged)
    ensures Key(name) == [46] || Key(name) == [46, 46] ==> r == Refused
    ensures Key(name) != [46] && Key(name) != [46, 46] ==>
      && ip == Bound(Content(fs.inodes, fs.disk, dp), Key(name))
      && (r == Stuck <==> ip != 0 && ip == dp)
      && (r == Panicked <==> ip != 0 && ip != dp && (ip !in fs.inodes || Links(nlink, ip) < 1))
      && (r == Removed <==> ip != 0 && ip != dp && ip in fs.inodes && Links(nlink, ip) >= 1
                            && (ip in dirs ==> OnlyDots(Content(fs.inodes, fs.disk, ip))))
    ensures r == Removed ==> off == DE * k && Live(Content(fs.inodes, fs.disk, dp), k, Key(name))
    ensures r == Removed ==> EntryInum(Content(fs.inodes, fs.disk, dp), k) == ip
  {
    hide Content, Owned, NoHoles, SizesOk, Bound, Live, OnlyDots, EntryInum;
    DotKeys();
    hide Key;
    ip, off, k := 0, 0, 0;
    var dot := Namecmp(name, [46, 0]);
    var dots := Namecmp(name, [46, 46, 0]);
    if dot == 0 || dots == 0 { return Refused, ip, off, k; }
    ip, off, k := Dirlookup(fs, dp, name);
    if ip == 0 { return Refused, ip, off, k; }
    if ip == dp { return Stuck, ip, off, k; }
    if ip !in fs.inodes || Links(nlink, ip) < 1 { return Panicked, ip, off, k; }
    r := Removed;
    if ip in dirs {
      var empty := Isdirempty(fs, ip);
      if !empty { r := Refused; }
    }
  }

  /** iput will find inode n without links and without other users. */
  predicate Dropped(users: set<int>, links: map<int, int>, n: int) {
    n !in users && Links(links, n) == 0
  }

  /** iput's last part, `users` being the inodes somebody else refers to: an inode that
      is dropped is truncated, which frees its blocks. */
  method Iput(fs: Fs, n: nat, users: set<int>, links: map<int, int>)
    requires fs.Valid() && n in fs.inodes
    modifies fs`bitmap, fs`disk, fs`logged, fs`inodes
    ensures fs.Valid() && fs.inodes.Keys == old(fs.inodes).Keys
    ensures forall m :: m in fs.inodes ==>
      Content(fs.inodes, fs.disk, m) ==
        if m == n && Dropped(users, links, n) then [] else Content(old(fs.inodes), old(fs.disk), m)
    ensures |fs.bitmap| == |old(fs.bitmap)| && forall b :: 0 < b < 8 * |fs.bitmap| ==>
      (Bit(fs.bitmap, b) <==>
        Bit(old(fs.bitmap), b) && !(Dropped(users, links, n) && Holds(old(fs.inodes), old(fs.disk), n, b)))
  {
    hide Content, Owned, NoHoles, SizesOk, Bit, Holds;
    if n !in users && Links(links, n) == 0 { fs.Itrunc(n); }
  }

  /** The entries of the other directories that name inode n. */
  ghost function NamesOf(inodes: Inodes, disk: Disk, dirs: set<int>, n: int): (s: set<(int, int)>) {
    set d, k | d in dirs && d in inodes && d != n && 0 <= k < |Content(inodes, disk, d)|
               && EntryInum(Content(inodes, disk, d), k) == n :: (d, k)
  }

  /** No inode has fewer links than other directories have names for it. */
  ghost predicate LinksCover(inodes: Inodes, disk: Disk, dirs: set<int>, nlink: map<int, int>) {
    forall n :: n != 0 ==> |NamesOf(inodes, disk, dirs, n)| <= Links(nlink, n)
  }

  /** Entries have only been cleared, in the directories of dirs. */
  ghost predicate OnlyCleared(inodes: Inodes, disk: Disk, inodes1: Inodes, disk1: Disk, dirs: set<int>) {
    inodes1.Keys == inodes.Keys && forall d, i :: d in dirs && d in inodes ==>
      EntryInum(Content(inodes1, disk1, d), i) == 0
      || EntryInum(Content(inodes1, disk1, d), i) == EntryInum(Content(inodes, disk, d), i)
  }

  lemma NameInside(c: seq<int>, k: int)
    requires EntryInum(c, k) != 0
    ensures 0 <= k < |c|
  {
  }

  lemma NamesFewer(inodes: Inodes, disk: Disk, inodes1: Inodes, disk1: Disk, dirs: set<int>, n: int)
    requires OnlyCleared(inodes, disk, inodes1, disk1, dirs) && n != 0
    ensures NamesOf(inodes1, disk1, dirs, n) <= NamesOf(inodes, disk, dirs, n)
  {
    hide Content, EntryInum;
    forall d, k | (d, k) in NamesOf(inodes1, disk1, dirs, n) ensures (d, k) in NamesOf(inodes, disk, dirs, n) {
      NameInside(Content(inodes, disk, d), k);
    }
  }

  /** ... by one at least, if the entry (d, k) was cleared. */
  lemma NameGone(inodes: Inodes, disk: Disk, inodes1: Inodes, disk1: Disk, dirs: set<int>, n: int, d: int, k: int)
    requires OnlyCleared(inodes, disk, inodes1, disk1, dirs) && n != 0 && d in dirs && d in inodes && d != n
    requires EntryInum(Content(inodes, disk, d), k) == n && EntryInum(Content(inodes1, disk1, d), k) == 0
    ensures |NamesOf(inodes1, disk1, dirs, n)| < |NamesOf(inodes, disk, dirs, n)|
  {
    hide Content, EntryInum;
    NamesFewer(inodes, disk, inodes1, disk1, dirs, n);
    NameInside(Content(inodes, disk, d), k);
    var s, s1 := NamesOf(inodes, disk, dirs, n), NamesOf(inodes1, disk1, dirs, n);
    assert (d, k) in s && (d, k) !in s1;
    assert s1 <= s - {(d, k)};
    Smaller(s1, s - {(d, k)});
  }

  lemma {:induction false} Smaller(s: set<(int, int)>, t: set<(int, int)>)
    requires s <= t
    ensures |s| <= |t|
  {
    assert t == s + (t - s);
  }

  lemma NoName(inodes: Inodes, disk: Disk, dirs: set<int>, n: int, d: int, k: int)
    requires |NamesOf(inodes, disk, dirs, n)| <= 0 && n != 0 && d in dirs && d in inodes && d != n
    ensures EntryInum(Content(inodes, disk, d), k) != n
  {
    hide Content, EntryInum;
    if EntryInum(Content(inodes, disk, d), k) != 0 { NameInside(Content(inodes, disk, d), k); }
    assert (d, k) in NamesOf(inodes, disk, dirs, n) <==> EntryInum(Content(inodes, disk, d), k) == n;
    assert NamesOf(inodes, disk, dirs, n) == {};
  }

  /** The directory ip has an entry (its "..") for dp. */
  ghost predicate NamesParent(inodes: Inodes, disk: Disk, ip: nat, dp: int) {
    exists j :: EntryInum(Content(inodes, disk, ip), j) == dp
  }

  /** What an unlink does to entries and link counts, in the words of UnlinkEntry. */
  ghost predicate Unlinked(
    inodes: Inodes, disk: Disk, inodes1: Inodes, disk1: Disk, dirs: set<int>, nlink: map<int, int>, links: map<int, int>,
    dp: nat, ip: nat, at: int)
  {
    && OnlyCleared(inodes, disk, inodes1, disk1, dirs) && dp in dirs && dp in inodes && ip in inodes && ip != dp && ip != 0
    && EntryInum(Content(inodes, disk, dp), at) == ip && EntryInum(Content(inodes1, disk1, dp), at) == 0
    && forall n :: Links(links, n) == Links(nlink, n) - if n == ip || (n == dp && ip in dirs) then 1 else 0
  }

  /** The last link of ip goes with the last name. */
  lemma NoNameOfFile(
    inodes: Inodes, disk: Disk, inodes1: Inodes, disk1: Disk, dirs: set<int>, nlink: map<int, int>, links: map<int, int>,
    dp: nat, ip: nat, at: int)
    requires Unlinked(inodes, disk, inodes1, disk1, dirs, nlink, links, dp, ip, at)
    requires LinksCover(inodes, disk, dirs, nlink) && Links(links, ip) == 0
    ensures forall d, k :: d in dirs && d in inodes1 && d != ip ==> EntryInum(Content(inodes1, disk1, d), k) != ip
  {
    hide Content, EntryInum, NamesOf, OnlyCleared, Links;
    NameGone(inodes, disk, inodes1, disk1, dirs, ip, dp, at);
    SameKeys(inodes, disk, inodes1, disk1, dirs);
    forall d, k | d in dirs && d in inodes1 && d != ip ensures EntryInum(Content(inodes1, disk1, d), k) != ip {
      NoName(inodes1, disk1, dirs, ip, d, k);
    }
  }

  lemma SameKeys(inodes: Inodes, disk: Disk, inodes1: Inodes, disk1: Disk, dirs: set<int>)
    requires OnlyCleared(inodes, disk, inodes1, disk1, dirs)
    ensures inodes1.Keys == inodes.Keys
  {
  }

  /** ... and that of the directory dp, when a directory ip goes whose ".." it is; only
      that ".." may be left, if ip is still in use. */
  lemma NoNameOfDir(
    inodes: Inodes, disk: Disk, inodes1: Inodes, disk1: Disk, dirs: set<int>, nlink: map<int, int>, links: map<int, int>,
    dp: nat, ip: nat, at: int)
    requires Unlinked(inodes, disk, inodes1, disk1, dirs, nlink, links, dp, ip, at) && dp != 0
    requires LinksCover(inodes, disk, dirs, nlink) && Links(links, dp) == 0
    requires ip in dirs ==> NamesParent(inodes, disk, ip, dp)
    ensures forall d, k :: d in dirs && d in inodes1 && d != dp && d != ip ==> EntryInum(Content(inodes1, disk1, d), k) != dp
  {
    hide Content, EntryInum, NamesOf, OnlyCleared, Links;
    NamesFewer(inodes, disk, inodes1, disk1, dirs, dp);
    SameKeys(inodes, disk, inodes1, disk1, dirs);
    var s, s1 := NamesOf(inodes, disk, dirs, dp), NamesOf(inodes1, disk1, dirs, dp);
    Smaller(s1, s);
    forall d, k | d in dirs && d in inodes1 && d != dp && d != ip ensures EntryInum(Content(inodes1, disk1, d), k) != dp {
      if ip !in dirs {
        NoName(inodes1, disk1, dirs, dp, d, k);
      } else {
        var j :| EntryInum(Content(inodes, disk, ip), j) == dp;
        IsName(inodes, disk, dirs, dp, ip, j);
        IsName(inodes1, disk1, dirs, dp, d, k);
        OneAtMost(s, (ip, j), (d, k));
      }
    }
  }

  lemma IsName(inodes: Inodes, disk: Disk, dirs: set<int>, n: int, d: nat, k: int)
    requires n != 0 && d in dirs && d in inodes && d != n
    ensures (d, k) in NamesOf(inodes, disk, dirs, n) <==> EntryInum(Content(inodes, disk, d), k) == n
  {
    hide Content, EntryInum;
    if EntryInum(Content(inodes, disk, d), k) != 0 { NameInside(Content(inodes, disk, d), k); }
  }

  lemma OneAtMost(s: set<(int, int)>, a: (int, int), b: (int, int))
    requires |s| <= 1 && a in s && a != b
    ensures b !in s
  {
    if b in s { Smaller({a, b}, s); }
  }

  /** Link counts go on covering the names, if a directory that goes leaves no ".." behind. */
  lemma LinksStillCover(
    inodes: Inodes, disk: Disk, inodes1: Inodes, disk1: Disk, dirs: set<int>, nlink: map<int, int>, links: map<int, int>,
    dp: nat, ip: nat, at: int)
    requires Unlinked(inodes, disk, inodes1, disk1, dirs, nlink, links, dp, ip, at) && LinksCover(inodes, disk, dirs, nlink)
    requires ip in dirs ==> NamesParent(inodes, disk, ip, dp) && Content(inodes1, disk1, ip) == []
    ensures LinksCover(inodes1, disk1, dirs, links)
  {
    NoBindings();
    hide Content, EntryInum, NamesOf, OnlyCleared, Links;
    forall n | n != 0 ensures |NamesOf(inodes1, disk1, dirs, n)| <= Links(links, n) {
      NamesFewer(inodes, disk, inodes1, disk1, dirs, n);
      Smaller(NamesOf(inodes1, disk1, dirs, n), NamesOf(inodes, disk, dirs, n));
      if n == ip { NameGone(inodes, disk, inodes1, disk1, dirs, ip, dp, at); }
      if n == dp && ip in dirs {
        var j :| EntryInum(Content(inodes, disk, ip), j) == dp;
        NameGone(inodes, disk, inodes1, disk1, dirs, dp, ip, j);
      }
    }
  }

  /** Nothing named dp if it had no links to begin with. */
  lemma NoNameLeft(inodes: Inodes, disk: Disk, inodes1: Inodes, disk1: Disk, dirs: set<int>, nlink: map<int, int>, dp: nat)
    requires OnlyCleared(inodes, disk, inodes1, disk1, dirs) && LinksCover(inodes, disk, dirs, nlink)
    requires dp != 0 && Links(nlink, dp) == 0
    ensures forall d, k :: d in dirs && d in inodes1 && d != dp ==> EntryInum(Content(inodes1, disk1, d), k) != dp
  {
    hide Content, EntryInum, NamesOf, OnlyCleared, Links;
    NamesFewer(inodes, disk, inodes1, disk1, dirs, dp);
    Smaller(NamesOf(inodes1, disk1, dirs, dp), NamesOf(inodes, disk, dirs, dp));
    forall d, k | d in dirs && d in inodes1 && d != dp ensures EntryInum(Content(inodes1, disk1, d), k) != dp {
      NoName(inodes1, disk1, dirs, dp, d, k);
    }
  }

  /** sys_unlink after nameiparent, `dirs` being the inodes of type T_DIR and `users`
      those somebody else refers to: "." and ".." and directories that are not empty
      stay; otherwise the entry `at` that dirlookup finds is zeroed, which cannot fail and
      removes exactly that name, and the link counts of the inode and, if it is a
      directory, of its parent go down.  A file whose last link this was is truncated
      unless it is in use, and so would be the directory; no other file changes. */
  method UnlinkEntry(fs: Fs, dp: nat, name: seq<int>, dirs: set<int>, users: set<int>, nlink: map<int, int>)
    returns (r: UnlinkEnd, links: map<int, int>, ghost at: int)
    requires fs.Valid() && dp in fs.inodes && Terminated(name, DIRSIZ) && IsDir(Content(fs.inodes, fs.disk, dp))
    requires forall n :: n in dirs && n in fs.inodes ==> |Content(fs.inodes, fs.disk, n)| % DE == 0
    modifies fs`bitmap, fs`disk, fs`logged, fs`inodes
    ensures fs.Valid() && fs.inodes.Keys == old(fs.inodes).Keys && IsDir(Content(fs.inodes, fs.disk, dp))
    // when each outcome occurs
    ensures var key, ip := Key(name), Bound(Content(old(fs.inodes), old(fs.disk), dp), Key(name));
      r == Removed <==>
        && key != [46] && key != [46, 46] && ip != 0 && ip != dp && ip in fs.inodes && Links(nlink, ip) >= 1
        && (ip in dirs ==> forall k :: k >= 2 ==> EntryInum(Content(old(fs.inodes), old(fs.disk), ip), k) == 0)
    ensures var key, ip := Key(name), Bound(Content(old(fs.inodes), old(fs.disk), dp), Key(name));
      r == Refused <==>
        || key == [46] || key == [46, 46] || ip == 0
        || (ip != dp && ip in fs.inodes && Links(nlink, ip) >= 1 && ip in dirs
            && exists k :: k >= 2 && EntryInum(Content(old(fs.inodes), old(fs.disk), ip), k) != 0)
    ensures var key, ip := Key(name), Bound(Content(old(fs.inodes), old(fs.disk), dp), Key(name));
      r == Stuck <==> key != [46] && key != [46, 46] && ip != 0 && ip == dp
    ensures var key, ip := Key(name), Bound(Content(old(fs.inodes), old(fs.disk), dp), Key(name));
      r == Panicked <==>
        key != [46] && key != [46, 46] && ip != 0 && ip != dp && (ip !in fs.inodes || Links(nlink, ip) < 1)
    // what it does
    ensures var ip := Bound(Content(old(fs.inodes), old(fs.disk), dp), Key(name));
      forall n :: n in fs.inodes && n != dp ==>
        Content(fs.inodes, fs.disk, n) ==
          if r == Removed && n == ip && Dropped(users, links, ip) then [] else Content(old(fs.inodes), old(fs.disk), n)
    ensures var was, now := Bindings(Content(old(fs.inodes), old(fs.disk), dp)), Bindings(Content(fs.inodes, fs.disk, dp));
      now == if (r == Removed || r == Refused) && Dropped(users, links, dp) then map[]
             else if r == Removed then was - {Key(name)} else was
    ensures r == Removed ==> Live(Content(old(fs.inodes), old(fs.disk), dp), at, Key(name))
    ensures forall i ::
      EntryInum(Content(fs.inodes, fs.disk, dp), i) ==
        if (r == Removed && i == at) || ((r == Removed || r == Refused) && Dropped(users, links, dp)) then 0
        else EntryInum(Content(old(fs.inodes), old(fs.disk), dp), i)
    ensures var ip := Bound(Content(old(fs.inodes), old(fs.disk), dp), Key(name));
      forall n :: Links(links, n) == Links(nlink, n) -
        if r == Removed && (n == ip || (n == dp && ip in dirs)) then 1 else 0
    // what is left of names, if link counts covered them
    ensures var ip := Bound(Content(old(fs.inodes), old(fs.disk), dp), Key(name));
      LinksCover(old(fs.inodes), old(fs.disk), dirs, nlink) && dp in dirs && r == Removed && Dropped(users, links, ip) ==>
        forall d, k :: d in dirs && d in fs.inodes && d != ip ==> EntryInum(Content(fs.inodes, fs.disk, d), k) != ip
    ensures var ip := Bound(Content(old(fs.inodes), old(fs.disk), dp), Key(name));
      LinksCover(old(fs.inodes), old(fs.disk), dirs, nlink) && dp in dirs && dp != 0
      && (r == Removed || r == Refused) && Dropped(users, links, dp)
      && (r == Removed && ip in dirs ==> NamesParent(old(fs.inodes), old(fs.disk), ip, dp)) ==>
        forall d, k :: d in dirs && d in fs.inodes && d != dp && (r == Removed && d == ip ==> Dropped(users, links, ip)) ==>
          EntryInum(Content(fs.inodes, fs.disk, d), k) != dp
    ensures var ip := Bound(Content(old(fs.inodes), old(fs.disk), dp), Key(name));
      LinksCover(old(fs.inodes), old(fs.disk), dirs, nlink) && dp in dirs
      && (r == Removed && ip in dirs ==> NamesParent(old(fs.inodes), old(fs.disk), ip, dp) && Dropped(users, links, ip)) ==>
        LinksCover(fs.inodes, fs.disk, dirs, links)
  {
    ghost var inodes0, disk0 := fs.inodes, fs.disk;
    hide Content, EntryInum, EntryName, Owned, NoHoles, SizesOk, UniqueNames, Full, EntryPut, Bindings, OnlyDots;
    hide Key, Bound, Live, Links, Terminated, IsDir, Dropped, LinksCover, NamesParent, OnlyCleared, Unlinked;
    NoBindings();
    WholeEntries(Content(fs.inodes, fs.disk, dp));
    var ip, off;
    ghost var k;
    r, ip, off, k := UnlinkCheck(fs, dp, name, dirs, nlink);
    at := k;
    if ip in fs.inodes { OnlyDotsMeans(Content(fs.inodes, fs.disk, ip)); }
    links := nlink;
    if r == Removed {
      ZeroEntry(fs, dp, off, k, Key(name));
      links := DropLinks(nlink, ip, dp, ip in dirs);
    }
    if r == Removed || r == Refused { Iput(fs, dp, users, links); }
    if r == Removed { Iput(fs, ip, users, links); }
    EntriesCleared(inodes0, disk0, fs.inodes, fs.disk, dirs, dp, if r == Removed then ip else dp);
    if LinksCover(inodes0, disk0, dirs, nlink) && dp in dirs {
      if r == Removed {
        AllUnlinked(inodes0, disk0, fs.inodes, fs.disk, dirs, nlink, links, users, dp, ip, at);
      } else {
        SameLinks(inodes0, disk0, fs.inodes, fs.disk, dirs, nlink, links, users, dp);
      }
    }
  }

  lemma EntriesCleared(inodes: Inodes, disk: Disk, inodes1: Inodes, disk1: Disk, dirs: set<int>, dp: nat, ip: nat)
    requires inodes1.Keys == inodes.Keys
    requires forall n :: n in inodes && n != dp ==>
      Content(inodes1, disk1, n) == Content(inodes, disk, n) || (n == ip && Content(inodes1, disk1, n) == [])
    requires forall i ::
      EntryInum(Content(inodes1, disk1, dp), i) == 0
      || EntryInum(Content(inodes1, disk1, dp), i) == EntryInum(Content(inodes, disk, dp), i)
    ensures OnlyCleared(inodes, disk, inodes1, disk1, dirs)
  {
    NoBindings();
    hide Content, EntryInum;
  }

  /** What UnlinkEntry promises about names, for a name that was removed. */
  lemma AllUnlinked(
    inodes: Inodes, disk: Disk, inodes1: Inodes, disk1: Disk, dirs: set<int>, nlink: map<int, int>, links: map<int, int>,
    users: set<int>, dp: nat, ip: nat, at: int)
    requires OnlyCleared(inodes, disk, inodes1, disk1, dirs) && LinksCover(inodes, disk, dirs, nlink)
    requires dp in dirs && dp in inodes && ip in inodes && ip != dp && ip != 0
    requires EntryInum(Content(inodes, disk, dp), at) == ip && EntryInum(Content(inodes1, disk1, dp), at) == 0
    requires forall n :: Links(links, n) == Links(nlink, n) - if n == ip || (n == dp && ip in dirs) then 1 else 0
    requires Dropped(users, links, ip) ==> Content(inodes1, disk1, ip) == []
    ensures Dropped(users, links, ip) ==>
      forall d, k :: d in dirs && d in inodes1 && d != ip ==> EntryInum(Content(inodes1, disk1, d), k) != ip
    ensures dp != 0 && Dropped(users, links, dp) && (ip in dirs ==> NamesParent(inodes, disk, ip, dp)) ==>
      forall d, k :: d in dirs && d in inodes1 && d != dp && (d == ip ==> Dropped(users, links, ip)) ==>
        EntryInum(Content(inodes1, disk1, d), k) != dp
    ensures (ip in dirs ==> NamesParent(inodes, disk, ip, dp) && Dropped(users, links, ip)) ==>
      LinksCover(inodes1, disk1, dirs, links)
  {
    NoBindings();
    hide Content, EntryInum, OnlyCleared, LinksCover, NamesParent, Links;
    if Dropped(users, links, ip) { NoNameOfFile(inodes, disk, inodes1, disk1, dirs, nlink, links, dp, ip, at); }
    if dp != 0 && Dropped(users, links, dp) && (ip in dirs ==> NamesParent(inodes, disk, ip, dp)) {
      NoNameOfDir(inodes, disk, inodes1, disk1, dirs, nlink, links, dp, ip, at);
    }
    if ip in dirs ==> NamesParent(inodes, disk, ip, dp) && Dropped(users, links, ip) {
      LinksStillCover(inodes, disk, inodes1, disk1, dirs, nlink, links, dp, ip, at);
    }
  }

  /** ... and for one that was not. */
  lemma SameLinks(
    inodes: Inodes, disk: Disk, inodes1: Inodes, disk1: Disk, dirs: set<int>, nlink: map<int, int>, links: map<int, int>,
    users: set<int>, dp: nat)
    requires OnlyCleared(inodes, disk, inodes1, disk1, dirs) && LinksCover(inodes, disk, dirs, nlink) && links == nlink
    ensures dp != 0 && Dropped(users, links, dp) ==>
      forall d, k :: d in dirs && d in inodes1 && d != dp ==> EntryInum(Content(inodes1, disk1, d), k) != dp
    ensures LinksCover(inodes1, disk1, dirs, links)
  {
    if dp != 0 && Dropped(users, links, dp) { NoNameLeft(inodes, disk, inodes1, disk1, dirs, nlink, dp); }
    hide Content, EntryInum, NamesOf, OnlyCleared, Links;
    forall n | n != 0 ensures |NamesOf(inodes1, disk1, dirs, n)| <= Links(links, n) {
      NamesFewer(inodes, disk, inodes1, disk1, dirs, n);
      Smaller(NamesOf(inodes1, disk1, dirs, n), NamesOf(inodes, disk, dirs, n));
    }
  }

  lemma OnlyDotsMeans(c: seq<int>)
    ensures OnlyDots(c) <==> forall k :: k >= 2 ==> EntryInum(c, k) == 0
  {
  }

  lemma NoBindings()
    ensures IsDir([]) && Bindings([]) == map[] && forall i :: EntryInum([], i) == 0
  {
  }

  lemma WholeEntries(c: seq<int>)
    requires IsDir(c)
    ensures |c| % DE == 0
  {
  }

  /** The entry zeroed by writei, which lies inside the directory. */
  method ZeroEntry(fs: Fs, dp: nat, off: nat, ghost k: nat, ghost key: seq<int>)
    requires fs.Valid() && dp in fs.inodes && off == DE * k && IsDir(Content(fs.inodes, fs.disk, dp))
    requires Live(Content(fs.inodes, fs.disk, dp), k, key)
    modifies fs`bitmap, fs`disk, fs`logged, fs`inodes
    ensures fs.Valid() && fs.inodes.Keys == old(fs.inodes).Keys
    ensures forall n :: n in fs.inodes && n != dp ==>
      Content(fs.inodes, fs.disk, n) == Content(old(fs.inodes), old(fs.disk), n)
    ensures IsDir(Content(fs.inodes, fs.disk, dp))
    ensures Bindings(Content(fs.inodes, fs.disk, dp)) == Bindings(Content(old(fs.inodes), old(fs.disk), dp)) - {key}
    ensures forall i ::
      EntryInum(Content(fs.inodes, fs.disk, dp), i) ==
        if i == k then 0 else EntryInum(Content(old(fs.inodes), old(fs.disk), dp), i)
  {
    hide Content, EntryInum, EntryName, Owned, NoHoles, SizesOk, UniqueNames, Full, EntryPut, Bindings, Key, Live;
    ghost var c := Content(fs.inodes, fs.disk, dp);
    LiveInside(c, k, key);
    var w := WriteEntry(fs, dp, off, Nuls(DE), k, 0, key);
    UnlinkBindings(c, Content(fs.inodes, fs.disk, dp), k, key);
    PutInums(c, Content(fs.inodes, fs.disk, dp), k, 0, key);
  }

  /** nlink after the decrements, the parent's only if a directory goes. */
  function DropLinks(nlink: map<int, int>, ip: int, dp: int, isDir: bool): (links: map<int, int>)
    ensures ip != dp ==>
      forall n :: Links(links, n) == Links(nlink, n) - if n == ip || (n == dp && isDir) then 1 else 0
  {
    var links := if isDir then nlink[dp := Links(nlink, dp) - 1] else nlink;
    links[ip := Links(links, ip) - 1]
  }

  lemma LiveInside(c: seq<int>, k: int, key: seq<int>)
    requires Live(c, k, key)
    ensures DE * k < |c|
  {
  }

  lemma DotKeys()
    ensures Key([46, 0]) == [46] && Key([46, 46, 0]) == [46, 46]
  {
    assert Stop([46, 0], DIRSIZ, 0) == 1;
    assert Stop([46, 46, 0], DIRSIZ, 0) == 2;
  }
}
