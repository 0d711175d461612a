/**
 Directory blocks of ext2 as bytes: each block is tiled by entries, an entry
 saying with `reclen` where the next one begins.
 */
module ExtDirent {
  import opened Sequences
  type Byte = b: nat | b < 256
  type Bytes = seq<Byte>

  const HEADER := 8

  /** struct ext_dirent with the bytes after it, up to the next entry. */
  datatype Entry = Entry(inode: nat, reclen: nat, nameLen: nat, fileType: nat, area: Bytes)

  function Le16(x: nat): (b: Bytes)
    ensures |b| == 2
  {
    [x % 256, x / 256 % 256]
  }

  function Le32(x: nat): (b: Bytes)
    ensures |b| == 4
  {
    Le16(x % 65536) + Le16(x / 65536)
  }

  function Get16(b: Bytes, o: nat): nat
    requires o + 2 <= |b|
  {
    var lo: nat, hi: nat := b[o], b[o + 1];
    lo + 256 * hi
  }

  function Get32(b: Bytes, o: nat): nat
    requires o + 4 <= |b|
  {
    Get16(b, o) + 65536 * Get16(b, o + 2)
  }

  predicate Fits(e: Entry) {
    e.inode < 0x1_0000_0000 && e.reclen < 65536 && e.nameLen < 256 && e.fileType < 256
  }

  function Encode(e: Entry): (b: Bytes)
    ensures |b| == HEADER + |e.area|
  {
    Le32(e.inode) + Le16(e.reclen) + [e.nameLen % 256, e.fileType % 256] + e.area
  }

  /** The fields of an entry, read where it is stored. */
  lemma ReadFields(b: Bytes, o: nat, e: Entry)
    requires Fits(e) && o + HEADER + |e.area| <= |b| && b[o..o + HEADER + |e.area|] == Encode(e)
    ensures Get32(b, o) == e.inode && Get16(b, o + 4) == e.reclen && b[o + 6] == e.nameLen && b[o + 7] == e.fileType
    ensures b[o + HEADER..o + HEADER + |e.area|] == e.area
  {
    var w := Encode(e);
    assert forall i | 0 <= i < |w| :: b[o + i] == w[i];
    var hi, lo := e.inode / 65536, e.inode % 65536;
    assert w[0] == lo % 256 && w[1] == lo / 256 % 256 && w[2] == hi % 256 && w[3] == hi / 256 % 256;
    assert w[4] == e.reclen % 256 && w[5] == e.reclen / 256 % 256;
    assert w[6] == e.nameLen && w[7] == e.fileType && w[HEADER..] == e.area;
  }

  /** Writing inside a stretch that was just written writes into that stretch. */
  lemma SpliceInside(b: Bytes, o: nat, w: Bytes, i: nat, v: Bytes)
    requires o + |w| <= |b| && i + |v| <= |w|
    ensures Splice<Byte>(Splice<Byte>(b, o, w), o + i, v) == Splice<Byte>(b, o, Splice<Byte>(w, i, v))
  {
    var l, r := Splice<Byte>(Splice<Byte>(b, o, w), o + i, v), Splice<Byte>(b, o, Splice<Byte>(w, i, v));
    forall k | 0 <= k < |b| ensures l[k] == r[k] {}
  }

  lemma InsideThrice(b: Bytes, o: nat, w: Bytes, i: nat, u: Bytes, j: nat, v: Bytes, k: nat, x: Bytes)
    requires o + |w| <= |b| && i + |u| <= |w| && j + |v| <= |w| && k + |x| <= |w|
    ensures Splice<Byte>(Splice<Byte>(Splice<Byte>(Splice<Byte>(b, o, w), o + i, u), o + j, v), o + k, x)
         == Splice<Byte>(b, o, Splice<Byte>(Splice<Byte>(Splice<Byte>(w, i, u), j, v), k, x))
  {
    var w1 := Splice<Byte>(w, i, u);
    var w2 := Splice<Byte>(w1, j, v);
    SpliceInside(b, o, w, i, u);
    SpliceInside(b, o, w1, j, v);
    SpliceInside(b, o, w2, k, x);
  }

  /** An entry a driver wrote: in use with a name that fits, or a hole with an empty name. */
  ghost predicate EntryOk(e: Entry) {
    && Fits(e) && e.reclen == HEADER + |e.area| && |e.area| >= 4 && e.reclen % 4 == 0
    && if e.inode == 0 then e.nameLen == 0 && e.area[0] == 0
       else 0 < e.nameLen <= |e.area| && forall i | 0 <= i < e.nameLen :: e.area[i] != 0
  }

  function Name(e: Entry): Bytes {
    if e.nameLen <= |e.area| then e.area[..e.nameLen] else []
  }

  predicate Live(e: Entry, name: Bytes) {
    e.inode != 0 && Name(e) == name
  }

  ghost predicate AllOk(es: seq<Entry>) {
    forall j {:trigger es[j]} | 0 <= j < |es| :: EntryOk(es[j])
  }

  /** The bytes of a run of entries. */
  function Flat(es: seq<Entry>): Bytes {
    if es == [] then [] else Encode(es[0]) + Flat(es[1..])
  }

  lemma {:induction false} FlatConcat(a: seq<Entry>, b: seq<Entry>)
    ensures Flat(a + b) == Flat(a) + Flat(b)
  {
    if a == [] {
      assert a + b == b;
    } else {
      FlatConcat(a[1..], b);
      assert (a + b)[1..] == a[1..] + b;
    }
  }

  lemma FlatOne(e: Entry)
    ensures Flat([e]) == Encode(e)
  {
    assert [e][1..] == [];
  }

  lemma FlatThree(a: seq<Entry>, b: seq<Entry>, c: seq<Entry>)
    ensures Flat(a + b + c) == Flat(a) + Flat(b) + Flat(c)
  {
    FlatConcat(a, b);
    FlatConcat(a + b, c);
  }

  lemma SpliceMiddle(x: Bytes, y: Bytes, y': Bytes, z: Bytes)
    requires |y'| == |y|
    ensures Splice<Byte>(x + y + z, |x|, y') == x + y' + z
  {
    var b := x + y + z;
    assert b[..|x|] == x && b[|x| + |y|..] == z;
  }

  /** Writing the bytes of entries over those of others replaces them. */
  lemma FlatReplace(a: seq<Entry>, b: seq<Entry>, b': seq<Entry>, c: seq<Entry>)
    requires |Flat(b')| == |Flat(b)|
    ensures |Flat(a)| + |Flat(b')| <= |Flat(a + b + c)|
    ensures Flat(a + b' + c) == Splice<Byte>(Flat(a + b + c), |Flat(a)|, Flat(b'))
  {
    FlatThree(a, b, c);
    FlatThree(a, b', c);
    SpliceMiddle(Flat(a), Flat(b), Flat(b'), Flat(c));
  }

  // Edits of one block, in the order the driver makes them.

  function Zeros(n: nat): (z: Bytes)
    ensures |z| == n && forall i | 0 <= i < n :: z[i] == 0
  {
    seq(n, i => 0)
  }

  lemma SpliceNext(b: Bytes, o: nat, u: Bytes, v: Bytes)
    requires o + |u| + |v| <= |b|
    ensures Splice<Byte>(Splice<Byte>(b, o, u), o + |u|, v) == Splice<Byte>(b, o, u + v)
  {
    var l, r := Splice<Byte>(Splice<Byte>(b, o, u), o + |u|, v), Splice<Byte>(b, o, u + v);
    forall k | 0 <= k < |b| ensures l[k] == r[k] {}
  }

  /** A fresh entry for a name, padded with zeros to `reclen`. */
  function NewEntry(ino: nat, reclen: nat, fileType: nat, name: Bytes): Entry
    requires HEADER + |name| <= reclen
  {
    Entry(ino, reclen, |name|, fileType, name + Zeros(reclen - HEADER - |name|))
  }

  /** The end of Link: field by field, then the name with strncpy. */
  function WriteEntry(b: Bytes, o: nat, ino: nat, reclen: nat, fileType: nat, name: Bytes): (r: Bytes)
    requires o + reclen <= |b| && HEADER + |name| <= reclen
    ensures |r| == |b|
  {
    var b := Splice<Byte>(b, o, Le32(ino));
    var b := Splice<Byte>(b, o + 4, Le16(reclen));
    var b := Splice<Byte>(b, o + 6, [|name| % 256]);
    var b := Splice<Byte>(b, o + 7, [fileType % 256]);
    Splice<Byte>(b, o + HEADER, name + Zeros(reclen - HEADER - |name|))
  }

  lemma WriteEntryIs(b: Bytes, o: nat, ino: nat, reclen: nat, fileType: nat, name: Bytes)
    requires o + reclen <= |b| && HEADER + |name| <= reclen
    ensures WriteEntry(b, o, ino, reclen, fileType, name) == Splice<Byte>(b, o, Encode(NewEntry(ino, reclen, fileType, name)))
  {
    var x1, x2, x3, x4 := Le32(ino), Le16(reclen), [|name| % 256], [fileType % 256];
    SpliceNext(b, o, x1, x2);
    SpliceNext(b, o, x1 + x2, x3);
    SpliceNext(b, o, x1 + x2 + x3, x4);
    SpliceNext(b, o, x1 + x2 + x3 + x4, name + Zeros(reclen - HEADER - |name|));
    assert x3 + x4 == [|name| % 256, fileType % 256];
    assert x1 + x2 + x3 + x4 == x1 + x2 + (x3 + x4);
  }

  function SetReclen(b: Bytes, o: nat, reclen: nat): (r: Bytes)
    requires o + HEADER <= |b|
    ensures |r| == |b|
  {
    Splice<Byte>(b, o + 4, Le16(reclen))
  }

  /** The first part of UnlinkKeep: the entry no longer names anything. */
  function ClearHeader(b: Bytes, o: nat): (r: Bytes)
    requires o + HEADER <= |b|
    ensures |r| == |b|
  {
    var b := Splice<Byte>(b, o, Le32(0));
    var b := Splice<Byte>(b, o + 6, [0]);
    Splice<Byte>(b, o + 7, [0])
  }

  lemma SpliceSame(b: Bytes, o: nat, w: Bytes)
    requires o + |w| <= |b| && b[o..o + |w|] == w
    ensures Splice<Byte>(b, o, w) == b
  {
    assert b == b[..o] + b[o..o + |w|] + b[o + |w|..];
  }

  lemma EncodeReclen(e: Entry, reclen: nat)
    ensures Splice<Byte>(Encode(e), 4, Le16(reclen)) == Encode(e.(reclen := reclen))
  {
    SpliceMiddle(Le32(e.inode), Le16(e.reclen), Le16(reclen), [e.nameLen % 256, e.fileType % 256] + e.area);
    Regroup(Le32(e.inode), Le16(e.reclen), [e.nameLen % 256, e.fileType % 256], e.area);
    Regroup(Le32(e.inode), Le16(reclen), [e.nameLen % 256, e.fileType % 256], e.area);
  }

  lemma Regroup(a: Bytes, b: Bytes, c: Bytes, d: Bytes)
    ensures a + b + (c + d) == a + b + c + d
  {
  }

  lemma EncodeCleared(e: Entry)
    ensures ClearHeader(Encode(e), 0) == Encode(Entry(0, e.reclen, 0, 0, e.area))
  {
    var h, n, t := Le16(e.reclen), [e.nameLen % 256], [e.fileType % 256];
    var w := Encode(e);
    assert w == [] + Le32(e.inode) + (h + n + t + e.area);
    SpliceMiddle([], Le32(e.inode), Le32(0), h + n + t + e.area);
    var w1 := Splice<Byte>(w, 0, Le32(0));
    assert w1 == Le32(0) + h + n + (t + e.area);
    SpliceMiddle(Le32(0) + h, n, [0], t + e.area);
    var w2 := Splice<Byte>(w1, 6, [0]);
    assert w2 == Le32(0) + h + [0] + t + e.area;
    SpliceMiddle(Le32(0) + h + [0], t, [0], e.area);
    assert Le32(0) + h + [0] + [0] == Le32(0) + h + [0, 0];
  }

  lemma ClearInside(b: Bytes, o: nat, w: Bytes, i: nat)
    requires o + |w| <= |b| && i + HEADER <= |w|
    ensures ClearHeader(Splice<Byte>(b, o, w), o + i) == Splice<Byte>(b, o, ClearHeader(w, i))
  {
    InsideThrice(b, o, w, i, Le32(0), i + 6, [0], i + 7, [0]);
  }

  /** The hole an entry leaves when there is no entry before it. */
  function Hole(reclen: nat): Entry
    requires reclen >= HEADER
  {
    Entry(0, reclen, 0, 0, Zeros(reclen - HEADER))
  }

  /** Removing the first entry of a block: the header, then the name area. */
  lemma ClearedAlone(b: Bytes, o: nat, e: Entry)
    requires e.reclen == HEADER + |e.area| && o + e.reclen <= |b| && b[o..o + e.reclen] == Encode(e)
    ensures Splice<Byte>(ClearHeader(b, o), o + HEADER, Zeros(|e.area|)) == Splice<Byte>(b, o, Encode(Hole(e.reclen)))
  {
    var w := Encode(e);
    SpliceSame(b, o, w);
    ClearInside(b, o, w, 0);
    EncodeCleared(e);
    SpliceInside(b, o, ClearHeader(w, 0), HEADER, Zeros(|e.area|));
    var h := Le32(0) + Le16(e.reclen) + [0, 0];
    SpliceMiddle(h, e.area, Zeros(|e.area|), []);
    assert h + e.area + [] == ClearHeader(w, 0);
    assert h + Zeros(|e.area|) + [] == Encode(Hole(e.reclen));
  }

  /** An entry that has swallowed the one after it. */
  function Merged(p: Entry, more: nat): Entry
    requires p.nameLen <= |p.area|
  {
    Entry(p.inode, p.reclen + more, p.nameLen, p.fileType, Name(p) + Zeros(|p.area| + more - p.nameLen))
  }

  /** Zeroing everything after the name of the first entry leaves its header and name. */
  lemma KeepName(p: Entry, w: Bytes, reclen: nat)
    requires p.nameLen <= |p.area| && |w| >= HEADER + p.nameLen
    requires w[..HEADER + p.nameLen] == Encode(p.(reclen := reclen))[..HEADER + p.nameLen]
    ensures Splice<Byte>(w, HEADER + p.nameLen, Zeros(|w| - HEADER - p.nameLen))
         == Encode(Entry(p.inode, reclen, p.nameLen, p.fileType, Name(p) + Zeros(|w| - HEADER - p.nameLen)))
  {
    var h := Le32(p.inode) + Le16(reclen) + [p.nameLen % 256, p.fileType % 256];
    assert Encode(p.(reclen := reclen))[..HEADER + p.nameLen] == h + Name(p);
  }

  /** What UnlinkKeep does to the bytes of an entry `p` and the entry after it, `at` bytes in. */
  function MergeBytes(b: Bytes, o: nat, at: nat, reclen: nat, more: nat, nameLen: nat): (r: Bytes)
    requires o + at + more <= |b| && HEADER <= more && HEADER + nameLen <= at == reclen
    ensures |r| == |b|
  {
    var b := ClearHeader(b, o + at);
    var b := SetReclen(b, o, reclen + more);
    var b := Splice<Byte>(b, o + at, Zeros(more));
    Splice<Byte>(b, o + HEADER + nameLen, Zeros(reclen + more - HEADER - nameLen))
  }

  lemma MergeInside(b: Bytes, o: nat, w: Bytes, reclen: nat, nameLen: nat)
    requires o + |w| <= |b| && HEADER + nameLen <= reclen && reclen + HEADER <= |w|
    ensures MergeBytes(Splice<Byte>(b, o, w), o, reclen, reclen, |w| - reclen, nameLen)
         == Splice<Byte>(b, o, MergeBytes(w, 0, reclen, reclen, |w| - reclen, nameLen))
  {
    ClearInside(b, o, w, reclen);
    var w1 := ClearHeader(w, reclen);
    SpliceInside(b, o, w1, 4, Le16(|w|));
    var w2 := Splice<Byte>(w1, 4, Le16(|w|));
    SpliceInside(b, o, w2, reclen, Zeros(|w| - reclen));
    var w3 := Splice<Byte>(w2, reclen, Zeros(|w| - reclen));
    SpliceInside(b, o, w3, HEADER + nameLen, Zeros(|w| - HEADER - nameLen));
  }

  lemma MergeKeepsName(p: Entry, w: Bytes, more: nat)
    requires HEADER <= more && p.nameLen <= |p.area| && |w| == HEADER + |p.area| + more
    requires w[..HEADER + |p.area|] == Encode(p)
    ensures var k := HEADER + p.nameLen;
      var w3 := Splice<Byte>(SetReclen(ClearHeader(w, HEADER + |p.area|), 0, |w|), HEADER + |p.area|, Zeros(more));
      w3[..k] == Encode(p.(reclen := |w|))[..k]
  {
    var r, k := HEADER + |p.area|, HEADER + p.nameLen;
    var w1 := ClearHeader(w, r);
    var w2 := SetReclen(w1, 0, |w|);
    ClearAfter(w, r, k);
    SpliceAfter(w2, r, Zeros(more), k);
    SpliceBefore(w1, 4, Le16(|w|), k);
    SpliceBefore(Encode(p), 4, Le16(|w|), k);
    EncodeReclen(p, |w|);
    assert w[..k] == w[..r][..k];
  }

  lemma MergePair(p: Entry, e: Entry)
    requires p.reclen == HEADER + |p.area| && e.reclen == HEADER + |e.area| && p.nameLen <= |p.area|
    ensures MergeBytes(Encode(p) + Encode(e), 0, p.reclen, p.reclen, e.reclen, p.nameLen) == Encode(Merged(p, e.reclen))
  {
    var w := Encode(p) + Encode(e);
    MergeKeepsName(p, w, e.reclen);
    KeepName(p, Splice<Byte>(SetReclen(ClearHeader(w, p.reclen), 0, |w|), p.reclen, Zeros(e.reclen)), |w|);
  }

  lemma SpliceAfter(b: Bytes, o: nat, w: Bytes, k: nat)
    requires k <= o && o + |w| <= |b|
    ensures Splice<Byte>(b, o, w)[..k] == b[..k]
  {
  }

  lemma SpliceBefore(b: Bytes, o: nat, w: Bytes, k: nat)
    requires o + |w| <= k <= |b|
    ensures Splice<Byte>(b, o, w)[..k] == Splice<Byte>(b[..k], o, w)
  {
  }

  lemma ClearAfter(b: Bytes, o: nat, k: nat)
    requires k <= o && o + HEADER <= |b|
    ensures ClearHeader(b, o)[..k] == b[..k]
  {
    SpliceAfter(b, o, Le32(0), k);
    var b1 := Splice<Byte>(b, o, Le32(0));
    SpliceAfter(b1, o + 6, [0], k);
    SpliceAfter(Splice<Byte>(b1, o + 6, [0]), o + 7, [0], k);
  }

  /** Removing an entry after another one: the two become one. */
  lemma ClearedMerged(b: Bytes, o: nat, p: Entry, e: Entry)
    requires p.reclen == HEADER + |p.area| && e.reclen == HEADER + |e.area| && p.nameLen <= |p.area|
    requires o + p.reclen + e.reclen <= |b| && b[o..o + p.reclen + e.reclen] == Encode(p) + Encode(e)
    ensures MergeBytes(b, o, p.reclen, p.reclen, e.reclen, p.nameLen) == Splice<Byte>(b, o, Encode(Merged(p, e.reclen)))
  {
    var w := Encode(p) + Encode(e);
    SpliceSame(b, o, w);
    MergeInside(b, o, w, p.reclen, p.nameLen);
    MergePair(p, e);
  }

  /** An entry cut down to its first `size` bytes. */
  function Shortened(e: Entry, size: nat): Entry
    requires HEADER <= size <= HEADER + |e.area|
  {
    e.(reclen := size, area := e.area[..size - HEADER])
  }

  /** Splitting an entry: a shorter `reclen`, then a new entry in the rest. */
  lemma SplitBytes(b: Bytes, o: nat, e: Entry, size: nat, n: Entry)
    requires e.reclen == HEADER + |e.area| && HEADER <= size <= e.reclen && |Encode(n)| == e.reclen - size
    requires o + e.reclen <= |b| && b[o..o + e.reclen] == Encode(e)
    ensures Splice<Byte>(SetReclen(b, o, size), o + size, Encode(n)) == Splice<Byte>(b, o, Encode(Shortened(e, size)) + Encode(n))
  {
    var w := Encode(e);
    SpliceSame(b, o, w);
    SpliceInside(b, o, w, 4, Le16(size));
    EncodeReclen(e, size);
    var w1 := Encode(e.(reclen := size));
    SpliceInside(b, o, w1, size, Encode(n));
    assert w1[..size] == Encode(Shortened(e, size));
    assert Splice<Byte>(w1, size, Encode(n)) == w1[..size] + Encode(n);
  }

  // What a directory stands for.

  /** 1 if the entry binds `name` to `ino`. */
  function Hit(e: Entry, name: Bytes, ino: nat): nat {
    if Live(e, name) && e.inode == ino then 1 else 0
  }

  /** How many entries bind `name` to `ino`. */
  function Count(es: seq<Entry>, name: Bytes, ino: nat): nat {
    if es == [] then 0 else Hit(es[0], name, ino) + Count(es[1..], name, ino)
  }

  lemma {:induction false} CountConcat(a: seq<Entry>, b: seq<Entry>, name: Bytes, ino: nat)
    ensures Count(a + b, name, ino) == Count(a, name, ino) + Count(b, name, ino)
  {
    if a == [] {
      assert a + b == b;
    } else {
      CountConcat(a[1..], b, name, ino);
      assert (a + b)[1..] == a[1..] + b;
    }
  }

  lemma {:induction false} CountPositive(es: seq<Entry>, name: Bytes, ino: nat, j: nat)
    requires j < |es| && Live(es[j], name) && es[j].inode == ino
    ensures Count(es, name, ino) > 0
  {
    if j > 0 { CountPositive(es[1..], name, ino, j - 1); }
  }

  ghost predicate Absent(es: seq<Entry>, name: Bytes) {
    forall j {:trigger es[j]} | 0 <= j < |es| :: !Live(es[j], name)
  }

  lemma {:induction false} CountAbsent(es: seq<Entry>, name: Bytes, ino: nat)
    requires Absent(es, name)
    ensures Count(es, name, ino) == 0
  {
    if es != [] { CountAbsent(es[1..], name, ino); }
  }

  function Total(tiles: seq<seq<Entry>>, name: Bytes, ino: nat): nat {
    if tiles == [] then 0 else Total(tiles[..|tiles| - 1], name, ino) + Count(tiles[|tiles| - 1], name, ino)
  }

  /** Changing one block changes the total by the difference. */
  lemma {:induction false} TotalUpdate(tiles: seq<seq<Entry>>, k: nat, es: seq<Entry>, name: Bytes, ino: nat)
    requires k < |tiles|
    ensures Total(tiles[k := es], name, ino) + Count(tiles[k], name, ino) == Total(tiles, name, ino) + Count(es, name, ino)
  {
    var n := |tiles| - 1;
    if k < n {
      TotalUpdate(tiles[..n], k, es, name, ino);
      assert tiles[k := es][..n] == tiles[..n][k := es];
    } else {
      assert tiles[k := es][..n] == tiles[..n];
    }
  }

  lemma {:induction false} TotalPositive(tiles: seq<seq<Entry>>, k: nat, name: Bytes, ino: nat)
    requires k < |tiles| && Count(tiles[k], name, ino) > 0
    ensures Total(tiles, name, ino) > 0
  {
    if k < |tiles| - 1 { TotalPositive(tiles[..|tiles| - 1], k, name, ino); }
  }

  lemma {:induction false} TotalAbsent(tiles: seq<seq<Entry>>, name: Bytes, ino: nat)
    requires forall k | 0 <= k < |tiles| :: Absent(tiles[k], name)
    ensures Total(tiles, name, ino) == 0
  {
    if tiles != [] {
      TotalAbsent(tiles[..|tiles| - 1], name, ino);
      CountAbsent(tiles[|tiles| - 1], name, ino);
    }
  }

  /** The directory binds each name of the finite map `m` once, to its inode, and no other name. */
  ghost predicate Represents(tiles: seq<seq<Entry>>, m: map<Bytes, nat>) {
    forall name, ino {:trigger Total(tiles, name, ino)} :: Total(tiles, name, ino) == Bound(m, name, ino)
  }

  function Bound(m: map<Bytes, nat>, name: Bytes, ino: nat): nat {
    if name in m && m[name] == ino then 1 else 0
  }

  function Bit(b: bool): nat {
    if b then 1 else 0
  }

  /** `es'` binds `name` to `ino` once more than `es`, and everything else as often. */
  ghost predicate Plus(es: seq<Entry>, es': seq<Entry>, name: Bytes, ino: nat) {
    forall n, i {:trigger Count(es', n, i)} :: Count(es', n, i) == Count(es, n, i) + Bit(n == name && i == ino)
  }

  lemma PlusAround(a: seq<Entry>, b: seq<Entry>, b': seq<Entry>, c: seq<Entry>, name: Bytes, ino: nat)
    requires Plus(b, b', name, ino)
    ensures Plus(a + b + c, a + b' + c, name, ino)
  {
    forall n, i ensures Count(a + b' + c, n, i) == Count(a + b + c, n, i) + Bit(n == name && i == ino) {
      CountConcat(a, b, n, i);
      CountConcat(a + b, c, n, i);
      CountConcat(a, b', n, i);
      CountConcat(a + b', c, n, i);
      assert Count(b', n, i) == Count(b, n, i) + Bit(n == name && i == ino);
    }
  }

  lemma CountOne(e: Entry, name: Bytes, ino: nat)
    ensures Count([e], name, ino) == Hit(e, name, ino)
  {
    assert [e][1..] == [];
  }

  lemma CountTwo(d: Entry, e: Entry, name: Bytes, ino: nat)
    ensures Count([d, e], name, ino) == Hit(d, name, ino) + Hit(e, name, ino)
  {
    assert [d, e][1..] == [e];
    CountOne(e, name, ino);
  }

  lemma AddName(tiles: seq<seq<Entry>>, k: nat, es: seq<Entry>, m: map<Bytes, nat>, name: Bytes, ino: nat)
    requires Represents(tiles, m) && k < |tiles| && name !in m && Plus(tiles[k], es, name, ino)
    ensures Represents(tiles[k := es], m[name := ino])
  {
    var tiles', m' := tiles[k := es], m[name := ino];
    forall n, i ensures Total(tiles', n, i) == Bound(m', n, i) {
      TotalUpdate(tiles, k, es, n, i);
      assert Total(tiles, n, i) == Bound(m, n, i);
    }
  }

  lemma DropName(tiles: seq<seq<Entry>>, k: nat, es: seq<Entry>, m: map<Bytes, nat>, name: Bytes, ino: nat)
    requires Represents(tiles, m) && k < |tiles| && name in m && m[name] == ino && Plus(es, tiles[k], name, ino)
    ensures Represents(tiles[k := es], m - {name})
  {
    var tiles', m' := tiles[k := es], m - {name};
    forall n, i ensures Total(tiles', n, i) == Bound(m', n, i) {
      TotalUpdate(tiles, k, es, n, i);
      assert Total(tiles, n, i) == Bound(m, n, i);
      assert Count(tiles[k], n, i) == Count(es, n, i) + Bit(n == name && i == ino);
    }
  }

  lemma AppendName(tiles: seq<seq<Entry>>, e: Entry, m: map<Bytes, nat>, name: Bytes, ino: nat)
    requires Represents(tiles, m) && name !in m && Live(e, name) && e.inode == ino
    ensures Represents(tiles + [[e]], m[name := ino])
  {
    var tiles', m' := tiles + [[e]], m[name := ino];
    forall n, i ensures Total(tiles', n, i) == Bound(m', n, i) {
      assert tiles'[..|tiles|] == tiles;
      CountOne(e, n, i);
      assert Total(tiles, n, i) == Bound(m, n, i);
    }
  }

  /** Overwriting a block that binds nothing with the last one, and dropping the last one, changes no binding. */
  lemma DropBlock(tiles: seq<seq<Entry>>, k: nat, m: map<Bytes, nat>)
    requires Represents(tiles, m) && k < |tiles| && forall n, i {:trigger Count(tiles[k], n, i)} :: Count(tiles[k], n, i) == 0
    ensures Represents(tiles[k := tiles[|tiles| - 1]][..|tiles| - 1], m)
  {
    var last := |tiles| - 1;
    var moved := tiles[k := tiles[last]];
    forall n, i ensures Total(moved[..last], n, i) == Bound(m, n, i) {
      TotalUpdate(tiles, k, tiles[last], n, i);
      assert Total(tiles, n, i) == Bound(m, n, i);
      assert Count(tiles[k], n, i) == 0;
    }
  }

  /** A name some entry carries is bound to its inode. */
  lemma FoundName(tiles: seq<seq<Entry>>, m: map<Bytes, nat>, k: nat, j: nat, name: Bytes)
    requires Represents(tiles, m) && k < |tiles| && j < |tiles[k]| && Live(tiles[k][j], name)
    ensures name in m && m[name] == tiles[k][j].inode
  {
    var ino := tiles[k][j].inode;
    CountPositive(tiles[k], name, ino, j);
    TotalPositive(tiles, k, name, ino);
    assert Total(tiles, name, ino) == Bound(m, name, ino);
  }

  /** A name no entry carries is not bound. */
  lemma MissingName(tiles: seq<seq<Entry>>, m: map<Bytes, nat>, name: Bytes)
    requires Represents(tiles, m) && forall k | 0 <= k < |tiles| :: Absent(tiles[k], name)
    ensures name !in m
  {
    if name in m {
      assert Total(tiles, name, m[name]) == 1;
      TotalAbsent(tiles, name, m[name]);
    }
  }

  // One block and its entries.

  /** The entries tile the block, and only the first of them may be a hole. */
  ghost predicate Tiled(size: nat, b: Bytes, es: seq<Entry>) {
    && |es| > 0 && AllOk(es) && b == Flat(es) && |b| == size
    && forall j {:trigger es[j]} | 0 < j < |es| :: es[j].inode != 0
  }

  /** A tiled block that binds at least one name. */
  predicate Binds(es: seq<Entry>) {
    |es| > 0 && (es[0].inode == 0 ==> |es| > 1)
  }

  /** Where entry `j` begins. */
  function At(es: seq<Entry>, j: nat): nat
    requires j <= |es|
  {
    |Flat(es[..j])|
  }

  lemma HereBytes(size: nat, b: Bytes, es: seq<Entry>, j: nat)
    requires Tiled(size, b, es) && j < |es|
    ensures EntryOk(es[j]) && At(es, j) + es[j].reclen == At(es, j + 1) <= size
    ensures b[At(es, j)..At(es, j) + es[j].reclen] == Encode(es[j])
  {
    var e := es[j];
    FlatOne(e);
    FlatConcat(es[..j], [e]);
    assert es[..j + 1] == es[..j] + [e];
    FlatConcat(es[..j + 1], es[j + 1..]);
    assert es == es[..j + 1] + es[j + 1..];
  }

  lemma Here(size: nat, b: Bytes, es: seq<Entry>, j: nat)
    requires Tiled(size, b, es) && j < |es|
    ensures var o, e := At(es, j), es[j];
      && EntryOk(e) && o + e.reclen == At(es, j + 1) <= size && b[o..o + e.reclen] == Encode(e)
      && Get32(b, o) == e.inode && Get16(b, o + 4) == e.reclen && b[o + 6] == e.nameLen && b[o + 7] == e.fileType
      && b[o + HEADER..o + e.reclen] == e.area
  {
    HereBytes(size, b, es, j);
    ReadFields(b, At(es, j), es[j]);
  }

  lemma SliceJoin(b: Bytes, o: nat, m: nat, n: nat, u: Bytes, v: Bytes)
    requires o <= m <= n <= |b| && b[o..m] == u && b[m..n] == v
    ensures b[o..n] == u + v
  {
  }

  lemma PairHere(size: nat, b: Bytes, es: seq<Entry>, j: nat)
    requires Tiled(size, b, es) && 0 < j < |es|
    ensures At(es, j - 1) + es[j - 1].reclen == At(es, j) && At(es, j) + es[j].reclen <= size
    ensures b[At(es, j - 1)..At(es, j) + es[j].reclen] == Encode(es[j - 1]) + Encode(es[j])
  {
    HereBytes(size, b, es, j - 1);
    HereBytes(size, b, es, j);
    SliceJoin(b, At(es, j - 1), At(es, j), At(es, j) + es[j].reclen, Encode(es[j - 1]), Encode(es[j]));
  }

  lemma {:induction false} AtEnd(size: nat, b: Bytes, es: seq<Entry>)
    requires Tiled(size, b, es)
    ensures At(es, |es|) == size && At(es, 0) == 0
  {
    assert es[..|es|] == es && es[..0] == [];
  }

  /** An entry fills its block exactly when it is alone in it. */
  lemma AloneWhen(size: nat, b: Bytes, es: seq<Entry>, i: nat)
    requires Tiled(size, b, es) && i < |es|
    ensures es[i].reclen == size <==> |es| == 1
  {
    AtEnd(size, b, es);
    HereBytes(size, b, es, i);
    if i > 0 { HereBytes(size, b, es, i - 1); }
    if i + 1 < |es| { HereBytes(size, b, es, i + 1); }
  }

  /** The entries from `i` to `j - 1` replaced. */
  function Replaced(es: seq<Entry>, i: nat, j: nat, es': seq<Entry>): seq<Entry>
    requires i <= j <= |es|
  {
    es[..i] + es' + es[j..]
  }

  lemma ReplaceTiles(size: nat, b: Bytes, es: seq<Entry>, i: nat, j: nat, es': seq<Entry>)
    requires Tiled(size, b, es) && i <= j <= |es| && |Flat(es')| == |Flat(es[i..j])|
    ensures At(es, i) + |Flat(es')| <= |b| && Flat(Replaced(es, i, j, es')) == Splice<Byte>(b, At(es, i), Flat(es'))
  {
    FlatReplace(es[..i], es[i..j], es', es[j..]);
    assert es == es[..i] + es[i..j] + es[j..];
  }

  /** An entry in use may come anywhere, a hole only first. */
  lemma ReplaceOk(size: nat, b: Bytes, es: seq<Entry>, i: nat, j: nat, es': seq<Entry>)
    requires Tiled(size, b, es) && i <= j <= |es| && |Flat(es')| == |Flat(es[i..j])| && AllOk(es') && |es'| > 0
    requires forall k {:trigger es'[k]} | 0 <= k < |es'| && (i > 0 || k > 0) :: es'[k].inode != 0
    ensures At(es, i) + |Flat(es')| <= |b| && Tiled(size, Splice<Byte>(b, At(es, i), Flat(es')), Replaced(es, i, j, es'))
  {
    ReplaceTiles(size, b, es, i, j, es');
    var r := Replaced(es, i, j, es');
    forall k | 0 <= k < |r| ensures EntryOk(r[k]) && (k > 0 ==> r[k].inode != 0) {
      if k < i { assert r[k] == es[k]; }
      else if k < i + |es'| { assert r[k] == es'[k - i]; }
      else { assert r[k] == es[k - i - |es'| + j]; }
    }
  }

  /** The bytes a name needs, a multiple of four. */
  function Room(nameLen: nat): nat {
    var n := HEADER + nameLen;
    if n % 4 != 0 then n + 4 - n % 4 else n
  }

  /** The bytes an entry has for another name: all of a hole, or what is behind the name of an entry in use. */
  function Spare(e: Entry): int {
    if e.inode == 0 then e.reclen else e.reclen - Room(e.nameLen)
  }

  ghost predicate NoneSpare(es: seq<Entry>, need: nat) {
    forall j {:trigger es[j]} | 0 <= j < |es| :: Spare(es[j]) < need
  }

  /** A name as Link accepts it. */
  ghost predicate GoodName(name: Bytes) {
    0 < |name| < 256 && forall i | 0 <= i < |name| :: name[i] != 0
  }

  lemma NewEntryOk(ino: nat, reclen: nat, fileType: nat, name: Bytes)
    requires GoodName(name) && 0 < ino < 0x1_0000_0000 && fileType < 256 && Room(|name|) <= reclen < 65536 && reclen % 4 == 0
    ensures var e := NewEntry(ino, reclen, fileType, name); EntryOk(e) && Live(e, name)
  {
    assert (name + Zeros(reclen - HEADER - |name|))[..|name|] == name;
  }

  lemma HitNew(ino: nat, reclen: nat, fileType: nat, name: Bytes, n: Bytes, i: nat)
    requires Room(|name|) <= reclen && ino > 0
    ensures Hit(NewEntry(ino, reclen, fileType, name), n, i) == Bit(n == name && i == ino)
  {
    assert (name + Zeros(reclen - HEADER - |name|))[..|name|] == name;
  }

  /** Link: entry `j` becomes entries `ds` of the same total length that bind one name more. */
  lemma Grafted(size: nat, b: Bytes, es: seq<Entry>, j: nat, ds: seq<Entry>, name: Bytes, ino: nat)
    requires Tiled(size, b, es) && j < |es| && |ds| > 0 && AllOk(ds) && Plus([es[j]], ds, name, ino)
    requires forall k {:trigger ds[k]} | 0 <= k < |ds| :: ds[k].inode != 0
    requires |Flat(ds)| == es[j].reclen
    ensures At(es, j) + es[j].reclen <= size
    ensures var es' := Replaced(es, j, j + 1, ds);
      Tiled(size, Splice<Byte>(b, At(es, j), Flat(ds)), es') && Binds(es') && Plus(es, es', name, ino)
  {
    HereBytes(size, b, es, j);
    FlatOne(es[j]);
    assert es[j..j + 1] == [es[j]];
    ReplaceOk(size, b, es, j, j + 1, ds);
    PlusAround(es[..j], [es[j]], ds, es[j + 1..], name, ino);
    assert es == es[..j] + [es[j]] + es[j + 1..];
    if j > 0 { assert Replaced(es, j, j + 1, ds)[0] == es[0]; }
  }

  /** What Link makes of a hole. */
  lemma CanReuse(e: Entry, ino: nat, fileType: nat, name: Bytes)
    requires EntryOk(e) && e.inode == 0 && Room(|name|) <= e.reclen
    requires GoodName(name) && 0 < ino < 0x1_0000_0000 && fileType < 256
    ensures HEADER + |name| <= e.reclen
    ensures var n := NewEntry(ino, e.reclen, fileType, name);
      AllOk([n]) && n.inode != 0 && |Flat([n])| == e.reclen && Plus([e], [n], name, ino)
  {
    var n := NewEntry(ino, e.reclen, fileType, name);
    NewEntryOk(ino, e.reclen, fileType, name);
    FlatOne(n);
    forall m, i ensures Count([n], m, i) == Count([e], m, i) + Bit(m == name && i == ino) {
      CountOne(n, m, i);
      CountOne(e, m, i);
      HitNew(ino, e.reclen, fileType, name, m, i);
    }
  }

  lemma ReuseWrite(b: Bytes, o: nat, ino: nat, reclen: nat, fileType: nat, name: Bytes)
    requires o + reclen <= |b| && HEADER + |name| <= reclen
    ensures |Flat([NewEntry(ino, reclen, fileType, name)])| == reclen
    ensures WriteEntry(b, o, ino, reclen, fileType, name) == Splice<Byte>(b, o, Flat([NewEntry(ino, reclen, fileType, name)]))
  {
    WriteEntryIs(b, o, ino, reclen, fileType, name);
    FlatOne(NewEntry(ino, reclen, fileType, name));
  }

  /** What Link makes of an entry with room behind its name. */
  lemma CanSplit(e: Entry, s: nat, r: nat, ino: nat, fileType: nat, name: Bytes)
    requires EntryOk(e) && e.inode != 0 && s == Room(e.nameLen) && e.reclen == s + r && Room(|name|) <= r
    requires GoodName(name) && 0 < ino < 0x1_0000_0000 && fileType < 256
    ensures HEADER <= s <= HEADER + |e.area| && HEADER + |name| <= r
    ensures var ds := [Shortened(e, s), NewEntry(ino, r, fileType, name)];
      AllOk(ds) && ds[0].inode != 0 && ds[1].inode != 0 && Plus([e], ds, name, ino)
  {
    RoomLeft(e, name);
    NewEntryOk(ino, r, fileType, name);
    ShortenedOk(e, s);
    SplitCounts(e, s, ino, r, fileType, name);
  }

  lemma RoomLeft(e: Entry, name: Bytes)
    requires EntryOk(e) && Room(e.nameLen) + Room(|name|) <= e.reclen
    ensures (e.reclen - Room(e.nameLen)) % 4 == 0 && HEADER + |name| <= Room(|name|) <= e.reclen - Room(e.nameLen) < 65536
  {
  }

  lemma SplitWrite(b: Bytes, o: nat, e: Entry, s: nat, ino: nat, r: nat, fileType: nat, name: Bytes)
    requires e.reclen == HEADER + |e.area| == s + r && HEADER <= s && HEADER + |name| <= r
    requires o + e.reclen <= |b| && b[o..o + e.reclen] == Encode(e)
    ensures var es := [Shortened(e, s), NewEntry(ino, r, fileType, name)];
      && |Flat(es)| == |Flat([e])| == e.reclen
      && WriteEntry(SetReclen(b, o, s), o + s, ino, r, fileType, name) == Splice<Byte>(b, o, Flat(es))
  {
    var d, n := Shortened(e, s), NewEntry(ino, r, fileType, name);
    WriteEntryIs(SetReclen(b, o, s), o + s, ino, r, fileType, name);
    SplitBytes(b, o, e, s, n);
    SplitTiles(e, d, n);
    FlatOne(e);
  }

  lemma ShortenedOk(e: Entry, s: nat)
    requires EntryOk(e) && e.inode != 0 && s == Room(e.nameLen) <= e.reclen
    ensures EntryOk(Shortened(e, s)) && Name(Shortened(e, s)) == Name(e)
  {
    assert e.area[..s - HEADER][..e.nameLen] == e.area[..e.nameLen];
  }

  lemma SplitCounts(e: Entry, s: nat, ino: nat, r: nat, fileType: nat, name: Bytes)
    requires EntryOk(e) && e.inode != 0 && s == Room(e.nameLen) <= e.reclen && Room(|name|) <= r && ino > 0
    ensures Plus([e], [Shortened(e, s), NewEntry(ino, r, fileType, name)], name, ino)
  {
    var d, n := Shortened(e, s), NewEntry(ino, r, fileType, name);
    ShortenedOk(e, s);
    forall m, i ensures Count([d, n], m, i) == Count([e], m, i) + Bit(m == name && i == ino) {
      CountTwo(d, n, m, i);
      CountOne(e, m, i);
      HitNew(ino, r, fileType, name, m, i);
    }
  }

  lemma SplitTiles(e: Entry, d: Entry, n: Entry)
    requires |Encode(d)| + |Encode(n)| == |Encode(e)|
    ensures Flat([d, n]) == Encode(d) + Encode(n) && |Flat([d, n])| == |Flat([e])|
  {
    FlatOne(d);
    FlatOne(n);
    FlatOne(e);
    FlatConcat([d], [n]);
    assert [d] + [n] == [d, n];
  }

  /** Removing the first entry leaves a hole in its place. */
  lemma RemovedFirst(size: nat, b: Bytes, es: seq<Entry>)
    requires Tiled(size, b, es) && es[0].inode != 0
    ensures es[0].reclen <= size && es[0].reclen == HEADER + |es[0].area|
    ensures var es' := Replaced(es, 0, 1, [Hole(es[0].reclen)]);
      && Tiled(size, Splice<Byte>(ClearHeader(b, 0), HEADER, Zeros(|es[0].area|)), es')
      && Plus(es', es, Name(es[0]), es[0].inode)
  {
    var e := es[0];
    var h := Hole(e.reclen);
    HereBytes(size, b, es, 0);
    AtEnd(size, b, es);
    ClearedAlone(b, 0, e);
    FlatOne(h);
    FlatOne(e);
    assert es[0..1] == [e];
    ReplaceOk(size, b, es, 0, 1, [h]);
    forall m, i ensures Count([e], m, i) == Count([h], m, i) + Bit(m == Name(e) && i == e.inode) {
      CountOne(h, m, i);
      CountOne(e, m, i);
    }
    PlusAround([], [h], [e], es[1..], Name(e), e.inode);
    assert es == [] + [e] + es[1..] && es[..0] == [];
  }

  lemma MergedOk(p: Entry, e: Entry)
    requires EntryOk(p) && EntryOk(e) && p.reclen + e.reclen < 65536
    ensures EntryOk(Merged(p, e.reclen)) && Name(Merged(p, e.reclen)) == Name(p)
    ensures forall m, i {:trigger Hit(p, m, i)} :: Hit(Merged(p, e.reclen), m, i) == Hit(p, m, i)
  {
    var q := Merged(p, e.reclen);
    assert q.area[..p.nameLen] == Name(p);
    assert p.inode != 0 ==> forall i | 0 <= i < p.nameLen :: q.area[i] == p.area[i];
  }

  /** Removing a later entry merges it into the one before. */
  lemma RemovedLater(size: nat, b: Bytes, es: seq<Entry>, j: nat)
    requires Tiled(size, b, es) && 0 < j < |es| && size < 65536
    ensures At(es, j - 1) + es[j - 1].reclen + es[j].reclen <= size && HEADER + es[j - 1].nameLen <= es[j - 1].reclen
    ensures HEADER <= es[j].reclen
    ensures var q := Merged(es[j - 1], es[j].reclen);
      var es' := Replaced(es, j - 1, j + 1, [q]);
      && |Flat([q])| == es[j - 1].reclen + es[j].reclen
      && Tiled(size, Splice<Byte>(b, At(es, j - 1), Flat([q])), es') && Plus(es', es, Name(es[j]), es[j].inode)
  {
    var p, e, o := es[j - 1], es[j], At(es, j - 1);
    assert EntryOk(p) && EntryOk(e);
    PairHere(size, b, es, j);
    MergedOk(p, e);
    var q := Merged(p, e.reclen);
    SplitTiles(q, p, e);
    FlatOne(q);
    assert es[j - 1..j + 1] == [p, e];
    ReplaceOk(size, b, es, j - 1, j + 1, [q]);
    forall m, i ensures Count([p, e], m, i) == Count([q], m, i) + Bit(m == Name(e) && i == e.inode) {
      CountTwo(p, e, m, i);
      CountOne(q, m, i);
      assert Hit(q, m, i) == Hit(p, m, i);
    }
    PlusAround(es[..j - 1], [q], [p, e], es[j + 1..], Name(e), e.inode);
    assert es == es[..j - 1] + [p, e] + es[j + 1..];
  }
}

/**
 A directory of ext2 on its blocks: Open, Link and UnlinkKeep look a name up,
 add one and remove one, as on a finite map from names to inodes.
 */
module ExtDirectory {
  import opened Sequences
  import opened Arithmetic
  import opened ExtDirent

  /** Blocks are tiled one by one, folded. */
  predicate UnfoldBlocks(x: bool) {
    true
  }

  ghost predicate AllBlocksOk(size: nat, blocks: seq<Bytes>, tiles: seq<seq<Entry>>) {
    && |tiles| == |blocks|
    && forall x | UnfoldBlocks(x) :: forall k {:trigger tiles[k]} | 0 <= k < |tiles| :: Tiled(size, blocks[k], tiles[k])
  }

  predicate UnfoldPacked(x: bool) {
    true
  }

  /** Every block binds a name. */
  ghost predicate Packed(tiles: seq<seq<Entry>>) {
    forall x | UnfoldPacked(x) :: forall k {:trigger tiles[k]} | 0 <= k < |tiles| :: Binds(tiles[k])
  }

  lemma PackedMore(tiles: seq<seq<Entry>>, k: nat, es: seq<Entry>)
    requires Packed(tiles) && Binds(es)
    ensures k < |tiles| ==> Packed(tiles[k := es])
    ensures Packed(tiles + [es])
  {
    assert UnfoldPacked(true);
  }

  lemma PackedLess(tiles: seq<seq<Entry>>, k: nat)
    requires Packed(tiles) && k < |tiles|
    ensures Packed(tiles[k := tiles[|tiles| - 1]][..|tiles| - 1])
  {
    assert UnfoldPacked(true);
  }

  lemma BlockAt(size: nat, blocks: seq<Bytes>, tiles: seq<seq<Entry>>, k: nat)
    requires AllBlocksOk(size, blocks, tiles) && k < |tiles|
    ensures Tiled(size, blocks[k], tiles[k])
  {
    assert UnfoldBlocks(true);
  }

  lemma SetBlock(size: nat, blocks: seq<Bytes>, tiles: seq<seq<Entry>>, k: nat, b: Bytes, es: seq<Entry>)
    requires AllBlocksOk(size, blocks, tiles) && k < |tiles| && Tiled(size, b, es)
    ensures AllBlocksOk(size, blocks[k := b], tiles[k := es])
  {
    assert UnfoldBlocks(true);
  }

  lemma AppendBlock(size: nat, blocks: seq<Bytes>, tiles: seq<seq<Entry>>, b: Bytes, es: seq<Entry>)
    requires AllBlocksOk(size, blocks, tiles) && Tiled(size, b, es)
    ensures AllBlocksOk(size, blocks + [b], tiles + [es])
  {
    assert UnfoldBlocks(true);
  }

  lemma DropLastBlock(size: nat, blocks: seq<Bytes>, tiles: seq<seq<Entry>>)
    requires AllBlocksOk(size, blocks, tiles) && |tiles| > 0
    ensures AllBlocksOk(size, blocks[..|tiles| - 1], tiles[..|tiles| - 1])
  {
    assert UnfoldBlocks(true);
  }

  /** What a visit to one entry reads. */
  datatype Visit = Visit(block: nat, offset: nat, inode: nat, reclen: nat, nameLen: nat, first: Byte, same: bool)

  /** Reading the entry at `o` of block `b`, with the tests for a corrupted directory, which never fire. */
  method ReadEntry(size: nat, b: Bytes, block: nat, o: nat, name: Bytes, ghost e: Entry) returns (ok: bool, v: Visit)
    requires EntryOk(e) && o + e.reclen <= size == |b| && b[o..o + e.reclen] == Encode(e)
    ensures ok && v.block == block && v.offset == o && v.inode == e.inode && v.reclen == e.reclen && v.nameLen == e.nameLen
    ensures |e.area| > 0 && v.first == e.area[0] && (v.same <==> Name(e) == name)
  {
    ReadFields(b, o, e);
    var left := size - o;
    ok := HEADER <= left && Get16(b, o + 4) != 0 && Get16(b, o + 4) <= left;
    var n := b[o + 6];
    assert b[o + HEADER..o + HEADER + n] == b[o + HEADER..o + e.reclen][..n];
    v := Visit(block, o, Get32(b, o), Get16(b, o + 4), n, b[o + HEADER], n == |name| && b[o + HEADER..o + HEADER + n] == name);
  }

  /** Where Link puts a new entry: into a hole, or splitting the entry there. */
  datatype Spot = Spot(block: nat, offset: nat, reclen: nat, splitting: bool)

  datatype LinkResult = Linked | Dead | NotDirectory | IsDirectory | NoName | Exists | TooManyLinks | TooLong | NoSpace | Corrupted

  /** What the caller of Link is told: for a dead directory the code returns -1, which is true. */
  predicate Told(r: LinkResult) {
    r == Linked || r == Dead
  }

  datatype UnlinkResult = Unlinked(ino: nat) | Unbound | NoDirectory | NotEmpty | ADirectory

  const LINK_MAX := 65535

  /** The names of an inode. */
  ghost function NamesOf(names: map<Bytes, nat>, ino: nat): set<Bytes> {
    set n | n in names && names[n] == ino
  }

  predicate UnfoldLinks(x: bool) {
    true
  }

  /** The names of the directory are among the links its inodes count, folded. */
  ghost predicate Counted(names: map<Bytes, nat>, links: map<nat, nat>) {
    forall x | UnfoldLinks(x) ::
      && (forall n | n in names :: names[n] in links)
      && forall i {:trigger NamesOf(names, i)} | i in links :: |NamesOf(names, i)| <= links[i] <= LINK_MAX
  }

  /** How many links of an inode are not names of the directory. */
  ghost function Elsewhere(names: map<Bytes, nat>, links: map<nat, nat>, ino: nat): int
    requires ino in links
  {
    links[ino] - |NamesOf(names, ino)|
  }

  /** That number is the same for every inode, folded. */
  ghost predicate SameElsewhere(names: map<Bytes, nat>, links: map<nat, nat>, names': map<Bytes, nat>, links': map<nat, nat>) {
    && links'.Keys == links.Keys
    && forall x | UnfoldLinks(x) :: forall i | i in links :: Elsewhere(names', links', i) == Elsewhere(names, links, i)
  }

  lemma LinkCounts(names: map<Bytes, nat>, links: map<nat, nat>, name: Bytes, ino: nat)
    requires Counted(names, links) && name !in names && ino in links
    ensures links[ino] <= LINK_MAX
    ensures links[ino] < LINK_MAX ==> var names', links' := names[name := ino], links[ino := links[ino] + 1];
      Counted(names', links') && SameElsewhere(names, links, names', links')
  {
    assert UnfoldLinks(true) && NamesOf(names, ino) == NamesOf(names, ino);
    var names' := names[name := ino];
    forall i | i in links ensures |NamesOf(names', i)| == |NamesOf(names, i)| + if i == ino then 1 else 0 { NamesMore(names, name, ino, i); }
  }

  lemma NamesMore(names: map<Bytes, nat>, name: Bytes, ino: nat, i: nat)
    requires name !in names
    ensures |NamesOf(names[name := ino], i)| == |NamesOf(names, i)| + if i == ino then 1 else 0
  {
    assert NamesOf(names[name := ino], i) == NamesOf(names, i) + if i == ino then {name} else {};
  }

  lemma NamesLess(names: map<Bytes, nat>, name: Bytes, i: nat)
    requires name in names
    ensures |NamesOf(names - {name}, i)| == |NamesOf(names, i)| - if i == names[name] then 1 else 0
  {
    assert NamesOf(names - {name}, i) == NamesOf(names, i) - if i == names[name] then {name} else {};
  }

  lemma UnlinkCounts(names: map<Bytes, nat>, links: map<nat, nat>, name: Bytes)
    requires Counted(names, links) && name in names
    ensures names[name] in links && links[names[name]] > 0
    ensures var names', links' := names - {name}, links[names[name] := links[names[name]] - 1];
      Counted(names', links') && SameElsewhere(names, links, names', links')
  {
    assert UnfoldLinks(true);
    var names' := names - {name};
    NamesLess(names, name, names[name]);
    forall i | i in links ensures |NamesOf(names', i)| == |NamesOf(names, i)| - if i == names[name] then 1 else 0 { NamesLess(names, name, i); }
  }

  /** The entry UnlinkKeep removes, and where the entry before it in the block is. */
  datatype Match = Match(block: nat, offset: nat, inode: nat, reclen: nat, hasLast: bool, last: nat)

  /** The bytes Link writes over entry `e` of a block. */
  method WriteSpot(b: Bytes, name: Bytes, ino: nat, fileType: nat, h: Spot, ghost e: Entry) returns (b': Bytes, ghost ds: seq<Entry>)
    requires GoodName(name) && 0 < ino < 0x1_0000_0000 && fileType < 256 && EntryOk(e) && Room(|name|) <= h.reclen
    requires h.offset + e.reclen <= |b| && b[h.offset..h.offset + e.reclen] == Encode(e)
    requires if h.splitting then e.inode != 0 && e.reclen == Room(e.nameLen) + h.reclen else e.inode == 0 && e.reclen == h.reclen
    ensures |Flat(ds)| == e.reclen && b' == Splice<Byte>(b, h.offset, Flat(ds))
    ensures |ds| > 0 && AllOk(ds) && Plus([e], ds, name, ino) && forall i {:trigger ds[i]} | 0 <= i < |ds| :: ds[i].inode != 0
  {
    if h.splitting {
      b', ds := WriteSplit(b, name, ino, fileType, h.offset, h.reclen, e);
    } else {
      CanReuse(e, ino, fileType, name);
      ds := [NewEntry(ino, h.reclen, fileType, name)];
      ReuseWrite(b, h.offset, ino, h.reclen, fileType, name);
      b' := WriteEntry(b, h.offset, ino, h.reclen, fileType, name);
    }
  }

  method WriteSplit(b: Bytes, name: Bytes, ino: nat, fileType: nat, o: nat, r: nat, ghost e: Entry) returns (b': Bytes, ghost ds: seq<Entry>)
    requires GoodName(name) && 0 < ino < 0x1_0000_0000 && fileType < 256 && EntryOk(e) && Room(|name|) <= r
    requires o + e.reclen <= |b| && b[o..o + e.reclen] == Encode(e) && e.inode != 0 && e.reclen == Room(e.nameLen) + r
    ensures |Flat(ds)| == e.reclen && b' == Splice<Byte>(b, o, Flat(ds))
    ensures |ds| == 2 && AllOk(ds) && Plus([e], ds, name, ino) && ds[0].inode != 0 && ds[1].inode != 0
  {
    ReadFields(b, o, e);
    var own := Room(b[o + 6]);
    CanSplit(e, own, r, ino, fileType, name);
    SplitWrite(b, o, e, own, ino, r, fileType, name);
    ds := [Shortened(e, own), NewEntry(ino, r, fileType, name)];
    b' := SetReclen(b, o, own);
    b' := WriteEntry(b', o + own, ino, r, fileType, name);
  }

  /** Removing an entry that has one before it in the block. */
  method ClearLater(b: Bytes, at: nat, reclen: nat, ghost size: nat, ghost es: seq<Entry>, ghost j: nat)
    returns (b': Bytes, ghost es': seq<Entry>)
    requires size < 65536 && Tiled(size, b, es) && 0 < j < |es| && at == At(es, j - 1) && reclen == es[j].reclen
    ensures Tiled(size, b', es') && Plus(es', es, Name(es[j]), es[j].inode) && j - 1 < |es'| && at == At(es', j - 1)
  {
    RemovedLater(size, b, es, j);
    PairHere(size, b, es, j);
    HereBytes(size, b, es, j - 1);
    HereBytes(size, b, es, j);
    es' := Replaced(es, j - 1, j + 1, [Merged(es[j - 1], reclen)]);
    assert es'[..j - 1] == es[..j - 1];
    b' := MergeAt(b, at, reclen, es[j - 1], es[j]);
  }

  method MergeAt(b: Bytes, o: nat, reclen: nat, ghost p: Entry, ghost e: Entry) returns (b': Bytes)
    requires EntryOk(p) && EntryOk(e) && reclen == e.reclen && o + p.reclen + e.reclen <= |b|
    requires b[o..o + p.reclen] == Encode(p) && b[o..o + p.reclen + e.reclen] == Encode(p) + Encode(e)
    ensures |Flat([Merged(p, e.reclen)])| == p.reclen + e.reclen && b' == Splice<Byte>(b, o, Flat([Merged(p, e.reclen)]))
  {
    ReadFields(b, o, p);
    ClearedMerged(b, o, p, e);
    FlatOne(Merged(p, e.reclen));
    var own := Get16(b, o + 4);
    b' := MergeBytes(b, o, own, own, reclen, b[o + 6]);
  }

  /** Removing the first entry of a block. */
  method ClearFirst(b: Bytes, reclen: nat, ghost size: nat, ghost es: seq<Entry>) returns (b': Bytes, ghost es': seq<Entry>)
    requires Tiled(size, b, es) && es[0].inode != 0 && reclen == es[0].reclen
    ensures Tiled(size, b', es') && Plus(es', es, Name(es[0]), es[0].inode) && |es'| > 0 && At(es', 0) == 0
  {
    RemovedFirst(size, b, es);
    es' := Replaced(es, 0, 1, [Hole(reclen)]);
    assert es'[..0] == [];
    b' := ClearHeader(b, 0);
    b' := Splice<Byte>(b', HEADER, Zeros(reclen - HEADER));
  }

  class Directory {
    const size: nat
    var blocks: seq<Bytes>
    /** How many more blocks GetBlock can get for the directory. */
    var grants: nat
    /** The inode of the directory, the link counts of the volume, and its directories. */
    const self: nat
    var links: map<nat, nat>
    const dirs: set<nat>
    ghost var tiles: seq<seq<Entry>>
    ghost var names: map<Bytes, nat>

    /** A directory before its first entry is linked. */
    constructor (size: nat, grants: nat, self: nat, links: map<nat, nat>, dirs: set<nat>)
      requires 1024 <= size <= 32768 && size % 4 == 0 && self in links && forall i | i in links :: links[i] <= LINK_MAX
      ensures Valid() && Packed(tiles) && Counted(names, this.links)
      ensures this.size == size && names == map[] && blocks == [] && this.grants == grants
      ensures this.self == self && this.links == links && this.dirs == dirs
    {
      this.size, this.grants, this.self, this.links, this.dirs := size, grants, self, links, dirs;
      blocks, tiles, names := [], [], map[];
      new;
      assert forall i :: NamesOf(names, i) == {};
    }

    ghost predicate Valid()
      reads this
    {
      && 1024 <= size <= 32768 && size % 4 == 0
      && AllBlocksOk(size, blocks, tiles) && Represents(tiles, names)
    }

    /** Byte `offset` of the directory is where entry `j` of block `k` begins, or its end. */
    ghost predicate Cursor(offset: nat, k: nat, j: nat)
      reads this
    {
      if k < |tiles| then j < |tiles[k]| && offset == Times(k, size) + At(tiles[k], j)
      else k == |tiles| && j == 0 && offset == Times(k, size)
    }

    /** No entry before that one carries `name`. */
    ghost predicate NotBefore(name: Bytes, k: nat, j: nat)
      reads this
    {
      && k <= |tiles| && (forall i {:trigger tiles[i]} | 0 <= i < k :: Absent(tiles[i], name))
      && (k < |tiles| ==> j < |tiles[k]| && Absent(tiles[k][..j], name))
    }

    ghost function NextBlock(k: nat, j: nat): nat
      reads this
      requires k < |tiles|
    {
      if j + 1 < |tiles[k]| then k else k + 1
    }

    ghost function NextEntry(k: nat, j: nat): nat
      reads this
      requires k < |tiles|
    {
      if j + 1 < |tiles[k]| then j + 1 else 0
    }

    lemma StartCursor(name: Bytes)
      requires Valid()
      ensures Cursor(0, 0, 0) && NotBefore(name, 0, 0)
    {
      if |tiles| > 0 {
        BlockAt(size, blocks, tiles, 0);
        AtEnd(size, blocks[0], tiles[0]);
      }
    }

    lemma CursorEnd(offset: nat, k: nat, j: nat)
      requires Valid() && Cursor(offset, k, j)
      ensures offset < Times(|tiles|, size) <==> k < |tiles|
    {
      if k < |tiles| {
        BlockAt(size, blocks, tiles, k);
        HereBytes(size, blocks[k], tiles[k], j);
        TimesMono(k + 1, |tiles|, size);
      }
    }

    lemma CursorNext(offset: nat, k: nat, j: nat, name: Bytes)
      requires Valid() && Cursor(offset, k, j) && k < |tiles| && NotBefore(name, k, j) && !Live(tiles[k][j], name)
      ensures Cursor(offset + tiles[k][j].reclen, NextBlock(k, j), NextEntry(k, j))
      ensures NotBefore(name, NextBlock(k, j), NextEntry(k, j))
    {
      BlockAt(size, blocks, tiles, k);
      HereBytes(size, blocks[k], tiles[k], j);
      AtEnd(size, blocks[k], tiles[k]);
      var es := tiles[k];
      forall i | 0 <= i <= j ensures !Live(es[i], name) {
        if i < j { assert es[..j][i] == es[i]; }
      }
      if j + 1 == |es| && k + 1 < |tiles| {
        BlockAt(size, blocks, tiles, k + 1);
        AtEnd(size, blocks[k + 1], tiles[k + 1]);
      }
    }

    /** A visit to the entry at byte `offset` of the directory. */
    method Look(offset: nat, name: Bytes, ghost k: nat, ghost j: nat) returns (ok: bool, v: Visit)
      requires Valid() && k < |tiles| && Cursor(offset, k, j)
      ensures ok && v.block == k && v.offset == At(tiles[k], j) && v.inode == tiles[k][j].inode
      ensures v.reclen == tiles[k][j].reclen && v.nameLen == tiles[k][j].nameLen
      ensures |tiles[k][j].area| > 0 && v.first == tiles[k][j].area[0]
      ensures v.same <==> Name(tiles[k][j]) == name
      ensures EntryOk(tiles[k][j]) && v.offset + v.reclen <= size
    {
      BlockAt(size, blocks, tiles, k);
      HereBytes(size, blocks[k], tiles[k], j);
      QuotRemOf(k, At(tiles[k], j), size);
      var id, o := Divide(offset, size);
      ok, v := ReadEntry(size, blocks[id], id, o, name, tiles[k][j]);
    }

    /** Inode::Open without O_CREAT: the inode of a name, 0 if it is not in the directory. */
    method Open(name: Bytes) returns (ok: bool, ino: nat)
      requires Valid()
      ensures ok
      ensures name != [] ==> ino == (if name in names then names[name] else 0) && (name in names ==> ino != 0)
      ensures name == [] ==> ino == 0
    {
      ok, ino := true, 0;
      if name == [] { return; }
      var end := Multiply(|blocks|, size);
      var offset: nat := 0;
      ghost var k: nat, j: nat := 0, 0;
      StartCursor(name);
      CursorEnd(0, 0, 0);
      while ok && ino == 0 && offset < end
        invariant ok && Cursor(offset, k, j) && (offset < end <==> k < |tiles|)
        invariant if ino == 0 then NotBefore(name, k, j) else name in names && names[name] == ino
        decreases if ino == 0 then 1 else 0, end - offset
      {
        var v;
        ok, v := Look(offset, name, k, j);
        if ok && v.inode != 0 && v.same {
          ino := v.inode;
          FoundName(tiles, names, k, j, name);
        } else {
          CursorNext(offset, k, j, name);
          offset := offset + v.reclen;
          k, j := NextBlock(k, j), NextEntry(k, j);
          CursorEnd(offset, k, j);
        }
      }
      if ino == 0 { MissingName(tiles, names, name); }
    }

    /** Entry `j` of block `k` can take a name that needs `need` bytes: a hole whole, another entry behind its own name. */
    ghost predicate Takes(h: Spot, need: nat, k: nat, j: nat)
      reads this
    {
      && k < |tiles| && j < |tiles[k]| && h.block == k && h.offset == At(tiles[k], j) && need <= h.reclen
      && var e := tiles[k][j];
         if h.splitting then e.inode != 0 && e.reclen == Room(e.nameLen) + h.reclen else e.inode == 0 && e.reclen == h.reclen
    }

    /** None of the entries before entry `j` of block `k` has `need` bytes to spare. */
    ghost predicate NoneBefore(need: nat, k: nat, j: nat)
      reads this
    {
      && k <= |tiles| && (forall i {:trigger tiles[i]} | 0 <= i < k :: NoneSpare(tiles[i], need))
      && (k < |tiles| ==> j <= |tiles[k]| && NoneSpare(tiles[k][..j], need))
    }

    /** Some entry can take a name that needs `need` bytes. */
    ghost predicate HasRoom(need: nat)
      reads this
    {
      !NoneBefore(need, |tiles|, 0)
    }

    lemma NoneBeforeNext(need: nat, k: nat, j: nat)
      requires k < |tiles| && j < |tiles[k]| && NoneBefore(need, k, j) && Spare(tiles[k][j]) < need
      ensures NoneBefore(need, NextBlock(k, j), NextEntry(k, j))
    {
      var es := tiles[k];
      forall i | 0 <= i <= j ensures Spare(es[i]) < need {
        if i < j { assert es[..j][i] == es[i]; }
      }
    }

    /** Whether an entry has room, as the search of Link decides it. */
    method Offer(v: Visit, need: nat, ghost k: nat, ghost j: nat) returns (found: bool, h: Spot)
      requires Valid() && k < |tiles| && j < |tiles[k]| && EntryOk(tiles[k][j])
      requires v.block == k && v.offset == At(tiles[k], j) && v.inode == tiles[k][j].inode
      requires v.reclen == tiles[k][j].reclen && v.nameLen == tiles[k][j].nameLen && v.first == tiles[k][j].area[0]
      ensures found <==> need <= Spare(tiles[k][j])
      ensures found ==> Takes(h, need, k, j)
    {
      found, h := false, Spot(0, 0, 0, false);
      var own := Room(v.nameLen);
      assert own <= v.reclen;
      if (v.inode == 0 || v.first == 0) && need <= v.reclen {
        found, h := true, Spot(v.block, v.offset, v.reclen, false);
      } else if need <= v.reclen - own {
        found, h := true, Spot(v.block, v.offset, v.reclen - own, true);
      }
    }

    /** The search of Link: is the name there already, and where could it go? */
    method FindRoom(name: Bytes) returns (ok: bool, exists_: bool, found: bool, h: Spot, ghost hk: nat, ghost hj: nat)
      requires Valid() && name != []
      ensures ok && exists_ == (name in names)
      ensures found ==> Takes(h, Room(|name|), hk, hj)
      ensures !exists_ ==> found == HasRoom(Room(|name|))
    {
      ok, exists_, found, h, hk, hj := true, false, false, Spot(0, 0, 0, false), 0, 0;
      var end := Multiply(|blocks|, size);
      var offset: nat := 0;
      ghost var k: nat, j: nat := 0, 0;
      StartCursor(name);
      CursorEnd(0, 0, 0);
      while ok && !exists_ && offset < end
        invariant ok && Cursor(offset, k, j) && (offset < end <==> k < |tiles|)
        invariant if exists_ then name in names else NotBefore(name, k, j)
        invariant if found then Takes(h, Room(|name|), hk, hj) && Room(|name|) <= Spare(tiles[hk][hj]) else NoneBefore(Room(|name|), k, j)
        decreases !exists_, end - offset
      {
        var v;
        ok, v := Look(offset, name, k, j);
        if ok && v.same {
          exists_ := true;
          FoundName(tiles, names, k, j, name);
        } else {
          if !found {
            found, h := Offer(v, Room(|name|), k, j);
            hk, hj := k, j;
            if !found { NoneBeforeNext(Room(|name|), k, j); }
          }
          CursorNext(offset, k, j, name);
          offset := offset + v.reclen;
          k, j := NextBlock(k, j), NextEntry(k, j);
          CursorEnd(offset, k, j);
        }
      }
      if !exists_ { MissingName(tiles, names, name); }
    }

    /** Writing the new entry where the search found room. */
    method Insert(name: Bytes, ino: nat, fileType: nat, h: Spot, ghost k: nat, ghost j: nat)
      requires Valid() && GoodName(name) && name !in names && 0 < ino < 0x1_0000_0000 && fileType < 256
      requires Takes(h, Room(|name|), k, j)
      modifies this`blocks, this`tiles, this`names
      ensures Valid() && names == old(names)[name := ino] && |blocks| == |old(blocks)| && (old(Packed(tiles)) ==> Packed(tiles))
    {
      BlockAt(size, blocks, tiles, k);
      HereBytes(size, blocks[k], tiles[k], j);
      ghost var es, ds := tiles[k], [];
      var b;
      b, ds := WriteSpot(blocks[h.block], name, ino, fileType, h, es[j]);
      Grafted(size, blocks[k], es, j, ds, name, ino);
      ghost var es' := Replaced(es, j, j + 1, ds);
      SetBlock(size, blocks, tiles, k, b, es');
      AddName(tiles, k, es', names, name, ino);
      if Packed(tiles) { PackedMore(tiles, k, es'); }
      blocks := blocks[h.block := b];
      tiles, names := tiles[k := es'], names[name := ino];
    }

    /** A new block for the name, if one can be had. */
    method Append(name: Bytes, ino: nat, fileType: nat) returns (ok: bool)
      requires Valid() && GoodName(name) && name !in names && 0 < ino < 0x1_0000_0000 && fileType < 256 && Room(|name|) <= size
      modifies this`blocks, this`tiles, this`names, this`grants
      ensures Valid() && (old(Packed(tiles)) ==> Packed(tiles))
      ensures ok <==> old(grants) > 0
      ensures if ok then names == old(names)[name := ino] && |blocks| == |old(blocks)| + 1
              else names == old(names) && blocks == old(blocks)
    {
      ok := false;
      if grants == 0 { return; }
      grants := grants - 1;
      var b := WriteEntry(Zeros(size), 0, ino, size, fileType, name);
      ghost var e := NewEntry(ino, size, fileType, name);
      NewEntryOk(ino, size, fileType, name);
      ReuseWrite(Zeros(size), 0, ino, size, fileType, name);
      assert Splice<Byte>(Zeros(size), 0, Flat([e])) == Flat([e]);
      AppendBlock(size, blocks, tiles, b, [e]);
      AppendName(tiles, e, names, name, ino);
      if Packed(tiles) { PackedMore(tiles, |tiles|, [e]); }
      blocks := blocks + [b];
      tiles, names := tiles + [[e]], names[name := ino];
      ok := true;
    }

    /**
     Inode::Link: adds a name that is not there yet to a directory that is not dead, and
     counts the link. The number of links an inode has elsewhere stays.
     */
    method Link(name: Bytes, ino: nat, directories: bool, fileType: nat) returns (r: LinkResult)
      requires Valid() && Counted(names, links) && self in links && ino in links
      requires 0 < ino < 0x1_0000_0000 && fileType < 256 && forall i | 0 <= i < |name| :: name[i] != 0
      modifies this
      ensures Valid() && Counted(names, links) && (old(Packed(tiles)) ==> Packed(tiles)) && r != Corrupted
      ensures names == if r == Linked then old(names)[name := ino] else old(names)
      ensures links == if r == Linked then old(links)[ino := old(links)[ino] + 1] else old(links)
      ensures SameElsewhere(old(names), old(links), names, links)
      ensures r == Dead <==> old(links)[self] == 0
      ensures r == NotDirectory <==> r != Dead && directories && ino !in dirs
      ensures r == IsDirectory <==> r != Dead && !directories && ino in dirs
      ensures r != Dead && (directories <==> ino in dirs) ==> old(Answers(name, ino, r))
      ensures r != Linked ==> blocks == old(blocks)
      ensures r == Linked ==> |blocks| == |old(blocks)| + if old(HasRoom(Room(|name|))) then 0 else 1
    {
      if links[self] == 0 { return Dead; }
      if directories && ino !in dirs { return NotDirectory; }
      if !directories && ino in dirs { return IsDirectory; }
      r := LinkName(name, ino, fileType);
    }

    /** What Link answers to a name for an inode of the right kind. */
    ghost predicate Answers(name: Bytes, ino: nat, r: LinkResult)
      requires ino in links
      reads this
    {
      && (r == NoName <==> name == [])
      && (r == Exists <==> name != [] && name in names)
      && (r == TooManyLinks <==> New(name) && links[ino] == LINK_MAX)
      && (r == TooLong <==> New(name) && links[ino] < LINK_MAX && |name| > 255)
      && (r == NoSpace <==> New(name) && links[ino] < LINK_MAX && |name| <= 255 && !HasRoom(Room(|name|)) && grants == 0)
      && (r == Linked <==> New(name) && links[ino] < LINK_MAX && |name| <= 255 && (HasRoom(Room(|name|)) || grants > 0))
    }

    ghost predicate New(name: Bytes)
      reads this
    {
      name != [] && name !in names
    }

    method LinkName(name: Bytes, ino: nat, fileType: nat) returns (r: LinkResult)
      requires Valid() && Counted(names, links) && ino in links
      requires 0 < ino < 0x1_0000_0000 && fileType < 256 && forall i | 0 <= i < |name| :: name[i] != 0
      modifies this
      ensures Valid() && Counted(names, links) && (old(Packed(tiles)) ==> Packed(tiles))
      ensures names == if r == Linked then old(names)[name := ino] else old(names)
      ensures links == if r == Linked then old(links)[ino := old(links)[ino] + 1] else old(links)
      ensures SameElsewhere(old(names), old(links), names, links)
      ensures old(Answers(name, ino, r)) && r != Corrupted && r != Dead && r != NotDirectory && r != IsDirectory
      ensures r != Linked ==> blocks == old(blocks)
      ensures r == Linked ==> |blocks| == |old(blocks)| + if old(HasRoom(Room(|name|))) then 0 else 1
    {
      if name == [] { return NoName; }
      var ok, exists_, found, h, hk, hj := FindRoom(name);
      if !ok { return Corrupted; }
      if exists_ { return Exists; }
      LinkCounts(names, links, name, ino);
      if LINK_MAX <= links[ino] { return TooManyLinks; }
      if 255 < |name| { return TooLong; }
      r := Bind(name, ino, fileType, found, h, hk, hj);
      if r == Linked { links := links[ino := links[ino] + 1]; }
    }

    /** Link once the name is known to be new. */
    method Bind(name: Bytes, ino: nat, fileType: nat, found: bool, h: Spot, ghost hk: nat, ghost hj: nat) returns (r: LinkResult)
      requires Valid() && GoodName(name) && name !in names && 0 < ino < 0x1_0000_0000 && fileType < 256
      requires found <==> HasRoom(Room(|name|))
      requires found ==> Takes(h, Room(|name|), hk, hj)
      modifies this`blocks, this`tiles, this`names, this`grants
      ensures Valid() && (old(Packed(tiles)) ==> Packed(tiles)) && (r == Linked || r == NoSpace)
      ensures names == if r == Linked then old(names)[name := ino] else old(names)
      ensures r == NoSpace <==> !found && old(grants) == 0
      ensures r != Linked ==> blocks == old(blocks)
      ensures r == Linked ==> |blocks| == |old(blocks)| + if found then 0 else 1
    {
      if found {
        Insert(name, ino, fileType, h, hk, hj);
        return Linked;
      }
      var grown := Append(name, ino, fileType);
      r := if grown then Linked else NoSpace;
    }

    /** Entry `j` of block `k` carries `name`; the entry before it in the block, if any, is at `last`. */
    ghost predicate Carries(name: Bytes, s: Match, k: nat, j: nat)
      reads this
    {
      && k < |tiles| && j < |tiles[k]| && Live(tiles[k][j], name)
      && s.block == k && s.offset == At(tiles[k], j) && s.inode == tiles[k][j].inode && s.reclen == tiles[k][j].reclen
      && (s.hasLast <==> j > 0) && (j > 0 ==> s.last == At(tiles[k], j - 1))
    }

    /** The search of UnlinkKeep, which also remembers the entry before. */
    method FindName(name: Bytes) returns (found: bool, s: Match, ghost k: nat, ghost j: nat)
      requires Valid() && name != []
      ensures found == (name in names)
      ensures found ==> Carries(name, s, k, j)
    {
      var end := Multiply(|blocks|, size);
      var offset: nat, cur: nat, last: nat, hasLast := 0, 0, 0, false;
      found, s, k, j := false, Match(0, 0, 0, 0, false, 0), 0, 0;
      StartCursor(name);
      CursorEnd(0, 0, 0);
      while !found && offset < end
        invariant found || (Cursor(offset, k, j) && (offset < end <==> k < |tiles|) && NotBefore(name, k, j))
        invariant !found && k < |tiles| && j == 0 && cur == k ==> !hasLast
        invariant !found && k < |tiles| && j > 0 ==> cur == k && hasLast && last == At(tiles[k], j - 1)
        invariant found ==> name in names && Carries(name, s, k, j)
        decreases !found, end - offset
      {
        var ok, v := Look(offset, name, k, j);
        if v.block != cur { hasLast := false; }
        cur := v.block;
        if v.inode != 0 && v.same {
          found, s := true, Match(v.block, v.offset, v.inode, v.reclen, hasLast, last);
          FoundName(tiles, names, k, j, name);
        } else {
          CursorNext(offset, k, j, name);
          offset, hasLast, last := offset + v.reclen, true, v.offset;
          k, j := NextBlock(k, j), NextEntry(k, j);
          CursorEnd(offset, k, j);
        }
      }
      if !found { MissingName(tiles, names, name); }
    }

    /** The bytes of the block without the entry; entry `i` of `es`, at `at`, now covers its place. */
    method Cleared(s: Match, ghost name: Bytes, ghost k: nat, ghost j: nat)
      returns (b: Bytes, at: nat, ghost es: seq<Entry>, ghost i: nat)
      requires Valid() && Carries(name, s, k, j)
      ensures Tiled(size, b, es) && Plus(es, tiles[k], name, s.inode) && i < |es| && at == At(es, i)
    {
      BlockAt(size, blocks, tiles, k);
      if s.hasLast {
        at, i := s.last, j - 1;
        b, es := ClearLater(blocks[s.block], at, s.reclen, size, tiles[k], j);
      } else {
        AtEnd(size, blocks[k], tiles[k]);
        at, i := s.offset, 0;
        b, es := ClearFirst(blocks[s.block], s.reclen, size, tiles[k]);
      }
    }

    /**
     Inode::UnlinkKeep: removes a name and counts the link down, which was not 0. A block
     left without names is overwritten by the last one and dropped, unless the last one
     cannot be read. `empty` are the directories without entries of their own.
     */
    method UnlinkKeep(name: Bytes, directories: bool, force: bool, empty: set<nat>, readable: bool) returns (r: UnlinkResult)
      requires Valid() && Counted(names, links)
      modifies this
      ensures Valid() && Counted(names, links) && (old(Packed(tiles)) && readable ==> Packed(tiles))
      ensures r == Unbound <==> name == [] || name !in old(names)
      ensures r != Unbound ==>
        var ino := old(names)[name];
        && (r == NoDirectory <==> !force && directories && ino !in dirs)
        && (r == NotEmpty <==> !force && directories && ino in dirs && ino !in empty)
        && (r == ADirectory <==> !force && !directories && ino in dirs)
        && (r.Unlinked? ==> r.ino == ino && ino in old(links) && old(links)[ino] > 0 && links == old(links)[ino := old(links)[ino] - 1] && names == old(names) - {name})
      ensures !r.Unlinked? ==> names == old(names) && links == old(links) && blocks == old(blocks)
      ensures SameElsewhere(old(names), old(links), names, links)
      ensures |old(blocks)| - 1 <= |blocks| <= |old(blocks)|
    {
      if name == [] { return Unbound; }
      var found, s, k, j := FindName(name);
      if !found { return Unbound; }
      var ino := s.inode;
      FoundName(tiles, names, k, j, name);
      if !force && directories && ino !in dirs { return NoDirectory; }
      if !force && directories && ino !in empty { return NotEmpty; }
      if !force && !directories && ino in dirs { return ADirectory; }
      UnlinkCounts(names, links, name);
      if links[ino] != 0 { links := links[ino := links[ino] - 1]; }
      Unbind(name, s, readable, k, j);
      r := Unlinked(ino);
    }

    /** The entry is cleared, and its block goes if it was the only one. */
    method Unbind(name: Bytes, s: Match, readable: bool, ghost k: nat, ghost j: nat)
      requires Valid() && Carries(name, s, k, j) && name in names && names[name] == s.inode
      modifies this`blocks, this`tiles, this`names
      ensures Valid() && names == old(names) - {name} && (old(Packed(tiles)) && readable ==> Packed(tiles))
      ensures |old(blocks)| - 1 <= |blocks| <= |old(blocks)|
    {
      var b, at, es, i := Cleared(s, name, k, j);
      Here(size, b, es, i);
      AloneWhen(size, b, es, i);
      DropName(tiles, k, es, names, name, s.inode);
      if b[at + HEADER] == 0 && Get16(b, at + 4) == size && (s.block + 1 == |blocks| || readable) {
        RemoveBlock(s.block, es, names - {name});
      } else {
        SetBlock(size, blocks, tiles, k, b, es);
        if Packed(tiles) && Binds(es) { PackedMore(tiles, k, es); }
        blocks := blocks[s.block := b];
        tiles := tiles[k := es];
      }
      names := names - {name};
    }

    /** Dropping block `k`, whose entries have become the single hole `es`. */
    method RemoveBlock(k: nat, ghost es: seq<Entry>, ghost m: map<Bytes, nat>)
      requires Valid() && k < |blocks| && |es| == 1 && es[0].inode == 0 && Represents(tiles[k := es], m)
      modifies this`blocks, this`tiles
      ensures AllBlocksOk(size, blocks, tiles) && Represents(tiles, m) && |blocks| == |old(blocks)| - 1
      ensures old(Packed(tiles)) ==> Packed(tiles)
    {
      var last := |blocks| - 1;
      assert es == [es[0]];
      forall n, i ensures Count(es, n, i) == 0 { CountOne(es[0], n, i); }
      ghost var cut := tiles[k := es];
      DropBlock(cut, k, m);
      if Packed(tiles) { PackedLess(tiles, k); }
      assert cut[k := cut[last]][..last] == tiles[k := tiles[last]][..last];
      BlockAt(size, blocks, tiles, last);
      SetBlock(size, blocks, tiles, k, blocks[last], tiles[last]);
      if k + 1 != |blocks| {
        blocks := blocks[k := blocks[last]];
        tiles := tiles[k := tiles[last]];
      }
      DropLastBlock(size, blocks, tiles);
      blocks := blocks[..last];
      tiles := tiles[..last];
    }
  }

  /** Linking into a dead directory binds nothing, and the caller is told that it worked. */
  method LinksNowhere() returns (d: Directory, r: LinkResult)
    ensures fresh(d) && d.Valid() && Told(r) && d.names == map[]
  {
    d := new Directory(1024, 10, 2, map[2 := 0, 3 := 1], {2});
    r := d.Link([0x61], 3, false, 1);
  }
}
