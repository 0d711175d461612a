/**
 The bytes of a FAT device as the table and the clusters that FatFile works on: an
 entry written with WriteFAT, or a stretch of a cluster written through its sectors,
 is the same change of the one or the other, and of nothing else.
 */
module FatVolume {
  import opened Arithmetic
  import opened Sequences
  import opened FatNibble
  import opened FatGeometry
  import FatTable

  type Bytes = seq<bv8>

  /** The first byte of a cluster on the device, and the size of a cluster. */
  function ClusterAt(b: Bpb, c: nat): nat
    requires b.bps > 0 && c >= 2
  {
    Times(BlockId(b, c, 0), Bps(b))
  }

  function ClusterSize(b: Bpb): nat {
    Times(b.spc, Bps(b))
  }

  /** The table of a volume that is accepted and whose sizes do not overflow. */
  ghost predicate Mounted(b: Bpb, t: FatTable.Table) {
    && InWidth(b) && Accepted(b) && MetaEnd(b) < WORD
    && t.kind == Kind(Clusters(b)) && t.bps == Bps(b) && t.spf == b.spf && t.clusters == Clusters(b)
    && t.fatLba == b.reserved && t.copies == b.fatCount
  }

  /** Such a volume meets what FatFile takes from the checks at mount. */
  lemma MountFits(b: Bpb)
    requires InWidth(b) && Accepted(b)
    ensures var kind := Kind(Clusters(b));
      var eio, eof := if kind == 12 then 0xFF7 else if kind == 16 then 0xFFF7 else 0xFFF_FFF7,
                      if kind == 12 then 0xFFF else if kind == 16 then 0xFFFF else 0xFFF_FFFF;
      0 < Clusters(b) && 2 + Clusters(b) <= eio < eof <= 0xFFF_FFFF && 512 <= Bps(b) && b.spc > 0
  {
    SectorSizes(b.bps);
  }

  lemma ClusterNext(b: Bpb, c: nat)
    requires b.bps > 0 && c >= 2
    ensures ClusterAt(b, c + 1) == ClusterAt(b, c) + ClusterSize(b)
  {
    TimesAdd(BlockId(b, c, 0), b.spc, Bps(b));
  }

  lemma {:induction false} ClusterOrder(b: Bpb, c: nat, d: nat)
    requires b.bps > 0 && 2 <= c <= d
    ensures ClusterAt(b, c) <= ClusterAt(b, d)
    decreases d
  {
    if c < d {
      ClusterOrder(b, c, d - 1);
      ClusterNext(b, d - 1);
    }
  }

  /** The sector and the offset in it that the driver computes address byte `off` of the cluster. */
  lemma SectorAddress(b: Bpb, c: nat, off: nat)
    requires b.bps > 0 && c >= 2
    ensures Times(BlockId(b, c, Quot(off, Bps(b))), Bps(b)) + Rem(off, Bps(b)) == ClusterAt(b, c) + off
  {
    QuotRem(off, Bps(b));
    TimesAdd(BlockId(b, c, 0), Quot(off, Bps(b)), Bps(b));
  }

  /** The clusters lie behind the tables and on the device. */
  lemma ClusterPlace(b: Bpb, t: FatTable.Table, c: nat)
    requires Mounted(b, t) && 2 <= c < 2 + t.clusters
    ensures t.Geometry() && t.Base(t.copies) <= ClusterAt(b, c) && ClusterAt(b, c) + ClusterSize(b) <= Times(b.device, Bps(b))
  {
    TableHasRoom(b, t);
    TimesMono(b.reserved + FatSectors(b), BlockId(b, c, 0), Bps(b));
    DataBelowTotal(b, c, b.spc - 1);
    ClusterNext(b, c);
    TimesMono(BlockId(b, c + 1, 0), b.device, Bps(b));
  }

  /** What the device shows: the entry of every cluster in every copy of the table, as a number, and the bytes of every cluster. */
  ghost predicate Shows(b: Bpb, t: FatTable.Table, d: Bytes, entries: seq<bv32>, fat: seq<nat>, data: seq<Bytes>) {
    && Mounted(b, t) && |d| == Times(b.device, Bps(b)) && |entries| == |fat| == |data| == 2 + t.clusters
    && (forall c: nat {:trigger fat[c]} | 2 <= c < 2 + t.clusters :: fat[c] == entries[c] as nat)
    && (forall c: nat {:trigger entries[c]} | 2 <= c < 2 + t.clusters :: HasEntry(t, d, c, entries[c]))
    && (forall c: nat {:trigger data[c]} | 2 <= c < 2 + t.clusters :: HasBytes(b, d, c, data[c]))
  }

  ghost predicate HasEntry(t: FatTable.Table, d: Bytes, c: nat, v: bv32) {
    forall copy: nat {:trigger t.Holds(d, copy, c, v)} | copy < t.copies :: t.Holds(d, copy, c, v)
  }

  ghost predicate HasBytes(b: Bpb, d: Bytes, c: nat, s: Bytes)
    requires b.bps > 0 && c >= 2
  {
    Stretch(d, ClusterAt(b, c), ClusterSize(b), s)
  }

  /** The `n` bytes from `at` on are `s`. */
  ghost predicate Stretch(d: Bytes, at: nat, n: nat, s: Bytes) {
    at + n <= |d| && s == d[at..at + n]
  }

  lemma ByteOfHalves(x: bv8, y: bv8)
    requires Lo(x) == Lo(y) && Hi(x) == Hi(y)
    ensures x == y
  {
  }

  /** WriteFAT leaves every byte behind the tables alone. */
  lemma BehindTables(t: FatTable.Table, d: Bytes, d': Bytes, c: nat, v: bv32, p: nat)
    requires t.Geometry() && t.Base(t.copies) <= p < |d| && c < 2 + t.clusters && t.Updated(d, d', c, v, t.copies)
    ensures d'[p] == d[p]
  {
    forall x: nat | x == 2 * p || x == 2 * p + 1 ensures N(d', x) == N(d, x) {
      if t.InEntry(x, c, t.copies) {
        var copy: nat :| copy < t.copies && t.At(copy, c) <= x < t.At(copy, c) + t.Width();
        t.BaseNext(copy);
        t.BaseMono(copy + 1, t.copies);
      }
    }
    Halves(d, p);
    Halves(d', p);
    ByteOfHalves(d[p], d'[p]);
  }

  /** An entry written on the device is an entry written in the table, and no cluster changes. */
  lemma EntryWritten(b: Bpb, t: FatTable.Table, d: Bytes, d': Bytes, entries: seq<bv32>, fat: seq<nat>, data: seq<Bytes>,
                     c: nat, v: bv32)
    requires Shows(b, t, d, entries, fat, data) && 2 <= c < 2 + t.clusters && t.Updated(d, d', c, v, t.copies)
    ensures Shows(b, t, d', entries[c := v], fat[c := v as nat], data)
  {
    ClusterPlace(b, t, c);
    TablesFit(b, t);
    var now := entries[c := v];
    forall e: nat | 2 <= e < 2 + t.clusters ensures HasEntry(t, d', e, now[e]) {
      forall copy: nat | copy < t.copies ensures t.Holds(d', copy, e, now[e]) {
        if e != c {
          assert HasEntry(t, d, e, entries[e]) && t.Holds(d, copy, e, entries[e]);
          t.OthersKept(d, d', c, v, copy, e, entries[e]);
        }
      }
    }
    forall e: nat | 2 <= e < 2 + t.clusters ensures HasBytes(b, d', e, data[e]) { KeepsBytes(b, t, d, d', c, v, e, data[e]); }
  }

  lemma TablesFit(b: Bpb, t: FatTable.Table)
    requires Mounted(b, t)
    ensures t.Base(t.copies) <= Times(b.device, Bps(b))
  {
    ClusterPlace(b, t, 2);
  }

  lemma KeepsBytes(b: Bpb, t: FatTable.Table, d: Bytes, d': Bytes, c: nat, v: bv32, e: nat, s: Bytes)
    requires Mounted(b, t) && |d| == Times(b.device, Bps(b)) && 2 <= c < 2 + t.clusters && 2 <= e < 2 + t.clusters
    requires t.Updated(d, d', c, v, t.copies) && HasBytes(b, d, e, s)
    ensures HasBytes(b, d', e, s)
  {
    ClusterPlace(b, t, e);
    var lo, hi := ClusterAt(b, e), ClusterAt(b, e) + ClusterSize(b);
    forall p | lo <= p < hi ensures d'[p] == d[p] { BehindTables(t, d, d', c, v, p); }
    assert d'[lo..hi] == d[lo..hi];
  }

  /** A stretch written on the device is a stretch written in one cluster, and no entry changes. */
  lemma StretchWritten(b: Bpb, t: FatTable.Table, d: Bytes, entries: seq<bv32>, fat: seq<nat>, data: seq<Bytes>,
                       c: nat, off: nat, src: Bytes)
    requires Shows(b, t, d, entries, fat, data) && 2 <= c < 2 + t.clusters && off + |src| <= ClusterSize(b)
    ensures ClusterAt(b, c) + off + |src| <= |d| && off + |src| <= |data[c]|
    ensures Shows(b, t, Splice(d, ClusterAt(b, c) + off, src), entries, fat, data[c := Splice(data[c], off, src)])
  {
    ClusterPlace(b, t, c);
    assert HasBytes(b, d, c, data[c]);
    var d' := Splice(d, ClusterAt(b, c) + off, src);
    forall e: nat | 2 <= e < 2 + t.clusters ensures HasEntry(t, d', e, entries[e]) {
      assert HasEntry(t, d, e, entries[e]);
      forall copy: nat | copy < t.copies ensures t.Holds(d', copy, e, entries[e]) {
        assert t.Holds(d, copy, e, entries[e]);
        BeforeData(t, d, d', copy, e, entries[e], ClusterAt(b, c) + off);
      }
    }
    var now := data[c := Splice(data[c], off, src)];
    forall e: nat | 2 <= e < 2 + t.clusters ensures HasBytes(b, d', e, now[e]) {
      assert HasBytes(b, d, e, data[e]);
      OneCluster(b, d, c, off, src, e, data[e]);
    }
  }

  /** An entry does not depend on the bytes behind the tables. */
  lemma BeforeData(t: FatTable.Table, d: Bytes, d': Bytes, copy: nat, e: nat, v: bv32, from: nat)
    requires t.Geometry() && t.Base(t.copies) <= from <= |d| == |d'| && copy < t.copies && e < 2 + t.clusters && t.Holds(d, copy, e, v)
    requires forall p | 0 <= p < from :: d'[p] == d[p]
    ensures t.Holds(d', copy, e, v)
  {
    t.BaseNext(copy);
    t.BaseMono(copy + 1, t.copies);
    forall k: nat | k < t.Width() ensures N(d', t.At(copy, e) + k) == Digit(v, k) {
      assert N(d, t.At(copy, e) + k) == Digit(v, k);
    }
  }

  lemma OneCluster(b: Bpb, d: Bytes, c: nat, off: nat, src: Bytes, e: nat, s: Bytes)
    requires b.bps > 0 && c >= 2 && e >= 2 && off + |src| <= ClusterSize(b) && ClusterAt(b, c) + ClusterSize(b) <= |d| && HasBytes(b, d, e, s)
    ensures HasBytes(b, Splice(d, ClusterAt(b, c) + off, src), e, if e == c then Splice(s, off, src) else s)
  {
    if e != c { ClustersApart(b, c, e); }
    OneStretch(d, ClusterAt(b, c), ClusterAt(b, e), ClusterSize(b), off, src, s, e == c);
  }

  lemma OneStretch(d: Bytes, at: nat, lo: nat, n: nat, off: nat, src: Bytes, s: Bytes, same: bool)
    requires off + |src| <= n && at + n <= |d| && Stretch(d, lo, n, s)
    requires if same then lo == at else lo + n <= at || at + n <= lo
    ensures Stretch(Splice(d, at + off, src), lo, n, if same then Splice(s, off, src) else s)
  {
    if same { WrittenInside(d, at, n, off, src); } else { WrittenOutside(d, at + off, src, lo, n); }
  }

  lemma ClustersApart(b: Bpb, c: nat, e: nat)
    requires b.bps > 0 && c >= 2 && e >= 2 && c != e
    ensures ClusterAt(b, e) + ClusterSize(b) <= ClusterAt(b, c) || ClusterAt(b, c) + ClusterSize(b) <= ClusterAt(b, e)
  {
    ClusterNext(b, c);
    ClusterNext(b, e);
    if e < c { ClusterOrder(b, e + 1, c); } else { ClusterOrder(b, c + 1, e); }
  }

  lemma WrittenInside(d: Bytes, lo: nat, n: nat, off: nat, src: Bytes)
    requires off + |src| <= n && lo + n <= |d|
    ensures Splice(d, lo + off, src)[lo..lo + n] == Splice(d[lo..lo + n], off, src)
  {
  }

  lemma WrittenOutside(d: Bytes, at: nat, src: Bytes, lo: nat, n: nat)
    requires at + |src| <= |d| && lo + n <= |d| && (lo + n <= at || at + |src| <= lo)
    ensures Splice(d, at, src)[lo..lo + n] == d[lo..lo + n]
  {
  }

  /** The value ReadFAT finds is the entry shown. */
  lemma EntryRead(b: Bpb, t: FatTable.Table, d: Bytes, entries: seq<bv32>, fat: seq<nat>, data: seq<Bytes>, c: nat, v: bv32)
    requires Shows(b, t, d, entries, fat, data) && 2 <= c < 2 + t.clusters && t.Holds(d, 0, c, v)
    ensures v as nat == fat[c]
  {
    ClusterPlace(b, t, c);
    assert HasEntry(t, d, c, entries[c]) && t.Holds(d, 0, c, entries[c]);
    t.HoldsOne(d, 0, c, v, entries[c]);
  }
}
