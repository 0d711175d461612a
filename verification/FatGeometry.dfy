/**
 The checks of a FAT volume at mount, and what they promise the code that trusts
 them: table accesses inside their own copy, data sectors after the tables and
 apart from one another.
 */
module FatGeometry {
  import opened Arithmetic
  import FatTable

  const WORD := 0x1_0000_0000

  /** The boot sector fields that matter, and the number of sectors of the device. */
  datatype Bpb = Bpb(bps: bv16, rootEntries: nat, spf: nat, total: nat, fatCount: nat, reserved: nat, spc: nat, rootCluster: nat, fsinfo: nat, device: nat)

  predicate InWidth(b: Bpb) {
    && b.rootEntries < 0x1_0000 && b.spf < WORD && b.total < WORD && b.fatCount < 0x100
    && b.reserved < 0x1_0000 && b.spc < 0x100 && b.rootCluster < WORD && b.fsinfo < 0x1_0000
  }

  function Bps(b: Bpb): nat {
    b.bps as nat
  }

  /** A nonzero power of two that fits a byte. */
  predicate PowerOfTwo(x: nat) {
    x == 1 || x == 2 || x == 4 || x == 8 || x == 16 || x == 32 || x == 64 || x == 128
  }

  function FatSectors(b: Bpb): nat {
    Times(b.fatCount, b.spf)
  }

  function RootSectors(b: Bpb): nat
    requires b.bps > 0
  {
    DivUp(32 * b.rootEntries, Bps(b))
  }

  /** Where the metadata ends. */
  function MetaEnd(b: Bpb): nat
    requires b.bps > 0
  {
    b.reserved + FatSectors(b) + RootSectors(b)
  }

  /**
   The first data sector: the mount check adds up in 32 bits, the driver in 64, but
   what it adds to that is cut to 32 bits when the block is fetched.
   */
  function DataLba(b: Bpb): nat
    requires b.bps > 0
  {
    MetaEnd(b) % WORD
  }

  function Clusters(b: Bpb): nat
    requires b.bps > 0 && b.spc > 0 && DataLba(b) <= b.total
  {
    Quot(b.total - DataLba(b), b.spc)
  }

  function Kind(clusters: nat): nat {
    if clusters < 4085 then 12 else if clusters < 65525 then 16 else 32
  }

  /** The checks of sizes and places, in the order they are made. */
  predicate Accepted(b: Bpb) {
    && 512 <= b.bps <= 4096 && b.bps & (b.bps - 1) == 0
    && Rem(32 * b.rootEntries, Bps(b)) == 0
    && b.spf != 0 && b.total != 0 && b.total <= b.device && b.fatCount >= 1 && b.reserved != 0
    && FatSectors(b) < WORD
    && DataLba(b) <= b.total
    && PowerOfTwo(b.spc)
    && 1 <= Clusters(b) < 0xFFF_FFF7 - 2
    && 2 + Clusters(b) <= Times(b.spf, Bps(b)) * 8 / Kind(Clusters(b))
    && (b.rootEntries >= 1 || Kind(Clusters(b)) == 32)
    && (Kind(Clusters(b)) == 32 ==> 2 <= b.rootCluster <= 2 + Clusters(b) && 1 <= b.fsinfo < b.reserved)
  }

  lemma SectorSizes(x: bv16)
    requires 512 <= x <= 4096 && x & (x - 1) == 0
    ensures x == 512 || x == 1024 || x == 2048 || x == 4096
  {
  }

  lemma EntriesFit(kind: nat, entries: nat, bytes: nat)
    requires (kind == 12 || kind == 16 || kind == 32) && entries <= bytes * 8 / kind
    ensures kind == 12 ==> 3 * entries <= 2 * bytes
    ensures kind == 16 ==> 4 * entries <= 2 * bytes
    ensures kind == 32 ==> 8 * entries <= 2 * bytes
  {
  }

  /** The tables of an accepted volume have room for every entry, to the last half byte. */
  lemma TableHasRoom(b: Bpb, t: FatTable.Table)
    requires InWidth(b) && Accepted(b)
    requires t.kind == Kind(Clusters(b)) && t.bps == Bps(b) && t.spf == b.spf && t.clusters == Clusters(b)
    ensures t.Geometry()
  {
    SectorSizes(b.bps);
    EntriesFit(t.kind, 2 + t.clusters, Times(b.spf, Bps(b)));
  }

  /** Unless the sizes overflow, all copies of the table lie on the device, which is what ReadFAT and WriteFAT require. */
  lemma TablesOnDevice(b: Bpb, t: FatTable.Table)
    requires InWidth(b) && Accepted(b) && MetaEnd(b) < WORD
    requires t.kind == Kind(Clusters(b)) && t.bps == Bps(b) && t.spf == b.spf && t.clusters == Clusters(b)
    requires t.fatLba == b.reserved && t.copies == b.fatCount && |t.disk| == Times(b.device, Bps(b))
    ensures t.Valid()
  {
    TableHasRoom(b, t);
    TimesMono(b.reserved + FatSectors(b), b.device, Bps(b));
  }

  /** The bytes ReadFAT and WriteFAT touch for a 12-bit entry, the second one included, lie inside the copy. */
  lemma SecondByteInside(b: Bpb, cluster: nat)
    requires InWidth(b) && Accepted(b) && Kind(Clusters(b)) == 12 && cluster < 2 + Clusters(b)
    ensures cluster + cluster / 2 + 1 < Times(b.spf, Bps(b))
  {
    EntriesFit(12, 2 + Clusters(b), Times(b.spf, Bps(b)));
  }

  /** GetBlockId: the sector of part of a cluster. */
  function BlockId(b: Bpb, cluster: nat, sector: nat): nat
    requires b.bps > 0 && cluster >= 2
  {
    DataLba(b) + Times(cluster - 2, b.spc) + sector
  }

  /** Every sector of a cluster lies below the end of the volume. */
  lemma DataBelowTotal(b: Bpb, cluster: nat, sector: nat)
    requires InWidth(b) && Accepted(b) && 2 <= cluster < 2 + Clusters(b) && sector < b.spc
    ensures DataLba(b) <= BlockId(b, cluster, sector) < b.total
  {
    var room := b.total - DataLba(b);
    QuotRem(room, b.spc);
    TimesMono(cluster - 2 + 1, Clusters(b), b.spc);
  }

  /** Different places in clusters are different sectors. */
  lemma DataInjective(b: Bpb, c: nat, s: nat, d: nat, t: nat)
    requires Accepted(b) && c >= 2 && d >= 2 && s < b.spc && t < b.spc && BlockId(b, c, s) == BlockId(b, d, t)
    ensures c == d && s == t
  {
    QuotRemOf(c - 2, s, b.spc);
    QuotRemOf(d - 2, t, b.spc);
  }

  /** The data comes after the tables exactly when the sizes before it do not overflow 32 bits. */
  lemma DataAfterTables(b: Bpb)
    requires InWidth(b) && Accepted(b)
    ensures (forall c: nat, s: nat {:trigger BlockId(b, c, s)} | 2 <= c < 2 + Clusters(b) && s < b.spc :: MetaEnd(b) <= BlockId(b, c, s))
            <==> MetaEnd(b) < WORD
  {
    if MetaEnd(b) >= WORD {
      assert BlockId(b, 2, 0) == DataLba(b);
      assert !(MetaEnd(b) <= BlockId(b, 2, 0));
    }
  }

  /** A volume that is accepted although its data begins inside the reserved sectors. */
  lemma DataMayOverlap()
    ensures var b := Bpb(512, 0, 0xFFFF_FFFF, 65526, 1, 2, 1, 2, 1, 65526);
      InWidth(b) && Accepted(b) && DataLba(b) == 1 && MetaEnd(b) == WORD + 1
  {
    var b := Bpb(512, 0, 0xFFFF_FFFF, 65526, 1, 2, 1, 2, 1, 65526);
    assert FatSectors(b) == 0xFFFF_FFFF by { assert Times(0, b.spf) == 0; }
    assert RootSectors(b) == 0;
    QuotOne(65525);
    TimesIsProduct(0xFFFF_FFFF, 512);
  }

  /**
   What the driver does with the root cluster of a FAT32 volume. The assertion of
   ReadFAT holds for it, and all its sectors lie on the volume, exactly when it ends
   where the data does or before; its first sector may lie there all the same, and
   its entry in the table.
   */
  lemma RootUsable(b: Bpb)
    requires InWidth(b) && Accepted(b) && Kind(Clusters(b)) == 32
    ensures b.rootCluster < 2 + Clusters(b) <==> Times(b.rootCluster - 1, b.spc) <= b.total - DataLba(b)
    ensures (forall s: nat {:trigger BlockId(b, b.rootCluster, s)} | s < b.spc :: BlockId(b, b.rootCluster, s) < b.total)
            <==> Times(b.rootCluster - 1, b.spc) <= b.total - DataLba(b)
    ensures BlockId(b, b.rootCluster, 0) < b.total
            <==> Times(b.rootCluster - 1, b.spc) <= b.total - DataLba(b) || Rem(b.total - DataLba(b), b.spc) > 0
    ensures 4 * b.rootCluster + 4 <= Times(b.spf, Bps(b))
            <==> Times(b.rootCluster - 1, b.spc) <= b.total - DataLba(b) || 4 * (3 + Clusters(b)) <= Times(b.spf, Bps(b))
  {
    var room, c := b.total - DataLba(b), Clusters(b);
    QuotRem(room, b.spc);
    EntriesFit(32, 2 + c, Times(b.spf, Bps(b)));
    if b.rootCluster < 2 + c {
      TimesMono(b.rootCluster - 1, c, b.spc);
      forall s: nat | s < b.spc ensures BlockId(b, b.rootCluster, s) < b.total { DataBelowTotal(b, b.rootCluster, s); }
    } else {
      assert BlockId(b, b.rootCluster, b.spc - 1) >= b.total;
    }
  }

  /** A volume that is accepted with its root cluster one past the last, where no sector of it lies on the volume. */
  lemma RootMayBePastTheEnd()
    ensures var b := Bpb(512, 0, 512, 66039, 1, 2, 1, 65527, 1, 66039);
      && InWidth(b) && Accepted(b) && Kind(Clusters(b)) == 32 && b.rootCluster == 2 + Clusters(b)
      && forall s: nat {:trigger BlockId(b, b.rootCluster, s)} | s < b.spc :: BlockId(b, b.rootCluster, s) >= b.total
  {
    var b := Bpb(512, 0, 512, 66039, 1, 2, 1, 65527, 1, 66039);
    assert FatSectors(b) == 512 by { assert Times(0, b.spf) == 0; }
    assert RootSectors(b) == 0;
    QuotOne(65525);
    TimesIsProduct(512, 512);
    TimesOne(65525);
  }
}
