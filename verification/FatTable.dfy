/**
 The bits of FAT entries. The FAT32 File System Specification packs entries of 12,
 16 or 28 bits; counted in half bytes, the entry of cluster `c` is the `Width`
 half bytes from number `Stride * c` of the table on, least significant first.
 */
module FatNibble {
  function Lo(b: bv8): bv8 {
    b & 0xF
  }

  function Hi(b: bv8): bv8 {
    b >> 4
  }

  function Byte(v: bv32): bv8 {
    (v & 0xFF) as bv8
  }

  function Nibble(v: bv32): bv8 {
    (v & 0xF) as bv8
  }

  /** Half byte `k` of a value. */
  function Digit(v: bv32, k: nat): bv8 {
    if k == 0 then Nibble(v)
    else if k == 1 then Nibble(v >> 4)
    else if k == 2 then Nibble(v >> 8)
    else if k == 3 then Nibble(v >> 12)
    else if k == 4 then Nibble(v >> 16)
    else if k == 5 then Nibble(v >> 20)
    else if k == 6 then Nibble(v >> 24)
    else Nibble(v >> 28)
  }

  /** The half bytes of a value determine it. */
  lemma DigitsDecide(v: bv32, w: bv32)
    requires forall k: nat {:trigger Digit(v, k)} | k < 8 :: Digit(v, k) == Digit(w, k)
    ensures v == w
  {
    assert Digit(v, 0) == Digit(w, 0) && Digit(v, 1) == Digit(w, 1) && Digit(v, 2) == Digit(w, 2) && Digit(v, 3) == Digit(w, 3);
    assert Digit(v, 4) == Digit(w, 4) && Digit(v, 5) == Digit(w, 5) && Digit(v, 6) == Digit(w, 6) && Digit(v, 7) == Digit(w, 7);
  }

  /** The bit operations of WriteFAT for 12-bit entries, on the two bytes they touch. */
  function Mask12(odd: bool): bv32 {
    if odd then 0xFFF0 else 0x0FFF
  }

  function Data12(odd: bool, v: bv32): bv32 {
    if odd then v << 4 else v
  }

  function Lower12(odd: bool, b: bv8, v: bv32): bv8 {
    (b & Byte(!Mask12(odd))) | Byte(Data12(odd, v))
  }

  function Upper12(odd: bool, b: bv8, v: bv32): bv8 {
    (b & Byte(!(Mask12(odd) >> 8))) | Byte(Data12(odd, v) >> 8)
  }

  lemma Pack12(odd: bool, b0: bv8, b1: bv8, v: bv32)
    requires v < 0x1000
    ensures var c0, c1 := Lower12(odd, b0, v), Upper12(odd, b1, v);
      if odd then Lo(c0) == Lo(b0) && Hi(c0) == Digit(v, 0) && Lo(c1) == Digit(v, 1) && Hi(c1) == Digit(v, 2)
      else Lo(c0) == Digit(v, 0) && Hi(c0) == Digit(v, 1) && Lo(c1) == Digit(v, 2) && Hi(c1) == Hi(b1)
  {
    Pack12Bits(odd, b0, b1, v, Data12(odd, v), Mask12(odd), Lower12(odd, b0, v), Upper12(odd, b1, v));
  }

  lemma Pack12Bits(odd: bool, b0: bv8, b1: bv8, v: bv32, data: bv32, mask: bv32, c0: bv8, c1: bv8)
    requires v < 0x1000 && data == (if odd then v << 4 else v) && mask == if odd then 0xFFF0 else 0x0FFF
    requires c0 == (b0 & Byte(!mask)) | Byte(data) && c1 == (b1 & Byte(!(mask >> 8))) | Byte(data >> 8)
    ensures odd ==> Lo(c0) == Lo(b0) && Hi(c0) == Digit(v, 0) && Lo(c1) == Digit(v, 1) && Hi(c1) == Digit(v, 2)
    ensures !odd ==> Lo(c0) == Digit(v, 0) && Hi(c0) == Digit(v, 1) && Lo(c1) == Digit(v, 2) && Hi(c1) == Hi(b1)
  {
  }

  /** Those of ReadFAT. */
  function Value12(odd: bool, b0: bv8, b1: bv8): bv32 {
    var raw := Value16(b0, b1);
    if odd then raw >> 4 else raw & 0xFFF
  }

  lemma Unpack12Odd(b0: bv8, b1: bv8)
    ensures var v := Value12(true, b0, b1);
      v < 0x1000 && Digit(v, 0) == Hi(b0) && Digit(v, 1) == Lo(b1) && Digit(v, 2) == Hi(b1)
  {
  }

  lemma Unpack12Even(b0: bv8, b1: bv8)
    ensures var v := Value12(false, b0, b1);
      v < 0x1000 && Digit(v, 0) == Lo(b0) && Digit(v, 1) == Hi(b0) && Digit(v, 2) == Lo(b1)
  {
  }

  function Value16(b0: bv8, b1: bv8): bv32 {
    (b0 as bv32) | ((b1 as bv32) << 8)
  }

  lemma Pack16(v: bv32)
    requires v < 0x1_0000
    ensures Lo(Byte(v)) == Digit(v, 0) && Hi(Byte(v)) == Digit(v, 1)
    ensures Lo(Byte(v >> 8)) == Digit(v, 2) && Hi(Byte(v >> 8)) == Digit(v, 3)
  {
  }

  lemma Unpack16(b0: bv8, b1: bv8)
    ensures var v := Value16(b0, b1);
      v < 0x1_0000 && Digit(v, 0) == Lo(b0) && Digit(v, 1) == Hi(b0) && Digit(v, 2) == Lo(b1) && Digit(v, 3) == Hi(b1)
  {
  }

  function Raw32(b0: bv8, b1: bv8, b2: bv8, b3: bv8): bv32 {
    (b0 as bv32) | ((b1 as bv32) << 8) | ((b2 as bv32) << 16) | ((b3 as bv32) << 24)
  }

  lemma Pack32(b0: bv8, b1: bv8, b2: bv8, b3: bv8, v: bv32, w: bv32)
    requires v < 0x1000_0000 && w == v | (Raw32(b0, b1, b2, b3) & 0xF000_0000)
    ensures Lo(Byte(w)) == Digit(v, 0) && Hi(Byte(w)) == Digit(v, 1)
    ensures Lo(Byte(w >> 8)) == Digit(v, 2) && Hi(Byte(w >> 8)) == Digit(v, 3)
    ensures Lo(Byte(w >> 16)) == Digit(v, 4) && Hi(Byte(w >> 16)) == Digit(v, 5)
    ensures Lo(Byte(w >> 24)) == Digit(v, 6) && Hi(Byte(w >> 24)) == Hi(b3)
  {
  }

  lemma Unpack32(b0: bv8, b1: bv8, b2: bv8, b3: bv8, v: bv32)
    requires v == Raw32(b0, b1, b2, b3) & 0x0FFF_FFFF
    ensures v < 0x1000_0000
    ensures Digit(v, 0) == Lo(b0) && Digit(v, 1) == Hi(b0) && Digit(v, 2) == Lo(b1) && Digit(v, 3) == Hi(b1)
    ensures Digit(v, 4) == Lo(b2) && Digit(v, 5) == Hi(b2) && Digit(v, 6) == Lo(b3)
  {
    Unpack32Low(b0, b1, b2, b3, v);
    Unpack32Middle(b0, b1, b2, b3, v);
    Unpack32High(b0, b1, b2, b3, v);
  }

  lemma Unpack32Low(b0: bv8, b1: bv8, b2: bv8, b3: bv8, v: bv32)
    requires v == Raw32(b0, b1, b2, b3) & 0x0FFF_FFFF
    ensures Digit(v, 0) == Lo(b0) && Digit(v, 1) == Hi(b0) && Digit(v, 2) == Lo(b1)
  {
  }

  lemma Unpack32Middle(b0: bv8, b1: bv8, b2: bv8, b3: bv8, v: bv32)
    requires v == Raw32(b0, b1, b2, b3) & 0x0FFF_FFFF
    ensures Digit(v, 3) == Hi(b1) && Digit(v, 4) == Lo(b2)
  {
  }

  lemma Unpack32High(b0: bv8, b1: bv8, b2: bv8, b3: bv8, v: bv32)
    requires v == Raw32(b0, b1, b2, b3) & 0x0FFF_FFFF
    ensures v < 0x1000_0000 && Digit(v, 5) == Hi(b2) && Digit(v, 6) == Lo(b3)
  {
  }

  /** Digits beyond the width of a small value are 0. */
  lemma SmallDigits(v: bv32)
    ensures v < 0x1000 ==> Digit(v, 3) == 0
    ensures v < 0x1_0000 ==> Digit(v, 4) == 0 && Digit(v, 5) == 0 && Digit(v, 6) == 0
    ensures v < 0x1000_0000 ==> Digit(v, 7) == 0
  {
  }

  /** Half byte `x` of a disk. */
  function N(disk: seq<bv8>, x: nat): bv8
    requires x < 2 * |disk|
  {
    if x % 2 == 0 then Lo(disk[x / 2]) else Hi(disk[x / 2])
  }

  lemma Halves(disk: seq<bv8>, a: nat)
    requires a < |disk|
    ensures N(disk, 2 * a) == Lo(disk[a]) && N(disk, 2 * a + 1) == Hi(disk[a])
  {
  }

  /** `disk'` is `disk` with the first `w` half bytes of `v` written from half byte `lo` on. */
  ghost predicate Rewrote(disk: seq<bv8>, disk': seq<bv8>, lo: nat, w: nat, v: bv32) {
    && |disk'| == |disk| && lo + w <= 2 * |disk|
    && forall x: nat {:trigger N(disk', x)} | x < 2 * |disk| ::
      N(disk', x) == if lo <= x < lo + w then Digit(v, x - lo) else N(disk, x)
  }

  lemma Rewrote12(disk: seq<bv8>, a: nat, odd: bool, v: bv32)
    requires a + 1 < |disk| && v < 0x1000
    ensures Rewrote(disk, disk[a := Lower12(odd, disk[a], v)][a + 1 := Upper12(odd, disk[a + 1], v)], 2 * a + (if odd then 1 else 0), 3, v)
  {
    Pack12(odd, disk[a], disk[a + 1], v);
    RewroteByHalves(disk, a, Lower12(odd, disk[a], v), Upper12(odd, disk[a + 1], v), odd, v);
  }

  lemma RewroteByHalves(disk: seq<bv8>, a: nat, c0: bv8, c1: bv8, odd: bool, v: bv32)
    requires a + 1 < |disk|
    requires odd ==> Lo(c0) == Lo(disk[a]) && Hi(c0) == Digit(v, 0) && Lo(c1) == Digit(v, 1) && Hi(c1) == Digit(v, 2)
    requires !odd ==> Lo(c0) == Digit(v, 0) && Hi(c0) == Digit(v, 1) && Lo(c1) == Digit(v, 2) && Hi(c1) == Hi(disk[a + 1])
    ensures Rewrote(disk, disk[a := c0][a + 1 := c1], 2 * a + (if odd then 1 else 0), 3, v)
  {
  }

  lemma Rewrote16(disk: seq<bv8>, a: nat, c0: bv8, c1: bv8, v: bv32)
    requires a + 1 < |disk|
    requires Lo(c0) == Digit(v, 0) && Hi(c0) == Digit(v, 1) && Lo(c1) == Digit(v, 2) && Hi(c1) == Digit(v, 3)
    ensures Rewrote(disk, disk[a := c0][a + 1 := c1], 2 * a, 4, v)
  {
  }

  lemma Rewrote32(disk: seq<bv8>, a: nat, c0: bv8, c1: bv8, c2: bv8, c3: bv8, v: bv32)
    requires a + 3 < |disk|
    requires Lo(c0) == Digit(v, 0) && Hi(c0) == Digit(v, 1) && Lo(c1) == Digit(v, 2) && Hi(c1) == Digit(v, 3)
    requires Lo(c2) == Digit(v, 4) && Hi(c2) == Digit(v, 5) && Lo(c3) == Digit(v, 6) && Hi(c3) == Hi(disk[a + 3])
    ensures Rewrote(disk, disk[a := c0][a + 1 := c1][a + 2 := c2][a + 3 := c3], 2 * a, 7, v)
  {
  }

  /** What the first `w` half bytes from `lo` on spell, checked one by one. */
  ghost predicate Spells(disk: seq<bv8>, lo: nat, w: nat, v: bv32) {
    && lo + w <= 2 * |disk|
    && forall k: nat {:trigger Digit(v, k)} | k < w :: N(disk, lo + k) == Digit(v, k)
  }

  lemma Spells12(disk: seq<bv8>, a: nat, odd: bool)
    requires a + 1 < |disk|
    ensures var v := Value12(odd, disk[a], disk[a + 1]);
      v < 0x1000 && Spells(disk, 2 * a + (if odd then 1 else 0), 3, v)
  {
    Halves(disk, a);
    Halves(disk, a + 1);
    if odd { Unpack12Odd(disk[a], disk[a + 1]); } else { Unpack12Even(disk[a], disk[a + 1]); }
  }

  lemma Spells16(disk: seq<bv8>, a: nat)
    requires a + 1 < |disk|
    ensures var v := Value16(disk[a], disk[a + 1]); v < 0x1_0000 && Spells(disk, 2 * a, 4, v)
  {
    Halves(disk, a);
    Halves(disk, a + 1);
    Unpack16(disk[a], disk[a + 1]);
  }

  lemma Spells32(disk: seq<bv8>, a: nat, v: bv32)
    requires a + 3 < |disk|
    requires Digit(v, 0) == Lo(disk[a]) && Digit(v, 1) == Hi(disk[a]) && Digit(v, 2) == Lo(disk[a + 1])
    requires Digit(v, 3) == Hi(disk[a + 1]) && Digit(v, 4) == Lo(disk[a + 2]) && Digit(v, 5) == Hi(disk[a + 2])
    requires Digit(v, 6) == Lo(disk[a + 3])
    ensures Spells(disk, 2 * a, 7, v)
  {
    Halves(disk, a);
    Halves(disk, a + 1);
    Halves(disk, a + 2);
    Halves(disk, a + 3);
  }
}

/**
 File allocation tables on disk: ReadFAT and WriteFAT for all three entry sizes,
 over sectors and over all copies of the table.
 */
module FatTable {
  import opened Arithmetic
  import opened FatNibble

  method Decode32(b0: bv8, b1: bv8, b2: bv8, b3: bv8) returns (v: bv32)
    ensures v <= 0x0FFF_FFFF
    ensures Digit(v, 0) == Lo(b0) && Digit(v, 1) == Hi(b0) && Digit(v, 2) == Lo(b1) && Digit(v, 3) == Hi(b1)
    ensures Digit(v, 4) == Lo(b2) && Digit(v, 5) == Hi(b2) && Digit(v, 6) == Lo(b3)
  {
    v := Raw32(b0, b1, b2, b3) & 0x0FFF_FFFF;
    Unpack32(b0, b1, b2, b3, v);
  }

  method Encode32(b0: bv8, b1: bv8, b2: bv8, b3: bv8, v: bv32) returns (c0: bv8, c1: bv8, c2: bv8, c3: bv8)
    requires v < 0x1000_0000
    ensures Lo(c0) == Digit(v, 0) && Hi(c0) == Digit(v, 1) && Lo(c1) == Digit(v, 2) && Hi(c1) == Digit(v, 3)
    ensures Lo(c2) == Digit(v, 4) && Hi(c2) == Digit(v, 5) && Lo(c3) == Digit(v, 6) && Hi(c3) == Hi(b3)
  {
    var w := v | (Raw32(b0, b1, b2, b3) & 0xF000_0000);
    Pack32(b0, b1, b2, b3, v, w);
    c0, c1, c2, c3 := Byte(w), Byte(w >> 8), Byte(w >> 16), Byte(w >> 24);
  }

  class Table {
    const kind: nat
    const bps: nat
    const fatLba: nat
    const copies: nat
    const spf: nat
    const clusters: nat
    var disk: seq<bv8>

    /** Half bytes from one entry to the next, and of one entry. */
    function Stride(): nat {
      if kind == 12 then 3 else if kind == 16 then 4 else 8
    }

    function Width(): nat {
      if kind == 12 then 3 else if kind == 16 then 4 else 7
    }

    function Top(): bv32 {
      if kind == 12 then 0xFFF else if kind == 16 then 0xFFFF else 0x0FFF_FFFF
    }

    /** The first half byte of the entry of a cluster, within a table. */
    function Start(cluster: nat): nat {
      if kind == 12 then 3 * cluster else if kind == 16 then 4 * cluster else 8 * cluster
    }

    /** The first byte of a copy of the table. */
    function Base(copy: nat): nat {
      Times(fatLba + Times(copy, spf), bps)
    }

    /** What the mount checks establish: all entries fit into a copy, and all copies onto the disk. */
    ghost predicate Geometry() {
      (kind == 12 || kind == 16 || kind == 32) && bps > 0 && bps % 4 == 0 && Start(2 + clusters) <= 2 * Times(spf, bps)
    }

    ghost predicate Valid()
      reads this
    {
      Geometry() && Base(copies) <= |disk|
    }

    /** The first half byte of an entry on the disk. */
    function At(copy: nat, cluster: nat): nat {
      2 * Base(copy) + Start(cluster)
    }

    lemma BaseNext(copy: nat)
      ensures Base(copy + 1) == Base(copy) + Times(spf, bps)
    {
      TimesAdd(fatLba + Times(copy, spf), spf, bps);
    }

    lemma {:induction false} BaseMono(c: nat, d: nat)
      requires c <= d
      ensures Base(c) <= Base(d)
      decreases d
    {
      if c < d {
        BaseMono(c, d - 1);
        BaseNext(d - 1);
      }
    }

    /** An entry lies inside its own copy, which lies on the disk. */
    lemma EntryInside(copy: nat, cluster: nat)
      requires Valid() && copy < copies && cluster < 2 + clusters
      ensures At(copy, cluster) + Stride() <= 2 * Base(copy + 1) <= 2 * |disk|
    {
      BaseNext(copy);
      BaseMono(copy + 1, copies);
    }

    /** The sector and offset of byte `i` of a table address that byte. */
    lemma Located(base: nat, i: nat)
      requires Geometry()
      ensures Times(base + Quot(i, bps), bps) + Rem(i, bps) == Times(base, bps) + i
    {
      QuotRem(i, bps);
      TimesAdd(base, Quot(i, bps), bps);
    }

    /** The entry of `cluster` in `copy` is `v`. */
    ghost predicate Holds(d: seq<bv8>, copy: nat, cluster: nat, v: bv32) {
      v <= Top() && Spells(d, At(copy, cluster), Width(), v)
    }

    lemma HoldsOne(d: seq<bv8>, copy: nat, cluster: nat, v: bv32, w: bv32)
      requires Geometry() && Holds(d, copy, cluster, v) && Holds(d, copy, cluster, w)
      ensures v == w
    {
      SmallDigits(v);
      SmallDigits(w);
      forall k: nat | k < 8 ensures Digit(v, k) == Digit(w, k) {
        if k < Width() { assert N(d, At(copy, cluster) + k) == Digit(v, k) == Digit(w, k); }
      }
      DigitsDecide(v, w);
    }

    /** A byte of a sector. */
    method GetByte(sector: nat, offset: nat) returns (b: bv8)
      requires Times(sector, bps) + offset < |disk|
      ensures b == disk[Times(sector, bps) + offset]
    {
      var first := Multiply(sector, bps);
      b := disk[first + offset];
    }

    method SetByte(sector: nat, offset: nat, b: bv8)
      requires Times(sector, bps) + offset < |disk|
      modifies this
      ensures disk == old(disk)[Times(sector, bps) + offset := b]
    {
      var first := Multiply(sector, bps);
      disk := disk[first + offset := b];
    }

    /** The two bytes at byte `i` of a table, the second one perhaps in the next sector. */
    method GetPair(base: nat, i: nat) returns (b0: bv8, b1: bv8)
      requires Geometry() && Times(base, bps) + i + 1 < |disk|
      ensures b0 == disk[Times(base, bps) + i] && b1 == disk[Times(base, bps) + i + 1]
    {
      Located(base, i);
      var lba, offset := Divide(i, bps);
      b0 := GetByte(base + lba, offset);
      offset := offset + 1;
      if offset == bps { offset, lba := 0, lba + 1; }
      b1 := GetByte(base + lba, offset);
    }

    /** The sector of the entry of a cluster and its number there; an entry of 2 or 4 bytes never crosses a sector. */
    method Locate2(base: nat, cluster: nat) returns (lba: nat, entry: nat)
      requires Geometry()
      ensures Times(base + lba, bps) + 2 * entry == Times(base, bps) + 2 * cluster
    {
      Located(base, 2 * cluster);
      RemAligned(cluster, bps);
      var offset;
      lba, offset := Divide(2 * cluster, bps);
      entry := offset / 2;
    }

    method Locate4(base: nat, cluster: nat) returns (lba: nat, entry: nat)
      requires Geometry()
      ensures Times(base + lba, bps) + 4 * entry == Times(base, bps) + 4 * cluster
    {
      Located(base, 4 * cluster);
      RemAligned(cluster, bps);
      var offset;
      lba, offset := Divide(4 * cluster, bps);
      entry := offset / 4;
    }

    /** ReadFAT: the entry of a cluster, in the first copy of the table. */
    method ReadFAT(cluster: nat) returns (v: bv32)
      requires Valid() && cluster < 2 + clusters && copies > 0
      ensures Holds(disk, 0, cluster, v)
    {
      EntryInside(0, cluster);
      if kind == 12 {
        v := Read12(cluster);
      } else if kind == 16 {
        v := Read16(cluster);
      } else {
        v := Read32(cluster);
      }
    }

    method Read12(cluster: nat) returns (v: bv32)
      requires Valid() && kind == 12 && At(0, cluster) + 3 <= 2 * |disk|
      ensures Holds(disk, 0, cluster, v)
    {
      var b0, b1 := GetPair(fatLba, cluster + cluster / 2);
      Spells12(disk, Base(0) + cluster + cluster / 2, cluster % 2 == 1);
      v := Value12(cluster % 2 == 1, b0, b1);
    }

    method Read16(cluster: nat) returns (v: bv32)
      requires Valid() && kind == 16 && At(0, cluster) + 4 <= 2 * |disk|
      ensures Holds(disk, 0, cluster, v)
    {
      var lba, entry := Locate2(fatLba, cluster);
      var b0 := GetByte(fatLba + lba, 2 * entry);
      var b1 := GetByte(fatLba + lba, 2 * entry + 1);
      Spells16(disk, Base(0) + 2 * cluster);
      v := Value16(b0, b1);
    }

    method Read32(cluster: nat) returns (v: bv32)
      requires Valid() && kind == 32 && At(0, cluster) + 8 <= 2 * |disk|
      ensures Holds(disk, 0, cluster, v)
    {
      var b0, b1, b2, b3 := GetQuad(fatLba, cluster);
      v := Decode32(b0, b1, b2, b3);
      Spells32(disk, Base(0) + 4 * cluster, v);
    }

    method GetQuad(base: nat, cluster: nat) returns (b0: bv8, b1: bv8, b2: bv8, b3: bv8)
      requires Geometry() && Times(base, bps) + 4 * cluster + 3 < |disk|
      ensures var a := Times(base, bps) + 4 * cluster;
        b0 == disk[a] && b1 == disk[a + 1] && b2 == disk[a + 2] && b3 == disk[a + 3]
    {
      var lba, entry := Locate4(base, cluster);
      b0 := GetByte(base + lba, 4 * entry);
      b1 := GetByte(base + lba, 4 * entry + 1);
      b2 := GetByte(base + lba, 4 * entry + 2);
      b3 := GetByte(base + lba, 4 * entry + 3);
    }

    /** One copy of the table: exactly the half bytes of the entry change. */
    method WriteCopy(copy: nat, cluster: nat, value: bv32)
      requires Valid() && cluster < 2 + clusters && copy < copies && value <= Top()
      modifies this
      ensures Valid() && Rewrote(old(disk), disk, At(copy, cluster), Width(), value)
    {
      EntryInside(copy, cluster);
      var skip := Multiply(copy, spf);
      if kind == 12 {
        Copy12(fatLba + skip, cluster, value);
      } else if kind == 16 {
        Copy16(fatLba + skip, cluster, value);
      } else {
        Write32(fatLba + skip, cluster, value);
      }
    }

    method Copy12(base: nat, cluster: nat, value: bv32)
      requires Geometry() && Times(base, bps) + cluster + cluster / 2 + 1 < |disk| && value < 0x1000
      modifies this
      ensures Rewrote(old(disk), disk, 2 * Times(base, bps) + 3 * cluster, 3, value)
    {
      Rewrote12(disk, Times(base, bps) + cluster + cluster / 2, cluster % 2 == 1, value);
      Write12(base, cluster, value);
    }

    method Copy16(base: nat, cluster: nat, value: bv32)
      requires Geometry() && Times(base, bps) + 2 * cluster + 1 < |disk| && value < 0x1_0000
      modifies this
      ensures Rewrote(old(disk), disk, 2 * Times(base, bps) + 4 * cluster, 4, value)
    {
      Pack16(value);
      Rewrote16(disk, Times(base, bps) + 2 * cluster, Byte(value), Byte(value >> 8), value);
      Write16(base, cluster, value);
    }

    method Write12(base: nat, cluster: nat, value: bv32)
      requires Geometry() && Times(base, bps) + cluster + cluster / 2 + 1 < |disk|
      modifies this
      ensures var a, odd := Times(base, bps) + cluster + cluster / 2, cluster % 2 == 1;
        disk == old(disk)[a := Lower12(odd, old(disk)[a], value)][a + 1 := Upper12(odd, old(disk)[a + 1], value)]
    {
      var odd := cluster % 2 == 1;
      var position := cluster + cluster / 2;
      Located(base, position);
      var lba, offset := Divide(position, bps);
      var b := GetByte(base + lba, offset);
      SetByte(base + lba, offset, Lower12(odd, b, value));
      offset := offset + 1;
      if offset == bps { offset, lba := 0, lba + 1; }
      b := GetByte(base + lba, offset);
      SetByte(base + lba, offset, Upper12(odd, b, value));
    }

    method Write16(base: nat, cluster: nat, value: bv32)
      requires Geometry() && Times(base, bps) + 2 * cluster + 1 < |disk|
      modifies this
      ensures var a := Times(base, bps) + 2 * cluster;
        disk == old(disk)[a := Byte(value)][a + 1 := Byte(value >> 8)]
    {
      var lba, entry := Locate2(base, cluster);
      SetByte(base + lba, 2 * entry, Byte(value));
      SetByte(base + lba, 2 * entry + 1, Byte(value >> 8));
    }

    method Write32(base: nat, cluster: nat, value: bv32)
      requires Geometry() && Times(base, bps) + 4 * cluster + 3 < |disk| && value < 0x1000_0000
      modifies this
      ensures Rewrote(old(disk), disk, 2 * Times(base, bps) + 8 * cluster, 7, value)
    {
      var b0, b1, b2, b3 := GetQuad(base, cluster);
      b0, b1, b2, b3 := Encode32(b0, b1, b2, b3, value);
      Rewrote32(disk, Times(base, bps) + 4 * cluster, b0, b1, b2, b3, value);
      SetQuad(base, cluster, b0, b1, b2, b3);
    }

    method SetQuad(base: nat, cluster: nat, b0: bv8, b1: bv8, b2: bv8, b3: bv8)
      requires Geometry() && Times(base, bps) + 4 * cluster + 3 < |disk|
      modifies this
      ensures var a := Times(base, bps) + 4 * cluster;
        disk == old(disk)[a := b0][a + 1 := b1][a + 2 := b2][a + 3 := b3]
    {
      var lba, entry := Locate4(base, cluster);
      SetByte(base + lba, 4 * entry, b0);
      SetByte(base + lba, 4 * entry + 1, b1);
      SetByte(base + lba, 4 * entry + 2, b2);
      SetByte(base + lba, 4 * entry + 3, b3);
    }

    /** Half byte `x` belongs to the entry of `cluster` in one of the first `n` copies. */
    ghost predicate InEntry(x: nat, cluster: nat, n: nat) {
      exists copy: nat {:trigger At(copy, cluster)} :: copy < n && At(copy, cluster) <= x < At(copy, cluster) + Width()
    }

    /** `d'` is `d` with `v` in the entry of `cluster` in the first `n` copies. */
    ghost predicate Updated(d: seq<bv8>, d': seq<bv8>, cluster: nat, v: bv32, n: nat) {
      && |d'| == |d|
      && (forall copy: nat {:trigger Holds(d', copy, cluster, v)} | copy < n :: Holds(d', copy, cluster, v))
      && (forall x: nat {:trigger N(d', x)} | x < 2 * |d| && !InEntry(x, cluster, n) :: N(d', x) == N(d, x))
    }

    lemma UpdatedNext(d: seq<bv8>, d1: seq<bv8>, d2: seq<bv8>, cluster: nat, v: bv32, n: nat)
      requires Geometry() && Base(copies) <= |d| && n < copies && cluster < 2 + clusters && v <= Top()
      requires Updated(d, d1, cluster, v, n) && Rewrote(d1, d2, At(n, cluster), Width(), v)
      ensures Updated(d, d2, cluster, v, n + 1)
    {
      forall copy: nat | copy < n + 1 ensures Holds(d2, copy, cluster, v) {
        if copy < n {
          assert Holds(d1, copy, cluster, v);
          BaseMono(copy + 1, n);
          BaseNext(copy);
          forall k: nat | k < Width() ensures N(d2, At(copy, cluster) + k) == Digit(v, k) {
            assert N(d1, At(copy, cluster) + k) == Digit(v, k);
          }
        } else {
          forall k: nat | k < Width() ensures N(d2, At(n, cluster) + k) == Digit(v, k) {}
        }
      }
      forall x: nat | x < 2 * |d| && !InEntry(x, cluster, n + 1) ensures N(d2, x) == N(d, x) {
        assert !(At(n, cluster) <= x < At(n, cluster) + Width());
        assert !InEntry(x, cluster, n);
        assert N(d1, x) == N(d, x);
      }
    }

    /** WriteFAT: the entry of a cluster in every copy, and nothing else on the disk. */
    method WriteFAT(cluster: nat, value: bv32)
      requires Valid() && cluster < 2 + clusters && value <= Top()
      modifies this
      ensures Valid() && Updated(old(disk), disk, cluster, value, copies)
    {
      var copy: nat := 0;
      while copy < copies
        invariant copy <= copies && Valid() && Updated(old(disk), disk, cluster, value, copy)
      {
        ghost var before := disk;
        WriteCopy(copy, cluster, value);
        UpdatedNext(old(disk), before, disk, cluster, value, copy);
        copy := copy + 1;
      }
    }

    /** Entries of different clusters, or in different copies, share no half byte. */
    lemma EntriesApart(c: nat, cluster: nat, d: nat, other: nat, x: nat)
      requires Geometry() && cluster < 2 + clusters && other < 2 + clusters && (c != d || cluster != other)
      requires At(d, other) <= x < At(d, other) + Stride()
      ensures !(At(c, cluster) <= x < At(c, cluster) + Stride())
    {
      if c < d {
        BaseMono(c + 1, d);
        BaseNext(c);
      } else if d < c {
        BaseMono(d + 1, c);
        BaseNext(d);
      }
    }

    /** Every other entry of every copy keeps its value. */
    lemma OthersKept(d: seq<bv8>, d': seq<bv8>, cluster: nat, v: bv32, copy: nat, other: nat, w: bv32)
      requires Geometry() && Base(copies) <= |d| && cluster < 2 + clusters && other < 2 + clusters && other != cluster && copy < copies
      requires Updated(d, d', cluster, v, copies) && Holds(d, copy, other, w)
      ensures Holds(d', copy, other, w)
    {
      forall k: nat | k < Width() ensures N(d', At(copy, other) + k) == Digit(w, k) {
        assert N(d, At(copy, other) + k) == Digit(w, k);
        if InEntry(At(copy, other) + k, cluster, copies) {
          var c: nat :| c < copies && At(c, cluster) <= At(copy, other) + k < At(c, cluster) + Width();
          EntriesApart(c, cluster, copy, other, At(copy, other) + k);
        }
      }
    }

    /** The half byte of a 32-bit entry above its 28 bits survives. */
    lemma TopKept(d: seq<bv8>, d': seq<bv8>, cluster: nat, v: bv32, copy: nat)
      requires Geometry() && kind == 32 && Base(copies) <= |d| && cluster < 2 + clusters && copy < copies
      requires Updated(d, d', cluster, v, copies)
      ensures At(copy, cluster) + 7 < 2 * |d| && N(d', At(copy, cluster) + 7) == N(d, At(copy, cluster) + 7)
    {
      BaseNext(copy);
      BaseMono(copy + 1, copies);
      var x := At(copy, cluster) + 7;
      if InEntry(x, cluster, copies) {
        var c: nat :| c < copies && At(c, cluster) <= x < At(c, cluster) + Width();
        if c != copy { EntriesApart(c, cluster, copy, cluster, x); }
      }
    }

    /** Copies of the table that agree before agree afterwards. */
    ghost predicate CopiesAgree(d: seq<bv8>) {
      && Base(copies) <= |d|
      && forall copy: nat, y: nat {:trigger InCopy(d, copy, y)} | copy < copies && y < 2 * Times(spf, bps) :: InCopy(d, copy, y) == InCopy(d, 0, y)
    }

    /** Half byte `y` of a copy. */
    ghost function InCopy(d: seq<bv8>, copy: nat, y: nat): bv8 {
      if 2 * Base(copy) + y < 2 * |d| then N(d, 2 * Base(copy) + y) else 0
    }

    lemma InCopyAfter(d: seq<bv8>, d': seq<bv8>, cluster: nat, v: bv32, copy: nat, y: nat)
      requires Geometry() && Base(copies) <= |d| && cluster < 2 + clusters && copy < copies && y < 2 * Times(spf, bps)
      requires Updated(d, d', cluster, v, copies)
      ensures InCopy(d', copy, y) == if Start(cluster) <= y < Start(cluster) + Width() then Digit(v, y - Start(cluster)) else InCopy(d, copy, y)
    {
      BaseNext(copy);
      BaseMono(copy + 1, copies);
      var x := 2 * Base(copy) + y;
      if Start(cluster) <= y < Start(cluster) + Width() {
        assert Holds(d', copy, cluster, v);
        assert N(d', At(copy, cluster) + (y - Start(cluster))) == Digit(v, y - Start(cluster));
      } else if InEntry(x, cluster, copies) {
        var c: nat :| c < copies && At(c, cluster) <= x < At(c, cluster) + Width();
        OtherCopy(c, copy, cluster, x);
      }
    }

    /** A half byte of one copy is in no entry of another. */
    lemma OtherCopy(c: nat, copy: nat, cluster: nat, x: nat)
      requires Geometry() && cluster < 2 + clusters && c != copy && 2 * Base(copy) <= x < 2 * Base(copy + 1)
      ensures !(At(c, cluster) <= x < At(c, cluster) + Width())
    {
      BaseNext(c);
      if c < copy { BaseMono(c + 1, copy); } else { BaseMono(copy + 1, c); }
    }

    lemma CopiesStayAlike(d: seq<bv8>, d': seq<bv8>, cluster: nat, v: bv32)
      requires Geometry() && cluster < 2 + clusters && copies > 0 && CopiesAgree(d) && Updated(d, d', cluster, v, copies)
      ensures CopiesAgree(d')
    {
      forall copy: nat, y: nat | copy < copies && y < 2 * Times(spf, bps) ensures InCopy(d', copy, y) == InCopy(d', 0, y) {
        InCopyAfter(d, d', cluster, v, copy, y);
        InCopyAfter(d, d', cluster, v, 0, y);
        assert InCopy(d, copy, y) == InCopy(d, 0, y);
      }
    }

    /** A value written is the value read. */
    lemma ReadBack(d: seq<bv8>, cluster: nat, v: bv32, r: bv32)
      requires Geometry() && copies > 0 && Updated(d, disk, cluster, v, copies) && Holds(disk, 0, cluster, r)
      ensures r == v
    {
      assert Holds(disk, 0, cluster, v);
      HoldsOne(disk, 0, cluster, v, r);
    }
  }
}
