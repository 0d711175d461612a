/**
 The block bitmap of an ext2 block group: bits in bytes, bytes in chunks of one
 block, and a cursor below which the loaded chunk has no clear bit.
 */
module ExtBits {
  import opened Arithmetic

  type Chunk = seq<bv8>

  /** `1 << i` for a bit of a byte. */
  function Mask(i: nat): bv8 {
    if i == 0 then 1 else if i == 1 then 2 else if i == 2 then 4 else if i == 3 then 8
    else if i == 4 then 16 else if i == 5 then 32 else if i == 6 then 64 else 128
  }

  lemma MaskSets(x: bv8, i: nat, j: nat)
    requires i < 8 && j < 8
    ensures (x | Mask(i)) & Mask(j) != 0 <==> i == j || x & Mask(j) != 0
  {
  }

  lemma MaskClears(x: bv8, i: nat, j: nat)
    requires i < 8 && j < 8
    ensures (x & !Mask(i)) & Mask(j) != 0 <==> i != j && x & Mask(j) != 0
  {
  }

  /** checkbit, setbit and clearbit of ext/util.h. */
  predicate Bit(c: Chunk, b: nat)
    requires b < 8 * |c|
  {
    c[b / 8] & Mask(b % 8) != 0
  }

  function SetBit(c: Chunk, b: nat): (r: Chunk)
    requires b < 8 * |c|
    ensures |r| == |c|
  {
    c[b / 8 := c[b / 8] | Mask(b % 8)]
  }

  function ClearBit(c: Chunk, b: nat): (r: Chunk)
    requires b < 8 * |c|
    ensures |r| == |c|
  {
    c[b / 8 := c[b / 8] & !Mask(b % 8)]
  }

  /** Exactly one bit changes. */
  lemma SetsOne(c: Chunk, b: nat, k: nat)
    requires b < 8 * |c| && k < 8 * |c|
    ensures Bit(SetBit(c, b), k) <==> k == b || Bit(c, k)
  {
    if k / 8 == b / 8 { MaskSets(c[b / 8], b % 8, k % 8); }
  }

  lemma ClearsOne(c: Chunk, b: nat, k: nat)
    requires b < 8 * |c| && k < 8 * |c|
    ensures Bit(ClearBit(c, b), k) <==> k != b && Bit(c, k)
  {
    if k / 8 == b / 8 { MaskClears(c[b / 8], b % 8, k % 8); }
  }

  /** Bits of all chunks of `n` bits each, numbered through. */
  predicate BitAt(chunks: seq<Chunk>, n: nat, g: nat)
    requires n > 0
  {
    var c, b := Quot(g, n), Rem(g, n);
    c < |chunks| && b < 8 * |chunks[c]| && Bit(chunks[c], b)
  }

  /** The block numbers within a group of `total` blocks whose bit is clear. */
  ghost function Free(chunks: seq<Chunk>, n: nat, total: nat): set<nat>
    requires n > 0
  {
    set g {:trigger BitAt(chunks, n, g)} | 0 <= g < total && !BitAt(chunks, n, g)
  }

  /** All chunks are `n` bits long, and they cover `total` bits. */
  ghost predicate Covers(chunks: seq<Chunk>, n: nat, total: nat) {
    && n > 0 && total <= Times(|chunks|, n) && (|chunks| > 0 ==> Times(|chunks| - 1, n) < total)
    && forall c {:trigger chunks[c]} | 0 <= c < |chunks| :: 8 * |chunks[c]| == n
  }

  /** How many bits of a chunk are in use. */
  function InUse(chunks: seq<Chunk>, n: nat, total: nat, c: nat): int
    requires c < |chunks|
  {
    if c + 1 == |chunks| then total - Times(c, n) else n
  }

  lemma Located(chunks: seq<Chunk>, n: nat, total: nat, c: nat, b: nat)
    requires Covers(chunks, n, total) && c < |chunks| && b < InUse(chunks, n, total, c)
    ensures b < n && Times(c, n) + b < total && Quot(Times(c, n) + b, n) == c && Rem(Times(c, n) + b, n) == b
    ensures BitAt(chunks, n, Times(c, n) + b) <==> Bit(chunks[c], b)
  {
    if c + 1 < |chunks| { TimesMono(c + 1, |chunks| - 1, n); }
    QuotRemOf(c, b, n);
  }

  lemma Numbered(chunks: seq<Chunk>, n: nat, total: nat, g: nat)
    requires Covers(chunks, n, total) && g < total
    ensures Quot(g, n) < |chunks| && Rem(g, n) < InUse(chunks, n, total, Quot(g, n)) && Times(Quot(g, n), n) + Rem(g, n) == g
  {
    QuotRem(g, n);
    if |chunks| <= Quot(g, n) { TimesMono(|chunks|, Quot(g, n), n); }
  }

  /** `d` is chunk `c` with bit `b` made `v`. */
  ghost predicate Changed(c: Chunk, d: Chunk, b: nat, v: bool) {
    |d| == |c| && forall k: nat {:trigger Bit(d, k)} | k < 8 * |c| :: Bit(d, k) <==> if k == b then v else Bit(c, k)
  }

  lemma SetChanges(c: Chunk, b: nat)
    requires b < 8 * |c|
    ensures Changed(c, SetBit(c, b), b, true) && Changed(c, ClearBit(c, b), b, false)
  {
    var s, t := SetBit(c, b), ClearBit(c, b);
    forall k: nat | k < 8 * |c| ensures Bit(s, k) <==> if k == b then true else Bit(c, k) { SetsOne(c, b, k); }
    forall k: nat | k < 8 * |c| ensures Bit(t, k) <==> if k == b then false else Bit(c, k) { ClearsOne(c, b, k); }
  }

  lemma BitAfter(chunks: seq<Chunk>, n: nat, total: nat, c: nat, b: nat, d: Chunk, v: bool, g: nat)
    requires Covers(chunks, n, total) && c < |chunks| && b < InUse(chunks, n, total, c) && Changed(chunks[c], d, b, v) && g < total
    ensures BitAt(chunks[c := d], n, g) <==> if g == Times(c, n) + b then v else BitAt(chunks, n, g)
  {
    Located(chunks, n, total, c, b);
    Numbered(chunks, n, total, g);
    if Quot(g, n) == c { assert Bit(d, Rem(g, n)) <==> if Rem(g, n) == b then v else Bit(chunks[c], Rem(g, n)); }
  }

  /** Setting a bit takes exactly its block out of the free ones, clearing it puts it back. */
  lemma FreeAfter(chunks: seq<Chunk>, n: nat, total: nat, c: nat, b: nat, d: Chunk, v: bool)
    requires Covers(chunks, n, total) && c < |chunks| && b < InUse(chunks, n, total, c) && Changed(chunks[c], d, b, v)
    ensures v ==> Free(chunks[c := d], n, total) == Free(chunks, n, total) - {Times(c, n) + b}
    ensures !v ==> Free(chunks[c := d], n, total) == Free(chunks, n, total) + {Times(c, n) + b}
  {
    var now, was, at := Free(chunks[c := d], n, total), Free(chunks, n, total), Times(c, n) + b;
    forall g: nat ensures g in now <==> if g == at then !v else g in was { FreeAt(chunks, n, total, c, b, d, v, g); }
    SameBut(now, was, at, v);
  }

  lemma CoversAfter(chunks: seq<Chunk>, n: nat, total: nat, c: nat, b: nat, d: Chunk)
    requires Covers(chunks, n, total) && c < |chunks| && b < InUse(chunks, n, total, c) && |d| == |chunks[c]|
    ensures Covers(chunks[c := d], n, total) && Times(c, n) + b < total && b < 8 * |chunks[c]|
    ensures Times(c, n) + b in Free(chunks, n, total) <==> !Bit(chunks[c], b)
  {
    Located(chunks, n, total, c, b);
    CoversStill(chunks, n, total, c, d);
  }

  /** Covering depends on the lengths of the chunks only. */
  lemma CoversStill(chunks: seq<Chunk>, n: nat, total: nat, c: nat, d: Chunk)
    requires Covers(chunks, n, total) && c < |chunks| && |d| == |chunks[c]|
    ensures Covers(chunks[c := d], n, total)
  {
  }

  lemma FreeAt(chunks: seq<Chunk>, n: nat, total: nat, c: nat, b: nat, d: Chunk, v: bool, g: nat)
    requires Covers(chunks, n, total) && c < |chunks| && b < InUse(chunks, n, total, c) && Changed(chunks[c], d, b, v)
    ensures g in Free(chunks[c := d], n, total) <==> if g == Times(c, n) + b then !v else g in Free(chunks, n, total)
  {
    Located(chunks, n, total, c, b);
    if g < total { BitAfter(chunks, n, total, c, b, d, v, g); }
  }

  lemma SameBut(now: set<nat>, was: set<nat>, at: nat, v: bool)
    requires forall g: nat :: g in now <==> if g == at then !v else g in was
    ensures if v then now == was - {at} else now == was + {at}
  {
  }

  /** The bits of a chunk below the cursor are set. */
  ghost predicate BelowSet(c: Chunk, cursor: nat) {
    forall b: nat {:trigger Bit(c, b)} | b < cursor && b < 8 * |c| :: Bit(c, b)
  }

  ghost predicate UnfoldSound(x: bool) {
    true
  }

  /** The chunks cover the group, and the bits of chunk `c`, if it is loaded, are set below the cursor. */
  ghost predicate Sound(chunks: seq<Chunk>, n: nat, total: nat, c: nat, loaded: bool, cursor: nat) {
    && n > 0 && (c < |chunks| || (|chunks| == c == 0 && !loaded))
    && forall x | UnfoldSound(x) :: Covers(chunks, n, total) && (loaded ==> cursor <= n && BelowSet(chunks[c], cursor))
  }

  /** The free blocks of the group, folded. */
  ghost predicate IsFree(chunks: seq<Chunk>, n: nat, total: nat, free: set<nat>) {
    n > 0 && forall x | UnfoldSound(x) :: free == Free(chunks, n, total)
  }

  /** Bit `b` of chunk `c` is in use and clear, folded. */
  ghost predicate IsClear(chunks: seq<Chunk>, n: nat, total: nat, c: nat, b: nat) {
    c < |chunks| && forall x | UnfoldSound(x) :: b < InUse(chunks, n, total, c) && b < 8 * |chunks[c]| && !Bit(chunks[c], b)
  }

  /** Taking bit `b` of chunk `c`, on which the cursor is, and moving on. */
  method TakeBit(chunks: seq<Chunk>, ghost n: nat, ghost total: nat, c: nat, b: nat, ghost free: set<nat>) returns (now: seq<Chunk>)
    requires Sound(chunks, n, total, c, true, b) && IsClear(chunks, n, total, c, b) && IsFree(chunks, n, total, free)
    ensures Sound(now, n, total, c, true, b + 1) && IsFree(now, n, total, free - {Times(c, n) + b})
    ensures Times(c, n) + b in free && |free - {Times(c, n) + b}| + 1 == |free|
  {
    assert UnfoldSound(true);
    var d := SetBit(chunks[c], b);
    now := chunks[c := d];
    SetChanges(chunks[c], b);
    CoversAfter(chunks, n, total, c, b, d);
    FreeAfter(chunks, n, total, c, b, d, true);
    forall k: nat | k < b + 1 && k < 8 * |d| ensures Bit(d, k) { assert k < b ==> Bit(chunks[c], k); }
  }

  /** Clearing bit `b` and moving the cursor back to it if it is further on. */
  method ReturnBit(chunks: seq<Chunk>, ghost n: nat, ghost total: nat, c: nat, b: nat, cursor: nat, ghost free: set<nat>)
    returns (now: seq<Chunk>, before: nat, ghost more: set<nat>)
    requires Sound(chunks, n, total, c, true, cursor) && b < InUse(chunks, n, total, c) && IsFree(chunks, n, total, free)
    ensures Sound(now, n, total, c, true, before) && IsFree(now, n, total, more) && more == free + {Times(c, n) + b}
    ensures Times(c, n) + b !in free ==> |more| == |free| + 1
  {
    assert UnfoldSound(true);
    Located(chunks, n, total, c, b);
    var d := ClearBit(chunks[c], b);
    now, before, more := chunks[c := d], if b < cursor then b else cursor, free + {Times(c, n) + b};
    SetChanges(chunks[c], b);
    CoversAfter(chunks, n, total, c, b, d);
    FreeAfter(chunks, n, total, c, b, d, false);
    BelowStays(chunks[c], d, b, false, cursor, before);
  }

  /** The bits below the cursor stay set when one that is not below it changes. */
  lemma BelowStays(c: Chunk, d: Chunk, b: nat, v: bool, cursor: nat, before: nat)
    requires Changed(c, d, b, v) && BelowSet(c, cursor) && before <= b && before <= cursor
    ensures BelowSet(d, before)
  {
    forall k: nat | k < before && k < 8 * |d| ensures Bit(d, k) { assert Bit(c, k); }
  }

  /** A group without chunks has no blocks. */
  lemma NoChunks(chunks: seq<Chunk>, n: nat, total: nat, free: set<nat>)
    requires Sound(chunks, n, total, 0, false, 0) && IsFree(chunks, n, total, free) && chunks == []
    ensures free == {}
  {
    assert UnfoldSound(true);
  }

  /** Every used bit of a chunk is set. */
  ghost predicate Full(chunks: seq<Chunk>, n: nat, total: nat, c: nat)
    requires Covers(chunks, n, total) && c < |chunks|
  {
    forall b: nat {:trigger Bit(chunks[c], b)} | b < InUse(chunks, n, total, c) && b < n :: Bit(chunks[c], b)
  }

  /** If every chunk is full, no block is free. */
  lemma NoneFree(chunks: seq<Chunk>, n: nat, total: nat)
    requires Covers(chunks, n, total) && forall c: nat {:trigger Full(chunks, n, total, c)} | c < |chunks| :: Full(chunks, n, total, c)
    ensures Free(chunks, n, total) == {}
  {
    forall g | 0 <= g < total ensures BitAt(chunks, n, g) {
      Numbered(chunks, n, total, g);
      assert Full(chunks, n, total, Quot(g, n));
    }
  }
}

/** BlockGroup::AllocateBlock and FreeBlock, and how block numbers are divided among groups. */
module ExtBitmap {
  import opened Arithmetic
  import opened ExtBits

  /** The ranges of the BlockGroup constructor. */
  function FirstBlock(firstData: nat, perGroup: nat, group: nat): nat {
    firstData + Times(group, perGroup)
  }

  function Blocks(firstData: nat, perGroup: nat, groups: nat, total: nat, group: nat): int {
    if group + 1 == groups then total - FirstBlock(firstData, perGroup, group) else perGroup
  }

  /** The group Filesystem::FreeBlock sends a block to. */
  function GroupOf(firstData: nat, perGroup: nat, id: nat): nat
    requires perGroup > 0 && firstData <= id
  {
    Quot(id - firstData, perGroup)
  }

  /** Every block belongs to exactly one group, the one it is sent to. */
  lemma GroupsPartition(firstData: nat, perGroup: nat, groups: nat, total: nat, id: nat, group: nat)
    requires perGroup > 0 && groups == DivUp(total, perGroup) && group < groups && firstData <= id < total
    ensures GroupOf(firstData, perGroup, id) < groups
    ensures GroupOf(firstData, perGroup, id) == group <==>
              FirstBlock(firstData, perGroup, group) <= id < FirstBlock(firstData, perGroup, group) + Blocks(firstData, perGroup, groups, total, group)
  {
    var x := id - firstData;
    QuotRem(total, perGroup);
    QuotRem(x, perGroup);
    var q := Quot(x, perGroup);
    if groups <= q { TimesMono(groups, q, perGroup); }
    if q < group { TimesMono(q + 1, group, perGroup); }
    if group < q { TimesMono(group + 1, q, perGroup); }
  }

  /** Which of `count` chunks the outer loop of AllocateBlock visits in round `i`. */
  function Visit(begun: nat, i: nat, count: nat): nat
    requires begun < count && i < count
  {
    if begun + i < count then begun + i else begun + i - count
  }

  /** A number as a 16-bit field holds it. */
  const WORD := 65536

  function Low(k: nat): nat {
    k % WORD
  }

  ghost predicate UnfoldCount(x: bool) {
    true
  }

  ghost predicate Counts(count: nat, k: nat) {
    forall x | UnfoldCount(x) :: count == Low(k)
  }

  lemma CountOfNone(count: nat, k: nat)
    requires Counts(count, k)
    ensures count == 0 <==> Low(k) == 0
  {
    assert UnfoldCount(true);
  }

  /** The 16-bit `++` and `--`. */
  method Increment(count: nat, ghost k: nat) returns (r: nat)
    requires Counts(count, k)
    ensures Counts(r, k + 1)
  {
    assert UnfoldCount(true);
    r := (count + 1) % WORD;
  }

  method Decrement(count: nat, ghost k: nat) returns (r: nat)
    requires Counts(count, k + 1)
    ensures Counts(r, k)
  {
    assert UnfoldCount(true);
    r := (count + WORD - 1) % WORD;
  }

  class BlockGroup {
    const first: nat
    const total: nat
    const n: nat
    var chunks: seq<Chunk>
    var loaded: bool
    var allocChunk: nat
    var cursor: nat
    var freeCount: nat
    var superFree: nat
    var checkRequested: bool
    /** The free blocks of the group, counted from its first one. */
    ghost var free: set<nat>

    /** A group as it is found on disk, its 16-bit free count in agreement with its bitmap. */
    constructor (first: nat, total: nat, n: nat, chunks: seq<Chunk>, freeCount: nat, superFree: nat)
      requires Covers(chunks, n, total) && freeCount == Low(|Free(chunks, n, total)|) && |Free(chunks, n, total)| <= superFree
      ensures Valid() && this.first == first && this.total == total && this.n == n && free == Free(chunks, n, total)
    {
      this.first, this.total, this.n, this.chunks := first, total, n, chunks;
      loaded, allocChunk, cursor := false, 0, 0;
      this.freeCount, this.superFree, checkRequested := freeCount, superFree, false;
      free := Free(chunks, n, total);
    }

    ghost predicate Valid()
      reads this
    {
      && Sound(chunks, n, total, allocChunk, loaded, cursor) && IsFree(chunks, n, total, free)
      && Counts(freeCount, |free|) && |free| <= superFree
    }

    /** Takes the bit under the cursor. */
    method Take() returns (id: nat)
      requires Valid() && OnClearBit()
      modifies this
      ensures Valid() && first <= id && id - first in old(free) && free == old(free) - {id - first}
      ensures superFree == old(superFree) - 1 && checkRequested == old(checkRequested)
    {
      var offset := Multiply(allocChunk, n);
      id := first + offset + cursor;
      assert id - first == Times(allocChunk, n) + cursor;
      chunks := TakeBit(chunks, n, total, allocChunk, cursor, free);
      free := free - {id - first};
      freeCount := Decrement(freeCount, |free|);
      superFree := superFree - 1;
      cursor := cursor + 1;
    }

    /** The inner loop: moves the cursor to a clear bit of the loaded chunk, if there is one. */
    method Scan(bits: nat) returns (found: bool)
      requires Valid() && loaded && bits == InUse(chunks, n, total, allocChunk) && bits <= n
      modifies this`cursor
      ensures Valid() && found == (cursor < bits)
      ensures Covers(chunks, n, total)
      ensures if found then cursor < 8 * |chunks[allocChunk]| && !Bit(chunks[allocChunk], cursor) else Full(chunks, n, total, allocChunk)
    {
      assert UnfoldSound(true);
      while cursor < bits && Bit(chunks[allocChunk], cursor)
        invariant Valid()
      {
        cursor := cursor + 1;
      }
      found := cursor < bits;
    }

    /** The chunks visited in the first `i` rounds of the outer loop have no clear bit. */
    ghost predicate Searched(begun: nat, i: nat)
      requires Covers(chunks, n, total) && begun < |chunks| && i <= |chunks|
      reads this`chunks
    {
      forall j: nat {:trigger Visit(begun, j, |chunks|)} | j < i :: Full(chunks, n, total, Visit(begun, j, |chunks|))
    }

    /** The search of AllocateBlock over all chunks, starting where the last one left off. */
    method Search() returns (found: bool)
      requires Valid() && |chunks| > 0
      modifies this`allocChunk, this`loaded, this`cursor
      ensures Valid() && (found ==> OnClearBit()) && (!found ==> free == {})
    {
      assert UnfoldSound(true);
      var begun, i := allocChunk, 0;
      found := false;
      while !found && i < |chunks|
        invariant i <= |chunks| && Valid() && begun < |chunks| && (i == 0 ==> allocChunk == begun) && (found || i == 0 || !loaded)
        invariant Searched(begun, i) && (found ==> OnClearBit())
        decreases !found, |chunks| - i
      {
        found := Probe(begun, i);
        if !found { i := i + 1; }
      }
      if !found { VisitsAll(begun); }
    }

    /**
     BlockGroup::AllocateBlock: finds a free block exactly when their number is not a
     multiple of 65536, for less than that exactly when there is one; a check is
     never requested.
     */
    method AllocateBlock() returns (id: nat)
      requires Valid()
      modifies this
      ensures Valid() && checkRequested == old(checkRequested)
      ensures Low(|old(free)|) == 0 ==> id == 0 && free == old(free) && superFree == old(superFree)
      ensures Low(|old(free)|) != 0 ==>
        && first <= id && id - first in old(free) && free == old(free) - {id - first}
        && superFree == old(superFree) - 1
    {
      id := 0;
      CountOfNone(freeCount, |free|);
      if freeCount == 0 { return; }
      if |chunks| == 0 { NoChunks(chunks, n, total, free); }
      var found := Search();
      if found { id := Take(); }
      Settle(found);
    }

    /** The fallback of AllocateBlock for a count that promised more than the bitmap holds. */
    method Settle(found: bool)
      modifies this`checkRequested, this`freeCount
      ensures if found then freeCount == old(freeCount) && checkRequested == old(checkRequested) else freeCount == 0 && checkRequested
    {
      if !found { checkRequested, freeCount := true, 0; }
    }

    /** The cursor is on a clear bit of the loaded chunk. */
    ghost predicate OnClearBit()
      reads this
    {
      loaded && IsClear(chunks, n, total, allocChunk, cursor)
    }

    /** One round of the outer loop: loads the chunk if need be and scans it. */
    method Probe(begun: nat, i: nat) returns (found: bool)
      requires Valid() && begun < |chunks| && i < |chunks| && (i == 0 ==> allocChunk == begun) && (i > 0 ==> !loaded)
      modifies this`allocChunk, this`loaded, this`cursor
      ensures Valid() && allocChunk == Visit(begun, i, |chunks|)
      ensures Covers(chunks, n, total)
      ensures if found then OnClearBit() else !loaded && Full(chunks, n, total, allocChunk)
    {
      assert UnfoldSound(true);
      var q, at := Divide(begun + i, |chunks|);
      allocChunk := at;
      if !loaded { loaded, cursor := true, 0; }
      var offset := Multiply(allocChunk, n);
      TimesMono(allocChunk, |chunks| - 1, n);
      var bits := if allocChunk + 1 == |chunks| then total - offset else n;
      found := Scan(bits);
      if !found { loaded := false; }
    }

    lemma VisitsAll(begun: nat)
      requires Covers(chunks, n, total) && begun < |chunks| && Searched(begun, |chunks|) && IsFree(chunks, n, total, free)
      ensures free == {}
    {
      assert UnfoldSound(true);
      forall c: nat | c < |chunks| ensures Full(chunks, n, total, c) {
        var j := if begun <= c then c - begun else c + |chunks| - begun;
        assert Visit(begun, j, |chunks|) == c;
      }
      NoneFree(chunks, n, total);
    }

    /** BlockGroup::FreeBlock of a block of the group that is not free. */
    method FreeBlock(id: nat)
      requires Valid() && first <= id < first + total && id - first !in free
      modifies this
      ensures Valid() && free == old(free) + {id - first} && superFree == old(superFree) + 1
      ensures checkRequested == old(checkRequested)
    {
      assert UnfoldSound(true);
      Numbered(chunks, n, total, id - first);
      var chunk, bit := Divide(id - first, n);
      if !loaded || chunk != allocChunk {
        allocChunk, loaded, cursor := chunk, true, 0;
      }
      Clear(bit);
    }

    /** Clears a bit of the loaded chunk. */
    method Clear(bit: nat)
      requires Valid() && loaded && bit < InUse(chunks, n, total, allocChunk)
      requires Times(allocChunk, n) + bit !in free
      modifies this
      ensures Valid() && free == old(free) + {Times(old(allocChunk), n) + bit} && superFree == old(superFree) + 1
      ensures checkRequested == old(checkRequested)
    {
      var count := Increment(freeCount, |free|);
      var now, before;
      ghost var more;
      now, before, more := ReturnBit(chunks, n, total, allocChunk, bit, cursor, free);
      chunks, cursor, freeCount, superFree, free := now, before, count, superFree + 1, more;
    }
  }

  lemma {:induction false} RangeSize(s: set<nat>, k: nat)
    requires forall g: nat :: g in s <==> g < k
    ensures |s| == k
  {
    if k > 0 { RangeSize(s - {k - 1}, k - 1); }
  }

  /** A group of one chunk without a set bit. */
  lemma AllFree(chunk: Chunk)
    requires |chunk| > 0 && forall i | 0 <= i < |chunk| :: chunk[i] == 0
    ensures Covers([chunk], 8 * |chunk|, 8 * |chunk|) && |Free([chunk], 8 * |chunk|, 8 * |chunk|)| == 8 * |chunk|
  {
    var n := 8 * |chunk|;
    assert Times(1, n) == n + Times(0, n);
    forall g | 0 <= g < n ensures !BitAt([chunk], n, g) { assert chunk[g / 8] == 0; }
    RangeSize(Free([chunk], n, n), n);
  }

  /** A group of 65536 free blocks, which blocks of 8 KiB allow, grants none of them. */
  method RefusesAll() returns (g: BlockGroup, id: nat)
    ensures fresh(g) && g.Valid() && id == 0 && g.first == 1 && |g.free| == 65536
  {
    var chunk: Chunk := seq(8192, _ => 0);
    AllFree(chunk);
    g := new BlockGroup(1, 65536, 65536, [chunk], 0, 65536);
    id := g.AllocateBlock();
  }
}
