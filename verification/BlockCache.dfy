/**
 The heap structure behind the block cache: `Block` objects on three intrusive
 doubly linked lists (recency, one hash bin, dirty), run by one thread that
 writes blocks back itself.  The ghost sequences `order`, `chains` and `dirt`
 give the lists front to back.
 */
module BlockCache {
  import CacheProtocol

  type BlockId = CacheProtocol.BlockId
  type Bytes = CacheProtocol.Bytes

  const HASH_LENGTH := 65536

  class Block {
    var prevBlock: Block?
    var nextBlock: Block?
    var prevHashed: Block?
    var nextHashed: Block?
    var prevDirty: Block?
    var nextDirty: Block?
    var refs: nat
    var id: BlockId
    var dirty: bool
    var data: Bytes

    constructor (id: BlockId, data: Bytes)
      ensures this.id == id && this.data == data && refs == 1 && !dirty
    {
      prevBlock, nextBlock, prevHashed, nextHashed, prevDirty, nextDirty := null, null, null, null, null, null;
      this.id, this.data, refs, dirty := id, data, 1, false;
    }
  }

  // A definition stated under UnfoldIndex(x) or UnfoldData(x) stays folded for the
  // verifier until a proof mentions that predicate.

  predicate UnfoldIndex(x: bool) {
    true
  }

  predicate UnfoldData(x: bool) {
    true
  }

  function Bin(id: BlockId): (k: nat)
    ensures k < HASH_LENGTH
  {
    id % HASH_LENGTH
  }

  class Device {
    var mru: Block?
    var lru: Block?
    var dirtyHead: Block?
    const bins: array<Block?>
    var disk: imap<BlockId, Bytes>
    var count: nat
    const limit: nat
    const size: nat
    ghost var pool: set<Block>
    ghost var index: map<BlockId, Block>
    ghost var order: seq<Block>
    ghost var chains: seq<seq<Block>>
    ghost var dirt: seq<Block>
    ghost var open: multiset<Block>

    /** An empty cache over a device. */
    constructor (disk: imap<BlockId, Bytes>, size: nat, limit: nat)
      requires forall id: BlockId :: id in disk
      ensures Valid() && index == map[] && this.disk == disk && fresh(bins)
      ensures pool == {} && open == multiset{} && this.limit == limit && this.size == size
      ensures forall id: BlockId :: View(id) == disk[id]
    {
      mru, lru, dirtyHead := null, null, null;
      bins := new Block?[HASH_LENGTH](_ => null);
      this.disk, this.size, this.limit, count := disk, size, limit, 0;
      pool, index, order, dirt, open := {}, map[], [], [], multiset{};
      chains := seq(HASH_LENGTH, _ => []);
    }

    // ----- The three lists -----

    ghost predicate MruAt(i: nat)
      requires i < |order|
      reads this`order, this`pool, pool`prevBlock, pool`nextBlock
    {
      && order[i] in pool
      && order[i].prevBlock == (if i == 0 then null else order[i - 1])
      && order[i].nextBlock == (if i + 1 == |order| then null else order[i + 1])
    }

    ghost predicate MruOk()
      reads this`order, this`pool, this`mru, this`lru, pool`prevBlock, pool`nextBlock
    {
      && mru == (if order == [] then null else order[0])
      && lru == (if order == [] then null else order[|order| - 1])
      && (forall i, j | 0 <= i < j < |order| :: order[i] != order[j])
      && forall i: nat {:trigger MruAt(i)} | i < |order| :: MruAt(i)
    }

    /** Block::Unlink, the recency list. */
    method UnlinkMru(b: Block, ghost i: nat)
      requires MruOk() && i < |order| && order[i] == b
      modifies this`mru, this`lru, this`order, pool`prevBlock, pool`nextBlock
      ensures order == old(order[..i] + order[i + 1..]) && MruOk()
      ensures forall c :: c in order <==> c in old(order) && c != b
    {
      assert MruAt(i);
      assert i > 0 ==> MruAt(i - 1);
      assert i + 1 < |order| ==> MruAt(i + 1);
      if b.prevBlock != null { b.prevBlock.nextBlock := b.nextBlock; } else { mru := b.nextBlock; }
      if b.nextBlock != null { b.nextBlock.prevBlock := b.prevBlock; } else { lru := b.prevBlock; }
      order := order[..i] + order[i + 1..];
      forall j: nat | j < |order| ensures MruAt(j) {
        assert old(MruAt(if j < i then j else j + 1));
      }
    }

    /** Block::Prelink, the recency list. */
    method PrelinkMru(b: Block)
      requires MruOk() && b in pool && b !in order
      modifies this`mru, this`lru, this`order, pool`prevBlock, pool`nextBlock
      ensures order == [b] + old(order) && MruOk()
    {
      assert order != [] ==> MruAt(0);
      b.prevBlock := null;
      b.nextBlock := mru;
      if mru != null { mru.prevBlock := b; }
      mru := b;
      if lru == null { lru := b; }
      order := [b] + order;
      forall j: nat | j < |order| ensures MruAt(j) {
        if j > 0 { assert old(MruAt(j - 1)); }
      }
    }

    ghost predicate HashAt(k: nat, i: nat)
      requires k < |chains| && i < |chains[k]|
      reads this`chains, this`pool, pool`prevHashed, pool`nextHashed, pool`id
    {
      && chains[k][i] in pool
      && chains[k][i].prevHashed == (if i == 0 then null else chains[k][i - 1])
      && chains[k][i].nextHashed == (if i + 1 == |chains[k]| then null else chains[k][i + 1])
      && Bin(chains[k][i].id) == k
    }

    ghost predicate BinOk(k: nat)
      requires k < |chains| == bins.Length
      reads bins, this`chains, this`pool, pool`prevHashed, pool`nextHashed, pool`id
    {
      && bins[k] == (if chains[k] == [] then null else chains[k][0])
      && (forall i, j | 0 <= i < j < |chains[k]| :: chains[k][i] != chains[k][j])
      && forall i: nat {:trigger HashAt(k, i)} | i < |chains[k]| :: HashAt(k, i)
    }

    ghost predicate HashOk()
      reads bins, this`chains, this`pool, pool`prevHashed, pool`nextHashed, pool`id
    {
      && |chains| == bins.Length == HASH_LENGTH
      && forall k: nat {:trigger BinOk(k)} | k < HASH_LENGTH :: BinOk(k)
    }

    /** Block::Unlink, the hash bin. */
    method UnlinkHash(b: Block, ghost i: nat)
      requires HashOk() && i < |chains[Bin(b.id)]| && chains[Bin(b.id)][i] == b
      modifies bins, this`chains, pool`prevHashed, pool`nextHashed
      ensures chains == old(chains[Bin(b.id) := chains[Bin(b.id)][..i] + chains[Bin(b.id)][i + 1..]]) && HashOk()
      ensures forall k, c {:trigger c in chains[k]} | 0 <= k < HASH_LENGTH && c in chains[k] :: c != b && c in old(chains)[k]
      ensures forall k, c {:trigger c in old(chains)[k]} | 0 <= k < HASH_LENGTH && c in old(chains)[k] && c != b :: c in chains[k]
    {
      var bin := Bin(b.id);
      assert BinOk(bin) && HashAt(bin, i);
      assert i > 0 ==> HashAt(bin, i - 1);
      assert i + 1 < |chains[bin]| ==> HashAt(bin, i + 1);
      if b.prevHashed != null { b.prevHashed.nextHashed := b.nextHashed; } else { bins[bin] := b.nextHashed; }
      if b.nextHashed != null { b.nextHashed.prevHashed := b.prevHashed; }
      chains := chains[bin := chains[bin][..i] + chains[bin][i + 1..]];
      forall k: nat | k < HASH_LENGTH ensures BinOk(k) {
        assert old(BinOk(k));
        forall j: nat | j < |chains[k]| ensures HashAt(k, j) {
          assert old(HashAt(k, if k != bin || j < i then j else j + 1));
        }
      }
      forall k, c | 0 <= k < HASH_LENGTH && c in chains[k] ensures c != b && c in old(chains)[k] {
        ghost var j :| 0 <= j < |chains[k]| && chains[k][j] == c;
        assert BinOk(k) && HashAt(k, j);
      }
    }

    /** Block::Prelink, the hash bin. */
    method PrelinkHash(b: Block)
      requires HashOk() && b in pool && forall k: nat | k < |chains| :: b !in chains[k]
      modifies bins, this`chains, pool`prevHashed, pool`nextHashed
      ensures chains == old(chains[Bin(b.id) := [b] + chains[Bin(b.id)]]) && HashOk()
    {
      var bin := Bin(b.id);
      assert BinOk(bin) && (chains[bin] != [] ==> HashAt(bin, 0));
      b.prevHashed := null;
      b.nextHashed := bins[bin];
      bins[bin] := b;
      if b.nextHashed != null { b.nextHashed.prevHashed := b; }
      chains := chains[bin := [b] + chains[bin]];
      forall k: nat | k < HASH_LENGTH ensures BinOk(k) {
        assert old(BinOk(k));
        forall j: nat | j < |chains[k]| ensures HashAt(k, j) {
          if k != bin { assert old(HashAt(k, j)); } else if j > 0 { assert old(HashAt(k, j - 1)); }
        }
      }
    }

    ghost predicate DirtyAt(i: nat)
      requires i < |dirt|
      reads this`dirt, this`pool, pool`prevDirty, pool`nextDirty
    {
      && dirt[i] in pool
      && dirt[i].prevDirty == (if i == 0 then null else dirt[i - 1])
      && dirt[i].nextDirty == (if i + 1 == |dirt| then null else dirt[i + 1])
    }

    ghost predicate DirtyOk()
      reads this`dirtyHead, this`dirt, this`pool, pool`prevDirty, pool`nextDirty
    {
      && dirtyHead == (if dirt == [] then null else dirt[0])
      && (forall i, j | 0 <= i < j < |dirt| :: dirt[i] != dirt[j])
      && forall i: nat {:trigger DirtyAt(i)} | i < |dirt| :: DirtyAt(i)
    }

    /** Block::Sync, the dirty list. */
    method UnlinkDirty(b: Block, ghost i: nat)
      requires DirtyOk() && i < |dirt| && dirt[i] == b
      modifies this`dirt, this`dirtyHead, pool`prevDirty, pool`nextDirty
      ensures dirt == old(dirt[..i] + dirt[i + 1..]) && DirtyOk()
      ensures forall c :: c in dirt <==> c in old(dirt) && c != b
    {
      assert DirtyAt(i);
      assert i > 0 ==> DirtyAt(i - 1);
      assert i + 1 < |dirt| ==> DirtyAt(i + 1);
      if b.prevDirty != null { b.prevDirty.nextDirty := b.nextDirty; } else { dirtyHead := b.nextDirty; }
      if b.nextDirty != null { b.nextDirty.prevDirty := b.prevDirty; }
      b.prevDirty := null;
      b.nextDirty := null;
      dirt := dirt[..i] + dirt[i + 1..];
      forall j: nat | j < |dirt| ensures DirtyAt(j) {
        assert old(DirtyAt(if j < i then j else j + 1));
      }
    }

    /** Block::FinishWrite, the dirty list. */
    method PrelinkDirty(b: Block)
      requires DirtyOk() && b in pool && b !in dirt
      modifies this`dirt, this`dirtyHead, pool`prevDirty, pool`nextDirty
      ensures dirt == [b] + old(dirt) && DirtyOk()
    {
      assert dirt != [] ==> DirtyAt(0);
      b.prevDirty := null;
      b.nextDirty := dirtyHead;
      if b.nextDirty != null { b.nextDirty.prevDirty := b; }
      dirtyHead := b;
      dirt := [b] + dirt;
      forall j: nat | j < |dirt| ensures DirtyAt(j) {
        if j > 0 { assert old(DirtyAt(j - 1)); }
      }
    }

    // ----- The lists index the same blocks -----

    /** The cache's block for its id is `b`. */
    ghost predicate Has(b: Block)
      reads this`index, b`id
    {
      b.id in index && index[b.id] == b
    }

    /** The block for `id` is on the recency list and in its bin. */
    ghost predicate Linked(id: BlockId)
      requires |chains| == HASH_LENGTH && id in index
      reads this`chains, this`pool, this`index, this`order, pool`id
    {
      && index[id] in pool && index[id].id == id
      && index[id] in order && index[id] in chains[Bin(id)]
    }

    ghost predicate IndexOk()
      reads this`mru, this`lru, this`order, this`chains, this`pool, this`index, bins
      reads pool`prevBlock, pool`nextBlock, pool`prevHashed, pool`nextHashed, pool`id
    {
      forall x | UnfoldIndex(x) ::
        && MruOk() && HashOk()
        && (forall id {:trigger Linked(id)} | id in index :: Linked(id))
        && (forall b {:trigger b in order} | b in order :: b in pool && Has(b))
        && (forall k: nat, b {:trigger b in chains[k]} | k < |chains| && b in chains[k] :: b in pool && Has(b))
    }

    /** Where a cached block sits on the recency list and in its bin. */
    lemma Locate(b: Block) returns (i: nat, j: nat)
      requires IndexOk() && Has(b)
      ensures b in pool && i < |order| && order[i] == b
      ensures |chains| == HASH_LENGTH && j < |chains[Bin(b.id)]| && chains[Bin(b.id)][j] == b
    {
      assert UnfoldIndex(true);
      assert Linked(b.id);
      i :| i < |order| && order[i] == b;
      j :| j < |chains[Bin(b.id)]| && chains[Bin(b.id)][j] == b;
    }

    /** Taking a block off both lists leaves the rest in order. */
    twostate lemma Left(b: Block)
      requires old(IndexOk()) && old(Has(b)) && MruOk() && HashOk()
      requires index == old(index) - {b.id} && pool == old(pool) && unchanged(pool`id) && |old(chains)| == HASH_LENGTH
      requires forall c :: c in order <==> c in old(order) && c != b
      requires forall k, c {:trigger c in chains[k]} | 0 <= k < HASH_LENGTH && c in chains[k] :: c != b && c in old(chains)[k]
      requires forall k, c {:trigger c in old(chains)[k]} | 0 <= k < HASH_LENGTH && c in old(chains)[k] && c != b :: c in chains[k]
      ensures IndexOk()
    {
      assert UnfoldIndex(true);
      assert old(Linked(b.id));
      forall id | id in index ensures Linked(id) { assert old(Linked(id)); }
      forall c | c in order ensures c in pool && Has(c) { assert c in old(order) && old(Has(c)); }
      forall k: nat, c | k < |chains| && c in chains[k] ensures c in pool && Has(c) {
        assert c in old(chains)[k] && old(Has(c));
      }
    }

    /** Block::Unlink. */
    method Unlink(b: Block) returns (ghost i: nat)
      requires IndexOk() && Has(b)
      modifies bins, this`mru, this`lru, this`order, this`chains, this`index
      modifies pool`prevBlock, pool`nextBlock, pool`prevHashed, pool`nextHashed
      ensures IndexOk() && i < |old(order)| && old(order)[i] == b && index == old(index) - {b.id}
      ensures order == old(order[..i] + order[i + 1..])
    {
      assert UnfoldIndex(true);
      ghost var j;
      i, j := Locate(b);
      UnlinkMru(b, i);
      UnlinkHash(b, j);
      index := index - {b.id};
      Left(b);
    }

    /** Putting a block in front of both lists leaves the rest in order. */
    twostate lemma Entered(b: Block)
      requires old(IndexOk()) && b in pool && b.id !in old(index) && MruOk() && HashOk() && |old(chains)| == HASH_LENGTH
      requires index == old(index)[b.id := b] && pool == old(pool) && unchanged(pool`id)
      requires order == [b] + old(order) && chains == old(chains[Bin(b.id) := [b] + chains[Bin(b.id)]])
      ensures IndexOk()
    {
      assert UnfoldIndex(true);
      forall id | id in index ensures Linked(id) { assert id != b.id ==> old(Linked(id)); }
    }

    /** Block::Prelink. */
    method Prelink(b: Block)
      requires IndexOk() && b in pool && b.id !in index
      modifies bins, this`mru, this`lru, this`order, this`chains, this`index
      modifies pool`prevBlock, pool`nextBlock, pool`prevHashed, pool`nextHashed
      ensures IndexOk() && order == [b] + old(order) && index == old(index)[b.id := b]
    {
      assert UnfoldIndex(true);
      PrelinkMru(b);
      PrelinkHash(b);
      index := index[b.id := b];
      Entered(b);
    }

    /** Block::Use. */
    method Use(b: Block) returns (ghost i: nat)
      requires IndexOk() && Has(b)
      modifies bins, this`mru, this`lru, this`order, this`chains, this`index
      modifies pool`prevBlock, pool`nextBlock, pool`prevHashed, pool`nextHashed
      ensures IndexOk() && i < |old(order)| && old(order)[i] == b
      ensures order == [b] + old(order[..i] + order[i + 1..])
      ensures index == old(index)
    {
      assert UnfoldIndex(true);
      assert Linked(b.id);
      i := Unlink(b);
      Prelink(b);
    }

    // ----- Write-back -----

    /** A write section on `b` is open. */
    ghost predicate Writing(b: Block)
      reads this`open
    {
      open[b] > 0
    }

    /** The block for `id`, the dirty list and the device agree. */
    ghost predicate EntryOk(id: BlockId)
      requires id in index
      reads this`disk, this`dirt, this`open, this`pool, this`index, pool`id, pool`dirty, pool`data, pool`refs
    {
      var b := index[id];
      && b in pool && b.id == id
      && (b.dirty <==> b in dirt)
      && (Writing(b) ==> b.refs > 0)
      && (!b.dirty && !Writing(b) ==> id in disk && disk[id] == b.data)
    }

    ghost predicate DataOk()
      reads this`disk, this`dirt, this`dirtyHead, this`open, this`pool, this`index
      reads pool`id, pool`dirty, pool`data, pool`refs, pool`prevDirty, pool`nextDirty
    {
      && (forall id: BlockId :: id in disk)
      && forall x | UnfoldData(x) ::
        && DirtyOk()
        && (forall b {:trigger b in dirt} | b in dirt :: b in pool && Has(b))
        && (forall b {:trigger open[b]} | b in open :: b in pool && Has(b))
        && (forall id {:trigger EntryOk(id)} | id in index :: EntryOk(id))
    }

    ghost predicate Valid()
      reads this, bins, pool
    {
      IndexOk() && DataOk() && count == |pool|
    }

    /** What the file system sees in block `id`. */
    ghost function View(id: BlockId): Bytes
      reads this`disk, this`index, if id in index then {index[id]} else {}
    {
      if id in index then index[id].data else if id in disk then disk[id] else []
    }

    /** Block::Sync without a sync thread. */
    method SyncBlock(b: Block)
      requires DataOk() && Has(b) && !Writing(b)
      modifies this`disk, this`dirt, this`dirtyHead, pool`dirty, pool`prevDirty, pool`nextDirty
      ensures DataOk() && !b.dirty
      ensures disk == old(disk)[b.id := b.data]
      ensures old(b.dirty) ==> |dirt| < |old(dirt)|
    {
      assert UnfoldData(true);
      assert EntryOk(b.id);
      if !b.dirty { return; }
      b.dirty := false;
      ghost var i :| 0 <= i < |dirt| && dirt[i] == b;
      UnlinkDirty(b, i);
      disk := disk[b.id := b.data];
      forall id | id in index ensures EntryOk(id) { assert old(EntryOk(id)); }
    }

    /** Device::Sync without a sync thread: the device becomes what the file system sees. */
    method Sync()
      requires DataOk() && open == multiset{}
      modifies this`disk, this`dirt, this`dirtyHead, pool`dirty, pool`prevDirty, pool`nextDirty
      ensures DataOk() && dirtyHead == null
      ensures forall id: BlockId :: id in disk && disk[id] == View(id) == old(View(id))
    {
      assert UnfoldData(true);
      while dirtyHead != null
        invariant DataOk()
        invariant forall id: BlockId :: View(id) == old(View(id))
        decreases |dirt|
      {
        assert DirtyAt(0) && dirt[0] in dirt && EntryOk(dirt[0].id);
        SyncBlock(dirtyHead);
      }
      forall id: BlockId ensures id in disk && disk[id] == View(id) {
        assert id in index ==> EntryOk(id);
      }
    }

    /** Block::BeginWrite: the caller may now change `b.data`; sections nest. */
    ghost method BeginWrite(b: Block)
      requires DataOk() && Has(b) && b.refs > 0
      modifies this`open
      ensures DataOk() && open == old(open) + multiset{b}
    {
      assert UnfoldData(true);
      assert EntryOk(b.id);
      open := open + multiset{b};
      forall id | id in index ensures EntryOk(id) { assert old(EntryOk(id)); }
    }

    /** A change of block data inside a section. */
    method Store(b: Block, data: Bytes)
      requires DataOk() && Writing(b)
      modifies b`data
      ensures DataOk() && b.data == data
      ensures forall id: BlockId :: View(id) == if id == b.id then data else old(View(id))
    {
      assert UnfoldData(true);
      b.data := data;
      forall id | id in index ensures EntryOk(id) { assert old(EntryOk(id)); }
      forall id: BlockId ensures View(id) == if id == b.id then data else old(View(id)) {
        assert id in index ==> EntryOk(id);
      }
    }

    /** Closing a section on a dirty block leaves the rest in order. */
    twostate lemma Closed(b: Block)
      requires old(DataOk()) && old(Writing(b)) && open == old(open) - multiset{b}
      requires b.dirty && DirtyOk() && dirt == (if old(b.dirty) then old(dirt) else [b] + old(dirt))
      requires index == old(index) && pool == old(pool) && unchanged(this`disk)
      requires unchanged(pool`id) && unchanged(pool`data) && unchanged(pool`refs)
      requires forall c | c in pool && c != b :: unchanged(c`dirty)
      ensures DataOk()
    {
      assert UnfoldData(true);
      assert old(Has(b));
      forall id | id in index ensures EntryOk(id) { assert old(EntryOk(id)); }
      forall c | c in dirt ensures c in pool && Has(c) { assert c == b || (c in old(dirt) && old(Has(c))); }
      forall c | c in open ensures c in pool && Has(c) { assert old(open)[c] > 0 && old(Has(c)); }
    }

    /** Block::FinishWrite up to its call of Use. */
    method MarkDirty(b: Block)
      requires DataOk() && Writing(b)
      modifies this`open, this`dirt, this`dirtyHead, pool`dirty, pool`prevDirty, pool`nextDirty
      ensures DataOk() && b.dirty && open == old(open) - multiset{b}
    {
      assert UnfoldData(true);
      assert EntryOk(b.id);
      open := open - multiset{b};
      if !b.dirty {
        b.dirty := true;
        PrelinkDirty(b);
      }
      Closed(b);
    }

    /** Block::FinishWrite. */
    method FinishWrite(b: Block)
      requires Valid() && Writing(b)
      modifies this`open, this`dirt, this`dirtyHead, bins, this`mru, this`lru, this`order, this`chains, this`index
      modifies pool`dirty, pool`prevDirty, pool`nextDirty
      modifies pool`prevBlock, pool`nextBlock, pool`prevHashed, pool`nextHashed
      ensures Valid() && b.dirty && open == old(open) - multiset{b} && index == old(index)
      ensures exists i :: 0 <= i < |old(order)| && old(order)[i] == b && order == [b] + old(order[..i] + order[i + 1..])
      ensures forall i: BlockId :: View(i) == old(View(i))
    {
      assert Has(b) by { assert UnfoldData(true); }
      MarkDirty(b);
      ghost var i := Use(b);
    }

    // ----- Lookup and eviction -----

    /** Device::GetCachedBlock. */
    method GetCachedBlock(id: BlockId) returns (r: Block?)
      requires Valid()
      modifies pool`refs
      ensures Valid()
      ensures r == null <==> id !in index
      ensures r != null ==> r == index[id] && r.refs == old(r.refs) + 1
      ensures forall b | b in pool && b != r :: b.refs == old(b.refs)
    {
      assert UnfoldData(true);
      assert UnfoldIndex(true);
      var bin := Bin(id);
      ghost var j := 0;
      r := bins[bin];
      assert BinOk(bin);
      while r != null
        invariant 0 <= j <= |chains[bin]|
        invariant r == if j == |chains[bin]| then null else chains[bin][j]
        invariant forall i | 0 <= i < j :: chains[bin][i].id != id
        decreases |chains[bin]| - j
      {
        assert HashAt(bin, j);
        if r.id == id {
          assert r in chains[bin];
          r.refs := r.refs + 1;
          forall id | id in index ensures EntryOk(id) { assert old(EntryOk(id)); }
          return;
        }
        r := r.nextHashed;
        j := j + 1;
      }
      assert id in index ==> Linked(id);
    }

    /** A new block object joins the pool without being linked. */
    ghost method Admit(b: Block)
      requires IndexOk() && DataOk() && b !in pool
      modifies this`pool
      ensures IndexOk() && DataOk() && pool == old(pool) + {b} && !Has(b)
    {
      assert UnfoldData(true);
      assert UnfoldIndex(true);
      assert b.id in index ==> Linked(b.id);
      pool := pool + {b};
      forall i: nat | i < |order| ensures MruAt(i) { assert old(MruAt(i)); }
      forall k: nat | k < HASH_LENGTH ensures BinOk(k) {
        assert old(BinOk(k));
        forall i: nat | i < |chains[k]| ensures HashAt(k, i) { assert old(HashAt(k, i)); }
      }
      forall i: nat | i < |dirt| ensures DirtyAt(i) { assert old(DirtyAt(i)); }
      forall id | id in index ensures Linked(id) && EntryOk(id) { assert old(Linked(id)) && old(EntryOk(id)); }
    }

    /** A block object that is not linked leaves the pool. */
    ghost method Dismiss(b: Block)
      requires IndexOk() && DataOk() && b in pool && !Has(b)
      modifies this`pool
      ensures IndexOk() && DataOk() && pool == old(pool) - {b}
    {
      assert UnfoldData(true);
      assert UnfoldIndex(true);
      pool := pool - {b};
      forall i: nat | i < |order| ensures MruAt(i) { assert old(MruAt(i)) && order[i] in order; }
      forall k: nat | k < HASH_LENGTH ensures BinOk(k) {
        assert old(BinOk(k));
        forall i: nat | i < |chains[k]| ensures HashAt(k, i) { assert old(HashAt(k, i)) && chains[k][i] in chains[k]; }
      }
      forall i: nat | i < |dirt| ensures DirtyAt(i) { assert old(DirtyAt(i)) && dirt[i] in dirt; }
      forall id | id in index ensures Linked(id) && EntryOk(id) { assert old(Linked(id)) && old(EntryOk(id)); }
    }

    /** Every block on the recency list is referred to. */
    ghost predicate AllReferred()
      reads this`order, order`refs
    {
      forall c | c in order :: c.refs > 0
    }

    /** The least recently used block without references is `b`. */
    ghost predicate Oldest(b: Block)
      reads this`order, order`refs
    {
      exists i :: 0 <= i < |order| && order[i] == b && b.refs == 0 && forall j | i < j < |order| :: order[j].refs > 0
    }

    /** The least recently used block without references, if any. */
    method FindVictim() returns (b: Block?)
      requires IndexOk()
      ensures b == null <==> AllReferred()
      ensures b != null ==> b in pool && Has(b) && Oldest(b)
    {
      assert UnfoldIndex(true);
      b := lru;
      ghost var i := |order| - 1;
      while b != null
        invariant -1 <= i < |order|
        invariant b == if i == -1 then null else order[i]
        invariant forall j | i < j < |order| :: order[j].refs > 0
        decreases i
      {
        assert MruAt(i) && b in order;
        if b.refs == 0 { return; }
        b := b.prevBlock;
        i := i - 1;
      }
    }

    /** Forgetting a block that is on the device leaves the rest in order. */
    twostate lemma Dropped(b: Block)
      requires old(DataOk()) && old(Has(b)) && !old(b.dirty) && !Writing(b) && index == old(index) - {b.id}
      requires unchanged(this`disk) && unchanged(this`dirt) && unchanged(this`dirtyHead) && unchanged(this`open)
      requires pool == old(pool) && unchanged(pool`id) && unchanged(pool`dirty) && unchanged(pool`data)
      requires unchanged(pool`refs) && unchanged(pool`prevDirty) && unchanged(pool`nextDirty)
      ensures DataOk()
    {
      assert UnfoldData(true);
      assert old(EntryOk(b.id));
      forall i: nat | i < |dirt| ensures DirtyAt(i) { assert old(DirtyAt(i)); }
      forall id | id in index ensures EntryOk(id) { assert old(EntryOk(id)); }
    }

    /** Block::Destruct: write back and unlink a block without open sections. */
    method Destruct(b: Block)
      requires Valid() && Has(b) && !Writing(b)
      modifies this`disk, this`dirt, this`dirtyHead, pool`dirty, pool`prevDirty, pool`nextDirty
      modifies bins, this`mru, this`lru, this`order, this`chains, this`index
      modifies pool`prevBlock, pool`nextBlock, pool`prevHashed, pool`nextHashed
      ensures Valid() && index == old(index) - {b.id} && b.id in disk && disk == old(disk)[b.id := b.data]
    {
      SyncBlock(b);
      label Synced:
      ghost var i := Unlink(b);
      Dropped@Synced(b);
    }

    lemma NotLinked(b: Block)
      requires DataOk() && !Has(b)
      ensures forall i | i in index :: index[i] != b
    {
      assert UnfoldData(true);
      forall i | i in index ensures index[i] != b { assert EntryOk(i); }
    }

    /** The part of AllocateBlock that takes a block nobody refers to from its id. */
    method Evict(b: Block)
      requires Valid() && Has(b) && b.refs == 0
      modifies this`disk, this`dirt, this`dirtyHead, pool`dirty, pool`prevDirty, pool`nextDirty
      modifies bins, this`mru, this`lru, this`order, this`chains, this`index
      modifies pool`prevBlock, pool`nextBlock, pool`prevHashed, pool`nextHashed
      ensures Valid() && !Has(b) && index == old(index) - {b.id} && forall i | i in index :: index[i] != b
      ensures forall i: BlockId :: View(i) == old(View(i))
    {
      assert !Writing(b) by { assert UnfoldData(true); assert EntryOk(b.id); }
      Destruct(b);
      NotLinked(b);
    }

    /** The part of AllocateBlock that makes a new block object. */
    method NewBlock() returns (b: Block)
      requires Valid()
      modifies this`pool, this`count
      ensures Valid() && fresh(b) && pool == old(pool) + {b} && !Has(b) && count == old(count) + 1
      ensures forall i | i in index :: index[i] != b
    {
      b := new Block(0, []);
      count := count + 1;
      Admit(b);
      NotLinked(b);
    }

    /** Device::AllocateBlock: a new block object, or the least recently used unreferenced one once the limit is reached. */
    method AllocateBlock() returns (b: Block)
      requires Valid()
      modifies this`pool, this`count, this`disk, this`dirt, this`dirtyHead, pool`dirty, pool`prevDirty, pool`nextDirty
      modifies bins, this`mru, this`lru, this`order, this`chains, this`index
      modifies pool`prevBlock, pool`nextBlock, pool`prevHashed, pool`nextHashed
      ensures Valid() && !Has(b) && pool == old(pool) + {b}
      ensures if limit > old(count) || old(AllReferred()) then fresh(b) && count == old(count) + 1
              else b in old(pool) && old(Oldest(b)) && count == old(count)
      ensures forall i | i in old(index) && old(index[i].refs) > 0 :: i in index && index[i] == old(index)[i]
      ensures index.Keys <= old(index).Keys && forall i | i in index :: index[i] != b
      ensures forall i: BlockId :: View(i) == old(View(i))
    {
      if limit <= count {
        var victim := FindVictim();
        if victim != null {
          Evict(victim);
          return victim;
        }
      }
      b := NewBlock();
    }

    /** Block::Construct on a block that is not linked. */
    method Construct(b: Block, id: BlockId, data: Bytes)
      requires IndexOk() && b in pool && !Has(b) && id !in index
      modifies b`id, b`refs, b`dirty, b`data
      ensures IndexOk() && b.id == id && b.refs == 1 && !b.dirty && b.data == data
    {
      assert UnfoldIndex(true);
      b.id, b.refs, b.dirty, b.data := id, 1, false, data;
      forall k: nat | k < HASH_LENGTH ensures BinOk(k) {
        assert old(BinOk(k));
        forall i: nat | i < |chains[k]| ensures HashAt(k, i) {
          assert old(HashAt(k, i)) && chains[k][i] in chains[k];
        }
      }
      forall id | id in index ensures Linked(id) { assert old(Linked(id)); }
    }

    /** Linking a block that is clean, or inside a section, leaves the rest in order. */
    twostate lemma Joined(b: Block)
      requires old(DataOk()) && b in old(pool) && !old(Has(b))
      requires b.id !in old(index) && index == old(index)[b.id := b] && old(open) <= open <= old(open) + multiset{b}
      requires !b.dirty && b.refs > 0 && b.id in disk && (Writing(b) || disk[b.id] == b.data)
      requires pool == old(pool) && unchanged(this`disk) && unchanged(this`dirt) && unchanged(this`dirtyHead)
      requires unchanged(pool`prevDirty) && unchanged(pool`nextDirty)
      requires forall c | c in pool && c != b :: unchanged(c`id) && unchanged(c`dirty) && unchanged(c`data) && unchanged(c`refs)
      ensures DataOk()
    {
      assert UnfoldData(true);
      forall i: nat | i < |dirt| ensures DirtyAt(i) { assert old(DirtyAt(i)); }
      forall id | id in index ensures EntryOk(id) { assert id != b.id ==> old(EntryOk(id)); }
    }

    /** Construct and Prelink a block for an id that is not cached: clean with the device's contents, or inside a section. */
    method Adopt(b: Block, id: BlockId, data: Bytes, ghost section: bool)
      requires Valid() && b in pool && !Has(b) && id !in index && (section || disk[id] == data)
      modifies b`id, b`refs, b`dirty, b`data, bins, this`mru, this`lru, this`order, this`chains, this`index, this`open
      modifies pool`prevBlock, pool`nextBlock, pool`prevHashed, pool`nextHashed
      ensures Valid() && index == old(index)[id := b] && b.id == id && b.refs == 1 && b.data == data
      ensures open == old(open) + (if section then multiset{b} else multiset{})
    {
      Enter(b, id, data);
      open := open + (if section then multiset{b} else multiset{});
      Joined(b);
    }

    method Enter(b: Block, id: BlockId, data: Bytes)
      requires IndexOk() && b in pool && !Has(b) && id !in index
      modifies b`id, b`refs, b`dirty, b`data, bins, this`mru, this`lru, this`order, this`chains, this`index
      modifies pool`prevBlock, pool`nextBlock, pool`prevHashed, pool`nextHashed
      ensures IndexOk() && index == old(index)[id := b] && b.id == id && b.refs == 1 && !b.dirty && b.data == data
    {
      Construct(b, id, data);
      Prelink(b);
    }

    /** GetBlock and GetBlockZeroed for an id that is not cached, the latter up to BeginWrite. */
    method Load(id: BlockId, zeroed: bool) returns (b: Block)
      requires Valid() && id !in index
      modifies this`pool, this`count, this`disk, this`dirt, this`dirtyHead, pool, bins
      modifies this`mru, this`lru, this`order, this`chains, this`index, this`open
      ensures Valid() && id in index && b == index[id] && b.id == id && b.refs == 1 && fresh(pool - old(pool))
      ensures open == old(open) + (if zeroed then multiset{b} else multiset{})
      ensures forall i | i in old(index) && old(index[i].refs) > 0 :: i in index && index[i] == old(index)[i]
      ensures forall i: BlockId :: View(i) == if zeroed && i == id then CacheProtocol.Zeros(size) else old(View(i))
    {
      b := AllocateBlock();
      Adopt(b, id, if zeroed then CacheProtocol.Zeros(size) else disk[id], zeroed);
    }

    /** Device::GetBlock: the block for `id` with one more reference; every block reads as before. */
    method GetBlock(id: BlockId) returns (b: Block)
      requires Valid()
      modifies this`pool, this`count, this`disk, this`dirt, this`dirtyHead, pool, bins
      modifies this`mru, this`lru, this`order, this`chains, this`index, this`open
      ensures Valid() && id in index && b == index[id] && b.id == id && open == old(open) && fresh(pool - old(pool))
      ensures if id in old(index) then b == old(index)[id] && b.refs == old(b.refs) + 1 && index == old(index) else b.refs == 1
      ensures forall i | i in old(index) && old(index[i].refs) > 0 :: i in index && index[i] == old(index)[i]
      ensures forall i: BlockId :: View(i) == old(View(i))
    {
      var r := GetCachedBlock(id);
      if r == null {
        b := Load(id, false);
        return;
      }
      b := r;
      assert b.id == id by { assert UnfoldData(true); assert EntryOk(id); }
    }

    /** GetBlockZeroed for an id that is not cached. */
    method LoadZeroed(id: BlockId) returns (b: Block)
      requires Valid() && id !in index
      modifies this`pool, this`count, this`disk, this`dirt, this`dirtyHead, pool, bins
      modifies this`mru, this`lru, this`order, this`chains, this`index, this`open
      ensures Valid() && id in index && b == index[id] && b.id == id && b.dirty && b.refs == 1
      ensures open == old(open) && fresh(pool - old(pool))
      ensures forall i | i in old(index) && old(index[i].refs) > 0 :: i in index && index[i] == old(index)[i]
      ensures forall i: BlockId :: View(i) == if i == id then CacheProtocol.Zeros(size) else old(View(i))
    {
      b := Load(id, true);
      FinishWrite(b);
    }

    /** A cached block gets new contents inside a section of its own. */
    method Put(b: Block, data: Bytes)
      requires Valid() && Has(b) && b.refs > 0
      modifies this`open, this`dirt, this`dirtyHead, bins, this`mru, this`lru, this`order, this`chains, this`index
      modifies b`data, pool`dirty, pool`prevDirty, pool`nextDirty
      modifies pool`prevBlock, pool`nextBlock, pool`prevHashed, pool`nextHashed
      ensures Valid() && b.dirty && open == old(open) && index == old(index)
      ensures forall i: BlockId :: View(i) == if i == b.id then data else old(View(i))
    {
      BeginWrite(b);
      Store(b, data);
      FinishWrite(b);
    }

    /** Device::GetBlockZeroed: the block for `id` with one more reference, zeroed and dirty; no other block changes. */
    method GetBlockZeroed(id: BlockId) returns (b: Block)
      requires Valid()
      modifies this`pool, this`count, this`disk, this`dirt, this`dirtyHead, pool, bins
      modifies this`mru, this`lru, this`order, this`chains, this`index, this`open
      ensures Valid() && id in index && b == index[id] && b.id == id && b.dirty && open == old(open) && fresh(pool - old(pool))
      ensures b.refs == if id in old(index) then old(index[id].refs) + 1 else 1
      ensures forall i | i in old(index) && old(index[i].refs) > 0 :: i in index && index[i] == old(index)[i]
      ensures forall i: BlockId :: View(i) == if i == id then CacheProtocol.Zeros(size) else old(View(i))
    {
      var r := GetCachedBlock(id);
      if r == null {
        b := LoadZeroed(id);
        return;
      }
      b := r;
      assert b.id == id by { assert UnfoldData(true); assert EntryOk(id); }
      Put(b, CacheProtocol.Zeros(size));
    }

    /** Block::Unref with a block limit. */
    method Release(b: Block)
      requires Valid() && b in pool && b.refs > 0 && (b.refs == 1 ==> !Writing(b))
      modifies b`refs
      ensures Valid() && b.refs == old(b.refs) - 1
    {
      b.refs := b.refs - 1;
      assert UnfoldData(true);
      forall id | id in index ensures EntryOk(id) { assert old(EntryOk(id)); }
    }

    /** The deletion of a block object: it is written back, and nothing of it is left in the cache. */
    method Delete(b: Block)
      requires Valid() && Has(b) && !Writing(b)
      modifies this`pool, this`count, this`disk, this`dirt, this`dirtyHead, pool`dirty, pool`prevDirty, pool`nextDirty
      modifies bins, this`mru, this`lru, this`order, this`chains, this`index
      modifies pool`prevBlock, pool`nextBlock, pool`prevHashed, pool`nextHashed
      ensures Valid() && pool == old(pool) - {b} && index == old(index) - {b.id} && count == old(count) - 1
      ensures forall i: BlockId :: View(i) == old(View(i))
    {
      assert b in pool by { assert UnfoldIndex(true); assert Linked(b.id); }
      Destruct(b);
      count := count - 1;
      Dismiss(b);
    }

    /**
     Block::Unref: one reference less. Without a block limit the block is deleted there
     and then, whoever else refers to it. Callers close their sections first.
     */
    method Unref(b: Block)
      requires Valid() && Has(b) && b.refs > 0 && (b.refs == 1 || limit == 0 ==> !Writing(b))
      modifies b`refs
      modifies this`pool, this`count, this`disk, this`dirt, this`dirtyHead, pool`dirty, pool`prevDirty, pool`nextDirty
      modifies bins, this`mru, this`lru, this`order, this`chains, this`index
      modifies pool`prevBlock, pool`nextBlock, pool`prevHashed, pool`nextHashed
      ensures Valid() && b.refs == old(b.refs) - 1
      ensures limit > 0 ==> pool == old(pool) && index == old(index) && order == old(order) && disk == old(disk) && dirt == old(dirt)
      ensures limit == 0 ==> pool == old(pool) - {b} && index == old(index) - {b.id} && count == old(count) - 1
      ensures forall i: BlockId :: View(i) == old(View(i))
    {
      assert b in pool by { assert UnfoldIndex(true); assert Linked(b.id); }
      Release(b);
      if limit == 0 { Delete(b); }
    }

    /** What callers do with the cache: look a block up, change it inside a section, give it up. */
    method Write(id: BlockId, data: Bytes)
      requires Valid() && open == multiset{}
      modifies this`pool, this`count, this`disk, this`dirt, this`dirtyHead, pool, bins
      modifies this`mru, this`lru, this`order, this`chains, this`index, this`open
      ensures Valid() && open == multiset{} && fresh(pool - old(pool))
      ensures forall i: BlockId :: View(i) == if i == id then data else old(View(i))
    {
      var b := GetBlock(id);
      assert b in pool by { assert UnfoldData(true); assert EntryOk(id); }
      Put(b, data);
      Unref(b);
    }
  }

  /** Without a block limit, one of two holders of block 0 gives it up, and the other one's block is gone. */
  method Orphans(disk: imap<BlockId, Bytes>) returns (d: Device, b: Block)
    requires forall id: BlockId :: id in disk
    ensures fresh(d) && d.Valid() && b.refs == 1 && b !in d.pool && 0 !in d.index
  {
    d := new Device(disk, 512, 0);
    b := d.GetBlock(0);
    var c := d.GetBlock(0);
    d.Unref(b);
  }

  /** Blocks written through the cache are on the device after Sync, and no other block of it changes. */
  method Saves(disk: imap<BlockId, Bytes>, size: nat, limit: nat, ids: seq<BlockId>, data: seq<Bytes>) returns (d: Device)
    requires (forall id: BlockId :: id in disk) && |ids| == |data|
    ensures fresh(d) && d.Valid() && forall id: BlockId :: id in d.disk && d.disk[id] == Last(disk, ids, data)[id]
  {
    d := new Device(disk, size, limit);
    for i := 0 to |ids|
      invariant fresh(d) && fresh(d.bins) && fresh(d.pool) && d.Valid() && d.open == multiset{}
      invariant forall id: BlockId :: d.View(id) == Last(disk, ids[..i], data[..i])[id]
    {
      d.Write(ids[i], data[i]);
      assert ids[..i + 1][..i] == ids[..i] && data[..i + 1][..i] == data[..i];
    }
    assert ids[..|ids|] == ids && data[..|ids|] == data;
    d.Sync();
  }

  /** The device after the writes in order. */
  ghost function Last(disk: imap<BlockId, Bytes>, ids: seq<BlockId>, data: seq<Bytes>): (r: imap<BlockId, Bytes>)
    requires (forall id: BlockId :: id in disk) && |ids| == |data|
    ensures forall id: BlockId :: id in r
  {
    if ids == [] then disk else Last(disk, ids[..|ids| - 1], data[..|ids| - 1])[ids[|ids| - 1] := data[|ids| - 1]]
  }
}
