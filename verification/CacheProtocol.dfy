/**
 The write-back block cache as a system of two threads: the main thread, which
 looks blocks up, evicts them and writes them between BeginWrite and FinishWrite,
 and the sync thread, which copies dirty blocks out and writes them to the device.

 One step is one stretch of code during which the other thread cannot observe or
 change anything: a critical section of `sync_thread_lock`, the acquisition or
 release of a block's `modify_lock`, one byte of the sync thread's copy, or one
 partial pread or pwrite.  Blocks are kept by address, so that recycling a block
 for another block id is visible to a sync thread that still points at it.
 */
module CacheProtocol {
  type BlockId = n: nat | n < 0x1_0000_0000
  type Address = nat
  type Bytes = seq<bv8>

  /** A `Block`: `depth` is the main thread's hold count on the recursive `modify_lock`. */
  datatype Block = Block(id: BlockId, data: Bytes, refs: nat, depth: nat, dirty: bool, inTransit: bool)

  datatype SyncThread =
    | Waiting
    | Popped(a: Address)                         // before locking modify_lock
    | Copying(a: Address, buf: Bytes)            // holds modify_lock; buf copied so far
    | Writing(a: Address, buf: Bytes, n: nat)    // n bytes of buf written to the device

  datatype MainThread =
    | Idle
    | Evicting(a: Address, id: BlockId, zeroed: bool)  // AllocateBlock waits in Destruct for block a
    | Loading(a: Address, n: nat)                      // GetBlock, n bytes read, not linked yet
    | Zeroed(a: Address)                               // GetBlockZeroed, linked, not yet marked
    | Finishing(a: Address)                            // FinishWrite, modify_lock released, not yet marked
    | Deleting(a: Address)                             // Unref without a limit waits in the destructor of block a
    | SyncingBlock(a: Address)
    | SyncingDevice

  datatype State = State(
    size: nat,                        // block_size
    limit: nat,                       // block_limit
    disk: imap<BlockId, Bytes>,
    blocks: map<Address, Block>,      // every allocated Block
    index: map<BlockId, Address>,     // the hash bins: the linked blocks
    dirtyList: seq<Address>,
    syncInTransit: bool,
    main: MainThread,
    sync: SyncThread,
    left: imap<BlockId, iset<Bytes>>  // history: contents that loading or finished sections left behind
  )

  datatype Step =
    // Main thread
    | Hit(id: BlockId)
    | Unref(a: Address)
    | DeleteDone
    | Miss(id: BlockId, zeroed: bool, room: Address, junk: Bytes)
    | MissEvict(id: BlockId, zeroed: bool, victim: Address)
    | EvictDone
    | ReadChunk(amount: nat)
    | ReadDone
    | MarkZeroed
    | BeginWrite(a: Address)
    | Store(a: Address, data: Bytes)
    | FinishUnlock(a: Address)
    | FinishMark
    | SyncBlock(a: Address)
    | SyncDevice
    | SyncReturn
    // Sync thread
    | Pop
    | LockBlock
    | CopyByte
    | UnlockBlock
    | WriteChunk(amount: nat)
    | WriteDone

  function Zeros(n: nat): Bytes {
    seq(n, _ => 0)
  }

  function SetBlock(s: State, a: Address, b: Block): State {
    s.(blocks := s.blocks[a := b])
  }

  // ----- GetCachedBlock, Unref -----

  predicate CanHit(s: State, id: BlockId) {
    s.main.Idle? && id in s.index && s.index[id] in s.blocks
  }

  function DoHit(s: State, id: BlockId): State
    requires CanHit(s, id)
  {
    var b := s.blocks[s.index[id]];
    SetBlock(s, s.index[id], b.(refs := b.refs + 1))
  }

  /** Callers drop their last reference, or one that deletes the block, only after closing the sections they opened. */
  predicate CanUnref(s: State, a: Address) {
    s.main.Idle? && a in s.blocks && s.blocks[a].refs > 0 && (s.blocks[a].refs == 1 || s.limit == 0 ==> s.blocks[a].depth == 0)
  }

  /** Without a limit the block is deleted, whoever else refers to it. */
  function DoUnref(s: State, a: Address): State
    requires CanUnref(s, a)
  {
    SetBlock(s, a, s.blocks[a].(refs := s.blocks[a].refs - 1)).(main := if s.limit == 0 then Deleting(a) else Idle)
  }

  predicate CanDeleteDone(s: State) {
    && s.main.Deleting? && s.main.a in s.blocks
    && !s.blocks[s.main.a].dirty && !s.blocks[s.main.a].inTransit
  }

  function DoDeleteDone(s: State): State
    requires CanDeleteDone(s)
  {
    s.(blocks := s.blocks - {s.main.a}, index := s.index - {s.blocks[s.main.a].id}, main := Idle)
  }

  // ----- AllocateBlock, GetBlock, GetBlockZeroed -----

  /** AllocateBlock makes a new block below the limit, or when every block is referenced. */
  predicate CanMiss(s: State, id: BlockId, room: Address, junk: Bytes) {
    && s.main.Idle? && id !in s.index && room !in s.blocks && |junk| == s.size
    && (|s.blocks| < s.limit || forall a | a in s.blocks :: s.blocks[a].refs > 0)
  }

  /** Construct the block object `a` for `id`; zeroed blocks are filled and linked at once, others are read first. */
  function Construct(s: State, a: Address, id: BlockId, data: Bytes, zeroed: bool): State {
    if zeroed then
      s.(blocks := s.blocks[a := Block(id, Zeros(s.size), 1, 0, false, false)],
         index := s.index[id := a],
         main := Zeroed(a))
    else
      s.(blocks := s.blocks[a := Block(id, data, 1, 0, false, false)], main := Loading(a, 0))
  }

  predicate CanMissEvict(s: State, id: BlockId, victim: Address) {
    && s.main.Idle? && id !in s.index && s.limit <= |s.blocks|
    && victim in s.blocks && s.blocks[victim].refs == 0
  }

  /** Destruct: the victim's Sync has seen it neither dirty nor in transit. */
  predicate CanEvictDone(s: State) {
    && s.main.Evicting? && s.main.a in s.blocks
    && !s.blocks[s.main.a].dirty && !s.blocks[s.main.a].inTransit
  }

  function DoEvictDone(s: State): State
    requires CanEvictDone(s)
  {
    var a := s.main.a;
    Construct(s.(index := s.index - {s.blocks[a].id}), a, s.main.id, s.blocks[a].data, s.main.zeroed)
  }

  predicate CanReadChunk(s: State, amount: nat) {
    && s.main.Loading? && s.main.a in s.blocks && 0 < amount && s.main.n + amount <= s.size
    && s.blocks[s.main.a].id in s.disk
  }

  function DoReadChunk(s: State, amount: nat): State
    requires CanReadChunk(s, amount)
  {
    var b, n := s.blocks[s.main.a], s.main.n + amount;
    var data := if n <= |s.disk[b.id]| && n <= |b.data| then s.disk[b.id][..n] + b.data[n..] else b.data;
    SetBlock(s, s.main.a, b.(data := data)).(main := Loading(s.main.a, n))
  }

  predicate CanReadDone(s: State) {
    s.main.Loading? && s.main.a in s.blocks && s.main.n == s.size
  }

  /** Prelink the block that was read. */
  function DoReadDone(s: State): State
    requires CanReadDone(s)
  {
    s.(index := s.index[s.blocks[s.main.a].id := s.main.a], main := Idle)
  }

  predicate CanMarkZeroed(s: State) {
    s.main.Zeroed? && s.main.a in s.blocks && s.blocks[s.main.a].id in s.left
  }

  /** GetBlockZeroed takes and releases modify_lock around nothing. */
  function DoMarkZeroed(s: State): State
    requires CanMarkZeroed(s)
  {
    s.(main := Finishing(s.main.a), left := Leave(s, s.blocks[s.main.a]))
  }

  // ----- BeginWrite, FinishWrite -----

  predicate CanBeginWrite(s: State, a: Address) {
    s.main.Idle? && a in s.blocks && s.blocks[a].refs > 0 && !(s.sync.Copying? && s.sync.a == a)
  }

  function DoBeginWrite(s: State, a: Address): State
    requires CanBeginWrite(s, a)
  {
    SetBlock(s, a, s.blocks[a].(depth := s.blocks[a].depth + 1))
  }

  /** Block data changes only inside a section. */
  predicate CanStore(s: State, a: Address, data: Bytes) {
    s.main.Idle? && a in s.blocks && s.blocks[a].depth > 0 && |data| == s.size
  }

  function DoStore(s: State, a: Address, data: Bytes): State
    requires CanStore(s, a, data)
  {
    SetBlock(s, a, s.blocks[a].(data := data))
  }

  /** Record the contents of a block whose section ends. */
  function Leave(s: State, b: Block): imap<BlockId, iset<Bytes>>
    requires b.id in s.left
  {
    s.left[b.id := s.left[b.id] + iset{b.data}]
  }

  predicate CanFinishUnlock(s: State, a: Address) {
    s.main.Idle? && a in s.blocks && s.blocks[a].depth > 0 && s.blocks[a].id in s.left
  }

  function DoFinishUnlock(s: State, a: Address): State
    requires CanFinishUnlock(s, a)
  {
    var b := s.blocks[a];
    SetBlock(s, a, b.(depth := b.depth - 1))
    .(main := Finishing(a), left := if b.depth == 1 then Leave(s, b) else s.left)
  }

  predicate CanFinishMark(s: State) {
    s.main.Finishing? && s.main.a in s.blocks
  }

  function DoFinishMark(s: State): State
    requires CanFinishMark(s)
  {
    var a := s.main.a;
    if s.blocks[a].dirty then s.(main := Idle)
    else SetBlock(s, a, s.blocks[a].(dirty := true)).(dirtyList := [a] + s.dirtyList, main := Idle)
  }

  // ----- Block::Sync and Device::Sync return -----

  predicate CanReturn(s: State) {
    || (s.main.SyncingBlock? && s.main.a in s.blocks && !s.blocks[s.main.a].dirty && !s.blocks[s.main.a].inTransit)
    || (s.main.SyncingDevice? && s.dirtyList == [] && !s.syncInTransit)
  }

  // ----- SyncThread -----

  predicate CanPop(s: State) {
    s.sync.Waiting? && s.dirtyList != [] && s.dirtyList[0] in s.blocks
  }

  function DoPop(s: State): State
    requires CanPop(s)
  {
    var a := s.dirtyList[0];
    SetBlock(s, a, s.blocks[a].(dirty := false, inTransit := true))
    .(dirtyList := s.dirtyList[1..], syncInTransit := true, sync := Popped(a))
  }

  predicate CanLock(s: State) {
    s.sync.Popped? && s.sync.a in s.blocks && s.blocks[s.sync.a].depth == 0
  }

  predicate CanCopyByte(s: State) {
    && s.sync.Copying? && s.sync.a in s.blocks
    && |s.sync.buf| < s.size && |s.sync.buf| < |s.blocks[s.sync.a].data|
  }

  function DoCopyByte(s: State): State
    requires CanCopyByte(s)
  {
    s.(sync := Copying(s.sync.a, s.sync.buf + [s.blocks[s.sync.a].data[|s.sync.buf|]]))
  }

  predicate CanUnlock(s: State) {
    s.sync.Copying? && |s.sync.buf| == s.size
  }

  predicate CanWriteChunk(s: State, amount: nat) {
    && s.sync.Writing? && s.sync.a in s.blocks && 0 < amount
    && s.sync.n + amount <= |s.sync.buf|
    && s.blocks[s.sync.a].id in s.disk && |s.disk[s.blocks[s.sync.a].id]| == |s.sync.buf|
  }

  /** pwrite at the offset of the block id that the block object holds now. */
  function DoWriteChunk(s: State, amount: nat): State
    requires CanWriteChunk(s, amount)
  {
    var id, n := s.blocks[s.sync.a].id, s.sync.n + amount;
    s.(disk := s.disk[id := s.sync.buf[..n] + s.disk[id][n..]], sync := Writing(s.sync.a, s.sync.buf, n))
  }

  predicate CanWriteDone(s: State) {
    s.sync.Writing? && s.sync.a in s.blocks && s.sync.n == s.size
  }

  function DoWriteDone(s: State): State
    requires CanWriteDone(s)
  {
    SetBlock(s, s.sync.a, s.blocks[s.sync.a].(inTransit := false)).(syncInTransit := false, sync := Waiting)
  }

  // ----- Steps -----

  predicate Enabled(s: State, step: Step) {
    match step
    case Hit(id) => CanHit(s, id)
    case Unref(a) => CanUnref(s, a)
    case DeleteDone => CanDeleteDone(s)
    case Miss(id, _, room, junk) => CanMiss(s, id, room, junk)
    case MissEvict(id, _, victim) => CanMissEvict(s, id, victim)
    case EvictDone => CanEvictDone(s)
    case ReadChunk(amount) => CanReadChunk(s, amount)
    case ReadDone => CanReadDone(s)
    case MarkZeroed => CanMarkZeroed(s)
    case BeginWrite(a) => CanBeginWrite(s, a)
    case Store(a, data) => CanStore(s, a, data)
    case FinishUnlock(a) => CanFinishUnlock(s, a)
    case FinishMark => CanFinishMark(s)
    case SyncBlock(a) => s.main.Idle? && a in s.blocks
    case SyncDevice => s.main.Idle?
    case SyncReturn => CanReturn(s)
    case Pop => CanPop(s)
    case LockBlock => CanLock(s)
    case CopyByte => CanCopyByte(s)
    case UnlockBlock => CanUnlock(s)
    case WriteChunk(amount) => CanWriteChunk(s, amount)
    case WriteDone => CanWriteDone(s)
  }

  function Do(s: State, step: Step): State
    requires Enabled(s, step)
  {
    match step
    case Hit(id) => DoHit(s, id)
    case Unref(a) => DoUnref(s, a)
    case DeleteDone => DoDeleteDone(s)
    case Miss(id, zeroed, room, junk) => Construct(s, room, id, junk, zeroed)
    case MissEvict(id, zeroed, victim) => s.(main := Evicting(victim, id, zeroed))
    case EvictDone => DoEvictDone(s)
    case ReadChunk(amount) => DoReadChunk(s, amount)
    case ReadDone => DoReadDone(s)
    case MarkZeroed => DoMarkZeroed(s)
    case BeginWrite(a) => DoBeginWrite(s, a)
    case Store(a, data) => DoStore(s, a, data)
    case FinishUnlock(a) => DoFinishUnlock(s, a)
    case FinishMark => DoFinishMark(s)
    case SyncBlock(a) => s.(main := SyncingBlock(a))
    case SyncDevice => s.(main := SyncingDevice)
    case SyncReturn => s.(main := Idle)
    case Pop => DoPop(s)
    case LockBlock => s.(sync := Copying(s.sync.a, []))
    case CopyByte => DoCopyByte(s)
    case UnlockBlock => s.(sync := Writing(s.sync.a, s.sync.buf, 0))
    case WriteChunk(amount) => DoWriteChunk(s, amount)
    case WriteDone => DoWriteDone(s)
  }

  predicate SyncStep(step: Step) {
    step.Pop? || step.LockBlock? || step.CopyByte? || step.UnlockBlock? || step.WriteChunk? || step.WriteDone?
  }

  /** A mounted device before its first block is read. */
  ghost predicate Init(s: State) {
    && (forall id: BlockId :: id in s.disk && |s.disk[id]| == s.size)
    && (forall id: BlockId :: id in s.left && s.left[id] == iset{s.disk[id]})
    && s.blocks == map[] && s.index == map[] && s.dirtyList == []
    && !s.syncInTransit && s.main.Idle? && s.sync.Waiting?
  }

  /** What the file system sees in block `id`. */
  ghost function View(s: State, id: BlockId): Bytes
    requires id in s.disk
    requires id in s.index ==> s.index[id] in s.blocks
  {
    if id in s.index then s.blocks[s.index[id]].data else s.disk[id]
  }

  /** The main thread is changing block `a`, or has changed it without having put it on the dirty list yet. */
  predicate InSection(s: State, a: Address)
    requires a in s.blocks
  {
    || s.blocks[a].depth > 0
    || s.main == Finishing(a) || s.main == Zeroed(a)
  }

  predicate IsLoading(s: State, a: Address) {
    s.main.Loading? && s.main.a == a
  }

  /** The sync thread's pwrite for block `id` is under way. */
  predicate BeingWritten(s: State, id: BlockId) {
    s.sync.Writing? && s.sync.a in s.blocks && s.blocks[s.sync.a].id == id
  }

  /** Block `a` has nothing left to write back. */
  predicate Clean(s: State, a: Address)
    requires a in s.blocks
  {
    !s.blocks[a].dirty && !s.blocks[a].inTransit && !InSection(s, a) && !IsLoading(s, a)
  }

  // ----- The invariant: facts about one block id, one block object, the dirty list and each thread -----

  ghost predicate IdOk(s: State, id: BlockId) {
    && id in s.disk && |s.disk[id]| == s.size && id in s.left
    && (id in s.index ==> s.index[id] in s.blocks && s.blocks[s.index[id]].id == id)
  }

  ghost predicate BlockOk(s: State, a: Address)
    requires a in s.blocks
  {
    var b := s.blocks[a];
    && |b.data| == s.size && b.id in s.disk
    && (!IsLoading(s, a) ==> b.id in s.index && s.index[b.id] == a)
    && (b.dirty <==> a in s.dirtyList)
    && (b.depth > 0 ==> b.refs > 0)
    && (b.inTransit <==> !s.sync.Waiting? && s.sync.a == a)
    && (Clean(s, a) ==> s.disk[b.id] == b.data)
  }

  ghost predicate DirtyListOk(s: State) {
    && (forall i, j | 0 <= i < j < |s.dirtyList| :: s.dirtyList[i] != s.dirtyList[j])
    && (forall i | 0 <= i < |s.dirtyList| :: s.dirtyList[i] in s.blocks)
  }

  ghost predicate MainOk(s: State) {
    match s.main
    case Idle => true
    case Evicting(a, id, _) => a in s.blocks && s.blocks[a].refs == 0 && id !in s.index
    case Loading(a, n) =>
      && a in s.blocks && n <= s.size
      && s.blocks[a] == Block(s.blocks[a].id, s.blocks[a].data, 1, 0, false, false)
      && s.blocks[a].id !in s.index && s.blocks[a].id in s.disk
      && |s.disk[s.blocks[a].id]| == s.size && |s.blocks[a].data| == s.size
      && s.blocks[a].data[..n] == s.disk[s.blocks[a].id][..n]
    case Zeroed(a) => a in s.blocks && s.blocks[a] == Block(s.blocks[a].id, Zeros(s.size), 1, 0, false, false)
    case Finishing(a) => a in s.blocks && s.blocks[a].refs > 0
    case Deleting(a) => a in s.blocks && s.blocks[a].depth == 0
    case SyncingBlock(a) => a in s.blocks
    case SyncingDevice => true
  }

  ghost predicate SyncOk(s: State) {
    && (s.syncInTransit <==> !s.sync.Waiting?)
    && (!s.sync.Waiting? ==> s.sync.a in s.blocks)
    && match s.sync
       case Waiting => true
       case Popped(_) => true
       case Copying(a, buf) =>
         && s.blocks[a].depth == 0 && |buf| <= |s.blocks[a].data| && buf == s.blocks[a].data[..|buf|]
         && s.main != Zeroed(a)
       case Writing(a, buf, n) =>
         && n <= |buf| == s.size && s.blocks[a].id in s.disk && |s.disk[s.blocks[a].id]| == s.size
         && s.disk[s.blocks[a].id][..n] == buf[..n]
         && (s.blocks[a].data == buf || s.blocks[a].dirty || InSection(s, a))
  }

  predicate UnfoldInv(x: bool) {
    true
  }

  ghost predicate Inv(s: State) {
    forall x | UnfoldInv(x) ::
      && (forall id: BlockId {:trigger IdOk(s, id)} :: IdOk(s, id))
      && (forall a {:trigger BlockOk(s, a)} | a in s.blocks :: BlockOk(s, a))
      && DirtyListOk(s) && MainOk(s) && SyncOk(s)
  }

  lemma InitInv(s: State)
    requires Init(s)
    ensures Inv(s)
  {
    assert UnfoldInv(true);
  }

  lemma CallKeepsInv(s: State, main: MainThread)
    requires Inv(s) && (s.main.Idle? || CanReturn(s))
    requires main.Idle? || main.SyncingDevice? || (main.SyncingBlock? && main.a in s.blocks)
    ensures Inv(s.(main := main))
  {
    assert UnfoldInv(true);
    var t := s.(main := main);
    forall id: BlockId ensures IdOk(t, id) { assert IdOk(s, id); }
    forall a | a in t.blocks ensures BlockOk(t, a) { assert a in s.blocks ==> BlockOk(s, a); }
  }

  lemma HitKeepsInv(s: State, id: BlockId)
    requires Inv(s) && CanHit(s, id)
    ensures Inv(DoHit(s, id))
  {
    assert UnfoldInv(true);
    var t := DoHit(s, id);
    forall id: BlockId ensures IdOk(t, id) { assert IdOk(s, id); }
    forall a | a in t.blocks ensures BlockOk(t, a) { assert a in s.blocks ==> BlockOk(s, a); }
  }

  lemma UnrefKeepsInv(s: State, a: Address)
    requires Inv(s) && CanUnref(s, a)
    ensures Inv(DoUnref(s, a))
  {
    assert UnfoldInv(true);
    var t := DoUnref(s, a);
    forall id: BlockId ensures IdOk(t, id) { assert IdOk(s, id); }
    forall a | a in t.blocks ensures BlockOk(t, a) { assert a in s.blocks ==> BlockOk(s, a); }
  }

  lemma DeleteDoneKeepsInv(s: State)
    requires Inv(s) && CanDeleteDone(s)
    ensures Inv(DoDeleteDone(s))
  {
    assert UnfoldInv(true);
    var t := DoDeleteDone(s);
    assert BlockOk(s, s.main.a);
    forall id: BlockId ensures IdOk(t, id) {
      assert IdOk(s, id);
      assert id in s.index ==> BlockOk(s, s.index[id]);
    }
    forall a | a in t.blocks ensures BlockOk(t, a) { assert BlockOk(s, a); }
  }

  lemma MissKeepsInv(s: State, id: BlockId, zeroed: bool, room: Address, junk: Bytes)
    requires Inv(s) && CanMiss(s, id, room, junk)
    ensures Inv(Construct(s, room, id, junk, zeroed))
  {
    assert UnfoldInv(true);
    var t := Construct(s, room, id, junk, zeroed);
    assert IdOk(s, id);
    forall id: BlockId ensures IdOk(t, id) { assert IdOk(s, id); }
    forall a | a in t.blocks ensures BlockOk(t, a) { assert a in s.blocks ==> BlockOk(s, a); }
  }

  lemma MissEvictKeepsInv(s: State, id: BlockId, zeroed: bool, victim: Address)
    requires Inv(s) && CanMissEvict(s, id, victim)
    ensures Inv(s.(main := Evicting(victim, id, zeroed)))
  {
    assert UnfoldInv(true);
    var t := s.(main := Evicting(victim, id, zeroed));
    forall id: BlockId ensures IdOk(t, id) { assert IdOk(s, id); }
    forall a | a in t.blocks ensures BlockOk(t, a) { assert a in s.blocks ==> BlockOk(s, a); }
  }

  lemma EvictDoneKeepsId(s: State, id: BlockId)
    requires Inv(s) && CanEvictDone(s)
    ensures IdOk(DoEvictDone(s), id)
  {
    assert UnfoldInv(true);
    assert IdOk(s, id) && BlockOk(s, s.main.a);
  }

  lemma EvictDoneKeepsBlock(s: State, a: Address)
    requires Inv(s) && CanEvictDone(s) && a in s.blocks
    ensures a in DoEvictDone(s).blocks && BlockOk(DoEvictDone(s), a)
  {
    assert UnfoldInv(true);
    assert IdOk(s, s.main.id) && BlockOk(s, s.main.a) && BlockOk(s, a);
  }

  lemma EvictDoneKeepsInv(s: State)
    requires Inv(s) && CanEvictDone(s)
    ensures Inv(DoEvictDone(s))
  {
    assert UnfoldInv(true);
    var t := DoEvictDone(s);
    assert IdOk(s, s.main.id) && BlockOk(s, s.main.a);
    forall id: BlockId ensures IdOk(t, id) { EvictDoneKeepsId(s, id); }
    forall a | a in t.blocks ensures BlockOk(t, a) { EvictDoneKeepsBlock(s, a); }
  }

  lemma ReadChunkKeepsInv(s: State, amount: nat)
    requires Inv(s) && CanReadChunk(s, amount)
    ensures Inv(DoReadChunk(s, amount))
  {
    assert UnfoldInv(true);
    var t := DoReadChunk(s, amount);
    forall id: BlockId ensures IdOk(t, id) { assert IdOk(s, id); }
    forall a | a in t.blocks ensures BlockOk(t, a) { assert a in s.blocks ==> BlockOk(s, a); }
  }

  lemma ReadDoneKeepsInv(s: State)
    requires Inv(s) && CanReadDone(s)
    ensures Inv(DoReadDone(s))
  {
    assert UnfoldInv(true);
    var t := DoReadDone(s);
    assert BlockOk(s, s.main.a) && IdOk(s, s.blocks[s.main.a].id);
    forall id: BlockId ensures IdOk(t, id) { assert IdOk(s, id); }
    forall a | a in t.blocks ensures BlockOk(t, a) { assert a in s.blocks ==> BlockOk(s, a); }
  }

  lemma MarkZeroedKeepsInv(s: State)
    requires Inv(s) && CanMarkZeroed(s)
    ensures Inv(DoMarkZeroed(s))
  {
    assert UnfoldInv(true);
    var t := DoMarkZeroed(s);
    forall id: BlockId ensures IdOk(t, id) { assert IdOk(s, id); }
    forall a | a in t.blocks ensures BlockOk(t, a) { assert a in s.blocks ==> BlockOk(s, a); }
  }

  lemma BeginWriteKeepsInv(s: State, a: Address)
    requires Inv(s) && CanBeginWrite(s, a)
    ensures Inv(DoBeginWrite(s, a))
  {
    assert UnfoldInv(true);
    var t := DoBeginWrite(s, a);
    forall id: BlockId ensures IdOk(t, id) { assert IdOk(s, id); }
    forall a | a in t.blocks ensures BlockOk(t, a) { assert a in s.blocks ==> BlockOk(s, a); }
  }

  lemma StoreKeepsInv(s: State, a: Address, data: Bytes)
    requires Inv(s) && CanStore(s, a, data)
    ensures Inv(DoStore(s, a, data))
  {
    assert UnfoldInv(true);
    var t := DoStore(s, a, data);
    forall id: BlockId ensures IdOk(t, id) { assert IdOk(s, id); }
    forall a | a in t.blocks ensures BlockOk(t, a) { assert a in s.blocks ==> BlockOk(s, a); }
  }

  lemma FinishUnlockKeepsInv(s: State, a: Address)
    requires Inv(s) && CanFinishUnlock(s, a)
    ensures Inv(DoFinishUnlock(s, a))
  {
    assert UnfoldInv(true);
    var t := DoFinishUnlock(s, a);
    assert BlockOk(s, a);
    forall id: BlockId ensures IdOk(t, id) { assert IdOk(s, id); }
    forall a | a in t.blocks ensures BlockOk(t, a) { assert a in s.blocks ==> BlockOk(s, a); }
  }

  lemma FinishMarkKeepsInv(s: State)
    requires Inv(s) && CanFinishMark(s)
    ensures Inv(DoFinishMark(s))
  {
    assert UnfoldInv(true);
    var t := DoFinishMark(s);
    assert BlockOk(s, s.main.a);
    forall id: BlockId ensures IdOk(t, id) { assert IdOk(s, id); }
    forall a | a in t.blocks ensures BlockOk(t, a) { assert a in s.blocks ==> BlockOk(s, a); }
  }

  lemma PopKeepsInv(s: State)
    requires Inv(s) && CanPop(s)
    ensures Inv(DoPop(s))
  {
    assert UnfoldInv(true);
    var t := DoPop(s);
    assert BlockOk(s, s.dirtyList[0]) && s.dirtyList[0] in s.dirtyList;
    forall id: BlockId ensures IdOk(t, id) { assert IdOk(s, id); }
    forall a | a in t.blocks ensures BlockOk(t, a) { assert a in s.blocks ==> BlockOk(s, a); }
  }

  lemma LockKeepsInv(s: State)
    requires Inv(s) && CanLock(s)
    ensures Inv(s.(sync := Copying(s.sync.a, [])))
  {
    assert UnfoldInv(true);
    var t := s.(sync := Copying(s.sync.a, []));
    assert BlockOk(s, s.sync.a);
    forall id: BlockId ensures IdOk(t, id) { assert IdOk(s, id); }
    forall a | a in t.blocks ensures BlockOk(t, a) { assert a in s.blocks ==> BlockOk(s, a); }
  }

  lemma CopyByteKeepsInv(s: State)
    requires Inv(s) && CanCopyByte(s)
    ensures Inv(DoCopyByte(s))
  {
    assert UnfoldInv(true);
    var t := DoCopyByte(s);
    forall id: BlockId ensures IdOk(t, id) { assert IdOk(s, id); }
    forall a | a in t.blocks ensures BlockOk(t, a) { assert a in s.blocks ==> BlockOk(s, a); }
  }

  lemma UnlockKeepsInv(s: State)
    requires Inv(s) && CanUnlock(s)
    ensures Inv(s.(sync := Writing(s.sync.a, s.sync.buf, 0)))
  {
    assert UnfoldInv(true);
    var t := s.(sync := Writing(s.sync.a, s.sync.buf, 0));
    assert BlockOk(s, s.sync.a) && IdOk(s, s.blocks[s.sync.a].id);
    forall id: BlockId ensures IdOk(t, id) { assert IdOk(s, id); }
    forall a | a in t.blocks ensures BlockOk(t, a) { assert a in s.blocks ==> BlockOk(s, a); }
  }

  lemma WriteChunkKeepsInv(s: State, amount: nat)
    requires Inv(s) && CanWriteChunk(s, amount)
    ensures Inv(DoWriteChunk(s, amount))
  {
    assert UnfoldInv(true);
    var t := DoWriteChunk(s, amount);
    assert BlockOk(s, s.sync.a);
    forall id: BlockId ensures IdOk(t, id) { assert IdOk(s, id); }
    forall a | a in t.blocks ensures BlockOk(t, a) { assert a in s.blocks ==> BlockOk(s, a); }
  }

  lemma WriteDoneKeepsInv(s: State)
    requires Inv(s) && CanWriteDone(s)
    ensures Inv(DoWriteDone(s))
  {
    assert UnfoldInv(true);
    var t := DoWriteDone(s);
    assert BlockOk(s, s.sync.a) && s.disk[s.blocks[s.sync.a].id] == s.sync.buf;
    forall id: BlockId ensures IdOk(t, id) { assert IdOk(s, id); }
    forall a | a in t.blocks ensures BlockOk(t, a) { assert a in s.blocks ==> BlockOk(s, a); }
  }

  /** Every step of either thread keeps the invariant. */
  lemma StepKeepsInv(s: State, step: Step)
    requires Inv(s) && Enabled(s, step)
    ensures Inv(Do(s, step))
  {
    match step
    case Hit(id) => HitKeepsInv(s, id);
    case Unref(a) => UnrefKeepsInv(s, a);
    case DeleteDone => DeleteDoneKeepsInv(s);
    case Miss(id, zeroed, room, junk) => MissKeepsInv(s, id, zeroed, room, junk);
    case MissEvict(id, zeroed, victim) => MissEvictKeepsInv(s, id, zeroed, victim);
    case EvictDone => EvictDoneKeepsInv(s);
    case ReadChunk(amount) => ReadChunkKeepsInv(s, amount);
    case ReadDone => ReadDoneKeepsInv(s);
    case MarkZeroed => MarkZeroedKeepsInv(s);
    case BeginWrite(a) => BeginWriteKeepsInv(s, a);
    case Store(a, data) => StoreKeepsInv(s, a, data);
    case FinishUnlock(a) => FinishUnlockKeepsInv(s, a);
    case FinishMark => FinishMarkKeepsInv(s);
    case SyncBlock(a) => CallKeepsInv(s, SyncingBlock(a));
    case SyncDevice => CallKeepsInv(s, SyncingDevice);
    case SyncReturn => CallKeepsInv(s, Idle);
    case _ => SyncStepKeepsInv(s, step);
  }

  lemma SyncStepKeepsInv(s: State, step: Step)
    requires Inv(s) && Enabled(s, step) && SyncStep(step)
    ensures Inv(Do(s, step))
  {
    match step
    case Pop => PopKeepsInv(s);
    case LockBlock => LockKeepsInv(s);
    case CopyByte => CopyByteKeepsInv(s);
    case UnlockBlock => UnlockKeepsInv(s);
    case WriteChunk(amount) => WriteChunkKeepsInv(s, amount);
    case WriteDone => WriteDoneKeepsInv(s);
  }

  // ----- The device never holds a torn block -----

  /** Outside a pwrite, a device block holds contents that the medium or a finished section left there. */
  ghost predicate IdUntorn(s: State, id: BlockId) {
    id in s.disk && id in s.left && (BeingWritten(s, id) || s.disk[id] in s.left[id])
  }

  /** So does a cached block outside its sections, and the sync thread's copy of one. */
  ghost predicate BlockUntorn(s: State, a: Address)
    requires a in s.blocks
  {
    var b := s.blocks[a];
    && b.id in s.left
    && (b.depth == 0 && s.main != Zeroed(a) && !IsLoading(s, a) ==> b.data in s.left[b.id])
    && (s.sync.Writing? && s.sync.a == a ==> s.sync.buf in s.left[b.id])
  }

  ghost predicate Untorn(s: State) {
    && (forall id: BlockId {:trigger IdUntorn(s, id)} :: IdUntorn(s, id))
    && (forall a {:trigger BlockUntorn(s, a)} | a in s.blocks :: BlockUntorn(s, a))
  }

  lemma IdStaysUntorn(s: State, step: Step, id: BlockId)
    requires Inv(s) && Untorn(s) && Enabled(s, step) && !SyncStep(step) && !step.EvictDone? && !step.DeleteDone?
    ensures IdUntorn(Do(s, step), id)
  {
    assert UnfoldInv(true);
    assert IdUntorn(s, id);
  }

  /** An object that goes to another id, or goes away, was not being written. */
  lemma IdStaysUntornAtEnd(s: State, step: Step, id: BlockId)
    requires Inv(s) && Untorn(s) && Enabled(s, step) && (step.EvictDone? || step.DeleteDone?)
    ensures IdUntorn(Do(s, step), id)
  {
    assert UnfoldInv(true);
    assert IdUntorn(s, id);
    assert BlockOk(s, s.main.a);
  }

  lemma IdStaysUntornBySync(s: State, step: Step, id: BlockId)
    requires Inv(s) && Untorn(s) && Enabled(s, step) && SyncStep(step)
    ensures IdUntorn(Do(s, step), id)
  {
    assert UnfoldInv(true);
    assert IdUntorn(s, id);
    if step.WriteDone? {
      assert BlockUntorn(s, s.sync.a) && s.disk[s.blocks[s.sync.a].id] == s.sync.buf;
    }
  }

  /** The step is part of a section. */
  predicate Section(step: Step) {
    step.MarkZeroed? || step.BeginWrite? || step.Store? || step.FinishUnlock? || step.FinishMark?
  }

  lemma MarkedBlockIsUntorn(s: State, a: Address)
    requires CanMarkZeroed(s) && a in s.blocks && BlockUntorn(s, a)
    ensures BlockUntorn(DoMarkZeroed(s), a)
  {
  }

  lemma UnlockedBlockIsUntorn(s: State, c: Address, a: Address)
    requires CanFinishUnlock(s, c) && a in s.blocks && BlockUntorn(s, a)
    ensures BlockUntorn(DoFinishUnlock(s, c), a)
  {
  }

  lemma WrittenBlockIsUntorn(s: State, step: Step, a: Address)
    requires Enabled(s, step) && a in s.blocks && BlockUntorn(s, a) && (step.BeginWrite? || step.Store? || step.FinishMark?)
    ensures a in Do(s, step).blocks && BlockUntorn(Do(s, step), a)
  {
  }

  lemma BlockStaysUntornInSection(s: State, step: Step, a: Address)
    requires Untorn(s) && Enabled(s, step) && a in s.blocks && Section(step)
    ensures a in Do(s, step).blocks && BlockUntorn(Do(s, step), a)
  {
    assert BlockUntorn(s, a);
    match step
    case MarkZeroed => MarkedBlockIsUntorn(s, a);
    case FinishUnlock(c) => UnlockedBlockIsUntorn(s, c, a);
    case _ => WrittenBlockIsUntorn(s, step, a);
  }

  lemma BlockStaysUntorn(s: State, step: Step, a: Address)
    requires Inv(s) && Untorn(s) && Enabled(s, step) && a in Do(s, step).blocks
    requires !Reusing(step) && !Section(step) && !step.ReadDone? && !SyncStep(step)
    ensures BlockUntorn(Do(s, step), a)
  {
    assert UnfoldInv(true);
    assert BlockUntorn(s, a);
  }

  lemma BlockStaysUntornBySync(s: State, step: Step, a: Address)
    requires Inv(s) && Untorn(s) && Enabled(s, step) && a in Do(s, step).blocks
    requires SyncStep(step) && !step.UnlockBlock?
    ensures BlockUntorn(Do(s, step), a)
  {
    assert UnfoldInv(true);
    assert BlockUntorn(s, a) && BlockOk(s, a);
  }

  /** The step gives a block object a new id, or new contents from the device. */
  predicate Reusing(step: Step) {
    step.Miss? || step.EvictDone? || step.ReadChunk?
  }

  lemma ConstructedBlockIsUntorn(s: State, c: Address, id: BlockId, data: Bytes, zeroed: bool, a: Address)
    requires id in s.left && a in Construct(s, c, id, data, zeroed).blocks && !(s.sync.Writing? && s.sync.a == c)
    requires a != c ==> BlockUntorn(s, a) && !IsLoading(s, a) && s.main != Zeroed(a)
    ensures BlockUntorn(Construct(s, c, id, data, zeroed), a)
  {
  }

  lemma MissedBlockIsUntorn(s: State, id: BlockId, zeroed: bool, room: Address, junk: Bytes, a: Address)
    requires Inv(s) && Untorn(s) && CanMiss(s, id, room, junk) && a in s.blocks + map[room := Block(id, junk, 1, 0, false, false)]
    ensures a in Construct(s, room, id, junk, zeroed).blocks && BlockUntorn(Construct(s, room, id, junk, zeroed), a)
  {
    assert UnfoldInv(true);
    assert IdUntorn(s, id) && (a in s.blocks ==> BlockUntorn(s, a));
    ConstructedBlockIsUntorn(s, room, id, junk, zeroed, a);
  }

  lemma EvictedBlockIsUntorn(s: State, a: Address)
    requires Inv(s) && Untorn(s) && CanEvictDone(s) && a in s.blocks
    ensures a in DoEvictDone(s).blocks && BlockUntorn(DoEvictDone(s), a)
  {
    assert UnfoldInv(true);
    assert IdUntorn(s, s.main.id) && BlockUntorn(s, a) && BlockOk(s, s.main.a);
    var t := s.(index := s.index - {s.blocks[s.main.a].id});
    assert BlockUntorn(t, a);
    ConstructedBlockIsUntorn(t, s.main.a, s.main.id, s.blocks[s.main.a].data, s.main.zeroed, a);
  }

  lemma ReusedBlockStaysUntorn(s: State, step: Step, a: Address)
    requires Inv(s) && Untorn(s) && Enabled(s, step) && a in Do(s, step).blocks
    requires Reusing(step)
    ensures BlockUntorn(Do(s, step), a)
  {
    match step
    case Miss(id, zeroed, room, junk) => MissedBlockIsUntorn(s, id, zeroed, room, junk, a);
    case EvictDone => EvictedBlockIsUntorn(s, a);
    case ReadChunk(amount) =>
      assert UnfoldInv(true);
      assert BlockUntorn(s, a);
  }

  /** A block read from the device, and a block copied under modify_lock, are whole. */
  lemma TransferStaysUntorn(s: State, step: Step, a: Address)
    requires Inv(s) && Untorn(s) && Enabled(s, step) && a in Do(s, step).blocks
    requires step.ReadDone? || step.UnlockBlock?
    ensures BlockUntorn(Do(s, step), a)
  {
    assert UnfoldInv(true);
    var b := s.blocks[a];
    assert IdOk(s, b.id) && IdUntorn(s, b.id) && BlockUntorn(s, a) && BlockOk(s, a);
    if step.ReadDone? && a == s.main.a {
      assert !BeingWritten(s, b.id) by { assert !s.sync.Waiting? ==> BlockOk(s, s.sync.a); }
      assert b.data == s.disk[b.id];
    } else if step.UnlockBlock? && a == s.sync.a {
      assert s.sync.buf == b.data;
    }
  }

  // ----- The cache refines a plain disk -----

  /** What a step does to a disk without a cache: at most one block gets new contents. */
  datatype Effect = Nothing | Put(id: BlockId, data: Bytes)

  ghost function EffectOf(s: State, step: Step): Effect
    requires Enabled(s, step)
  {
    match step
    case Store(a, data) => Put(s.blocks[a].id, data)
    case Miss(id, zeroed, _, _) => if zeroed then Put(id, Zeros(s.size)) else Nothing
    case EvictDone => if s.main.zeroed then Put(s.main.id, Zeros(s.size)) else Nothing
    case _ => Nothing
  }

  ghost function PlainStep(disk: imap<BlockId, Bytes>, e: Effect): imap<BlockId, Bytes> {
    if e.Nothing? then disk else disk[e.id := e.data]
  }

  ghost predicate ViewStep(s: State, t: State, e: Effect, id: BlockId)
    requires IdOk(s, id) && IdOk(t, id)
  {
    View(t, id) == if e.Put? && e.id == id then e.data else View(s, id)
  }

  lemma MissView(s: State, new': BlockId, zeroed: bool, room: Address, junk: Bytes, id: BlockId)
    requires CanMiss(s, new', room, junk)
    requires IdOk(s, id) && IdOk(Construct(s, room, new', junk, zeroed), id)
    ensures ViewStep(s, Construct(s, room, new', junk, zeroed), if zeroed then Put(new', Zeros(s.size)) else Nothing, id)
  {
  }

  lemma EvictView(s: State, id: BlockId)
    requires Inv(s) && CanEvictDone(s) && IdOk(s, id) && IdOk(DoEvictDone(s), id)
    ensures ViewStep(s, DoEvictDone(s), if s.main.zeroed then Put(s.main.id, Zeros(s.size)) else Nothing, id)
  {
    assert UnfoldInv(true);
    assert BlockOk(s, s.main.a);
    assert id in s.index ==> BlockOk(s, s.index[id]);
  }

  lemma ReadView(s: State, step: Step, id: BlockId)
    requires Inv(s) && Enabled(s, step) && IdOk(s, id) && IdOk(Do(s, step), id) && (step.ReadChunk? || step.ReadDone?)
    ensures ViewStep(s, Do(s, step), Nothing, id)
  {
    assert UnfoldInv(true);
    assert BlockOk(s, s.main.a);
    assert id in s.index ==> BlockOk(s, s.index[id]);
  }

  lemma ReusingStepView(s: State, step: Step, id: BlockId)
    requires Inv(s) && Enabled(s, step) && IdOk(s, id) && IdOk(Do(s, step), id)
    requires Reusing(step) || step.ReadDone?
    ensures ViewStep(s, Do(s, step), EffectOf(s, step), id)
  {
    match step
    case Miss(new', zeroed, room, junk) => MissView(s, new', zeroed, room, junk, id);
    case EvictDone => EvictView(s, id);
    case _ => ReadView(s, step, id);
  }

  lemma OtherStepView(s: State, step: Step, id: BlockId)
    requires Inv(s) && Enabled(s, step) && IdOk(s, id) && IdOk(Do(s, step), id)
    requires !Reusing(step) && !step.ReadDone? && !SyncStep(step)
    ensures ViewStep(s, Do(s, step), EffectOf(s, step), id)
  {
    assert UnfoldInv(true);
    if step.Store? {
      assert BlockOk(s, step.a);
    } else if step.DeleteDone? {
      assert BlockOk(s, s.main.a);
      assert id in s.index ==> BlockOk(s, s.index[id]);
    }
  }

  lemma SyncStepView(s: State, step: Step, id: BlockId)
    requires Inv(s) && Enabled(s, step) && IdOk(s, id) && IdOk(Do(s, step), id) && SyncStep(step)
    ensures ViewStep(s, Do(s, step), EffectOf(s, step), id)
  {
    assert UnfoldInv(true);
    if step.WriteChunk? {
      assert BlockOk(s, s.sync.a);
    }
  }

  // ----- Runs -----

  ghost predicate IsRun(s: State, steps: seq<Step>)
    decreases |steps|
  {
    steps == [] || (Enabled(s, steps[0]) && IsRun(Do(s, steps[0]), steps[1..]))
  }

  ghost function After(s: State, steps: seq<Step>): State
    requires IsRun(s, steps)
    decreases |steps|
  {
    if steps == [] then s else After(Do(s, steps[0]), steps[1..])
  }

  /** The disk contents a machine without a cache would have after the same run. */
  ghost function PlainAfter(s: State, disk: imap<BlockId, Bytes>, steps: seq<Step>): imap<BlockId, Bytes>
    requires IsRun(s, steps)
    decreases |steps|
  {
    if steps == [] then disk
    else PlainAfter(Do(s, steps[0]), PlainStep(disk, EffectOf(s, steps[0])), steps[1..])
  }

  ghost predicate ShowsAt(s: State, disk: imap<BlockId, Bytes>, id: BlockId) {
    IdOk(s, id) && id in disk && View(s, id) == disk[id]
  }

  ghost predicate Good(s: State, disk: imap<BlockId, Bytes>) {
    Inv(s) && Untorn(s) && forall id: BlockId {:trigger ShowsAt(s, disk, id)} :: ShowsAt(s, disk, id)
  }

  lemma StepKeepsUntorn(s: State, step: Step)
    requires Inv(s) && Untorn(s) && Enabled(s, step)
    ensures Untorn(Do(s, step))
  {
    var t := Do(s, step);
    forall id: BlockId ensures IdUntorn(t, id) {
      if SyncStep(step) { IdStaysUntornBySync(s, step, id); }
      else if step.EvictDone? || step.DeleteDone? { IdStaysUntornAtEnd(s, step, id); }
      else { IdStaysUntorn(s, step, id); }
    }
    forall a | a in t.blocks ensures BlockUntorn(t, a) {
      if step.ReadDone? || step.UnlockBlock? { TransferStaysUntorn(s, step, a); }
      else if Reusing(step) { ReusedBlockStaysUntorn(s, step, a); }
      else if SyncStep(step) { BlockStaysUntornBySync(s, step, a); }
      else if Section(step) { BlockStaysUntornInSection(s, step, a); }
      else { BlockStaysUntorn(s, step, a); }
    }
  }

  lemma StepShows(s: State, disk: imap<BlockId, Bytes>, step: Step, id: BlockId)
    requires Inv(s) && Enabled(s, step) && ShowsAt(s, disk, id) && IdOk(Do(s, step), id)
    ensures ShowsAt(Do(s, step), PlainStep(disk, EffectOf(s, step)), id)
  {
    if Reusing(step) || step.ReadDone? { ReusingStepView(s, step, id); }
    else if SyncStep(step) { SyncStepView(s, step, id); }
    else { OtherStepView(s, step, id); }
  }

  lemma StepKeepsGood(s: State, disk: imap<BlockId, Bytes>, step: Step)
    requires Good(s, disk) && Enabled(s, step)
    ensures Good(Do(s, step), PlainStep(disk, EffectOf(s, step)))
  {
    var t, disk' := Do(s, step), PlainStep(disk, EffectOf(s, step));
    StepKeepsInv(s, step);
    StepKeepsUntorn(s, step);
    forall id: BlockId ensures ShowsAt(t, disk', id) {
      assert UnfoldInv(true);
      assert ShowsAt(s, disk, id) && IdOk(t, id);
      StepShows(s, disk, step, id);
    }
  }

  lemma {:induction false} RunKeepsGood(s: State, disk: imap<BlockId, Bytes>, steps: seq<Step>)
    requires Good(s, disk) && IsRun(s, steps)
    ensures Good(After(s, steps), PlainAfter(s, disk, steps))
    decreases |steps|
  {
    if steps != [] {
      StepKeepsGood(s, disk, steps[0]);
      RunKeepsGood(Do(s, steps[0]), PlainStep(disk, EffectOf(s, steps[0])), steps[1..]);
    }
  }

  /** State `t` and plain disk `disk` are what a freshly mounted device reaches by the interleaving `steps`. */
  ghost predicate Reaches(s: State, steps: seq<Step>, t: State, disk: imap<BlockId, Bytes>) {
    Init(s) && IsRun(s, steps) && t == After(s, steps) && disk == PlainAfter(s, s.disk, steps)
  }

  lemma ReachedIsGood(s: State, steps: seq<Step>, t: State, disk: imap<BlockId, Bytes>)
    requires Reaches(s, steps, t, disk)
    ensures Good(t, disk)
  {
    InitInv(s);
    forall id: BlockId ensures IdUntorn(s, id) && ShowsAt(s, s.disk, id) {}
    RunKeepsGood(s, s.disk, steps);
  }

  /**
   In every interleaving, the file system sees exactly what it would see on a
   disk without a cache: lookups, evictions, loads and write-backs are invisible.
   */
  lemma CacheRefinesDisk(s: State, steps: seq<Step>, t: State, disk: imap<BlockId, Bytes>, id: BlockId)
    requires Reaches(s, steps, t, disk)
    ensures IdOk(t, id) && id in disk && View(t, id) == disk[id]
  {
    assert UnfoldInv(true);
    ReachedIsGood(s, steps, t, disk);
    assert ShowsAt(t, disk, id);
  }

  /** In every reachable state a block with nothing pending is on the device as it is in memory. */
  lemma CleanBlockIsOnDisk(s: State, steps: seq<Step>, t: State, disk: imap<BlockId, Bytes>, a: Address)
    requires Reaches(s, steps, t, disk) && a in t.blocks && Clean(t, a)
    ensures t.blocks[a].id in t.disk && t.disk[t.blocks[a].id] == t.blocks[a].data
  {
    assert UnfoldInv(true);
    ReachedIsGood(s, steps, t, disk);
    assert BlockOk(t, a);
  }

  /** At most one block object is cached for an id, and a block being written back is still cached. */
  lemma OneBlockPerId(s: State, steps: seq<Step>, t: State, disk: imap<BlockId, Bytes>, a: Address, b: Address)
    requires Reaches(s, steps, t, disk) && a in t.blocks && b in t.blocks && t.blocks[a].id == t.blocks[b].id
    ensures a == b
    ensures t.blocks[a].dirty || t.blocks[a].inTransit ==> t.blocks[a].id in t.index && t.index[t.blocks[a].id] == a
  {
    assert UnfoldInv(true);
    ReachedIsGood(s, steps, t, disk);
    assert BlockOk(t, a) && BlockOk(t, b);
  }

  /** Whatever stops the machine, a block not in the middle of a pwrite holds the contents of a finished section. */
  lemma DeviceIsUntorn(s: State, steps: seq<Step>, t: State, disk: imap<BlockId, Bytes>, id: BlockId)
    requires Reaches(s, steps, t, disk) && !BeingWritten(t, id)
    ensures id in t.disk && id in t.left && t.disk[id] in t.left[id]
  {
    assert UnfoldInv(true);
    ReachedIsGood(s, steps, t, disk);
    assert IdUntorn(t, id);
  }

  /** When Device::Sync returns, every block without an open section is on the device as last written. */
  lemma DeviceSyncIsDurable(s: State, steps: seq<Step>, t: State, disk: imap<BlockId, Bytes>, id: BlockId)
    requires Reaches(s, steps, t, disk)
    requires t.main.SyncingDevice? && CanReturn(t)
    requires id in t.index && t.index[id] in t.blocks ==> t.blocks[t.index[id]].depth == 0
    ensures id in t.disk && id in disk && t.disk[id] == disk[id]
  {
    assert UnfoldInv(true);
    ReachedIsGood(s, steps, t, disk);
    assert ShowsAt(t, disk, id);
    if id in t.index {
      assert BlockOk(t, t.index[id]);
    }
  }

  /** When Block::Sync returns, that block is on the device as last written. */
  lemma BlockSyncIsDurable(s: State, steps: seq<Step>, t: State, disk: imap<BlockId, Bytes>)
    requires Reaches(s, steps, t, disk)
    requires t.main.SyncingBlock? && CanReturn(t) && t.blocks[t.main.a].depth == 0
    ensures var id := t.blocks[t.main.a].id; id in t.disk && id in disk && t.disk[id] == disk[id]
  {
    assert UnfoldInv(true);
    ReachedIsGood(s, steps, t, disk);
    assert BlockOk(t, t.main.a) && ShowsAt(t, disk, t.blocks[t.main.a].id);
  }

  // ----- Waiting calls are served -----

  /** Work left on the block in transit. */
  function InTransitWork(s: State): int {
    match s.sync
    case Waiting => 0
    case Popped(_) => 2 * s.size + 3
    case Copying(_, buf) => 2 * s.size + 2 - |buf|
    case Writing(_, _, n) => s.size + 1 - n
  }

  /** The sync thread cannot go on forever by itself. */
  lemma SyncStepsRunOut(s: State, step: Step)
    requires Inv(s) && Enabled(s, step) && SyncStep(step)
    ensures var t := Do(s, step);
            || |t.dirtyList| < |s.dirtyList|
            || (|t.dirtyList| == |s.dirtyList| && 0 <= InTransitWork(t) < InTransitWork(s))
  {
    assert UnfoldInv(true);
    if !step.Pop? {
      assert BlockOk(s, s.sync.a);
    }
  }

  /** The call that is under way, if it waits for the sync thread, can end. */
  predicate CanEnd(s: State) {
    CanReturn(s) || CanEvictDone(s) || CanDeleteDone(s)
  }

  /** A Sync, an eviction or a deletion waits for the sync thread. */
  predicate InCall(s: State) {
    s.main.SyncingBlock? || s.main.SyncingDevice? || s.main.Evicting? || s.main.Deleting?
  }

  /** The sync thread waits for a section of the main thread to end. */
  predicate Stuck(s: State) {
    s.sync.Popped? && s.sync.a in s.blocks && s.blocks[s.sync.a].depth > 0
  }

  /** While a call waits, the sync thread can take a step unless it waits itself, and then nothing can. */
  lemma WaitingCallIsServed(s: State)
    requires Inv(s) && InCall(s) && !CanEnd(s)
    ensures (exists step :: SyncStep(step) && Enabled(s, step)) <==> !Stuck(s)
    ensures Stuck(s) ==> forall step :: !Enabled(s, step)
  {
    if Stuck(s) { NothingMoves(s); } else { var step := NextSyncStep(s); }
  }

  lemma NothingMoves(s: State)
    requires InCall(s) && !CanEnd(s) && Stuck(s)
    ensures forall step :: !Enabled(s, step)
  {
  }

  lemma NextSyncStep(s: State) returns (step: Step)
    requires Inv(s) && InCall(s) && !CanEnd(s) && !Stuck(s)
    ensures SyncStep(step) && Enabled(s, step)
  {
    assert UnfoldInv(true);
    match s.sync
    case Waiting =>
      if !s.main.SyncingDevice? {
        assert BlockOk(s, s.main.a);
      }
      step := Pop;
    case Popped(a) => step := LockBlock;
    case Copying(a, buf) =>
      assert BlockOk(s, a);
      step := if |buf| < s.size then CopyByte else UnlockBlock;
    case Writing(a, buf, n) =>
      step := if n < s.size then WriteChunk(1) else WriteDone;
  }

  /** The dirty blocks in front of `a`, and `a`. */
  function Through(list: seq<Address>, a: Address): seq<Address> {
    if list == [] then [] else if list[0] == a then [a] else [list[0]] + Through(list[1..], a)
  }

  /** The dirty blocks that the sync thread writes before the call can end. */
  function Waited(s: State): seq<Address> {
    match s.main
    case SyncingDevice => s.dirtyList
    case SyncingBlock(a) => if a in s.dirtyList then Through(s.dirtyList, a) else []
    case Evicting(a, _, _) => if a in s.dirtyList then Through(s.dirtyList, a) else []
    case Deleting(a) => if a in s.dirtyList then Through(s.dirtyList, a) else []
    case _ => []
  }

  predicate Open(s: State, a: Address) {
    a in s.blocks && s.blocks[a].depth > 0
  }

  /** A section is open on one of them, or on the one the sync thread is about to copy. */
  ghost predicate Doomed(s: State) {
    Stuck(s) || exists a :: a in Waited(s) && Open(s, a)
  }

  lemma ThroughNext(list: seq<Address>, a: Address)
    requires list != [] && forall i | 0 < i < |list| :: list[i] != list[0]
    ensures a == list[0] ==> Through(list, a) == [a] && a !in list[1..]
    ensures a != list[0] ==> Through(list, a) == [list[0]] + Through(list[1..], a) && (a in list <==> a in list[1..])
  {
  }

  lemma PopWaits(s: State)
    requires Inv(s) && InCall(s) && !CanEnd(s) && CanPop(s)
    ensures InCall(DoPop(s)) && !CanEnd(DoPop(s)) && (Doomed(DoPop(s)) <==> Doomed(s))
  {
    assert UnfoldInv(true);
    var t, h := DoPop(s), s.dirtyList[0];
    assert BlockOk(s, h) && h in s.dirtyList;
    if !s.main.SyncingDevice? {
      assert BlockOk(s, s.main.a);
      ThroughNext(s.dirtyList, s.main.a);
    }
    assert Waited(s) == [h] + Waited(t);
    forall a ensures Open(t, a) <==> Open(s, a) {}
    forall a ensures a in Waited(s) <==> a == h || a in Waited(t) {}
    assert Stuck(t) <==> Open(s, h);
  }

  lemma WriteDoneWaits(s: State)
    requires Inv(s) && InCall(s) && !CanEnd(s) && CanWriteDone(s)
    ensures InCall(DoWriteDone(s)) && (CanEnd(DoWriteDone(s)) ==> !Doomed(s)) && (Doomed(DoWriteDone(s)) <==> Doomed(s))
  {
    assert UnfoldInv(true);
    var t := DoWriteDone(s);
    assert BlockOk(s, s.sync.a);
    if !s.main.SyncingDevice? { assert BlockOk(s, s.main.a); }
    assert Waited(t) == Waited(s);
    forall a ensures Open(t, a) <==> Open(s, a) {}
  }

  lemma TransferWaits(s: State, step: Step)
    requires Inv(s) && InCall(s) && !CanEnd(s) && Enabled(s, step) && SyncStep(step) && !step.Pop? && !step.WriteDone?
    ensures InCall(Do(s, step)) && !CanEnd(Do(s, step)) && (Doomed(Do(s, step)) <==> Doomed(s))
  {
    assert UnfoldInv(true);
    var t := Do(s, step);
    assert t.blocks == s.blocks && t.main == s.main && t.dirtyList == s.dirtyList && t.syncInTransit == s.syncInTransit;
    forall a ensures Open(t, a) <==> Open(s, a) {}
  }

  /** While a call waits only the sync thread moves, and whether the call is doomed does not change. */
  lemma WaitingStep(s: State, step: Step)
    requires Inv(s) && InCall(s) && !CanEnd(s) && Enabled(s, step)
    ensures SyncStep(step) && Inv(Do(s, step)) && InCall(Do(s, step))
    ensures (CanEnd(Do(s, step)) ==> !Doomed(s)) && (Doomed(Do(s, step)) <==> Doomed(s))
  {
    StepKeepsInv(s, step);
    assert SyncStep(step);
    if step.Pop? { PopWaits(s); } else if step.WriteDone? { WriteDoneWaits(s); } else { TransferWaits(s, step); }
  }

  /** A call that is not doomed ends once the sync thread has taken the steps it can take. */
  lemma {:induction false} CallEnds(s: State) returns (steps: seq<Step>)
    requires Inv(s) && InCall(s) && !Doomed(s)
    ensures IsRun(s, steps) && CanEnd(After(s, steps)) && forall i | 0 <= i < |steps| :: SyncStep(steps[i])
    decreases |s.dirtyList|, InTransitWork(s)
  {
    if CanEnd(s) { return []; }
    var step := NextSyncStep(s);
    WaitingStep(s, step);
    SyncStepsRunOut(s, step);
    var rest := CallEnds(Do(s, step));
    steps := [step] + rest;
    assert steps[1..] == rest;
  }

  /** One that is doomed never ends, in no run. */
  lemma {:induction false} DoomedCallWaits(s: State, steps: seq<Step>)
    requires Inv(s) && InCall(s) && !CanEnd(s) && Doomed(s) && IsRun(s, steps)
    ensures InCall(After(s, steps)) && !CanEnd(After(s, steps))
    decreases |steps|
  {
    if steps != [] {
      WaitingStep(s, steps[0]);
      DoomedCallWaits(Do(s, steps[0]), steps[1..]);
    }
  }

  ghost predicate Leads(s: State, step: Step, t: State) {
    Enabled(s, step) && Do(s, step) == t
  }

  lemma RunCons(s: State, step: Step, t: State, rest: seq<Step>)
    requires Leads(s, step, t) && IsRun(t, rest)
    ensures IsRun(s, [step] + rest) && After(s, [step] + rest) == After(t, rest)
  {
    assert ([step] + rest)[1..] == rest;
  }

  /** The cache with a new zeroed block `id` at `a`. */
  ghost function WithZeroed(s: State, id: BlockId, a: Address): State
    requires id in s.left
  {
    s.(blocks := s.blocks[a := Block(id, Zeros(s.size), 1, 0, true, false)], index := s.index[id := a],
       dirtyList := [a] + s.dirtyList, left := s.left[id := s.left[id] + iset{Zeros(s.size)}])
  }

  lemma GetsZeroed(s: State, id: BlockId, a: Address, rest: seq<Step>) returns (steps: seq<Step>)
    requires CanMiss(s, id, a, Zeros(s.size)) && id in s.left && IsRun(WithZeroed(s, id, a), rest)
    ensures IsRun(s, steps) && After(s, steps) == After(WithZeroed(s, id, a), rest)
  {
    var miss := Miss(id, true, a, Zeros(s.size));
    var s1 := Do(s, miss);
    var s2 := Do(s1, MarkZeroed);
    RunCons(s2, FinishMark, WithZeroed(s, id, a), rest);
    RunCons(s1, MarkZeroed, s2, [FinishMark] + rest);
    RunCons(s, miss, s1, [MarkZeroed] + ([FinishMark] + rest));
    steps := [miss] + ([MarkZeroed] + ([FinishMark] + rest));
  }

  /** Block 2 is popped and written again, and block 3 is missed while block 1 is still dirty. */
  lemma LocksUp(s: State, z: Bytes) returns (steps: seq<Step>)
    requires s.main.Idle? && s.sync.Waiting? && s.limit == 2 && 3 !in s.index && s.dirtyList == [11, 10]
    requires s.blocks == map[10 := Block(1, z, 0, 0, true, false), 11 := Block(2, z, 1, 0, true, false)]
    ensures IsRun(s, steps) && InCall(After(s, steps)) && forall step :: !Enabled(After(s, steps), step)
  {
    var evict := MissEvict(3, false, 10);
    var s1 := DoPop(s);
    var s2 := DoBeginWrite(s1, 11);
    assert s2.blocks == map[10 := Block(1, z, 0, 0, true, false), 11 := Block(2, z, 1, 1, false, true)];
    var t := s2.(main := Evicting(10, 3, false));
    NothingMoves(t);
    RunCons(s2, evict, t, []);
    RunCons(s1, BeginWrite(11), s2, [evict] + []);
    RunCons(s, Pop, s1, [BeginWrite(11)] + ([evict] + []));
    steps := [Pop] + ([BeginWrite(11)] + ([evict] + []));
  }

  lemma SecondLocksUp(s: State) returns (steps: seq<Step>)
    requires s.main.Idle? && s.sync.Waiting? && s.limit == 2 && 2 !in s.index && 3 !in s.index && s.dirtyList == [10] && 2 in s.left
    requires s.blocks == map[10 := Block(1, Zeros(s.size), 0, 0, true, false)]
    ensures IsRun(s, steps) && InCall(After(s, steps)) && forall step :: !Enabled(After(s, steps), step)
  {
    var t, z := WithZeroed(s, 2, 11), Zeros(s.size);
    assert t.blocks == map[10 := Block(1, z, 0, 0, true, false), 11 := Block(2, z, 1, 0, true, false)];
    var rest := LocksUp(t, z);
    steps := GetsZeroed(s, 2, 11, rest);
  }

  /**
   The two threads wait for each other: the driver writes block 2, opens a section on
   it again and misses block 3 inside, while the sync thread has popped block 2 and
   the block to evict is still dirty.
   */
  lemma ThreadsWaitForEachOther(s: State) returns (steps: seq<Step>)
    requires Init(s) && s.limit == 2
    ensures IsRun(s, steps) && InCall(After(s, steps)) && forall step :: !Enabled(After(s, steps), step)
  {
    var s1 := WithZeroed(s, 1, 10);
    var s2 := DoUnref(s1, 10);
    assert s2.blocks == map[10 := Block(1, Zeros(s.size), 0, 0, true, false)];
    var rest := SecondLocksUp(s2);
    RunCons(s1, Unref(10), s2, rest);
    steps := GetsZeroed(s, 1, 10, [Unref(10)] + rest);
  }
}
