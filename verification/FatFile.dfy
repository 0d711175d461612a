/**
 Cluster chains as values: a FAT is a sequence of entries, a chain the list of
 clusters that following entries from a first cluster visits, and a file the
 first `size` bytes of its chain's clusters.
 */
module FatChain {
  import opened Sequences
  type Bytes = seq<bv8>

  /** A definition stated under Unfold(x) stays folded for the verifier until a proof mentions this predicate. */
  predicate Unfold(x: bool) {
    true
  }

  /** `ch` runs over distinct data clusters, each entry naming the next one and the last holding `eof`. */
  ghost predicate Chain(fat: seq<nat>, eof: nat, ch: seq<nat>) {
    && |ch| > 0
    && (forall i | 0 <= i < |ch| :: 2 <= ch[i] < |fat|)
    && (forall i, j | 0 <= i < j < |ch| :: ch[i] != ch[j])
    && (forall i | 0 <= i < |ch| - 1 :: fat[ch[i]] == ch[i + 1])
    && fat[ch[|ch| - 1]] == eof
  }

  /** The same, folded. */
  ghost predicate Chained(fat: seq<nat>, eof: nat, ch: seq<nat>) {
    |ch| > 0 && forall x | Unfold(x) :: Chain(fat, eof, ch)
  }

  /** A walk of `n` links from cluster `c`. */
  ghost function Walk(fat: seq<nat>, c: nat, n: nat): nat {
    if n == 0 then c
    else var d := Walk(fat, c, n - 1); if d < |fat| then fat[d] else d
  }

  lemma {:induction false} WalkFollowsChain(fat: seq<nat>, eof: nat, ch: seq<nat>, n: nat)
    requires Chain(fat, eof, ch) && n <= |ch|
    ensures Walk(fat, ch[0], n) == if n < |ch| then ch[n] else eof
  {
    if n > 0 {
      WalkFollowsChain(fat, eof, ch, n - 1);
    }
  }

  lemma ChainIsNotLonger(fat: seq<nat>, eof: nat, c: seq<nat>, d: seq<nat>)
    requires Chain(fat, eof, c) && Chain(fat, eof, d) && c[0] == d[0] && eof >= |fat|
    ensures |c| <= |d|
  {
    WalkFollowsChain(fat, eof, d, |d|);
    if |d| < |c| { WalkFollowsChain(fat, eof, c, |d|); }
  }

  /** A first cluster has at most one chain. */
  lemma ChainIsUnique(fat: seq<nat>, eof: nat, c: seq<nat>, d: seq<nat>)
    requires Chain(fat, eof, c) && Chain(fat, eof, d) && c[0] == d[0] && eof >= |fat|
    ensures c == d
  {
    ChainIsNotLonger(fat, eof, c, d);
    ChainIsNotLonger(fat, eof, d, c);
    forall i | 0 <= i < |c| ensures c[i] == d[i] {
      WalkFollowsChain(fat, eof, c, i);
      WalkFollowsChain(fat, eof, d, i);
    }
  }

  /** The clusters AllocateCluster may hand out. */
  function FreeSet(fat: seq<nat>): set<nat> {
    set c | 2 <= c < |fat| && fat[c] == 0
  }

  /** No free cluster is left, folded. */
  ghost predicate Exhausted(fat: seq<nat>) {
    forall x | Unfold(x) :: FreeSet(fat) == {}
  }

  /** Clusters a file of `size` bytes occupies; an empty file keeps its first cluster. */
  function Need(size: nat, cs: nat): (n: nat)
    requires cs > 0
    ensures n >= 1
  {
    if size <= cs then 1 else 1 + Need(size - cs, cs)
  }

  /** The file position `off` bytes into cluster number `k` of a chain. */
  function Pos(k: nat, off: nat, cs: nat): (p: nat)
    ensures p >= off
  {
    if k == 0 then off else cs + Pos(k - 1, off, cs)
  }

  lemma {:induction false} PosIsProduct(k: nat, off: nat, cs: nat)
    ensures Pos(k, off, cs) == k * cs + off
  {
    if k > 0 {
      PosIsProduct(k - 1, off, cs);
      assert k * cs == (k - 1) * cs + cs;
    }
  }

  lemma DivMod(k: nat, o: nat, cs: nat)
    requires o < cs
    ensures (k * cs + o) / cs == k && (k * cs + o) % cs == o
  {
    var q := (k * cs + o) / cs;
    assert k * cs + o == q * cs + (k * cs + o) % cs;
    if q < k { MulMono(q + 1, k, cs); } else if q > k { MulMono(k + 1, q, cs); }
  }

  /** The rest of a sector lies inside the cluster. */
  lemma SectorFits(off: nat, bps: nat, spc: nat)
    requires bps > 0 && off < Pos(spc, 0, bps)
    ensures off + (bps - off % bps) <= Pos(spc, 0, bps)
  {
    PosIsProduct(spc, 0, bps);
    var q := off / bps;
    assert off == q * bps + off % bps;
    if q >= spc { MulMono(spc, q, bps); } else { MulMono(q + 1, spc, bps); }
  }

  /** A cluster of `cs` bytes is `spc` sectors of `bps` bytes, folded. */
  ghost predicate Sectored(cs: nat, bps: nat, spc: nat) {
    forall x | Unfold(x) :: cs == Pos(spc, 0, bps)
  }

  /** How much of `left` bytes goes into the rest of the sector at `off`. */
  method Chunk(left: nat, off: nat, bps: nat, ghost spc: nat, ghost cs: nat) returns (n: nat)
    requires bps > 0 && Sectored(cs, bps, spc) && off < cs && left > 0
    ensures 0 < n <= left && off + n <= cs
  {
    assert Unfold(true);
    SectorFits(off, bps, spc);
    n := if left < bps - off % bps then left else bps - off % bps;
  }

  lemma MulMono(a: nat, b: nat, c: nat)
    requires a <= b
    ensures a * c <= b * c
  {
  }

  lemma {:induction false} NeedTight(size: nat, cs: nat, k: nat, o: nat)
    requires 0 < o <= cs && size == Pos(k, o, cs)
    ensures Need(size, cs) == k + 1
  {
    if k > 0 { NeedTight(size - cs, cs, k - 1, o); }
  }

  lemma {:induction false} PosNext(k: nat, cs: nat)
    ensures Pos(k + 1, 0, cs) == Pos(k, cs, cs)
  {
    if k > 0 { PosNext(k - 1, cs); }
  }

  lemma {:induction false} NeedOver(size: nat, cs: nat, k: nat, off: nat)
    requires cs > 0 && Pos(k, off, cs) < size
    ensures k < Need(size, cs)
  {
    if k > 0 { NeedOver(size - cs, cs, k - 1, off); }
  }

  lemma {:induction false} PosBound(k: nat, off: nat, cs: nat)
    requires cs >= 2
    ensures Pos(k, off, cs) >= 2 * k
  {
    if k > 0 { PosBound(k - 1, off, cs); }
  }

  lemma {:induction false} NeedPast(size: nat, cs: nat, k: nat)
    requires cs > 0 && Pos(k, cs, cs) < size
    ensures Need(size, cs) > k + 1
  {
    if k > 0 { NeedPast(size - cs, cs, k - 1); }
  }

  lemma {:induction false} PosAdd(k: nat, off: nat, n: nat, cs: nat)
    ensures Pos(k, off + n, cs) == Pos(k, off, cs) + n
  {
    if k > 0 { PosAdd(k - 1, off, n, cs); }
  }

  lemma {:induction false} NeedMono(a: nat, b: nat, cs: nat)
    requires cs > 0 && a <= b
    ensures Need(a, cs) <= Need(b, cs)
  {
    if a > cs { NeedMono(a - cs, b - cs, cs); }
  }

  /** The cluster AllocateCluster looks at in its round `i`. */
  function Probe(start: nat, i: nat, n: nat): (c: nat)
    requires n > 0
    ensures 2 <= c < 2 + n
  {
    2 + (start + i) % n
  }

  lemma ProbesReach(start: nat, n: nat, c: nat)
    requires 2 <= c < 2 + n
    ensures exists i: nat :: i < n && Probe(start, i, n) == c
  {
    var q, r := start / n, start % n;
    assert start == q * n + r;
    var wraps := if r <= c - 2 then 0 else 1;
    var i := c - 2 - r + wraps * n;
    assert start + i == (q + wraps) * n + (c - 2);
    DivMod(q + wraps, c - 2, n);
    assert Probe(start, i, n) == c;
  }

  ghost predicate DataOk(data: seq<Bytes>, cs: nat) {
    forall c | 0 <= c < |data| :: |data[c]| == cs
  }

  ghost predicate Holds(data: seq<Bytes>, cs: nat, ch: seq<nat>, size: nat) {
    && cs > 0 && DataOk(data, cs) && Need(size, cs) <= |ch|
    && forall i | 0 <= i < |ch| :: ch[i] < |data|
  }

  /** The first `size` bytes of the chain. */
  ghost function Contents(data: seq<Bytes>, cs: nat, ch: seq<nat>, size: nat): (s: Bytes)
    requires Holds(data, cs, ch, size)
    ensures |s| == size
    decreases size
  {
    if size <= cs then data[ch[0]][..size]
    else data[ch[0]] + Contents(data, cs, ch[1..], size - cs)
  }

  function Zeros(n: nat): (z: Bytes)
    ensures |z| == n && forall i | 0 <= i < n :: z[i] == 0
  {
    seq(n, _ => 0)
  }

  const OFF_MAX := 0xFFFF_FFFF

  /** The bytes of `src` a write at `offset` can place below the largest file size. */
  function Clamped(src: Bytes, offset: int): Bytes {
    if 0 <= offset <= OFF_MAX < offset + |src| then src[..OFF_MAX - offset] else src
  }

  /**
   What a write of `src` at `offset` makes of file `was` and returns, given
   whether there are clusters for it, and how many bytes its clusters hold then.
   Without them only a write at the start of a non-empty file is cut short; any
   other fails, and so does an empty one where there is no cluster.
   */
  ghost predicate Placed(was: Bytes, now: Bytes, src: Bytes, offset: nat, n: int, room: bool, cap: nat) {
    forall x | Unfold(x) ::
      if room then
        && now == Splice(Resize(was, LengthAfter(was, src, offset)), offset, src)
        && n == if cap <= offset then -1 else |src|
      else if offset == 0 && was != [] then n == |was| <= |src| && now == src[..|was|]
      else n == -1 && now == was
  }

  /** How long file `was` is once there is room for `src` at `offset`. */
  function LengthAfter(was: Bytes, src: Bytes, offset: nat): nat {
    if |was| < offset + |src| then offset + |src| else |was|
  }

  lemma PlacedWhole(was: Bytes, now: Bytes, src: Bytes, offset: nat, n: int, cap: nat)
    requires n == if cap <= offset then -1 else |src|
    requires var grown := Resize(was, LengthAfter(was, src, offset));
      now == if src == [] then grown else Splice(grown, offset, src)
    ensures Placed(was, now, src, offset, n, true, cap)
  {
    var grown := Resize(was, LengthAfter(was, src, offset));
    assert src == [] ==> Splice(grown, offset, src) == grown;
  }

  lemma PlacedPart(was: Bytes, now: Bytes, src: Bytes, offset: nat, n: int, cap: nat)
    requires if offset == 0 && was != [] then n == |was| <= |src| && now == src[..|was|] else n == -1 && now == was
    ensures Placed(was, now, src, offset, n, false, cap)
  {
  }

  /** What a write at `offset` makes of file `was` when it goes onto a chain of `cap` bytes that is not the file's: it only makes it longer. */
  ghost predicate Missed(was: Bytes, now: Bytes, src: Bytes, offset: nat, n: int, cap: nat) {
    now == Resize(was, LengthAfter(was, src, offset)) && n == if cap <= offset then -1 else Min(|src|, cap - offset)
  }

  /** A write that goes onto a chain of `cap` bytes that is not the file's, or onto the file's, which has `room` bytes. */
  ghost predicate Ended(was: Bytes, now: Bytes, src: Bytes, offset: nat, n: int, ok: bool, lost: bool, cap: nat, room: nat) {
    if ok && lost then Missed(was, now, src, offset, n, cap) else Placed(was, now, src, offset, n, ok, room)
  }

  /** Up to `count` bytes from position `o` on. */
  function Slice(s: Bytes, o: nat, count: nat): (r: Bytes)
    ensures |r| <= count
  {
    if |s| <= o then [] else if |s| - o < count then s[o..] else s[o..o + count]
  }

  /** A file resized to `n` bytes: cut off, or padded with zeros. */
  function Resize(s: Bytes, n: nat): (r: Bytes)
    ensures |r| == n
  {
    if n <= |s| then s[..n] else s + Zeros(n - |s|)
  }

  lemma {:induction false} ContentsFrame(data: seq<Bytes>, data': seq<Bytes>, cs: nat, ch: seq<nat>, ch': seq<nat>, size: nat)
    requires Holds(data, cs, ch, size) && Holds(data', cs, ch', size)
    requires forall i | 0 <= i < Need(size, cs) :: ch'[i] == ch[i] && data'[ch[i]] == data[ch[i]]
    ensures Contents(data', cs, ch', size) == Contents(data, cs, ch, size)
    decreases size
  {
    if size > cs {
      forall i | 0 <= i < Need(size - cs, cs) ensures ch'[1..][i] == ch[1..][i] && data'[ch[1..][i]] == data[ch[1..][i]] {
        assert ch'[1..][i] == ch'[i + 1] && ch[1..][i] == ch[i + 1];
      }
      ContentsFrame(data, data', cs, ch[1..], ch'[1..], size - cs);
    }
  }

  lemma {:induction false} ContentsPrefix(data: seq<Bytes>, cs: nat, ch: seq<nat>, size: nat, n: nat)
    requires Holds(data, cs, ch, size) && n <= size && Need(n, cs) <= |ch|
    ensures Contents(data, cs, ch, n) == Contents(data, cs, ch, size)[..n]
    decreases size
  {
    if n > cs { ContentsPrefix(data, cs, ch[1..], size - cs, n - cs); }
  }

  /** `now` is `file` with the first `n` bytes of `src` written at `at`, folded. */
  ghost predicate Written(now: Bytes, file: Bytes, at: nat, src: Bytes, n: nat)
    requires n <= |src| && at + |src| <= |file|
  {
    |now| == |file| && forall x | Unfold(x) :: now == Splice(file, at, src[..n])
  }

  /** Data that differ only on the clusters of `ch`, folded. */
  ghost predicate OnlyOn(data: seq<Bytes>, data': seq<Bytes>, ch: seq<nat>) {
    forall x | Unfold(x) :: |data'| == |data| && forall c | 0 <= c < |data| && c !in ch :: data'[c] == data[c]
  }

  lemma OnlyOnTwice(a: seq<Bytes>, b: seq<Bytes>, c: seq<Bytes>, ch: seq<nat>)
    ensures OnlyOn(a, a, ch)
    ensures OnlyOn(a, b, ch) && OnlyOn(b, c, ch) ==> OnlyOn(a, c, ch)
  {
    assert Unfold(true);
  }

  lemma WrittenEnds(now: Bytes, file: Bytes, at: nat, src: Bytes)
    requires at + |src| <= |file|
    ensures Written(file, file, at, src, 0)
    ensures Written(now, file, at, src, |src|) ==> now == Splice(file, at, src)
  {
    assert Unfold(true) && src[..|src|] == src && file[..at] + [] + file[at..] == file;
  }

  lemma WrittenMore(now: Bytes, file: Bytes, at: nat, src: Bytes, n: nat, m: nat)
    requires n + m <= |src| && at + |src| <= |file| && Written(now, file, at, src, n)
    ensures Written(Splice(now, at + n, src[n..n + m]), file, at, src, n + m)
  {
    assert Unfold(true);
    assert src[..n + m] == src[..n] + src[n..n + m];
  }

  lemma SpliceConcat(s: Bytes, t: Bytes, o: nat, b: Bytes)
    ensures o + |b| <= |s| ==> Splice(s + t, o, b) == Splice(s, o, b) + t
    ensures o + |b| <= |t| ==> Splice(s + t, |s| + o, b) == s + Splice(t, o, b)
  {
    if o + |b| <= |s| {
      assert (s + t)[..o] == s[..o] && (s + t)[o + |b|..] == s[o + |b|..] + t;
    }
    if o + |b| <= |t| {
      assert (s + t)[..|s| + o] == s + t[..o] && (s + t)[|s| + o + |b|..] == t[o + |b|..];
    }
  }

  lemma ContentsPutLong(data: seq<Bytes>, data': seq<Bytes>, cs: nat, ch: seq<nat>, size: nat, o: nat, b: Bytes)
    requires Holds(data, cs, ch, size) && o + |b| <= cs < size
    requires |data'| == |data| && DataOk(data', cs) && data'[ch[0]] == Splice(data[ch[0]], o, b)
    requires forall i | 0 < i < |ch| :: data'[ch[i]] == data[ch[i]]
    ensures Contents(data', cs, ch, size) == Splice(Contents(data, cs, ch, size), o, b)
  {
    var rest := ch[1..];
    forall i | 0 <= i < |rest| ensures data'[rest[i]] == data[rest[i]] { assert rest[i] == ch[i + 1]; }
    ContentsFrame(data, data', cs, rest, rest, size - cs);
    SpliceConcat(data[ch[0]], Contents(data, cs, rest, size - cs), o, b);
  }

  lemma SpliceShort(s: Bytes, o: nat, b: Bytes, size: nat)
    requires o + |b| <= size <= |s|
    ensures Splice(s, o, b)[..size] == Splice(s[..size], o, b)
  {
  }

  /** Writing inside the first cluster writes that stretch of the file and nothing else. */
  lemma ContentsPutFirst(data: seq<Bytes>, data': seq<Bytes>, cs: nat, ch: seq<nat>, size: nat, o: nat, b: Bytes)
    requires Holds(data, cs, ch, size) && |ch| > 0 && o + |b| <= cs && o + |b| <= size
    requires |data'| == |data| && DataOk(data', cs) && data'[ch[0]] == Splice(data[ch[0]], o, b)
    requires forall i | 0 < i < |ch| :: data'[ch[i]] == data[ch[i]]
    ensures Contents(data', cs, ch, size) == Splice(Contents(data, cs, ch, size), o, b)
  {
    if size > cs {
      ContentsPutLong(data, data', cs, ch, size, o, b);
    } else {
      SpliceShort(data[ch[0]], o, b, size);
    }
  }

  /** Writing inside one cluster writes that stretch of the file and nothing else. */
  lemma {:induction false} ContentsPut(data: seq<Bytes>, data': seq<Bytes>, cs: nat, ch: seq<nat>, size: nat, k: nat, o: nat, b: Bytes, at: nat)
    requires Holds(data, cs, ch, size) && k < |ch| && o + |b| <= cs && at == Pos(k, o, cs) && at + |b| <= size
    requires |data'| == |data| && DataOk(data', cs) && data'[ch[k]] == Splice(data[ch[k]], o, b)
    requires forall i | 0 <= i < |ch| && i != k :: data'[ch[i]] == data[ch[i]]
    ensures Contents(data', cs, ch, size) == Splice(Contents(data, cs, ch, size), at, b)
    decreases k
  {
    if k == 0 {
      ContentsPutFirst(data, data', cs, ch, size, o, b);
    } else {
      var rest := ch[1..];
      forall i | 0 <= i < |rest| && i != k - 1 ensures data'[rest[i]] == data[rest[i]] { assert rest[i] == ch[i + 1]; }
      ContentsPut(data, data', cs, rest, size - cs, k - 1, o, b, at - cs);
      SpliceConcat(data[ch[0]], Contents(data, cs, rest, size - cs), at - cs, b);
    }
  }

  /** Linking a free cluster after position `k` of a chain. */
  lemma ChainExtend(fat: seq<nat>, eof: nat, ch: seq<nat>, k: nat, n: nat)
    requires Chain(fat, eof, ch) && eof > 0 && k < |ch| && n in FreeSet(fat)
    ensures Chain(fat[n := eof][ch[k] := n], eof, ch[..k + 1] + [n])
    ensures FreeSet(fat[n := eof][ch[k] := n]) == FreeSet(fat) - {n}
  {
    var d := ch[..k + 1] + [n];
    forall i | 0 <= i < |ch| ensures ch[i] != n && fat[ch[i]] != 0 {
      assert fat[ch[i]] == if i + 1 < |ch| then ch[i + 1] else eof;
    }
  }

  ghost predicate Disjoint(c: seq<nat>, d: seq<nat>) {
    forall i, j | 0 <= i < |c| && 0 <= j < |d| :: c[i] != d[j]
  }

  /** Tables and data that differ only on the clusters of `f` and on free clusters. */
  ghost predicate Within(fat: seq<nat>, data: seq<Bytes>, fat': seq<nat>, data': seq<Bytes>, f: seq<nat>) {
    && |fat| == |data| == |fat'| == |data'|
    && forall c | 0 <= c < |fat| && c !in f && c !in FreeSet(fat) :: fat'[c] == fat[c] && data'[c] == data[c]
  }

  /** A chain apart from `f` survives such a change with its contents, apart from what `f` becomes. */
  lemma OtherChainKept(fat: seq<nat>, data: seq<Bytes>, fat': seq<nat>, data': seq<Bytes>, eof: nat, cs: nat,
                       f: seq<nat>, f': seq<nat>, g: seq<nat>, size: nat)
    requires Within(fat, data, fat', data', f) && Chain(fat, eof, g) && eof > 0 && Disjoint(f, g)
    requires forall i | 0 <= i < |f'| :: f'[i] in f || f'[i] in FreeSet(fat)
    requires Holds(data, cs, g, size) && DataOk(data', cs)
    ensures Chain(fat', eof, g) && Disjoint(f', g) && Holds(data', cs, g, size)
    ensures Contents(data', cs, g, size) == Contents(data, cs, g, size)
  {
    forall i | 0 <= i < |g| ensures g[i] !in f && g[i] !in FreeSet(fat) {
      assert fat[g[i]] == if i + 1 < |g| then g[i + 1] else eof;
    }
    ContentsFrame(data, data', cs, g, g, size);
  }

  /** Writing inside one cluster of a chain, as a change of the data. */
  lemma PutHere(fat: seq<nat>, data: seq<Bytes>, eof: nat, cs: nat, ch: seq<nat>, size: nat, id: nat, off: nat, b: Bytes, at: nat)
    requires |fat| == |data| && Chain(fat, eof, ch) && Holds(data, cs, ch, size) && id < |ch| && off + |b| <= cs
    requires at == Pos(id, off, cs) && at + |b| <= size
    ensures off + |b| <= |data[ch[id]]| && Pos(id, off + |b|, cs) == at + |b|
    ensures var data' := data[ch[id] := Splice(data[ch[id]], off, b)];
      && DataOk(data', cs) && Holds(data', cs, ch, size) && Within(fat, data, fat, data', ch) && OnlyOn(data, data', ch)
      && Contents(data', cs, ch, size) == Splice(Contents(data, cs, ch, size), at, b)
  {
    var data' := data[ch[id] := Splice(data[ch[id]], off, b)];
    ContentsPut(data, data', cs, ch, size, id, off, b, at);
    PosAdd(id, off, |b|, cs);
  }

  /** The bytes a chain has room for. */
  function Capacity(via: seq<nat>, cs: nat): nat {
    Pos(|via|, 0, cs)
  }

  lemma CapacityHolds(fat: seq<nat>, data: seq<Bytes>, eof: nat, cs: nat, via: seq<nat>)
    requires Chain(fat, eof, via) && |data| == |fat| && DataOk(data, cs) && cs > 0
    ensures Holds(data, cs, via, Capacity(via, cs))
  {
    PosNext(|via| - 1, cs);
    NeedTight(Capacity(via, cs), cs, |via| - 1, cs);
  }

  lemma {:induction false} PosSum(a: nat, b: nat, off: nat, cs: nat)
    ensures Pos(a + b, off, cs) == Pos(a, 0, cs) + Pos(b, off, cs)
  {
    if a > 0 { PosSum(a - 1, b, off, cs); }
  }

  lemma {:induction false} NeedFits(size: nat, cs: nat, k: nat)
    requires cs > 0
    ensures Need(size, cs) <= k <==> k > 0 && size <= Pos(k, 0, cs)
  {
    if k > 0 && size > cs { NeedFits(size - cs, cs, k - 1); }
  }

  lemma {:induction false} NeedShift(k: nat, x: nat, cs: nat)
    requires cs > 0 && x > 0
    ensures Need(Pos(k, x, cs), cs) == k + Need(x, cs)
  {
    if k > 0 {
      PosBack(k, x, cs);
      NeedShift(k - 1, x, cs);
    }
  }

  lemma PosBack(k: nat, x: nat, cs: nat)
    requires k > 0
    ensures Pos(k, x, cs) == cs + Pos(k - 1, x, cs)
  {
    PosSum(1, k - 1, x, cs);
  }

  /** Cluster number `c` begins at or before a position exactly when the position is not in an earlier one. */
  lemma PosOrder(c: nat, id: nat, off: nat, cs: nat)
    requires off < cs
    ensures Pos(c, 0, cs) <= Pos(id, off, cs) <==> c <= id
  {
    if c <= id { PosSum(c, id - c, off, cs); } else { PosSum(id, c - id, 0, cs); PosSum(id, 0, off, cs); }
  }

  /** A read at `offset` gives bytes of `all`, which begin at cluster number `b` and fill `k` clusters; it fails behind them. */
  ghost predicate Gave(all: Bytes, b: nat, k: nat, cs: nat, offset: nat, want: nat, n: int, buf: Bytes) {
    if Pos(b + k, 0, cs) <= offset then n == -1 && buf == []
    else Pos(b, 0, cs) <= offset && n == |buf| && buf == Slice(all, offset - Pos(b, 0, cs), want)
  }

  lemma GaveFrom(all: Bytes, b: nat, k: nat, cs: nat, id: nat, off: nat, want: nat, n: int, buf: Bytes)
    requires b <= id && off < cs
    requires if b + k <= id then n == -1 && buf == [] else n == |buf| && buf == Slice(all, Pos(id - b, off, cs), want)
    ensures Gave(all, b, k, cs, Pos(id, off, cs), want, n, buf)
  {
    PosOrder(b + k, id, off, cs);
    PosSum(b, id - b, off, cs);
  }

  /** How far it is from a place in a chain to the end of its cluster, and of the chain. */
  lemma RoomLeft(via: seq<nat>, cs: nat, id: nat, off: nat)
    requires id < |via| && off <= cs
    ensures Pos(id, off, cs) + (cs - off) <= Capacity(via, cs)
    ensures id + 1 == |via| ==> Pos(id, off, cs) + (cs - off) == Capacity(via, cs)
  {
    PosAdd(id, off, cs - off, cs);
    PosNext(id, cs);
    PosSum(id + 1, |via| - (id + 1), 0, cs);
  }

  /** The bytes of `src` that a chain has room for from position `at` on. */
  function Fitting(src: Bytes, at: nat, cap: nat): (fit: Bytes)
    ensures at <= cap ==> |fit| == Min(|src|, cap - at)
  {
    if at + |src| <= cap then src else if at <= cap then src[..cap - at] else []
  }

  predicate UnfoldSeat(x: bool) {
    true
  }

  /** Position `pos` of chain `via` is `off` bytes into `cluster`, number `id` counted from `b`, folded. */
  ghost predicate Seated(via: seq<nat>, b: nat, cs: nat, cluster: nat, id: nat, off: nat, pos: nat) {
    off <= cs && forall x | UnfoldSeat(x) :: b <= id < b + |via| && via[id - b] == cluster && Pos(id - b, off, cs) == pos
  }

  lemma FittingPart(src: Bytes, at: nat, cap: nat, n: nat, m: nat)
    requires at + n + m <= cap && n + m <= |src|
    ensures var fit := Fitting(src, at, cap); n + m <= |fit| && fit[n..n + m] == src[n..n + m]
  {
    var fit := Fitting(src, at, cap);
    forall i | n <= i < n + m ensures fit[i] == src[i] {}
  }

  /** The first `n` bytes of `src` are written at position `at` of chain `via`, and nothing else changed, folded. */
  ghost predicate Progress(data: seq<Bytes>, now: seq<Bytes>, cs: nat, via: seq<nat>, at: nat, src: Bytes, n: nat) {
    forall x | Unfold(x) ::
      var cap := Capacity(via, cs);
      && Holds(data, cs, via, cap) && Holds(now, cs, via, cap) && OnlyOn(data, now, via) && n <= |src| && at + |src| <= cap
      && Written(Contents(now, cs, via, cap), Contents(data, cs, via, cap), at, src, n)
  }

  lemma ProgressStarts(fat: seq<nat>, data: seq<Bytes>, eof: nat, cs: nat, via: seq<nat>, at: nat, src: Bytes)
    requires Chained(fat, eof, via) && |data| == |fat| && DataOk(data, cs) && cs > 0 && at + |src| <= Capacity(via, cs)
    ensures Progress(data, data, cs, via, at, src, 0)
  {
    assert Unfold(true);
    CapacityHolds(fat, data, eof, cs, via);
    var all := Contents(data, cs, via, Capacity(via, cs));
    WrittenEnds(all, all, at, src);
    OnlyOnTwice(data, data, data, via);
  }

  lemma ProgressMore(fat: seq<nat>, data: seq<Bytes>, now: seq<Bytes>, eof: nat, cs: nat, via: seq<nat>, at: nat, src: Bytes, n: nat,
                     id: nat, off: nat, m: nat)
    requires Chained(fat, eof, via) && |now| == |fat| && DataOk(now, cs) && Progress(data, now, cs, via, at, src, n)
    requires id < |via| && off + m <= cs && Pos(id, off, cs) == at + n && n + m <= |src|
    ensures via[id] < |now| && off + m <= |now[via[id]]| && Pos(id, off + m, cs) == at + n + m
    ensures var next := now[via[id] := Splice(now[via[id]], off, src[n..n + m])];
      DataOk(next, cs) && Progress(data, next, cs, via, at, src, n + m)
  {
    assert Unfold(true);
    var cap := Capacity(via, cs);
    var next := now[via[id] := Splice(now[via[id]], off, src[n..n + m])];
    PutHere(fat, now, eof, cs, via, cap, id, off, src[n..n + m], at + n);
    WrittenMore(Contents(now, cs, via, cap), Contents(data, cs, via, cap), at, src, n, m);
    OnlyOnTwice(data, now, next, via);
  }

  /** A round of the write loop: `m` bytes more, inside one cluster. */
  lemma RoundWrites(fat: seq<nat>, data: seq<Bytes>, now: seq<Bytes>, eof: nat, cs: nat, via: seq<nat>, b: nat, at: nat, src: Bytes, n: nat,
                    cluster: nat, id: nat, off: nat, m: nat)
    requires Chained(fat, eof, via) && |now| == |fat| && DataOk(now, cs) && Seated(via, b, cs, cluster, id, off, at + n)
    requires Progress(data, now, cs, via, at, Fitting(src, at, Capacity(via, cs)), n) && off + m <= cs && n + m <= |src|
    ensures cluster < |now| && off + m <= |now[cluster]| && Seated(via, b, cs, cluster, id, off + m, at + n + m)
    ensures var next := now[cluster := Splice(now[cluster], off, src[n..n + m])];
      DataOk(next, cs) && n + m <= |Fitting(src, at, Capacity(via, cs))| && Progress(data, next, cs, via, at, Fitting(src, at, Capacity(via, cs)), n + m)
  {
    assert UnfoldSeat(true);
    RoomLeft(via, cs, id - b, off);
    FittingPart(src, at, Capacity(via, cs), n, m);
    ProgressMore(fat, data, now, eof, cs, via, at, Fitting(src, at, Capacity(via, cs)), n, id - b, off, m);
  }

  /** A write that ends inside a file, as a change of the file. */
  lemma ProgressFile(data: seq<Bytes>, now: seq<Bytes>, cs: nat, ch: seq<nat>, at: nat, src: Bytes, size: nat)
    requires Progress(data, now, cs, ch, at, src, |src|) && Holds(data, cs, ch, size) && DataOk(now, cs) && |now| == |data| && at + |src| <= size
    ensures Holds(now, cs, ch, size) && Contents(now, cs, ch, size) == Splice(Contents(data, cs, ch, size), at, src)
  {
    assert Unfold(true);
    var cap := Capacity(ch, cs);
    NeedFits(size, cs, |ch|);
    WrittenEnds(Contents(now, cs, ch, cap), Contents(data, cs, ch, cap), at, src);
    ContentsPrefix(data, cs, ch, cap, size);
    ContentsPrefix(now, cs, ch, cap, size);
    SpliceShort(Contents(data, cs, ch, cap), at, src, size);
  }

  /** A file about to grow: its chain `ch`, of which clusters 0 to `k` are in use. */
  datatype Origin = Origin(fat: seq<nat>, data: seq<Bytes>, ch: seq<nat>, k: nat, size: nat, eof: nat, cs: nat)

  /** The chain while it grows: the clusters up to the one being filled, and those not yet reached. */
  datatype Growth = Growth(cur: seq<nat>, tail: seq<nat>)

  ghost predicate Growable(o: Origin) {
    && |o.fat| == |o.data| <= o.eof && o.cs > 0 && o.k < |o.ch|
    && forall x | Unfold(x) ::
      Chain(o.fat, o.eof, o.ch) && DataOk(o.data, o.cs) && o.k + 1 == Need(o.size, o.cs)
  }

  ghost function Was(o: Origin): Bytes
    requires Growable(o)
  {
    assert Unfold(true);
    Contents(o.data, o.cs, o.ch, o.size)
  }

  /**
   The state of the growing loop, the table: `cur` is the chain up to the current
   cluster and `tail` what follows it; new clusters came from the free ones.
   */
  ghost predicate GrownTable(o: Origin, fat: seq<nat>, cur: seq<nat>, tail: seq<nat>)
    requires Growable(o)
  {
    && |fat| == |o.fat| && |cur| > 0 && cur[|cur| - 1] < |fat|
    && forall x | Unfold(x) ::
      && (forall c | 0 <= c < |fat| && c !in o.ch && c !in FreeSet(o.fat) :: fat[c] == o.fat[c])
      && Chain(fat, o.eof, cur + tail) && o.k < |cur| && cur[..o.k + 1] == o.ch[..o.k + 1]
      && (forall i | 0 <= i < |cur| :: cur[i] in o.ch || cur[i] in FreeSet(o.fat))
      && (forall i | o.k < i < |cur| :: cur[i] in FreeSet(o.fat))
      && (forall i | o.k < i < |o.ch| :: fat[o.ch[i]] == o.fat[o.ch[i]]) && (|cur| == o.k + 1 ==> fat == o.fat)
      && tail == (if |cur| == o.k + 1 then o.ch[o.k + 1..] else [])
      && FreeSet(fat) <= FreeSet(o.fat) && |FreeSet(fat)| + |cur| - (o.k + 1) == |FreeSet(o.fat)|
  }

  /** The data: the file reads as the old one padded with zeros up to `pos`, which is `off` bytes into the last cluster. */
  ghost predicate GrownData(o: Origin, data: seq<Bytes>, cur: seq<nat>, pos: nat, off: nat)
    requires Growable(o)
  {
    && |data| == |o.data| && |cur| > 0 && cur[|cur| - 1] < |data| && off <= o.cs && pos >= o.size
    && forall x | Unfold(x) ::
      && (forall c | 0 <= c < |data| && c !in o.ch && c !in FreeSet(o.fat) :: data[c] == o.data[c])
      && Pos(|cur| - 1, off, o.cs) == pos
      && Holds(data, o.cs, cur, pos) && Contents(data, o.cs, cur, pos) == Was(o) + Zeros(pos - o.size)
  }

  lemma GrowthStarts(o: Origin, off: nat)
    requires Growable(o) && off <= o.cs && Pos(o.k, off, o.cs) == o.size
    ensures GrownTable(o, o.fat, o.ch[..o.k + 1], o.ch[o.k + 1..])
    ensures GrownData(o, o.data, o.ch[..o.k + 1], o.size, off)
  {
    assert Unfold(true);
    assert o.ch[..o.k + 1] + o.ch[o.k + 1..] == o.ch;
    GrowthStartsData(o, off);
  }

  lemma GrowthStartsData(o: Origin, off: nat)
    requires Growable(o) && off <= o.cs && Pos(o.k, off, o.cs) == o.size
    ensures GrownData(o, o.data, o.ch[..o.k + 1], o.size, off)
  {
    assert Unfold(true);
    ContentsFrame(o.data, o.data, o.cs, o.ch, o.ch[..o.k + 1], o.size);
  }

  /** The chain so far meets no later cluster of the old one, and neither is free. */
  lemma GrowthApart(o: Origin, fat: seq<nat>, cur: seq<nat>, tail: seq<nat>, i: nat, j: nat)
    requires Growable(o) && GrownTable(o, fat, cur, tail) && i < |cur| && o.k < j < |o.ch|
    ensures cur[i] != o.ch[j] && o.ch[j] !in FreeSet(o.fat)
  {
    assert Unfold(true);
    ChainIsUsed(o.fat, o.eof, o.ch);
    assert o.ch[j] in Elems(o.ch);
    if i <= o.k { assert cur[..o.k + 1][i] == o.ch[..o.k + 1][i]; }
  }

  lemma GrowthLinks(o: Origin, fat: seq<nat>, cur: seq<nat>, tail: seq<nat>, next: nat)
    requires Growable(o) && GrownTable(o, fat, cur, tail) && next in FreeSet(fat)
    ensures GrownTable(o, fat[next := o.eof][cur[|cur| - 1] := next], cur + [next], [])
    ensures next !in cur && next in FreeSet(o.fat)
  {
    var fat' := fat[next := o.eof][cur[|cur| - 1] := next];
    GrowthExtends(o, fat, cur, tail, next);
    forall j | o.k < j < |o.ch| ensures cur[|cur| - 1] != o.ch[j] && o.ch[j] !in FreeSet(o.fat) {
      GrowthApart(o, fat, cur, tail, |cur| - 1, j);
    }
    assert Unfold(true);
    assert cur + [next] + [] == cur + [next];
    assert (cur + [next])[..o.k + 1] == cur[..o.k + 1];
    assert cur[|cur| - 1] in o.ch || cur[|cur| - 1] in FreeSet(o.fat);
  }

  lemma GrowthExtends(o: Origin, fat: seq<nat>, cur: seq<nat>, tail: seq<nat>, next: nat)
    requires Growable(o) && GrownTable(o, fat, cur, tail) && next in FreeSet(fat)
    ensures Chain(fat[next := o.eof][cur[|cur| - 1] := next], o.eof, cur + [next]) && next !in cur
    ensures FreeSet(fat[next := o.eof][cur[|cur| - 1] := next]) == FreeSet(fat) - {next}
  {
    assert Unfold(true);
    var ch, k := cur + tail, |cur| - 1;
    assert ch[..k + 1] == cur && ch[k] == cur[k];
    ChainExtend(fat, o.eof, ch, k, next);
    forall i | 0 <= i < |cur| ensures cur[i] != next { assert (cur + [next])[i] == cur[i]; }
  }

  lemma GrowthZeroes(o: Origin, data: seq<Bytes>, cur: seq<nat>, pos: nat, next: nat)
    requires Growable(o) && GrownData(o, data, cur, pos, o.cs) && next in FreeSet(o.fat) && next !in cur
    ensures GrownData(o, data[next := Zeros(o.cs)], cur + [next], pos, 0)
  {
    assert Unfold(true);
    PosNext(|cur| - 1, o.cs);
    ContentsFrame(data, data[next := Zeros(o.cs)], o.cs, cur, cur + [next], pos);
  }

  lemma SpliceZeros(c: Bytes, w: Bytes, m: nat, n: nat)
    requires |c| == |w| + m + n && c[..|w| + m] == w + Zeros(m)
    ensures Splice(c, |w| + m, Zeros(n)) == w + Zeros(m + n)
  {
    assert Zeros(m) + Zeros(n) == Zeros(m + n);
  }

  lemma GrownDistinct(o: Origin, fat: seq<nat>, cur: seq<nat>, tail: seq<nat>)
    requires Growable(o) && GrownTable(o, fat, cur, tail)
    ensures forall i, j | 0 <= i < j < |cur| :: cur[i] != cur[j]
    ensures cur[|cur| - 1] in o.ch || cur[|cur| - 1] in FreeSet(o.fat)
  {
    assert Unfold(true);
    forall i | 0 <= i < |cur| ensures cur[i] == (cur + tail)[i] {}
  }

  /** Zeroing `n` bytes more of the last cluster appends `n` zeros to a file that ends there. */
  lemma FillsLast(data: seq<Bytes>, cs: nat, cur: seq<nat>, pos: nat, off: nat, n: nat, w: Bytes, m: nat)
    requires |cur| > 0 && Holds(data, cs, cur, pos) && Pos(|cur| - 1, off, cs) == pos && off + n <= cs && n > 0
    requires Contents(data, cs, cur, pos) == w + Zeros(m) && forall i, j | 0 <= i < j < |cur| :: cur[i] != cur[j]
    ensures off + n <= |data[cur[|cur| - 1]]| && Pos(|cur| - 1, off + n, cs) == pos + n
    ensures var data' := data[cur[|cur| - 1] := Splice(data[cur[|cur| - 1]], off, Zeros(n))];
      Holds(data', cs, cur, pos + n) && Contents(data', cs, cur, pos + n) == w + Zeros(m + n)
  {
    var k := |cur| - 1;
    var data' := data[cur[k] := Splice(data[cur[k]], off, Zeros(n))];
    PosAdd(k, off, n, cs);
    NeedTight(pos + n, cs, k, off + n);
    NeedMono(pos, pos + n, cs);
    ContentsPut(data, data', cs, cur, pos + n, k, off, Zeros(n), pos);
    ContentsPrefix(data, cs, cur, pos + n, pos);
    SpliceZeros(Contents(data, cs, cur, pos + n), w, m, n);
  }

  lemma GrowthFills(o: Origin, data: seq<Bytes>, cur: seq<nat>, pos: nat, off: nat, n: nat)
    requires Growable(o) && GrownData(o, data, cur, pos, off) && off + n <= o.cs && n > 0
    requires forall i, j | 0 <= i < j < |cur| :: cur[i] != cur[j]
    requires cur[|cur| - 1] in o.ch || cur[|cur| - 1] in FreeSet(o.fat)
    ensures off + n <= |data[cur[|cur| - 1]]|
    ensures GrownData(o, data[cur[|cur| - 1] := Splice(data[cur[|cur| - 1]], off, Zeros(n))], cur, pos + n, off + n)
  {
    assert Unfold(true);
    FillsLast(data, o.cs, cur, pos, off, n, Was(o), pos - o.size);
  }

  function Min(a: nat, b: nat): nat {
    if a < b then a else b
  }

  /** Growing file `o` to `newSize` bytes links a cluster. */
  ghost predicate Links(o: Origin, newSize: nat)
    requires o.cs > 0
  {
    Need(o.size, o.cs) < Need(newSize, o.cs) && FreeSet(o.fat) != {}
  }

  /** The table after the growing loop, whether it filled the file or ran out of free clusters. */
  lemma GrowthCounts(o: Origin, fat: seq<nat>, data: seq<Bytes>, cur: seq<nat>, tail: seq<nat>, end: nat, used: nat, newSize: nat, ok: bool)
    requires Growable(o) && o.size < newSize && GrownTable(o, fat, cur, tail) && GrownData(o, data, cur, end, used)
    requires if ok then end == newSize && used > 0 else Exhausted(fat) && used == o.cs && end < newSize
    ensures ok <==> Need(newSize, o.cs) - Need(o.size, o.cs) <= |FreeSet(o.fat)|
    ensures !Links(o, newSize) ==> cur + tail == o.ch && fat == o.fat
    ensures Links(o, newSize) ==>
      && |cur + tail| == Need(o.size, o.cs) + Min(Need(newSize, o.cs) - Need(o.size, o.cs), |FreeSet(o.fat)|)
      && |FreeSet(fat)| + |cur + tail| == |FreeSet(o.fat)| + Need(o.size, o.cs)
  {
    GrowthUses(o, fat, cur, tail);
    GrowthReaches(o, data, cur, end, used, newSize);
    assert !ok ==> FreeSet(fat) == {} by { assert Unfold(true); }
    NeedMono(o.size, newSize, o.cs);
    assert FreeSet(o.fat) != {} <==> |FreeSet(o.fat)| > 0;
  }

  lemma GrowthUses(o: Origin, fat: seq<nat>, cur: seq<nat>, tail: seq<nat>)
    requires Growable(o) && GrownTable(o, fat, cur, tail)
    ensures Need(o.size, o.cs) <= |cur| && |FreeSet(fat)| + |cur| == |FreeSet(o.fat)| + Need(o.size, o.cs)
    ensures if |cur| == Need(o.size, o.cs) then cur + tail == o.ch && fat == o.fat else tail == []
  {
    assert Unfold(true);
    if |cur| == o.k + 1 { Rejoined(o.ch, o.k + 1, cur, tail); }
  }

  lemma Rejoined(ch: seq<nat>, k: nat, a: seq<nat>, b: seq<nat>)
    requires k <= |ch| && |a| == k && a[..k] == ch[..k] && b == ch[k..]
    ensures a + b == ch
  {
  }

  lemma GrowthReaches(o: Origin, data: seq<Bytes>, cur: seq<nat>, end: nat, used: nat, newSize: nat)
    requires Growable(o) && GrownData(o, data, cur, end, used) && used > 0
    ensures Need(end, o.cs) == |cur|
    ensures used == o.cs && end < newSize ==> |cur| < Need(newSize, o.cs)
  {
    assert Unfold(true);
    NeedTight(end, o.cs, |cur| - 1, used);
    if used == o.cs && end < newSize { NeedPast(newSize, o.cs, |cur| - 1); }
  }

  /** The clusters of the old chain past those in use are linked as before, and no longer in the chain if it was extended. */
  lemma GrowthStrands(o: Origin, fat: seq<nat>, cur: seq<nat>, tail: seq<nat>)
    requires Growable(o) && GrownTable(o, fat, cur, tail)
    ensures forall i | o.k < i < |o.ch| :: o.ch[i] < |fat| && fat[o.ch[i]] == o.fat[o.ch[i]]
    ensures |cur| > o.k + 1 ==> Disjoint(cur + tail, o.ch[o.k + 1..])
  {
    forall i, j | 0 <= i < |cur| && o.k < j < |o.ch| ensures cur[i] != o.ch[j] { GrowthApart(o, fat, cur, tail, i, j); }
    assert Unfold(true);
  }

  /** The chain after the growing loop. */
  lemma GrowthLists(o: Origin, fat: seq<nat>, data: seq<Bytes>, cur: seq<nat>, tail: seq<nat>, end: nat, used: nat)
    requires Growable(o) && GrownTable(o, fat, cur, tail) && GrownData(o, data, cur, end, used)
    ensures Within(o.fat, o.data, fat, data, o.ch) && Chain(fat, o.eof, cur + tail)
    ensures forall i | 0 <= i < |cur + tail| :: (cur + tail)[i] in o.ch || (cur + tail)[i] in FreeSet(o.fat)
    ensures o.k < |cur| && forall i | 0 <= i <= o.k :: (cur + tail)[i] == o.ch[i]
  {
    assert Unfold(true);
    forall i | 0 <= i <= o.k ensures (cur + tail)[i] == o.ch[i] { assert cur[..o.k + 1][i] == o.ch[..o.k + 1][i]; }
  }

  /** The file after the growing loop. */
  lemma GrowthReads(o: Origin, fat: seq<nat>, data: seq<Bytes>, cur: seq<nat>, tail: seq<nat>, end: nat, used: nat)
    requires Growable(o) && GrownTable(o, fat, cur, tail) && GrownData(o, data, cur, end, used) && used > 0
    ensures Holds(data, o.cs, cur + tail, o.size) && Contents(data, o.cs, cur + tail, o.size) == Was(o)
    ensures Holds(data, o.cs, cur + tail, end) && Contents(data, o.cs, cur + tail, end) == Was(o) + Zeros(end - o.size)
  {
    assert Unfold(true);
    NeedMono(o.size, end, o.cs);
    ContentsFrame(data, data, o.cs, cur, cur + tail, end);
    ContentsPrefix(data, o.cs, cur + tail, end, o.size);
  }

  /** The cluster number and offset of a position, as the division by the cluster size gives them. */
  method Split(pos: nat, cs: nat) returns (id: nat, off: nat)
    requires cs > 0
    ensures off < cs && Pos(id, off, cs) == pos
  {
    id, off := pos / cs, pos % cs;
    assert pos == id * cs + off;
    PosIsProduct(id, off, cs);
  }

  /** The last cluster a file of `pos` bytes uses, and how many bytes of it. */
  method LastUsed(pos: nat, cs: nat) returns (id: nat, off: nat)
    requires cs > 0
    ensures id + 1 == Need(pos, cs) && off <= cs && Pos(id, off, cs) == pos && (id > 0 ==> off > 0)
  {
    id, off := Split(pos, cs);
    if id != 0 && off == 0 {
      id, off := id - 1, cs;
      PosNext(id, cs);
    }
    if off > 0 { NeedTight(pos, cs, id, off); }
  }

  predicate UnfoldGrew(x: bool) {
    true
  }

  /** The outcome of growing file `o` to `newSize` bytes, folded: `ch` is its chain afterwards. */
  ghost predicate Grew(o: Origin, fat: seq<nat>, data: seq<Bytes>, ch: seq<nat>, newSize: nat, ok: bool)
    requires Growable(o)
  {
    && (ok <==> Need(newSize, o.cs) - Need(o.size, o.cs) <= |FreeSet(o.fat)|)
    && GrewTable(o, fat, ch, newSize)
    && forall x | UnfoldGrew(x) ::
      && Within(o.fat, o.data, fat, data, o.ch) && Chain(fat, o.eof, ch) && ch[0] == o.ch[0]
      && (forall i | 0 <= i < |ch| :: ch[i] in o.ch || ch[i] in FreeSet(o.fat))
      && var size := if ok then newSize else o.size;
         Holds(data, o.cs, ch, size) && Contents(data, o.cs, ch, size) == Resize(Was(o), size)
  }

  predicate UnfoldWrote(x: bool) {
    true
  }

  datatype Shape = Shape(size: nat, file: Bytes, ch: seq<nat>, fat: seq<nat>)

  /** Growing links a cluster. */
  ghost predicate Linking(was: Shape, cs: nat, newSize: nat)
    requires cs > 0
  {
    newSize <= OFF_MAX && Need(was.size, cs) < Need(newSize, cs) && FreeSet(was.fat) != {}
  }

  /** What resizing makes of a file, its chain and the free clusters, folded; clusters past the old size are lost when one is linked. */
  ghost predicate Resized(was: Shape, now: Shape, cs: nat, newSize: nat, ok: bool)
    requires cs > 0
  {
    forall x | UnfoldWrote(x) ::
      && (ok <==> newSize <= OFF_MAX && Need(newSize, cs) - Need(was.size, cs) <= |FreeSet(was.fat)|)
      && now.size == (if ok then newSize else was.size) && now.file == Resize(was.file, now.size)
      && (if newSize < was.size then |now.ch| == Need(newSize, cs)
          else if Linking(was, cs, newSize) then |now.ch| == Need(was.size, cs) + Min(Need(newSize, cs) - Need(was.size, cs), |FreeSet(was.fat)|)
          else now.ch == was.ch && now.fat == was.fat)
      && var lost := if Linking(was, cs, newSize) then |was.ch| - Need(was.size, cs) else 0;
         |FreeSet(now.fat)| + |now.ch| + lost == |FreeSet(was.fat)| + |was.ch|
  }

  predicate UnfoldGrown(x: bool) {
    true
  }

  predicate UnfoldMade(x: bool) {
    true
  }

  /** What became of the old chain, folded: its clusters in use stay, the others are lost if a cluster was linked. */
  ghost predicate GrewTable(o: Origin, fat: seq<nat>, ch: seq<nat>, newSize: nat)
    requires o.cs > 0
  {
    forall x | UnfoldGrown(x) ::
      && |fat| == |o.fat| && o.k < |ch| && o.k < |o.ch| && (forall i | 0 <= i <= o.k :: ch[i] == o.ch[i])
      && (forall i | o.k < i < |o.ch| :: o.ch[i] < |fat| && fat[o.ch[i]] == o.fat[o.ch[i]])
      && if Links(o, newSize) then
           && |ch| == Need(o.size, o.cs) + Min(Need(newSize, o.cs) - Need(o.size, o.cs), |FreeSet(o.fat)|)
           && |FreeSet(fat)| + |ch| == |FreeSet(o.fat)| + Need(o.size, o.cs) && Disjoint(ch, o.ch[o.k + 1..])
         else ch == o.ch && fat == o.fat
  }

  lemma GrewCounts(o: Origin, fat: seq<nat>, ch: seq<nat>, newSize: nat)
    requires o.cs > 0 && GrewTable(o, fat, ch, newSize)
    ensures if Links(o, newSize) then
        && |ch| == Need(o.size, o.cs) + Min(Need(newSize, o.cs) - Need(o.size, o.cs), |FreeSet(o.fat)|)
        && |FreeSet(fat)| + |ch| == |FreeSet(o.fat)| + Need(o.size, o.cs)
      else ch == o.ch && fat == o.fat
  {
    assert UnfoldGrown(true);
  }

  lemma GrowthEnds(o: Origin, fat: seq<nat>, data: seq<Bytes>, cur: seq<nat>, tail: seq<nat>, end: nat, used: nat, newSize: nat, ok: bool)
    requires Growable(o) && o.size < newSize && GrownTable(o, fat, cur, tail) && GrownData(o, data, cur, end, used)
    requires if ok then end == newSize && used > 0 else Exhausted(fat) && used == o.cs && end < newSize
    ensures Grew(o, fat, data, cur + tail, newSize, ok)
  {
    GrowthCounts(o, fat, data, cur, tail, end, used, newSize, ok);
    GrowthLists(o, fat, data, cur, tail, end, used);
    GrowthReads(o, fat, data, cur, tail, end, used);
    GrowthTable(o, fat, data, cur, tail, end, used, newSize, ok);
  }

  lemma GrowthTable(o: Origin, fat: seq<nat>, data: seq<Bytes>, cur: seq<nat>, tail: seq<nat>, end: nat, used: nat, newSize: nat, ok: bool)
    requires Growable(o) && o.size < newSize && GrownTable(o, fat, cur, tail) && GrownData(o, data, cur, end, used)
    requires if ok then end == newSize && used > 0 else Exhausted(fat) && used == o.cs && end < newSize
    ensures GrewTable(o, fat, cur + tail, newSize)
  {
    GrowthCounts(o, fat, data, cur, tail, end, used, newSize, ok);
    GrowthLists(o, fat, data, cur, tail, end, used);
    GrowthStrands(o, fat, cur, tail);
    if Links(o, newSize) { GrowthLengthens(o, fat, data, cur, tail, end, used, newSize, ok); }
  }

  lemma GrowthLengthens(o: Origin, fat: seq<nat>, data: seq<Bytes>, cur: seq<nat>, tail: seq<nat>, end: nat, used: nat, newSize: nat, ok: bool)
    requires Growable(o) && GrownTable(o, fat, cur, tail) && GrownData(o, data, cur, end, used) && Links(o, newSize)
    requires if ok then end == newSize && used > 0 else Exhausted(fat) && used == o.cs && end < newSize
    ensures |cur| > o.k + 1
  {
    GrowthUses(o, fat, cur, tail);
    GrowthReaches(o, data, cur, end, used, newSize);
    assert Unfold(true);
  }

  /** A place in the old chain is a place in the new one exactly when it was in use or nothing was linked. */
  lemma GrewCursor(o: Origin, fat: seq<nat>, ch: seq<nat>, newSize: nat, id: nat)
    requires o.cs > 0 && GrewTable(o, fat, ch, newSize) && id < |o.ch|
    ensures id < |ch| && ch[id] == o.ch[id] <==> !Links(o, newSize) || id <= o.k
  {
    assert UnfoldGrown(true);
    if o.k < id { assert o.ch[o.k + 1..][id - (o.k + 1)] == o.ch[id]; }
  }

  /** Otherwise it is in a chain of its own, which no file has. */
  lemma GrewStrands(o: Origin, fat: seq<nat>, ch: seq<nat>, newSize: nat, id: nat)
    requires o.cs > 0 && GrewTable(o, fat, ch, newSize) && Links(o, newSize) && o.k < id < |o.ch| && Chained(o.fat, o.eof, o.ch)
    ensures Chained(fat, o.eof, o.ch[id..]) && Disjoint(ch, o.ch[id..])
  {
    assert Unfold(true);
    assert UnfoldGrown(true);
    StrandedChain(o.fat, fat, o.eof, o.ch, id);
    DisjointTail(ch, o.ch, o.k + 1, id);
  }

  lemma StrandedChain(fat: seq<nat>, fat': seq<nat>, eof: nat, ch: seq<nat>, id: nat)
    requires Chain(fat, eof, ch) && |fat'| == |fat| && id < |ch| && forall i | id <= i < |ch| :: fat'[ch[i]] == fat[ch[i]]
    ensures Chain(fat', eof, ch[id..])
  {
    var t := ch[id..];
    forall i | 0 <= i < |t| ensures t[i] == ch[id + i] {}
  }

  lemma DisjointTail(a: seq<nat>, ch: seq<nat>, k: nat, id: nat)
    requires k <= id <= |ch| && Disjoint(a, ch[k..])
    ensures Disjoint(a, ch[id..])
  {
    forall i | 0 <= i < |ch[id..]| ensures ch[id..][i] == ch[k..][id - k + i] {}
  }

  function Elems(s: seq<nat>): set<nat> {
    set c | c in s
  }

  /** The table with chain `ch` ended after position `k` and the rest of it freed. */
  ghost predicate CutAfter(fat: seq<nat>, fat': seq<nat>, eof: nat, ch: seq<nat>, k: nat)
    requires k < |ch|
  {
    && |fat'| == |fat|
    && forall c | 0 <= c < |fat| :: fat'[c] == if c == ch[k] then eof else if c in ch[k + 1..] then 0 else fat[c]
  }

  lemma {:induction false} ElemsCount(s: seq<nat>)
    requires forall i, j | 0 <= i < j < |s| :: s[i] != s[j]
    ensures |Elems(s)| == |s|
  {
    if s != [] {
      var n := |s| - 1;
      ElemsCount(s[..n]);
      assert Elems(s) == Elems(s[..n]) + {s[n]};
    }
  }

  function Below(n: nat): (s: set<nat>)
    ensures |s| == n && forall c: nat :: c in s <==> c < n
  {
    if n == 0 then {} else Below(n - 1) + {n - 1}
  }

  /** A chain has no more clusters than the table has entries. */
  lemma ChainFits(fat: seq<nat>, eof: nat, ch: seq<nat>)
    requires Chain(fat, eof, ch)
    ensures |ch| <= |fat|
  {
    ElemsCount(ch);
    SubsetCount(Elems(ch), Below(|fat|));
  }

  lemma SubsetCount(a: set<nat>, b: set<nat>)
    requires a <= b
    ensures |a| <= |b|
  {
    assert b == a + (b - a);
  }

  lemma CutChain(fat: seq<nat>, fat': seq<nat>, eof: nat, ch: seq<nat>, k: nat)
    requires Chain(fat, eof, ch) && eof > 0 && k < |ch| && CutAfter(fat, fat', eof, ch, k)
    ensures Chain(fat', eof, ch[..k + 1])
    ensures forall c | 0 <= c < |fat| && c !in ch :: fat'[c] == fat[c]
  {
    forall i | 0 <= i <= k ensures ch[i] !in ch[k + 1..] {}
  }

  lemma ChainIsUsed(fat: seq<nat>, eof: nat, ch: seq<nat>)
    requires Chain(fat, eof, ch) && eof > 0
    ensures FreeSet(fat) !! Elems(ch)
  {
    forall i | 0 <= i < |ch| ensures ch[i] !in FreeSet(fat) {
      assert fat[ch[i]] == if i + 1 < |ch| then ch[i + 1] else eof;
    }
  }

  /** Cutting a chain frees exactly the clusters cut off. */
  lemma CutFrees(fat: seq<nat>, fat': seq<nat>, eof: nat, ch: seq<nat>, k: nat)
    requires Chain(fat, eof, ch) && eof > 0 && k < |ch| && CutAfter(fat, fat', eof, ch, k)
    ensures FreeSet(fat') == FreeSet(fat) + Elems(ch[k + 1..]) && FreeSet(fat) !! Elems(ch[k + 1..])
  {
    forall i | 0 <= i < |ch| ensures ch[i] !in FreeSet(fat) {
      assert fat[ch[i]] == if i + 1 < |ch| then ch[i + 1] else eof;
    }
    var tail := ch[k + 1..];
    forall i | 0 <= i < |tail| ensures tail[i] != ch[k] && 2 <= tail[i] < |fat| { assert tail[i] == ch[k + 1 + i]; }
  }

  lemma CutCounts(fat: seq<nat>, fat': seq<nat>, eof: nat, ch: seq<nat>, k: nat)
    requires Chain(fat, eof, ch) && eof > 0 && k < |ch| && CutAfter(fat, fat', eof, ch, k)
    ensures |FreeSet(fat')| == |FreeSet(fat)| + |ch| - (k + 1)
  {
    CutFrees(fat, fat', eof, ch, k);
    ElemsCount(ch[k + 1..]);
    DisjointCount(FreeSet(fat), Elems(ch[k + 1..]));
  }

  /** What cutting a file down to `newSize` bytes and the clusters `ch` leaves. */
  ghost predicate Shrunk(o: Origin, fat: seq<nat>, ch: seq<nat>, newSize: nat) {
    && Within(o.fat, o.data, fat, o.data, o.ch) && Chain(fat, o.eof, ch) && |ch| == o.k + 1 <= |o.ch|
    && (forall i | 0 <= i < |ch| :: ch[i] == o.ch[i])
    && |FreeSet(fat)| == |FreeSet(o.fat)| + |o.ch| - |ch|
    && Holds(o.data, o.cs, ch, newSize) && Holds(o.data, o.cs, o.ch, o.size)
    && Contents(o.data, o.cs, ch, newSize) == Resize(Contents(o.data, o.cs, o.ch, o.size), newSize)
  }

  lemma ShrinkReads(data: seq<Bytes>, cs: nat, ch: seq<nat>, ch': seq<nat>, size: nat, newSize: nat)
    requires Holds(data, cs, ch, size) && newSize <= size && |ch'| == Need(newSize, cs) <= |ch|
    requires forall i | 0 <= i < |ch'| :: ch'[i] == ch[i]
    ensures Holds(data, cs, ch', newSize) && Contents(data, cs, ch', newSize) == Contents(data, cs, ch, size)[..newSize]
  {
    ContentsFrame(data, data, cs, ch, ch', newSize);
    ContentsPrefix(data, cs, ch, size, newSize);
  }

  lemma Shrinks(o: Origin, fat: seq<nat>, newSize: nat)
    requires |o.fat| == |o.data| <= o.eof && o.cs > 0 && o.k < |o.ch| && o.eof > 0 && newSize <= o.size
    requires Chain(o.fat, o.eof, o.ch) && CutAfter(o.fat, fat, o.eof, o.ch, o.k)
    requires o.k + 1 == Need(newSize, o.cs) && Holds(o.data, o.cs, o.ch, o.size)
    ensures Shrunk(o, fat, o.ch[..o.k + 1], newSize)
  {
    CutChain(o.fat, fat, o.eof, o.ch, o.k);
    CutCounts(o.fat, fat, o.eof, o.ch, o.k);
    ShrinkReads(o.data, o.cs, o.ch, o.ch[..o.k + 1], o.size, newSize);
  }

  lemma DisjointCount(a: set<nat>, b: set<nat>)
    requires a !! b
    ensures |a + b| == |a| + |b|
  {
  }

  /** What a stretch of one cluster holds of the file. */
  lemma {:induction false} ContentsGet(data: seq<Bytes>, cs: nat, ch: seq<nat>, size: nat, k: nat, o: nat, n: nat, at: nat)
    requires Holds(data, cs, ch, size) && k < |ch| && o + n <= cs && at == Pos(k, o, cs) && at + n <= size
    ensures Contents(data, cs, ch, size)[at..at + n] == data[ch[k]][o..o + n]
    decreases k
  {
    if k > 0 { ContentsGet(data, cs, ch[1..], size - cs, k - 1, o, n, at - cs); }
  }

  /** `all` are the bytes along chain `via`, folded. */
  ghost predicate Along(data: seq<Bytes>, cs: nat, via: seq<nat>, all: Bytes) {
    |all| == Capacity(via, cs)
    && forall x | Unfold(x) :: Holds(data, cs, via, Capacity(via, cs)) && all == Contents(data, cs, via, Capacity(via, cs))
  }

  /** A file is the front of its chain. */
  lemma AlongFile(data: seq<Bytes>, cs: nat, via: seq<nat>, all: Bytes, size: nat, at: nat, n: nat)
    requires Along(data, cs, via, all) && Holds(data, cs, via, size) && at + n <= size <= Capacity(via, cs)
    ensures Contents(data, cs, via, size)[at..at + n] == all[at..at + n]
  {
    assert Unfold(true);
    ContentsPrefix(data, cs, via, Capacity(via, cs), size);
  }

  lemma AlongGet(data: seq<Bytes>, cs: nat, via: seq<nat>, all: Bytes, b: nat, cluster: nat, id: nat, off: nat, n: nat, at: nat)
    requires Along(data, cs, via, all) && Seated(via, b, cs, cluster, id, off, at) && off + n <= cs
    ensures at + n <= |all| && cluster < |data| && off + n <= |data[cluster]| && all[at..at + n] == data[cluster][off..off + n]
    ensures Seated(via, b, cs, cluster, id, off + n, at + n)
  {
    assert UnfoldSeat(true);
    assert Unfold(true);
    RoomLeft(via, cs, id - b, off);
    ContentsGet(data, cs, via, Capacity(via, cs), id - b, off, n, at);
    PosAdd(id - b, off, n, cs);
  }
}

/**
 Regular files on a FAT volume: the allocator, the seek cursor, and reading,
 writing, resizing and deleting.  `chains` names the chain of every file; the
 table may hold other chains and lost clusters beside them.
 */
module FatFile {
  import opened Sequences
  import opened FatChain

  /** Unfolds Volume.Valid in a proof; see Unfold. */
  predicate UnfoldGrow(x: bool) {
    true
  }

  predicate UnfoldRead(x: bool) {
    true
  }

  predicate UnfoldRoll(x: bool) {
    true
  }

  predicate UnfoldFiles(x: bool) {
    true
  }

  /** The chains share no cluster with `ch`, folded. */
  ghost predicate AllApart(chains: map<Inode, seq<nat>>, ch: seq<nat>) {
    forall x | UnfoldFiles(x) :: forall g | g in chains :: Disjoint(chains[g], ch)
  }

  predicate UnfoldSame(x: bool) {
    true
  }

  const NO_CURSOR := 0xFFFF_FFFF

  class Volume {
    const clusters: nat
    const bps: nat
    const spc: nat
    const cs: nat
    const eio: nat
    const eof: nat
    var fat: seq<nat>
    var data: seq<Bytes>
    var freeSearch: nat
    var freeCount: nat
    ghost var chains: map<Inode, seq<nat>>

    /** What the checks at mount establish. */
    ghost predicate Geometry() {
      0 < clusters && 2 + clusters <= eio < eof < NO_CURSOR && 512 <= bps <= cs && Sectored(cs, bps, spc)
    }

    ghost predicate TableOk()
      reads this
    {
      Geometry() && |fat| == |data| == 2 + clusters && DataOk(data, cs)
    }

    ghost predicate FileOk(f: Inode)
      requires Geometry() && f in chains
      reads this, f`size
    {
      && f.fs == this && Chain(fat, eof, chains[f]) && chains[f][0] == f.first
      && f.size <= OFF_MAX && Need(f.size, cs) <= |chains[f]|
    }

    ghost predicate Apart(f: Inode, g: Inode)
      requires f in chains && g in chains
      reads this
    {
      Disjoint(chains[f], chains[g])
    }

    ghost predicate Valid()
      reads this, chains.Keys`size
    {
      && TableOk()
      && forall x | UnfoldFiles(x) ::
        && (forall f {:trigger FileOk(f)} | f in chains :: FileOk(f))
        && (forall f, g {:trigger Apart(f, g)} | f in chains && g in chains && f != g :: Apart(f, g))
    }

    /** The bytes of file `f`. */
    ghost function File(f: Inode): Bytes
      requires Valid() && f in chains
      reads this, chains.Keys`size
    {
      assert UnfoldFiles(true);
      assert FileOk(f);
      Contents(data, cs, chains[f], f.size)
    }

    /** `b` are the bytes of file `f`, folded. */
    ghost predicate Reads(f: Inode, b: Bytes)
      requires Valid() && f in chains
      reads this, chains.Keys`size
    {
      forall x | Unfold(x) :: b == File(f)
    }

    /** An operation on `f` that stays within f's clusters and free ones disturbs no other file. */
    twostate lemma OthersKept(f: Inode)
      requires old(Valid()) && f in old(chains) && TableOk() && chains.Keys == old(chains.Keys) && FileOk(f)
      requires forall g | g in chains && g != f :: chains[g] == old(chains)[g] && g.size == old(g.size)
      requires forall i | 0 <= i < |chains[f]| :: chains[f][i] in old(chains[f]) || chains[f][i] in old(FreeSet(fat))
      requires Within(old(fat), old(data), fat, data, old(chains[f]))
      ensures Valid()
      ensures forall g | g in chains && g != f :: File(g) == old(File(g))
    {
      assert UnfoldFiles(true);
      forall g | g in chains && g != f ensures FileOk(g) && Apart(f, g) && Apart(g, f) {
        assert old(FileOk(g)) && old(Apart(f, g));
        OtherChainKept(old(fat), old(data), fat, data, eof, cs, old(chains[f]), chains[f], chains[g], g.size);
      }
      forall g, h | g in chains && h in chains && g != h ensures Apart(g, h) {
        if g != f && h != f { assert old(Apart(g, h)); }
      }
      forall g | g in chains && g != f ensures File(g) == old(File(g)) {
        assert old(FileOk(g)) && old(Apart(f, g));
        OtherChainKept(old(fat), old(data), fat, data, eof, cs, old(chains[f]), chains[f], chains[g], g.size);
      }
    }

    /** So does one that removes `f` and frees its clusters. */
    twostate lemma OthersKeptWithout(f: Inode)
      requires old(Valid()) && f in old(chains) && TableOk() && chains == old(chains) - {f}
      requires forall g | g in chains :: unchanged(g)
      requires Within(old(fat), old(data), fat, data, old(chains[f]))
      ensures Valid()
      ensures forall g | g in chains :: File(g) == old(File(g))
    {
      assert UnfoldFiles(true);
      forall g | g in chains ensures FileOk(g) {
        assert old(FileOk(g)) && old(Apart(f, g));
        OtherChainKept(old(fat), old(data), fat, data, eof, cs, old(chains[f]), old(chains[f]), chains[g], g.size);
      }
      forall g, h | g in chains && h in chains && g != h ensures Apart(g, h) { assert old(Apart(g, h)); }
      forall g | g in chains ensures File(g) == old(File(g)) {
        assert old(FileOk(g)) && old(Apart(f, g));
        OtherChainKept(old(fat), old(data), fat, data, eof, cs, old(chains[f]), old(chains[f]), chains[g], g.size);
      }
    }

    /** And one that adds `f` on a free cluster. */
    twostate lemma OthersKeptWith(new f: Inode, c: nat)
      requires old(Valid()) && f !in old(chains) && TableOk() && chains == old(chains)[f := [c]] && FileOk(f)
      requires c in old(FreeSet(fat)) && forall g | g in old(chains) :: unchanged(g)
      requires forall d | 0 <= d < |fat| && d != c :: fat[d] == old(fat)[d] && data[d] == old(data)[d]
      ensures Valid()
      ensures forall g | g in old(chains) :: File(g) == old(File(g))
    {
      assert UnfoldFiles(true);
      forall g | g in old(chains) ensures FileOk(g) && Apart(f, g) && Apart(g, f) {
        assert old(FileOk(g));
        OtherChainKept(old(fat), old(data), fat, data, eof, cs, [], [c], chains[g], g.size);
      }
      forall g, h | g in chains && h in chains && g != h ensures Apart(g, h) {
        if g != f && h != f { assert old(Apart(g, h)); }
      }
      forall g | g in old(chains) ensures File(g) == old(File(g)) {
        assert old(FileOk(g));
        OtherChainKept(old(fat), old(data), fat, data, eof, cs, [], [c], chains[g], g.size);
      }
    }

    /** A chain that no file has. */
    ghost predicate Lost(t: seq<nat>)
      reads this
    {
      |t| > 0 && forall x | UnfoldFiles(x) :: Chain(fat, eof, t) && forall g | g in chains :: Disjoint(chains[g], t)
    }

    /** An operation on `f` that stays within f's clusters and free ones leaves a lost chain alone. */
    twostate lemma LostKept(f: Inode, new t: seq<nat>)
      requires old(Valid()) && f in old(chains) && Valid() && f in chains && chains == old(chains)[f := chains[f]] && old(Lost(t))
      requires forall i | 0 <= i < |chains[f]| :: chains[f][i] in old(chains[f]) || chains[f][i] in old(FreeSet(fat))
      requires Within(old(fat), old(data), fat, data, old(chains[f]))
      ensures Lost(t)
    {
      assert UnfoldFiles(true);
      OtherChainKept(old(fat), old(data), fat, data, eof, cs, old(chains[f]), chains[f], t, 0);
      forall g | g in chains ensures Disjoint(chains[g], t) { assert g != f ==> Disjoint(old(chains)[g], t); }
    }

    /**
     An operation that stays within the clusters of a lost chain and free ones changes no
     file, except that `f` may get another size, for which it may then be too short.
     */
    twostate lemma AllKeptBy(f: Inode, new t: seq<nat>)
      requires old(Valid()) && f in old(chains) && TableOk() && chains == old(chains) && old(Lost(t))
      requires Within(old(fat), old(data), fat, data, t)
      requires forall g | g in chains && g != f :: g.size == old(g.size)
      ensures Valid() <==> f.size <= OFF_MAX && Need(f.size, cs) <= |chains[f]|
      ensures Valid() ==> forall g | g in chains && g != f :: File(g) == old(File(g))
      ensures Valid() ==> |File(f)| == f.size && |old(File(f))| == old(f.size)
      ensures Valid() ==> var n := Min(f.size, old(f.size)); File(f)[..n] == old(File(f))[..n]
    {
      assert UnfoldFiles(true);
      forall g | g in chains ensures Chain(fat, eof, chains[g]) && Holds(data, cs, chains[g], old(g.size))
        && Contents(data, cs, chains[g], old(g.size)) == Contents(old(data), cs, chains[g], old(g.size))
      {
        assert old(FileOk(g));
        OtherChainKept(old(fat), old(data), fat, data, eof, cs, t, [], chains[g], old(g.size));
      }
      forall g | g in chains && g != f ensures FileOk(g) { assert old(FileOk(g)); }
      forall g, h | g in chains && h in chains && g != h ensures Apart(g, h) { assert old(Apart(g, h)); }
      assert old(FileOk(f));
      if Valid() {
        assert FileOk(f);
        if old(f.size) <= f.size { ContentsPrefix(data, cs, chains[f], f.size, old(f.size)); }
        else { ContentsPrefix(data, cs, chains[f], old(f.size), f.size); }
      }
    }

    /** The rest of a lost chain is lost. */
    lemma LostRest(t: seq<nat>, j: nat)
      requires TableOk() && Lost(t) && j < |t|
      ensures Lost(t[j..]) && t[j..][0] == t[j] && Chain(fat, eof, t[j..])
    {
      assert UnfoldFiles(true);
      StrandedChain(fat, fat, eof, t, j);
      forall g | g in chains ensures Disjoint(chains[g], t[j..]) { assert t[0..] == t; DisjointTail(chains[g], t, 0, j); }
    }

    /** The bytes along a chain. */
    ghost function OnChain(t: seq<nat>): (all: Bytes)
      requires TableOk() && Chained(fat, eof, t)
      ensures Along(data, cs, t, all)
      reads this
    {
      assert Unfold(true);
      CapacityHolds(fat, data, eof, cs, t);
      Contents(data, cs, t, Capacity(t, cs))
    }

    /** The bytes of a lost one. */
    ghost function Trail(t: seq<nat>): Bytes
      requires TableOk() && Lost(t)
      reads this
    {
      assert UnfoldFiles(true);
      OnChain(t)
    }

    /** The end of a chain that the files other than `f` are apart from, when `f` is apart from it too. */
    lemma LostTail(f: Inode, ch: seq<nat>, j: nat)
      requires f in chains && j < |ch| && Chained(fat, eof, ch[j..]) && Disjoint(chains[f], ch[j..]) && AllApart(chains - {f}, ch)
      ensures Lost(ch[j..])
    {
      assert Unfold(true) && UnfoldFiles(true);
      forall g | g in chains ensures Disjoint(chains[g], ch[j..]) {
        if g != f { assert g in chains - {f} && ch[0..] == ch; DisjointTail(chains[g], ch, 0, j); }
      }
    }

    /** Data changed only on such a chain, no file changes. */
    twostate lemma AllKept(t: seq<nat>)
      requires old(Valid()) && old(Lost(t)) && TableOk() && fat == old(fat) && chains == old(chains)
      requires forall g | g in chains :: g.size == old(g.size)
      requires OnlyOn(old(data), data, t)
      ensures Valid()
      ensures forall g | g in chains :: File(g) == old(File(g))
    {
      assert UnfoldFiles(true);
      assert Unfold(true);
      forall g | g in chains ensures FileOk(g) { assert old(FileOk(g)); }
      forall g, h | g in chains && h in chains && g != h ensures Apart(g, h) { assert old(Apart(g, h)); }
      forall g | g in chains ensures File(g) == old(File(g)) {
        assert old(FileOk(g));
        ContentsFrame(old(data), data, cs, chains[g], chains[g], g.size);
      }
    }

    /** A mounted volume with no file open yet. */
    constructor (clusters: nat, bps: nat, spc: nat, eio: nat, eof: nat, fat: seq<nat>, data: seq<Bytes>)
      requires 0 < clusters && 2 + clusters <= eio < eof <= 0xFFF_FFFF && 512 <= bps && spc > 0
      requires |fat| == |data| == 2 + clusters && DataOk(data, Pos(spc, 0, bps))
      ensures Valid() && this.fat == fat && this.data == data && chains == map[] && cs == Pos(spc, 0, bps)
    {
      this.clusters, this.bps, this.spc, this.cs, this.eio, this.eof := clusters, bps, spc, Pos(spc, 0, bps), eio, eof;
      this.fat, this.data, freeSearch, freeCount, chains := fat, data, 0, 0xFFFF_FFFF, map[];
    }

    /** The cluster part of Inode::Open with O_CREAT: a new empty file, exactly when a cluster is free. */
    method Create() returns (f: Inode?)
      requires Valid()
      modifies this
      ensures f == null <==> old(FreeSet(fat)) == {}
      ensures f == null ==> Valid() && chains == old(chains) && fat == old(fat) && data == old(data)
      ensures f != null ==>
        && fresh(f) && f.fs == this && Valid() && chains == old(chains)[f := [f.first]] && f.CursorOk() && File(f) == []
        && f.first in old(FreeSet(fat)) && FreeSet(fat) == old(FreeSet(fat)) - {f.first}
        && forall g | g in old(chains) :: g.size == old(g.size) && File(g) == old(File(g))
    {
      f := null;
      var n := AllocateCluster();
      if n == 0 {
        assert UnfoldFiles(true);
        forall g | g in chains ensures FileOk(g) { assert old(FileOk(g)); }
        forall g, h | g in chains && h in chains && g != h ensures Apart(g, h) { assert old(Apart(g, h)); }
        return;
      }
      f := new Inode(this, n);
      data := data[n := Zeros(cs)];
      fat := fat[n := eof];
      chains := chains[f := [n]];
      OthersKeptWith(f, n);
    }

    /** A file that is on the volume already: its directory entry says where it begins and how long it is. */
    method Open(first: nat, size: nat, ghost ch: seq<nat>) returns (f: Inode)
      requires Valid() && Chain(fat, eof, ch) && ch[0] == first && size <= OFF_MAX && Need(size, cs) <= |ch|
      requires forall g | g in chains :: Disjoint(chains[g], ch)
      modifies this`chains
      ensures fresh(f) && f.fs == this && Valid() && chains == old(chains)[f := ch] && f.CursorOk()
      ensures Holds(data, cs, ch, size) && File(f) == Contents(data, cs, ch, size)
      ensures forall g | g in old(chains) :: File(g) == old(File(g))
    {
      f := new Inode(this, first);
      f.size := size;
      chains := chains[f := ch];
      assert UnfoldFiles(true);
      forall g | g in chains ensures FileOk(g) { assert g != f ==> old(FileOk(g)); }
      forall g, h | g in chains && h in chains && g != h ensures Apart(g, h) {
        if g != f && h != f { assert old(Apart(g, h)); }
      }
      forall g | g in old(chains) ensures File(g) == old(File(g)) { assert old(FileOk(g)); }
    }

    /** Filesystem::AllocateCluster: finds a free cluster exactly when there is one. */
    method AllocateCluster() returns (n: nat)
      requires TableOk()
      modifies this`freeSearch
      ensures n == 0 <==> FreeSet(fat) == {}
      ensures n != 0 ==> n in FreeSet(fat)
    {
      for i := 0 to clusters
        invariant freeSearch == old(freeSearch)
        invariant forall j: nat | j < i :: fat[Probe(freeSearch, j, clusters)] != 0
      {
        n := Probe(freeSearch, i, clusters);
        if fat[n] == 0 {
          freeSearch := (i + 1) % clusters;
          assert n in FreeSet(fat);
          return;
        }
      }
      n := 0;
      forall c | 2 <= c < |fat| ensures fat[c] != 0 { ProbesReach(freeSearch, clusters, c); }
    }

    /** Filesystem::FreeCluster: the hint and the advisory count. */
    method FreeCluster(cluster: nat)
      modifies this`freeSearch, this`freeCount
      ensures freeSearch == if old(freeCount) == 0 || old(freeSearch) == cluster + 1 then cluster else old(freeSearch)
      ensures freeCount == if old(freeCount) < clusters then old(freeCount) + 1 else old(freeCount)
    {
      if freeCount == 0 || freeSearch == cluster + 1 { freeSearch := cluster; }
      if freeCount < clusters { freeCount := freeCount + 1; }
    }
  }

  /** A write of `src` from position `at` of chain `via` on, and where data and cursor were before it. */
  datatype Write = Write(via: seq<nat>, b: nat, data: seq<Bytes>, at: nat, src: Bytes, number: nat, offset: nat, cursor: nat, on: nat)

  /** A read from position `at` of chain `via` on, whose bytes are `all`, and where the cursor was before it. */
  datatype Read = Read(via: seq<nat>, b: nat, all: Bytes, at: nat, number: nat, offset: nat, cursor: nat, on: nat)

  class Inode {
    const fs: Volume
    const first: nat
    var size: nat
    var cachedId: nat
    var cachedCluster: nat

    constructor (fs: Volume, first: nat)
      ensures this.fs == fs && this.first == first && size == 0 && cachedId == NO_CURSOR
    {
      this.fs, this.first, size, cachedId, cachedCluster := fs, first, 0, NO_CURSOR, NO_CURSOR;
    }

    ghost function Ch(): seq<nat>
      requires this in fs.chains
      reads this, fs
    {
      fs.chains[this]
    }

    /** The cursor is unset or on the chain of the file. */
    ghost predicate CursorOk()
      requires this in fs.chains
      reads this, fs
    {
      cachedId == NO_CURSOR || (cachedId < |Ch()| && Ch()[cachedId] == cachedCluster)
    }

    /** A seek to cluster number `id` starts on chain `via`, whose first cluster counts as number `b`. */
    ghost predicate Starts(id: nat, via: seq<nat>, b: nat)
      reads this
    {
      if cachedId != NO_CURSOR && cachedId <= id then b <= cachedId < b + |via| && via[cachedId - b] == cachedCluster
      else b == 0 && |via| > 0 && via[0] == first
    }

    /** Inode::SeekCluster: what a walk along the chain it starts on gives; from a cursor on the file's chain, that is a walk from the first cluster. */
    method SeekCluster(id: nat, ghost via: seq<nat>, ghost b: nat) returns (c: nat)
      requires fs.TableOk() && Chained(fs.fat, fs.eof, via) && b <= id < NO_CURSOR && Starts(id, via, b)
      modifies this`cachedId, this`cachedCluster
      ensures c == Walk(fs.fat, via[0], Min(id - b, |via|))
      ensures c == if id - b < |via| then via[id - b] else fs.eof
      ensures fs.eio <= c <==> b + |via| <= id
      ensures if 0 < id < b + |via| then cachedId == id && cachedCluster == c
              else cachedId == old(cachedId) && cachedCluster == old(cachedCluster)
    {
      assert Unfold(true);
      WalkFollowsChain(fs.fat, fs.eof, via, Min(id - b, |via|));
      var eio: nat := fs.eio;
      var left: nat := id;
      c := first;
      if cachedId != NO_CURSOR && cachedId <= left {
        left := left - cachedId;
        c := cachedCluster;
      }
      while left != 0
        invariant left <= id && b <= id - left < b + |via| && c == via[id - left - b]
        decreases left
      {
        left := left - 1;
        c := fs.fat[c];
        assert c == if id - left - b < |via| then via[id - left - b] else fs.eof;
        if c < 2 || c == eio { return eio; }
        if eio < c { return; }
      }
      if 0 < id { cachedId, cachedCluster := id, c; }
    }

    /** Inode::FreeClusters: the chain now ends in `cluster`, and every later cluster is free. */
    method FreeClusters(cluster: nat, ghost ch: seq<nat>, ghost k: nat) returns (ok: bool)
      requires fs.TableOk() && Chain(fs.fat, fs.eof, ch) && k < |ch| && ch[k] == cluster
      modifies fs`fat, fs`freeSearch, fs`freeCount
      ensures ok && CutAfter(old(fs.fat), fs.fat, fs.eof, ch, k)
    {
      var at, marker := cluster, fs.eof;
      ghost var i := k;
      while true
        invariant k <= i < |ch| && at == ch[i] && marker == (if i == k then fs.eof else 0)
        invariant |fs.fat| == |old(fs.fat)|
        invariant forall j | i <= j < |ch| :: fs.fat[ch[j]] == old(fs.fat)[ch[j]]
        invariant i > k ==> fs.fat[cluster] == fs.eof
        invariant forall j | k < j < i :: fs.fat[ch[j]] == 0
        invariant forall c | 0 <= c < |fs.fat| && c !in ch[k..] :: fs.fat[c] == old(fs.fat[c])
        decreases |ch| - i
      {
        var next := fs.fat[at];
        assert next == if i + 1 < |ch| then ch[i + 1] else fs.eof;
        if next < 2 || next == fs.eio { return false; }
        if next != marker {
          fs.fat := fs.fat[at := marker];
          fs.FreeCluster(next);
        }
        if fs.eof <= next { break; }
        at, marker, i := next, 0, i + 1;
      }
      ok := true;
    }

    /** Inode::Delete: exactly the clusters of the file become free, and every other file keeps its bytes. */
    method Delete()
      requires fs.Valid() && this in fs.chains
      modifies fs
      ensures fs.Valid() && fs.chains == old(fs.chains) - {this}
      ensures FreeSet(fs.fat) == old(FreeSet(fs.fat)) + Elems(old(Ch())) && old(FreeSet(fs.fat)) !! Elems(old(Ch()))
      ensures forall g | g in fs.chains :: fs.File(g) == old(fs.File(g))
    {
      assert UnfoldFiles(true);
      assert fs.FileOk(this);
      ghost var ch := Ch();
      ClearChain(ch);
      ChainIsUsed(old(fs.fat), fs.eof, ch);
      fs.chains := fs.chains - {this};
      fs.OthersKeptWithout(this);
    }

    method ClearChain(ghost ch: seq<nat>)
      requires fs.TableOk() && Chain(fs.fat, fs.eof, ch) && ch[0] == first
      modifies fs`fat, fs`freeSearch, fs`freeCount
      ensures |fs.fat| == |old(fs.fat)|
      ensures forall c | 0 <= c < |fs.fat| :: fs.fat[c] == if c in ch then 0 else old(fs.fat)[c]
    {
      var cluster := first;
      ghost var i := 0;
      while true
        invariant 0 <= i <= |ch| && cluster == if i < |ch| then ch[i] else fs.eof
        invariant |fs.fat| == |old(fs.fat)|
        invariant forall c | 0 <= c < |fs.fat| :: fs.fat[c] == if c in ch[..i] then 0 else old(fs.fat)[c]
        decreases |ch| - i
      {
        if cluster < 2 || fs.eio <= cluster { break; }
        var next := fs.fat[cluster];
        assert next == if i + 1 < |ch| then ch[i + 1] else fs.eof;
        if next < 2 || next == fs.eio { break; }
        fs.fat := fs.fat[cluster := 0];
        fs.FreeCluster(cluster);
        assert ch[..i + 1] == ch[..i] + [cluster];
        cluster, i := next, i + 1;
      }
      assert i == |ch| && ch[..i] == ch;
    }

    /**
     The growing loop is `off` bytes into `cluster`, the last of `g.cur`, at file
     position `pos`; it stopped early (`!ok`) at the end of a cluster for want of a free one.
     */
    ghost predicate GrowsAt(o: Origin, g: Growth, newSize: nat, pos: nat, cluster: nat, off: nat, ok: bool)
      reads fs
    {
      forall x | UnfoldGrow(x) ::
        && Growable(o) && fs.TableOk() && o.eof == fs.eof && o.cs == fs.cs
        && GrownTable(o, fs.fat, g.cur, g.tail) && GrownData(o, fs.data, g.cur, pos, off) && cluster == g.cur[|g.cur| - 1]
        && if ok then pos == newSize ==> off > 0 else Exhausted(fs.fat) && off == o.cs && pos < newSize
    }

    /** Allocate, zero and link one more cluster at the end of the last one. */
    method Append(left: nat, cluster: nat, ghost newSize: nat, ghost o: Origin, ghost g: Growth) returns (next: nat, ghost g': Growth)
      requires 0 < left <= newSize && GrowsAt(o, g, newSize, newSize - left, cluster, fs.cs, true)
      modifies fs`fat, fs`data, fs`freeSearch
      ensures if next == 0 then GrowsAt(o, g', newSize, newSize - left, cluster, fs.cs, false)
              else GrowsAt(o, g', newSize, newSize - left, next, 0, true)
    {
      assert UnfoldGrow(true);
      g' := g;
      next := fs.AllocateCluster();
      if next == 0 { return; }
      g' := Growth(g.cur + [next], []);
      GrowthLinks(o, fs.fat, g.cur, g.tail, next);
      GrowthZeroes(o, fs.data, g.cur, newSize - left, next);
      fs.data := fs.data[next := Zeros(fs.cs)];
      fs.fat := fs.fat[next := fs.eof];
      fs.fat := fs.fat[cluster := next];
    }

    /** Zero `n` bytes at `off` in the current cluster. */
    method Fill(left: nat, cluster: nat, off: nat, n: nat, ghost newSize: nat, ghost o: Origin, ghost g: Growth)
      requires 0 < n <= left <= newSize && off + n <= fs.cs && GrowsAt(o, g, newSize, newSize - left, cluster, off, true)
      modifies fs`data
      ensures GrowsAt(o, g, newSize, newSize - (left - n), cluster, off + n, true)
    {
      assert UnfoldGrow(true);
      GrownDistinct(o, fs.fat, g.cur, g.tail);
      GrowthFills(o, fs.data, g.cur, newSize - left, off, n);
      fs.data := fs.data[cluster := Splice(fs.data[cluster], off, Zeros(n))];
    }

    /** The rest of a sector is zeroed, or as much of it as is asked for. */
    method FillSome(left: nat, cluster: nat, off: nat, ghost newSize: nat, ghost o: Origin, ghost g: Growth) returns (left': nat, f: nat)
      requires fs.Geometry() && 0 < left <= newSize && off < fs.cs && GrowsAt(o, g, newSize, newSize - left, cluster, off, true)
      modifies fs`data
      ensures left' < left && f <= fs.cs && GrowsAt(o, g, newSize, newSize - left', cluster, f, true)
    {
      var amount := Chunk(left, off, fs.bps, fs.spc, fs.cs);
      Fill(left, cluster, off, amount, newSize, o, g);
      left', f := left - amount, off + amount;
    }

    /** One round of the growing loop: at the end of a cluster link another one, then zero the rest of a sector. */
    method GrowRound(left: nat, cluster: nat, off: nat, ghost newSize: nat, ghost o: Origin, ghost g: Growth)
      returns (ok: bool, left': nat, c: nat, f: nat, ghost g': Growth)
      requires fs.Geometry() && 0 < left <= newSize && off <= fs.cs && GrowsAt(o, g, newSize, newSize - left, cluster, off, true)
      modifies fs`fat, fs`data, fs`freeSearch
      ensures left' <= left && (ok ==> left' < left) && f <= fs.cs && GrowsAt(o, g', newSize, newSize - left', c, f, ok)
    {
      ok, c, f, g' := true, cluster, off, g;
      if off == fs.cs {
        ok, c, f, g' := NextCluster(left, cluster, newSize, o, g);
        if !ok { return ok, left, c, f, g'; }
      }
      left', f := FillSome(left, c, f, newSize, o, g');
    }

    /** A new cluster behind the last one, if there is a free one. */
    method NextCluster(left: nat, cluster: nat, ghost newSize: nat, ghost o: Origin, ghost g: Growth)
      returns (ok: bool, c: nat, f: nat, ghost g': Growth)
      requires fs.Geometry() && 0 < left <= newSize && GrowsAt(o, g, newSize, newSize - left, cluster, fs.cs, true)
      modifies fs`fat, fs`data, fs`freeSearch
      ensures f <= fs.cs && GrowsAt(o, g', newSize, newSize - left, c, f, ok) && (ok ==> f < fs.cs)
    {
      c, g' := Append(left, cluster, newSize, o, g);
      if c == 0 { return false, cluster, fs.cs, g'; }
      return true, c, 0, g';
    }

    /**
     The growing branch of Truncate: fills with zeros from the end of the file on, up
     to `newSize`, starting `offset` bytes into the last cluster in use.
     */
    method Grow(more: nat, start: nat, offset: nat, ghost newSize: nat, ghost o: Origin, ghost g0: Growth)
      returns (ok: bool, ghost g: Growth, ghost end: nat, ghost last: nat, ghost used: nat)
      requires fs.Geometry() && 0 < more <= newSize && offset <= fs.cs && GrowsAt(o, g0, newSize, newSize - more, start, offset, true)
      modifies fs`fat, fs`data, fs`freeSearch
      ensures end <= newSize && GrowsAt(o, g, newSize, end, last, used, ok) && (ok ==> end == newSize)
    {
      var cluster, off, left: nat := start, offset, more;
      g, ok := g0, true;
      while ok && 0 < left
        invariant 0 <= off <= fs.cs && left <= newSize && GrowsAt(o, g, newSize, newSize - left, cluster, off, ok)
        decreases ok, left
      {
        ok, left, cluster, off, g := GrowRound(left, cluster, off, newSize, o, g);
      }
      end, last, used := newSize - left, cluster, off;
    }

    /** Every other file is as before, folded. */
    twostate predicate OthersSame()
      requires old(fs.Valid()) && fs.Valid()
      reads this, fs, fs.chains.Keys`size
    {
      && fs.chains.Keys == old(fs.chains.Keys)
      && forall x | UnfoldSame(x) ::
        forall g | g in fs.chains && g != this ::
          g.size == old(g.size) && fs.chains[g] == old(fs.chains)[g] && fs.File(g) == old(fs.File(g))
    }

    method GrowFile(more: nat, cluster: nat, offset: nat, ghost o: Origin) returns (ok: bool, ghost ch: seq<nat>)
      requires fs.TableOk() && Growable(o) && 0 < more
      requires o.fat == fs.fat && o.data == fs.data && o.eof == fs.eof && o.cs == fs.cs
      requires cluster == o.ch[o.k] && offset <= o.cs && Pos(o.k, offset, o.cs) == o.size
      modifies fs`fat, fs`data, fs`freeSearch
      ensures fs.TableOk() && Grew(o, fs.fat, fs.data, ch, o.size + more, ok)
    {
      ghost var g, end, last, used;
      GrowBegins(more, cluster, offset, o);
      ok, g, end, last, used := Grow(more, cluster, offset, o.size + more, o, Growth(o.ch[..o.k + 1], o.ch[o.k + 1..]));
      GrowEnds(o, g, o.size + more, end, last, used, ok);
      ch := g.cur + g.tail;
    }

    lemma GrowBegins(more: nat, cluster: nat, offset: nat, o: Origin)
      requires fs.TableOk() && Growable(o) && 0 < more
      requires o.fat == fs.fat && o.data == fs.data && o.eof == fs.eof && o.cs == fs.cs
      requires cluster == o.ch[o.k] && offset <= o.cs && Pos(o.k, offset, o.cs) == o.size
      ensures GrowsAt(o, Growth(o.ch[..o.k + 1], o.ch[o.k + 1..]), o.size + more, o.size, cluster, offset, true)
    {
      GrowthStarts(o, offset);
    }

    lemma GrowEnds(o: Origin, g: Growth, newSize: nat, end: nat, last: nat, used: nat, ok: bool)
      requires Growable(o) && o.size < newSize && end <= newSize && GrowsAt(o, g, newSize, end, last, used, ok) && (ok ==> end == newSize)
      ensures fs.TableOk() && Grew(o, fs.fat, fs.data, g.cur + g.tail, newSize, ok)
    {
      assert UnfoldGrow(true);
      GrowthEnds(o, fs.fat, fs.data, g.cur, g.tail, end, used, newSize, ok);
    }

    /** A file can be what the growing loop starts from. */
    lemma MayGrow(o: Origin)
      requires fs.Valid() && this in fs.chains && o == Origin(fs.fat, fs.data, Ch(), o.k, size, fs.eof, fs.cs)
      requires o.k + 1 == Need(size, fs.cs) <= |Ch()|
      ensures fs.TableOk() && Growable(o) && Chained(o.fat, o.eof, o.ch)
    {
      assert UnfoldFiles(true);
      assert fs.FileOk(this);
    }

    /** The growing branch of Truncate. */
    method TruncateUp(newSize: nat, cluster: nat, offset: nat, ghost k: nat) returns (ok: bool)
      requires fs.Valid() && this in fs.chains && size < newSize <= OFF_MAX
      requires k + 1 == Need(size, fs.cs) <= |Ch()| && cluster == Ch()[k] && offset <= fs.cs && Pos(k, offset, fs.cs) == size
      modifies fs, this`size
      ensures fs.Valid() && this in fs.chains && OthersSame() && fs.chains == old(fs.chains)[this := Ch()]
      ensures Within(old(fs.fat), old(fs.data), fs.fat, fs.data, old(Ch()))
      ensures forall i | 0 <= i < |Ch()| :: Ch()[i] in old(Ch()) || Ch()[i] in old(FreeSet(fs.fat))
      ensures ok <==> Need(newSize, fs.cs) - Need(old(size), fs.cs) <= |old(FreeSet(fs.fat))|
      ensures size == (if ok then newSize else old(size)) && fs.File(this) == Resize(old(fs.File(this)), size)
      ensures var o := Origin(old(fs.fat), old(fs.data), old(Ch()), k, old(size), fs.eof, fs.cs);
        o.cs > 0 && Chained(o.fat, o.eof, o.ch) && GrewTable(o, fs.fat, Ch(), newSize)
    {
      ghost var o := Origin(fs.fat, fs.data, Ch(), k, size, fs.eof, fs.cs);
      ghost var ch;
      MayGrow(o);
      ok, ch := GrowFile(newSize - size, cluster, offset, o);
      fs.chains := fs.chains[this := ch];
      if ok { size := newSize; }
      NeedMono(old(size), newSize, fs.cs);
      Lengthened(o, newSize, ok);
    }

    /** A file after the growing loop, and the other files. */
    twostate lemma Lengthened(new o: Origin, new newSize: nat, new ok: bool)
      requires old(fs.Valid()) && this in old(fs.chains) && this in fs.chains && fs.chains == old(fs.chains)[this := Ch()] && fs.TableOk()
      requires o == Origin(old(fs.fat), old(fs.data), old(Ch()), o.k, old(size), fs.eof, fs.cs) && Growable(o)
      requires Grew(o, fs.fat, fs.data, Ch(), newSize, ok) && newSize <= OFF_MAX && size == (if ok then newSize else old(size))
      requires forall g | g in fs.chains && g != this :: g.size == old(g.size)
      ensures fs.Valid() && OthersSame() && fs.File(this) == Resize(old(fs.File(this)), size)
      ensures Within(old(fs.fat), old(fs.data), fs.fat, fs.data, old(Ch()))
      ensures forall i | 0 <= i < |Ch()| :: Ch()[i] in old(Ch()) || Ch()[i] in old(FreeSet(fs.fat))
    {
      assert UnfoldFiles(true) && UnfoldGrew(true);
      assert old(fs.FileOk(this));
      fs.OthersKept(this);
    }

    method ShrinkFile(newSize: nat, cluster: nat, ghost o: Origin) returns (ok: bool, ghost ch: seq<nat>)
      requires fs.TableOk() && o.fat == fs.fat && o.data == fs.data && o.eof == fs.eof && o.cs == fs.cs
      requires o.k < |o.ch| && cluster == o.ch[o.k] && o.k + 1 == Need(newSize, o.cs) && newSize <= o.size
      requires Chain(o.fat, o.eof, o.ch) && Holds(o.data, o.cs, o.ch, o.size)
      modifies fs`fat, fs`freeSearch, fs`freeCount
      ensures ok && fs.TableOk() && Shrunk(o, fs.fat, ch, newSize)
    {
      ok := FreeClusters(cluster, o.ch, o.k);
      Shrinks(o, fs.fat, newSize);
      ch := o.ch[..o.k + 1];
    }

    /** The file as resizing sees it. */
    ghost function Now(): Shape
      requires fs.Valid() && this in fs.chains
      reads this`size, fs, fs.chains.Keys`size
    {
      Shape(size, fs.File(this), fs.chains[this], fs.fat)
    }

    /** The shrinking branch of Truncate. */
    method TruncateDown(newSize: nat, cluster: nat, ghost k: nat) returns (ok: bool)
      requires fs.Valid() && this in fs.chains && newSize < size
      requires k + 1 == Need(newSize, fs.cs) <= |Ch()| && cluster == Ch()[k]
      modifies fs, this
      ensures ok && fs.Valid() && this in fs.chains && OthersSame() && Resized(old(Now()), Now(), fs.cs, newSize, ok) && CursorOk()
    {
      NeedMono(newSize, size, fs.cs);
      assert UnfoldFiles(true);
      assert fs.FileOk(this);
      ghost var o := Origin(fs.fat, fs.data, Ch(), k, size, fs.eof, fs.cs);
      cachedId, cachedCluster := NO_CURSOR, 0;
      ghost var ch;
      ok, ch := ShrinkFile(newSize, cluster, o);
      fs.chains := fs.chains[this := ch];
      size := newSize;
      fs.OthersKept(this);
    }

    /** Growing to `newSize` bytes links a cluster. */
    ghost predicate WillLink(newSize: nat)
      requires fs.Geometry()
      reads this, fs
    {
      Need(size, fs.cs) < Need(newSize, fs.cs) && FreeSet(fs.fat) != {}
    }

    /**
     Growing leaves the cursor on a cluster the file loses: a cluster is linked
     behind the only one in use, from where the seek of Truncate does not move a
     cursor further on.
     */
    ghost predicate Strands(newSize: nat)
      requires fs.Geometry()
      reads this, fs
    {
      newSize <= OFF_MAX && WillLink(newSize) && Need(size, fs.cs) == 1 && cachedId != NO_CURSOR && 1 <= cachedId
    }

    /** The seek of a truncation to `newSize` bytes leads onto the lost chain `t` of the cursor. */
    ghost predicate SeeksLost(t: seq<nat>, newSize: nat)
      requires fs.Geometry()
      reads this, fs
    {
      newSize <= OFF_MAX && t != [] && cachedId < Need(Min(size, newSize), fs.cs)
    }

    /** The growing branch of Truncate with its seek: exactly when the cursor stays on the chain, and where it is otherwise. */
    method GrowTo(newSize: nat, cluster: nat, offset: nat, ghost k: nat, ghost t: seq<nat>) returns (ok: bool)
      requires fs.Valid() && this in fs.chains && size < newSize <= OFF_MAX && CursorAt(t)
      requires k + 1 == Need(size, fs.cs) <= |Ch()| && cluster == Ch()[k] && offset <= fs.cs && Pos(k, offset, fs.cs) == size
      modifies fs, this`size
      ensures fs.Valid() && this in fs.chains && OthersSame() && Resized(old(Now()), Now(), fs.cs, newSize, ok)
      ensures t == [] ==> (CursorOk() <==> !old(WillLink(newSize)) || cachedId == NO_CURSOR || cachedId < Need(old(size), fs.cs))
      ensures t == [] && !CursorOk() ==> cachedId < |old(Ch())| && cachedCluster == old(Ch())[cachedId] && fs.Lost(old(Ch())[cachedId..])
      ensures t != [] ==> CursorAt(t)
    {
      ghost var o := Origin(fs.fat, fs.data, Ch(), k, size, fs.eof, fs.cs);
      NeedMono(size, newSize, fs.cs);
      OthersApart();
      ok := TruncateUp(newSize, cluster, offset, k);
      assert Resized(old(Now()), Now(), fs.cs, newSize, ok) by {
        GrewCounts(o, fs.fat, Ch(), newSize);
        assert UnfoldWrote(true);
      }
      if t != [] {
        fs.LostKept(this, t);
      } else if cachedId != NO_CURSOR {
        GrewCursor(o, fs.fat, Ch(), newSize, cachedId);
        if !CursorOk() {
          GrewStrands(o, fs.fat, Ch(), newSize, cachedId);
          assert fs.chains - {this} == old(fs.chains) - {this};
          fs.LostTail(this, o.ch, cachedId);
        }
      }
    }

    /** The seek of Truncate to the last cluster that stays in use. */
    method SeekLast(newSize: nat, ghost t: seq<nat>) returns (id: nat, offset: nat, cluster: nat)
      requires fs.Valid() && this in fs.chains && CursorAt(t) && newSize <= OFF_MAX && !SeeksLost(t, newSize)
      modifies this`cachedId, this`cachedCluster
      ensures id + 1 == Need(Min(size, newSize), fs.cs) <= Need(size, fs.cs) <= |Ch()| && id < fs.eio && cluster == Ch()[id]
      ensures offset <= fs.cs && Pos(id, offset, fs.cs) == Min(size, newSize)
      ensures if id > 0 then CursorOk() && cachedId == id else cachedId == old(cachedId) && cachedCluster == old(cachedCluster)
    {
      Opened();
      var pos := if size < newSize then size else newSize;
      id, offset := LastUsed(pos, fs.cs);
      NeedMono(pos, size, fs.cs);
      PosBound(id, offset, fs.cs);
      cluster := SeekCluster(id, Ch(), 0);
    }

    /** Truncate after its seek. */
    method TruncateFrom(newSize: nat, cluster: nat, offset: nat, ghost k: nat, ghost t: seq<nat>) returns (ok: bool)
      requires fs.Valid() && this in fs.chains && newSize <= OFF_MAX && CursorAt(t) && (k > 0 ==> t == [] && cachedId == k)
      requires k + 1 == Need(Min(size, newSize), fs.cs) <= Need(size, fs.cs) <= |Ch()| && cluster == Ch()[k]
      requires offset <= fs.cs && Pos(k, offset, fs.cs) == Min(size, newSize)
      modifies fs, this
      ensures fs.Valid() && this in fs.chains && OthersSame() && Resized(old(Now()), Now(), fs.cs, newSize, ok)
      ensures t == [] ==> (CursorOk() <==> !old(Strands(newSize)))
      ensures t != [] ==> if newSize < old(size) then CursorOk() else !CursorOk() && CursorAt(t) && cachedId == old(cachedId)
      ensures t == [] && old(Strands(newSize)) ==>
        && cachedId == old(cachedId) < |old(Ch())| && cachedCluster == old(Ch())[cachedId] && fs.Lost(old(Ch())[cachedId..])
    {
      if newSize < size {
        ok := TruncateDown(newSize, cluster, k);
        return;
      }
      if size < newSize {
        ok := GrowTo(newSize, cluster, offset, k, t);
      } else {
        Opened();
        ok := true;
      }
      if t != [] { OffOwn(t, 0); }
    }

    /**
     Inode::Truncate: resizes the file, exactly when the size fits and there are
     enough free clusters. Clusters the file owned beyond its size are lost when
     another one is linked, and with them the cursor if it was there.
     */
    method Truncate(newSize: nat, ghost t: seq<nat>) returns (ok: bool)
      requires fs.Valid() && this in fs.chains && CursorAt(t) && !SeeksLost(t, newSize)
      modifies fs, this
      ensures fs.Valid() && this in fs.chains && OthersSame() && Resized(old(Now()), Now(), fs.cs, newSize, ok)
      ensures t == [] ==> (CursorOk() <==> !old(Strands(newSize)))
      ensures t != [] ==>
        && (CursorOk() <==> newSize <= OFF_MAX && (1 < Need(Min(old(size), newSize), fs.cs) || newSize < old(size)))
        && (CursorOk() || (CursorAt(t) && cachedId == old(cachedId)))
      ensures t == [] && old(Strands(newSize)) ==>
        && cachedId == old(cachedId) < |old(Ch())| && cachedCluster == old(Ch())[cachedId] && fs.Lost(old(Ch())[cachedId..])
    {
      Opened();
      if t != [] { OffOwn(t, 0); }
      if newSize > OFF_MAX { return false; }
      var id, offset, cluster := SeekLast(newSize, t);
      if fs.eio <= id { return false; }
      ok := TruncateFrom(newSize, cluster, offset, id, if id > 0 then [] else t);
    }

    /** The growing branch of Truncate on a lost chain: the file may become longer than its chain. */
    method GrowAstray(newSize: nat, cluster: nat, offset: nat, ghost k: nat, ghost t: seq<nat>) returns (ok: bool)
      requires fs.Valid() && this in fs.chains && size < newSize <= OFF_MAX && fs.Lost(t) && t[0] == cluster
      requires 0 < k && k + 1 == Need(size, fs.cs) && 0 < offset <= fs.cs && Pos(k, offset, fs.cs) == size
      modifies fs, this`size
      ensures fs.chains == old(fs.chains) && size == if ok then newSize else old(size)
      ensures ok <==> Need(newSize, fs.cs) - Need(old(size), fs.cs) <= |old(FreeSet(fs.fat))|
      ensures fs.TableOk() && (fs.Valid() <==> Need(size, fs.cs) <= |Ch()|)
      ensures fs.Valid() ==> OthersSame() && |fs.File(this)| == size && fs.File(this)[..old(size)] == old(fs.File(this))
    {
      assert Need(newSize, fs.cs) - Need(size, fs.cs) == Need(offset + (newSize - size), fs.cs) - 1 by {
        NeedShift(k, offset + (newSize - size), fs.cs);
        PosAdd(k, offset, newSize - size, fs.cs);
      }
      ok := GrowLost(newSize - size, cluster, offset, t);
      if ok { size := newSize; }
      NeedMono(old(size), newSize, fs.cs);
      GrewAstray(t);
    }

    /** A file that grew along a lost chain, and the other files. */
    twostate lemma GrewAstray(new t: seq<nat>)
      requires old(fs.Valid()) && this in old(fs.chains) && fs.TableOk() && fs.chains == old(fs.chains) && old(fs.Lost(t))
      requires Within(old(fs.fat), old(fs.data), fs.fat, fs.data, t) && old(size) <= size <= OFF_MAX
      requires forall g | g in fs.chains && g != this :: g.size == old(g.size)
      ensures fs.Valid() <==> Need(size, fs.cs) <= |Ch()|
      ensures fs.Valid() ==> OthersSame() && |fs.File(this)| == size && fs.File(this)[..old(size)] == old(fs.File(this))
    {
      fs.AllKeptBy(this, t);
      assert fs.Valid() ==> OthersSame() by { assert UnfoldSame(true); }
    }

    method GrowLost(more: nat, cluster: nat, offset: nat, ghost t: seq<nat>) returns (ok: bool)
      requires fs.TableOk() && fs.Lost(t) && t[0] == cluster && 0 < more && 0 < offset <= fs.cs
      modifies fs`fat, fs`data, fs`freeSearch
      ensures fs.TableOk() && Within(old(fs.fat), old(fs.data), fs.fat, fs.data, t)
      ensures ok <==> Need(offset + more, fs.cs) - 1 <= |old(FreeSet(fs.fat))|
    {
      ghost var o := Origin(fs.fat, fs.data, t, 0, offset, fs.eof, fs.cs);
      assert Growable(o) by { assert UnfoldFiles(true); }
      ghost var ch;
      ok, ch := GrowFile(more, cluster, offset, o);
      assert UnfoldGrew(true);
    }

    /** The shrinking branch of Truncate on a lost chain, of which all but the first cluster become free. */
    method ShrinkAstray(newSize: nat, cluster: nat, ghost t: seq<nat>) returns (ok: bool)
      requires fs.Valid() && this in fs.chains && newSize < size && fs.Lost(t) && t[0] == cluster
      modifies fs, this
      ensures ok && fs.Valid() && fs.chains == old(fs.chains) && OthersSame() && CursorOk()
      ensures size == newSize && fs.File(this) == Resize(old(fs.File(this)), newSize)
      ensures |FreeSet(fs.fat)| == |old(FreeSet(fs.fat))| + |t| - 1
    {
      cachedId, cachedCluster := NO_CURSOR, 0;
      Opened();
      assert Chain(fs.fat, fs.eof, t) by { assert UnfoldFiles(true); }
      ok := FreeClusters(cluster, t, 0);
      CutCounts(old(fs.fat), fs.fat, fs.eof, t, 0);
      size := newSize;
      NeedMono(newSize, old(size), fs.cs);
      fs.AllKeptBy(this, t);
    }

    /**
     Inode::Truncate when its seek leads onto the lost chain `t` of the cursor. It then
     works on that chain: growing may leave the file longer than its own chain, exactly
     when that has too few clusters. If the lost chain is too short as well, the end mark
     is taken for a cluster (`stray`), which the driver asserts not to happen.
     */
    method TruncateAstray(newSize: nat, ghost t: seq<nat>) returns (ok: bool, stray: bool)
      requires fs.Valid() && this in fs.chains && CursorAt(t) && SeeksLost(t, newSize)
      modifies fs, this
      ensures fs.TableOk() && fs.chains == old(fs.chains)
      ensures stray <==> newSize != old(size) && old(cachedId) + |t| < Need(Min(old(size), newSize), fs.cs)
      ensures stray || newSize == old(size) ==> ok == !stray && fs.fat == old(fs.fat) && fs.data == old(fs.data) && size == old(size)
      ensures !stray && newSize < old(size) ==>
        && ok && fs.Valid() && OthersSame() && CursorOk() && size == newSize && fs.File(this) == Resize(old(fs.File(this)), newSize)
        && |FreeSet(fs.fat)| == |old(FreeSet(fs.fat))| + old(cachedId) + |t| - Need(newSize, fs.cs)
      ensures !stray && old(size) < newSize ==>
        && (ok <==> Need(newSize, fs.cs) - Need(old(size), fs.cs) <= |old(FreeSet(fs.fat))|)
        && size == (if ok then newSize else old(size)) && (fs.Valid() <==> Need(size, fs.cs) <= |Ch()|)
        && (fs.Valid() ==> OthersSame() && |fs.File(this)| == size && fs.File(this)[..old(size)] == old(fs.File(this)))
    {
      ok, stray := false, false;
      var id, offset, cluster, rest := SeekAstray(newSize, t);
      if fs.eio <= id { return; }
      if newSize == size { return true, false; }
      if fs.eio <= cluster { return false, true; }
      if size < newSize {
        ok := GrowAstray(newSize, cluster, offset, id, rest);
        assert fs.Valid() ==> OthersSame() by { assert UnfoldSame(true); }
        return;
      }
      ok := ShrinkAstray(newSize, cluster, rest);
      assert OthersSame() by { assert UnfoldSame(true); }
    }

    /** The seek of Truncate on a lost chain, of which `rest` begins with the cluster found. */
    method SeekAstray(newSize: nat, ghost t: seq<nat>) returns (id: nat, offset: nat, cluster: nat, ghost rest: seq<nat>)
      requires fs.Valid() && this in fs.chains && CursorAt(t) && SeeksLost(t, newSize)
      modifies this`cachedId, this`cachedCluster
      ensures id + 1 == Need(Min(size, newSize), fs.cs) && 0 < old(cachedId) <= id < fs.eio
      ensures 0 < offset <= fs.cs && Pos(id, offset, fs.cs) == Min(size, newSize)
      ensures fs.eio <= cluster <==> old(cachedId) + |t| <= id
      ensures cluster < fs.eio ==> fs.Lost(rest) && rest[0] == cluster && |rest| == old(cachedId) + |t| - id
    {
      Opened();
      var pos := if size < newSize then size else newSize;
      id, offset := LastUsed(pos, fs.cs);
      NeedMono(pos, size, fs.cs);
      PosBound(id, offset, fs.cs);
      ghost var b := cachedId;
      assert Chained(fs.fat, fs.eof, t) by { assert UnfoldFiles(true); }
      cluster := SeekCluster(id, t, b);
      rest := [];
      if cluster < fs.eio {
        rest := t[id - b..];
        fs.LostRest(t, id - b);
      }
    }

    /** The first half of a round of the read and write loops: at the end of a cluster, go to the next one of the chain, if any. */
    method Follow(cluster: nat, id: nat, off: nat, ghost via: seq<nat>, ghost b: nat, ghost pos: nat) returns (ok: bool, c: nat, i: nat, o: nat)
      requires fs.TableOk() && Chained(fs.fat, fs.eof, via) && Seated(via, b, fs.cs, cluster, id, off, pos)
      modifies this`cachedId, this`cachedCluster
      ensures ok <==> pos < Capacity(via, fs.cs)
      ensures ok ==> Seated(via, b, fs.cs, c, i, o, pos) && o < fs.cs
      ensures !ok ==> pos == Capacity(via, fs.cs)
      ensures if ok && off == fs.cs then i == id + 1 && o == 0 && cachedId == i && cachedCluster == c
              else (ok ==> c == cluster && i == id && o == off) && cachedId == old(cachedId) && cachedCluster == old(cachedCluster)
    {
      assert UnfoldSeat(true);
      RoomLeft(via, fs.cs, id - b, off);
      ok, c, i, o := true, cluster, id, off;
      if fs.cs <= off {
        assert Unfold(true);
        c := fs.fat[cluster];
        assert c == if id + 1 < b + |via| then via[id + 1 - b] else fs.eof;
        if fs.eio <= c {
          ok := false;
          return;
        }
        PosNext(id - b, fs.cs);
        RoomLeft(via, fs.cs, id + 1 - b, 0);
        i, o := id + 1, 0;
        cachedId, cachedCluster := i, c;
      }
    }

    lemma OthersApart()
      requires fs.Valid() && this in fs.chains
      ensures AllApart(fs.chains - {this}, Ch())
    {
      assert UnfoldFiles(true);
      forall g | g in fs.chains - {this} ensures Disjoint(fs.chains[g], Ch()) { assert fs.Apart(g, this); }
    }

    /** What Valid says of this file. */
    lemma Opened()
      requires fs.Valid() && this in fs.chains
      ensures Chained(fs.fat, fs.eof, Ch()) && Ch()[0] == first && |Ch()| <= |fs.fat| && size <= OFF_MAX && Need(size, fs.cs) <= |Ch()|
      ensures |fs.File(this)| == size <= Capacity(Ch(), fs.cs)
    {
      assert UnfoldFiles(true);
      assert fs.FileOk(this);
      assert Unfold(true);
      ChainFits(fs.fat, fs.eof, Ch());
      NeedFits(size, fs.cs, |Ch()|);
    }

    /** The cursor is on a chain `t` that no file has, or, for none, unset or on the chain of the file. */
    ghost predicate CursorAt(t: seq<nat>)
      requires this in fs.chains
      reads this, fs
    {
      if t == [] then CursorOk()
      else fs.Lost(t) && t[0] == cachedCluster && 0 < cachedId && cachedId + |t| < NO_CURSOR
    }

    /** A seek to position `offset` leads onto the lost chain `t` of the cursor. */
    ghost predicate Astray(t: seq<nat>, offset: nat)
      requires fs.Geometry()
      reads this, fs
    {
      t != [] && Behind(offset)
    }

    /** The read loop `r` after `buf`, folded: `off` bytes into `cluster` come next, and the cursor is there once the first cluster is left. */
    ghost predicate Reading(r: Read, buf: Bytes, cluster: nat, id: nat, off: nat, ok: bool)
      reads this, fs
    {
      forall x | UnfoldRead(x) ::
        && fs.TableOk() && Chained(fs.fat, fs.eof, r.via) && Along(fs.data, fs.cs, r.via, r.all)
        && Seated(r.via, r.b, fs.cs, cluster, id, off, r.at + |buf|)
        && r.at + |buf| <= |r.all| && buf == r.all[r.at..r.at + |buf|] && (!ok ==> r.at + |buf| == |r.all|)
        && if id == r.number then off == r.offset + |buf| && cachedId == r.cursor && cachedCluster == r.on
           else r.number < id == cachedId && cachedCluster == cluster && fs.cs < r.offset + |buf|
    }

    /** One round of the read loop: the rest of a sector, or as much of it as is wanted; nothing at the end of the chain. */
    method ReadRound(want: nat, buf: Bytes, cluster: nat, id: nat, off: nat, ghost r: Read) returns (ok: bool, more: Bytes, c: nat, i: nat, o: nat)
      requires |buf| < want && Reading(r, buf, cluster, id, off, true)
      modifies this`cachedId, this`cachedCluster
      ensures |buf| <= |more| <= want && (ok ==> |buf| < |more|) && Reading(r, more, c, i, o, ok)
    {
      assert UnfoldRead(true);
      ok, c, i, o := Follow(cluster, id, off, r.via, r.b, r.at + |buf|);
      if !ok {
        more, c, i, o := buf, cluster, id, off;
        return;
      }
      var amount := Chunk(want - |buf|, o, fs.bps, fs.spc, fs.cs);
      AlongGet(fs.data, fs.cs, r.via, r.all, r.b, c, i, o, amount, r.at + |buf|);
      more := buf + fs.data[c][o..o + amount];
      o := o + amount;
    }

    /** The loop of ReadAt, along the chain it starts on, of which `all` are the bytes. */
    method ReadLoop(want: nat, start: nat, number: nat, offset: nat, ghost via: seq<nat>, ghost b: nat, ghost all: Bytes) returns (buf: Bytes)
      requires fs.TableOk() && Chained(fs.fat, fs.eof, via) && b <= number < b + |via| && via[number - b] == start && offset < fs.cs
      requires Along(fs.data, fs.cs, via, all)
      modifies this`cachedId, this`cachedCluster
      ensures buf == Slice(all, Pos(number - b, offset, fs.cs), want)
      ensures if offset + |buf| <= fs.cs then cachedId == old(cachedId) && cachedCluster == old(cachedCluster)
              else number < cachedId < b + |via| && via[cachedId - b] == cachedCluster
    {
      ghost var r := Read(via, b, all, Pos(number - b, offset, fs.cs), number, offset, cachedId, cachedCluster);
      RoomLeft(via, fs.cs, number - b, offset);
      buf := [];
      var cluster, id: nat, off: nat, ok := start, number, offset, true;
      while ok && |buf| < want
        invariant |buf| <= want && Reading(r, buf, cluster, id, off, ok)
        decreases ok, want - |buf|
      {
        ok, buf, cluster, id, off := ReadRound(want, buf, cluster, id, off, r);
      }
      ReadEnds(r, buf, cluster, id, off, ok, want);
    }

    /** The read loop when it ends. */
    lemma ReadEnds(r: Read, buf: Bytes, cluster: nat, id: nat, off: nat, ok: bool, want: nat)
      requires Reading(r, buf, cluster, id, off, ok) && |buf| <= want && (ok ==> |buf| == want) && r.offset < fs.cs && r.b <= r.number
      ensures buf == Slice(r.all, r.at, want)
      ensures if r.offset + |buf| <= fs.cs then cachedId == r.cursor && cachedCluster == r.on
              else r.number < cachedId < r.b + |r.via| && r.via[cachedId - r.b] == cachedCluster
    {
      assert UnfoldRead(true) && UnfoldSeat(true);
    }

    /** What a read at `offset` gives that leads onto the lost chain `t` with number `b`. */
    ghost predicate ReadsLost(t: seq<nat>, b: nat, offset: nat, want: nat, n: int, buf: Bytes)
      requires fs.TableOk() && fs.Lost(t)
      reads fs
    {
      Gave(fs.Trail(t), b, |t|, fs.cs, offset, want, n, buf)
    }

    /**
     Inode::ReadAt: a slice of the file, cut at its end. From a cursor on a lost chain
     `t`, a read at the place of the cursor or behind it gives bytes of that chain.
     */
    method ReadAt(count: nat, offset: int, ghost t: seq<nat>) returns (n: int, buf: Bytes)
      requires fs.Valid() && this in fs.chains && CursorAt(t)
      modifies this`cachedId, this`cachedCluster
      ensures fs.Valid() && forall g | g in fs.chains :: fs.File(g) == old(fs.File(g))
      ensures if offset < 0 then n == -1 && buf == []
              else if offset < size && count > 0 && old(Astray(t, offset)) then
                old(ReadsLost(t, cachedId, offset, Min(count, size - offset), n, buf))
              else n == |buf| && buf == Slice(old(fs.File(this)), offset, count)
      ensures CursorOk() <==> old(CursorOk()) || (0 <= offset && !old(Astray(t, offset)) && buf != [] && (fs.cs <= offset || fs.cs < offset + |buf|))
    {
      Opened();
      if t != [] { OffOwn(t, 0); }
      buf := [];
      if offset < 0 { return -1, buf; }
      if size <= offset { return 0, buf; }
      var want: nat := if size - offset < count then size - offset else count;
      if want == 0 { return 0, buf; }
      n, buf := ReadSome(want, offset, t);
    }

    /** ReadAt once it is known that there are bytes to read. */
    method ReadSome(want: nat, offset: nat, ghost t: seq<nat>) returns (n: int, buf: Bytes)
      requires fs.Valid() && this in fs.chains && CursorAt(t) && 0 < want && offset + want <= size
      modifies this`cachedId, this`cachedCluster
      ensures |fs.File(this)| == size
      ensures if old(Astray(t, offset)) then old(ReadsLost(t, cachedId, offset, want, n, buf)) && !CursorOk()
              else n == want && buf == fs.File(this)[offset..offset + want]
                   && (CursorOk() <==> old(CursorOk()) || fs.cs <= offset || fs.cs < offset + want)
    {
      var id: nat, off: nat := Split(offset, fs.cs);
      ghost var lost := if Behind(offset) then t else [];
      ghost var via, b := if lost == [] then Ch() else lost, if lost == [] then 0 else cachedId;
      Seat(id, off, lost);
      n, buf := ReadHere(want, id, off, via, b);
      if lost == [] { ReadOwn(id, off, want, n, buf); } else { ReadLost(t, id, off, want, n, buf); }
    }

    /**
     What a read from `off` bytes into cluster number `id` gives, folded; it goes along
     chain `via`, numbered from `b`, and the cursor was `was`.
     */
    ghost predicate Gives(was: (nat, nat), via: seq<nat>, b: nat, id: nat, off: nat, want: nat, n: int, buf: Bytes)
      reads this, fs
    {
      forall x | UnfoldRead(x) ::
        if b + |via| <= id then n == -1 && buf == [] && (cachedId, cachedCluster) == was
        else
          && fs.TableOk() && Chained(fs.fat, fs.eof, via) && b <= id
          && n == |buf| && buf == Slice(fs.OnChain(via), Pos(id - b, off, fs.cs), want)
          && if 0 < id || fs.cs < off + |buf| then b <= cachedId < b + |via| && via[cachedId - b] == cachedCluster
             else (cachedId, cachedCluster) == was
    }

    /** A read along the chain of the file, and the cursor after it. */
    twostate lemma ReadOwn(new id: nat, new off: nat, new want: nat, new n: int, new buf: Bytes)
      requires old(fs.Valid()) && fs.Valid() && this in old(fs.chains) && fs.chains == old(fs.chains)
      requires off < fs.cs && id < |Ch()| && Pos(id, off, fs.cs) + want <= size
      requires old(CursorOk()) || !old(Behind(Pos(id, off, fs.cs)))
      requires Gives(old((cachedId, cachedCluster)), Ch(), 0, id, off, want, n, buf)
      ensures |fs.File(this)| == size && n == want && buf == fs.File(this)[Pos(id, off, fs.cs)..Pos(id, off, fs.cs) + want]
      ensures CursorOk() <==> old(CursorOk()) || fs.cs <= Pos(id, off, fs.cs) || fs.cs < Pos(id, off, fs.cs) + want
    {
      assert UnfoldRead(true);
      FileInChain(Pos(id, off, fs.cs), want);
      ReadCursor(id, off, want);
    }

    twostate lemma ReadCursor(new id: nat, new off: nat, new n: nat)
      requires old(fs.Valid()) && fs.Valid() && this in old(fs.chains) && fs.chains == old(fs.chains)
      requires off < fs.cs && id < |Ch()| && (old(CursorOk()) || !old(Behind(Pos(id, off, fs.cs))))
      requires if 0 < id || fs.cs < off + n then cachedId < |Ch()| && Ch()[cachedId] == cachedCluster
               else cachedId == old(cachedId) && cachedCluster == old(cachedCluster)
      ensures CursorOk() <==> old(CursorOk()) || fs.cs <= Pos(id, off, fs.cs) || fs.cs < Pos(id, off, fs.cs) + n
    {
      PosOrder(1, id, off, fs.cs);
      if old(cachedId) != NO_CURSOR { PosOrder(old(cachedId), id, off, fs.cs); }
    }

    /** A read along a lost chain. */
    twostate lemma ReadLost(new t: seq<nat>, new id: nat, new off: nat, new want: nat, new n: int, new buf: Bytes)
      requires old(fs.Valid()) && fs.Valid() && this in old(fs.chains) && unchanged(fs)
      requires old(CursorAt(t)) && t != [] && off < fs.cs && old(cachedId) <= id
      requires Gives(old((cachedId, cachedCluster)), t, old(cachedId), id, off, want, n, buf)
      ensures |fs.File(this)| == size && old(ReadsLost(t, cachedId, Pos(id, off, fs.cs), want, n, buf)) && !CursorOk()
    {
      assert |fs.File(this)| == size by { Opened(); }
      assert !CursorOk() by { LostCursor(t, id, off, want, n, buf); }
      LostBytes(old((cachedId, cachedCluster)), t, id, off, want, n, buf);
    }

    twostate lemma LostCursor(new t: seq<nat>, new id: nat, new off: nat, new want: nat, new n: int, new buf: Bytes)
      requires old(fs.Valid()) && fs.Valid() && this in old(fs.chains) && fs.chains == old(fs.chains) && fs.fat == old(fs.fat)
      requires old(CursorAt(t)) && t != [] && old(cachedId) <= id
      requires Gives(old((cachedId, cachedCluster)), t, old(cachedId), id, off, want, n, buf)
      ensures !CursorOk()
    {
      assert UnfoldRead(true);
      OffOwn(t, cachedId - old(cachedId));
    }

    lemma LostBytes(was: (nat, nat), t: seq<nat>, id: nat, off: nat, want: nat, n: int, buf: Bytes)
      requires fs.TableOk() && fs.Lost(t) && off < fs.cs && was.0 <= id && Gives(was, t, was.0, id, off, want, n, buf)
      ensures ReadsLost(t, was.0, Pos(id, off, fs.cs), want, n, buf)
    {
      LostSlice(was, t, id, off, want, n, buf);
      GaveFrom(fs.Trail(t), was.0, |t|, fs.cs, id, off, want, n, buf);
    }

    lemma LostSlice(was: (nat, nat), t: seq<nat>, id: nat, off: nat, want: nat, n: int, buf: Bytes)
      requires fs.TableOk() && fs.Lost(t) && was.0 <= id && Gives(was, t, was.0, id, off, want, n, buf)
      ensures if was.0 + |t| <= id then n == -1 && buf == []
              else n == |buf| && buf == Slice(fs.Trail(t), Pos(id - was.0, off, fs.cs), want)
    {
      assert UnfoldRead(true);
    }

    /** A cursor on a lost chain is not on that of the file. */
    lemma OffOwn(t: seq<nat>, j: nat)
      requires fs.Valid() && this in fs.chains && fs.Lost(t) && j < |t| && cachedCluster == t[j] && cachedId != NO_CURSOR
      ensures !CursorOk()
    {
      assert UnfoldFiles(true);
      assert t[j] in t;
    }

    /** The seek and the loop of ReadAt. */
    method ReadHere(want: nat, id: nat, off: nat, ghost via: seq<nat>, ghost b: nat) returns (n: int, buf: Bytes)
      requires fs.TableOk() && Chained(fs.fat, fs.eof, via) && b <= id < NO_CURSOR && Starts(id, via, b) && off < fs.cs
      modifies this`cachedId, this`cachedCluster
      ensures Gives(old((cachedId, cachedCluster)), via, b, id, off, want, n, buf)
    {
      var cluster := SeekCluster(id, via, b);
      if fs.eio <= cluster { return -1, []; }
      buf := ReadLoop(want, cluster, id, off, via, b, fs.OnChain(via));
      n := |buf|;
    }

    lemma FileInChain(offset: nat, want: nat)
      requires fs.Valid() && this in fs.chains && offset + want <= size
      ensures Chained(fs.fat, fs.eof, Ch()) && |fs.File(this)| == size && Slice(fs.OnChain(Ch()), offset, want) == fs.File(this)[offset..offset + want]
    {
      Opened();
      assert UnfoldFiles(true);
      assert fs.FileOk(this) && Unfold(true);
      AlongFile(fs.data, fs.cs, Ch(), fs.OnChain(Ch()), size, offset, want);
    }

    /**
     The write loop `w` after `n` bytes, folded: they are written, `off` bytes into
     `cluster` come next, and the cursor is there once the first cluster is left.
     */
    ghost predicate Rolling(w: Write, n: nat, cluster: nat, id: nat, off: nat, more: bool)
      reads this, fs
    {
      forall x | UnfoldRoll(x) ::
        var fit := Fitting(w.src, w.at, Capacity(w.via, fs.cs));
        && fs.TableOk() && Chained(fs.fat, fs.eof, w.via) && Seated(w.via, w.b, fs.cs, cluster, id, off, w.at + n)
        && n <= |fit| && Progress(w.data, fs.data, fs.cs, w.via, w.at, fit, n) && (!more ==> n == |fit|)
        && if id == w.number then off == w.offset + n && cachedId == w.cursor && cachedCluster == w.on
           else w.number < id == cachedId && cachedCluster == cluster && fs.cs < w.offset + n
    }

    /** One round of the write loop: as much of `src` as fits in the current sector; 0 at the end of the chain. */
    method WriteRound(src: Bytes, n: nat, cluster: nat, id: nat, off: nat, ghost w: Write) returns (amount: nat, c: nat, i: nat, o: nat)
      requires n < |src| && w.src == src && Rolling(w, n, cluster, id, off, true)
      modifies this`cachedId, this`cachedCluster, fs`data
      ensures n + amount <= |src| && Rolling(w, n + amount, c, i, o, amount != 0)
    {
      assert UnfoldRoll(true);
      var ok;
      amount := 0;
      ok, c, i, o := Follow(cluster, id, off, w.via, w.b, w.at + n);
      if ok {
        amount := Chunk(|src| - n, o, fs.bps, fs.spc, fs.cs);
        RoundWrites(fs.fat, w.data, fs.data, fs.eof, fs.cs, w.via, w.b, w.at, src, n, c, i, o, amount);
        fs.data := fs.data[c := Splice(fs.data[c], o, src[n..n + amount])];
        o := o + amount;
      } else {
        c, i, o := cluster, id, off;
      }
    }

    /** The loop of WriteAt, along the chain it starts on. */
    method WriteLoop(src: Bytes, start: nat, number: nat, offset: nat, ghost via: seq<nat>, ghost b: nat) returns (sofar: nat)
      requires fs.TableOk() && Chained(fs.fat, fs.eof, via) && b <= number < b + |via| && via[number - b] == start && offset < fs.cs
      modifies this`cachedId, this`cachedCluster, fs`data
      ensures fs.TableOk()
      ensures var at := Pos(number - b, offset, fs.cs);
        && at < Capacity(via, fs.cs) && sofar == Min(|src|, Capacity(via, fs.cs) - at)
        && Progress(old(fs.data), fs.data, fs.cs, via, at, Fitting(src, at, Capacity(via, fs.cs)), sofar)
      ensures if offset + sofar <= fs.cs then cachedId == old(cachedId) && cachedCluster == old(cachedCluster)
              else number < cachedId < b + |via| && via[cachedId - b] == cachedCluster
    {
      ghost var w := RollingStarts(src, start, number, offset, via, b);
      sofar := RollOn(src, start, number, offset, w);
      assert UnfoldRoll(true) && UnfoldSeat(true);
    }

    lemma RollingStarts(src: Bytes, start: nat, number: nat, offset: nat, via: seq<nat>, b: nat) returns (w: Write)
      requires fs.TableOk() && Chained(fs.fat, fs.eof, via) && b <= number < b + |via| && via[number - b] == start && offset < fs.cs
      ensures w == Write(via, b, fs.data, Pos(number - b, offset, fs.cs), src, number, offset, cachedId, cachedCluster)
      ensures w.at < Capacity(via, fs.cs) && Rolling(w, 0, start, number, offset, true)
    {
      w := Write(via, b, fs.data, Pos(number - b, offset, fs.cs), src, number, offset, cachedId, cachedCluster);
      RoomLeft(via, fs.cs, number - b, offset);
      ProgressStarts(fs.fat, fs.data, fs.eof, fs.cs, via, w.at, Fitting(src, w.at, Capacity(via, fs.cs)));
    }

    method RollOn(src: Bytes, start: nat, number: nat, offset: nat, ghost w: Write) returns (sofar: nat)
      requires w.src == src && w.number == number && w.offset == offset && Rolling(w, 0, start, number, offset, true)
      requires w.at < Capacity(w.via, fs.cs)
      modifies this`cachedId, this`cachedCluster, fs`data
      ensures sofar == Min(|src|, Capacity(w.via, fs.cs) - w.at)
      ensures exists cluster: nat, id: nat, off: nat, more :: Rolling(w, sofar, cluster, id, off, more)
    {
      var cluster, id: nat, off: nat, more := start, number, offset, true;
      sofar := 0;
      while more && sofar < |src|
        invariant sofar <= |src| && Rolling(w, sofar, cluster, id, off, more)
        decreases more, |src| - sofar
      {
        var amount;
        amount, cluster, id, off := WriteRound(src, sofar, cluster, id, off, w);
        more := amount != 0;
        sofar := sofar + amount;
      }
      assert UnfoldRoll(true);
    }

    /**
     What a seek to cluster number `id` and a write of `src` at `off` there do along
     chain `via`, folded: the bytes that fit go onto it, and the cursor with them.
     */
    twostate predicate Overwrote(src: Bytes, id: nat, off: nat, via: seq<nat>, b: nat, n: int)
      requires fs.Geometry() && b <= id
      reads this, fs
    {
      forall x | UnfoldRoll(x) ::
        var at, cap := Pos(id - b, off, fs.cs), Capacity(via, fs.cs);
        && (if b + |via| <= id then n == -1 && fs.data == old(fs.data)
            else at < cap && n == |Fitting(src, at, cap)| && Progress(old(fs.data), fs.data, fs.cs, via, at, Fitting(src, at, cap), n))
        && if id < b + |via| && (0 < id || fs.cs < off + n) then
             b <= cachedId < b + |via| && via[cachedId - b] == cachedCluster && (src == [] ==> cachedId == id)
           else cachedId == old(cachedId) && cachedCluster == old(cachedCluster)
    }

    /** WriteAt after the file is long enough: a seek, then the loop, both on the chain the seek starts on. */
    method Overwrite(src: Bytes, id: nat, off: nat, ghost via: seq<nat>, ghost b: nat) returns (n: int)
      requires fs.TableOk() && Chained(fs.fat, fs.eof, via) && b <= id < NO_CURSOR && Starts(id, via, b) && off < fs.cs
      modifies this`cachedId, this`cachedCluster, fs`data
      ensures fs.TableOk() && Overwrote(src, id, off, via, b, n)
    {
      var cluster := SeekCluster(id, via, b);
      if fs.eio <= cluster { return -1; }
      var sofar := WriteLoop(src, cluster, id, off, via, b);
      n := if sofar == 0 && src != [] then -1 else sofar;
    }

    /** Position `offset` is past the place of the cursor. */
    ghost predicate Behind(offset: nat)
      requires fs.Geometry()
      reads this, fs
    {
      cachedId != NO_CURSOR && Pos(cachedId, 0, fs.cs) <= offset
    }

    /**
     A write inside the file; `t` is the chain a stranded cursor leads onto, [] for
     none. Onto such a chain the bytes are lost.
     */
    method WriteHere(src: Bytes, offset: nat, ghost t: seq<nat>) returns (n: int)
      requires fs.Valid() && this in fs.chains && offset + |src| <= size
      requires if t == [] then CursorOk() || !Behind(offset)
               else fs.Lost(t) && Behind(offset) && t[0] == cachedCluster && cachedId + |t| < NO_CURSOR
      modifies this`cachedId, this`cachedCluster, fs`data
      ensures fs.Valid() && OthersSame()
      ensures t == [] ==> fs.File(this) == Splice(old(fs.File(this)), offset, src) && n == if Capacity(Ch(), fs.cs) <= offset then -1 else |src|
      ensures t == [] ==>
        (CursorOk() <==> old(CursorOk()) || fs.cs <= offset < Capacity(Ch(), fs.cs) || (src != [] && fs.cs < offset + |src|))
      ensures t == [] && src == [] && fs.cs <= offset < Capacity(Ch(), fs.cs) ==> 0 < cachedId < NO_CURSOR
      ensures t != [] ==>
        var cap := Pos(old(cachedId) + |t|, 0, fs.cs);
        fs.File(this) == old(fs.File(this)) && !CursorOk() && n == if cap <= offset then -1 else Min(|src|, cap - offset)
    {
      var id, off := Split(offset, fs.cs);
      ghost var via, b := if t == [] then Ch() else t, if t == [] then 0 else cachedId;
      Seat(id, off, t);
      n := Overwrite(src, id, off, via, b);
      if t == [] { InFile(src, id, off, n); } else { OffFile(t, src, id, off, n); }
    }

    /** The seek of a write starts where it should. */
    lemma Seat(id: nat, off: nat, t: seq<nat>)
      requires fs.Valid() && this in fs.chains && off < fs.cs && Pos(id, off, fs.cs) <= size
      requires if t == [] then CursorOk() || !Behind(Pos(id, off, fs.cs)) else fs.Lost(t) && Behind(Pos(id, off, fs.cs)) && t[0] == cachedCluster
      ensures id < NO_CURSOR && size <= Capacity(Ch(), fs.cs) && (id < |Ch()| <==> Pos(id, off, fs.cs) < Capacity(Ch(), fs.cs))
      ensures Chained(fs.fat, fs.eof, Ch()) && (id == 0 <==> Pos(id, off, fs.cs) < fs.cs)
      ensures if t == [] then Starts(id, Ch(), 0) else Chained(fs.fat, fs.eof, t) && cachedId <= id && Starts(id, t, cachedId)
    {
      assert UnfoldFiles(true);
      assert fs.FileOk(this);
      NeedFits(size, fs.cs, |Ch()|);
      PosBound(id, off, fs.cs);
      PosOrder(|Ch()|, id, off, fs.cs);
      PosOrder(1, id, off, fs.cs);
      if cachedId != NO_CURSOR { PosOrder(cachedId, id, off, fs.cs); }
    }

    /** A write onto the chain of the file. */
    twostate lemma InFile(new src: Bytes, new id: nat, new off: nat, new n: int)
      requires old(fs.Valid()) && this in old(fs.chains) && fs.TableOk() && fs.fat == old(fs.fat) && fs.chains == old(fs.chains)
      requires (forall g | g in fs.chains :: g.size == old(g.size)) && off < fs.cs && Pos(id, off, fs.cs) + |src| <= size && id < NO_CURSOR
      requires old(CursorOk()) || !old(Behind(Pos(id, off, fs.cs)))
      requires Overwrote(src, id, off, Ch(), 0, n)
      ensures fs.Valid() && OthersSame() && fs.File(this) == Splice(old(fs.File(this)), Pos(id, off, fs.cs), src)
      ensures var offset := Pos(id, off, fs.cs);
        && n == (if Capacity(Ch(), fs.cs) <= offset then -1 else |src|)
        && (CursorOk() <==> old(CursorOk()) || fs.cs <= offset < Capacity(Ch(), fs.cs) || (src != [] && fs.cs < offset + |src|))
        && (src == [] && fs.cs <= offset < Capacity(Ch(), fs.cs) ==> 0 < cachedId < NO_CURSOR)
    {
      assert UnfoldFiles(true) && UnfoldRoll(true);
      assert old(fs.FileOk(this)) && Unfold(true);
      var offset := Pos(id, off, fs.cs);
      NeedFits(size, fs.cs, |Ch()|);
      PosOrder(|Ch()|, id, off, fs.cs);
      PosOrder(1, id, off, fs.cs);
      if old(cachedId) != NO_CURSOR { PosOrder(old(cachedId), id, off, fs.cs); }
      if |Ch()| <= id { ProgressStarts(fs.fat, fs.data, fs.eof, fs.cs, Ch(), offset, src); }
      InFileBytes(src, offset);
    }

    twostate lemma InFileBytes(new src: Bytes, new offset: nat)
      requires old(fs.Valid()) && this in old(fs.chains) && fs.TableOk() && fs.fat == old(fs.fat) && fs.chains == old(fs.chains)
      requires (forall g | g in fs.chains :: g.size == old(g.size)) && offset + |src| <= size
      requires Progress(old(fs.data), fs.data, fs.cs, Ch(), offset, src, |src|)
      ensures fs.Valid() && OthersSame() && fs.File(this) == Splice(old(fs.File(this)), offset, src)
    {
      assert UnfoldFiles(true);
      assert old(fs.FileOk(this)) && Unfold(true);
      ProgressFile(old(fs.data), fs.data, fs.cs, Ch(), offset, src, size);
      fs.OthersKept(this);
    }

    /** A write onto a lost chain. */
    twostate lemma OffFile(new t: seq<nat>, new src: Bytes, new id: nat, new off: nat, new n: int)
      requires old(fs.Valid()) && this in old(fs.chains) && fs.TableOk() && fs.fat == old(fs.fat) && fs.chains == old(fs.chains)
      requires (forall g | g in fs.chains :: g.size == old(g.size)) && old(fs.Lost(t)) && off < fs.cs
      requires old(cachedId) <= id && t[0] == old(cachedCluster) && old(cachedId) + |t| < NO_CURSOR
      requires Overwrote(src, id, off, t, old(cachedId), n)
      ensures fs.Valid() && OthersSame() && fs.File(this) == old(fs.File(this)) && !CursorOk()
      ensures var cap, offset := Pos(old(cachedId) + |t|, 0, fs.cs), Pos(id, off, fs.cs);
        n == if cap <= offset then -1 else Min(|src|, cap - offset)
    {
      var b := old(cachedId);
      PosSum(b, |t|, 0, fs.cs);
      PosSum(b, id - b, off, fs.cs);
      PosOrder(|t|, id - b, off, fs.cs);
      assert Unfold(true) && UnfoldRoll(true);
      OnlyOnTwice(fs.data, fs.data, fs.data, t);
      fs.AllKept(t);
      assert UnfoldFiles(true);
      assert cachedId < |Ch()| ==> Ch()[cachedId] != t[cachedId - b];
    }

    /** Whether there are clusters for a file of `end` bytes. */
    ghost predicate Room(end: nat)
      requires fs.Geometry()
      reads this, fs
    {
      end <= size || Need(end, fs.cs) - Need(size, fs.cs) <= |FreeSet(fs.fat)|
    }

    /** WriteAt when the file could not grow. */
    method PlaceSome(src: Bytes, offset: nat) returns (n: int)
      requires fs.Valid() && this in fs.chains && size < offset + |src| && (CursorOk() || !Behind(0))
      modifies this`cachedId, this`cachedCluster, fs`data
      ensures fs.Valid() && this in fs.chains && OthersSame()
      ensures if offset == 0 && old(size) > 0 then n == old(size) && fs.File(this) == src[..n]
              else n == -1 && fs.File(this) == old(fs.File(this))
      ensures old(CursorOk()) || old(size) <= fs.cs ==> CursorOk() == old(CursorOk())
    {
      if size < offset || (if size == 0 then 1 else 0) - offset != 0 { return -1; }
      ghost var file := fs.File(this);
      Opened();
      n := WriteHere(src[..size - offset], offset, []);
      assert Splice(file, 0, src[..size]) == src[..size];
    }

    /** A write at `offset` goes onto a chain the file loses by growing for it. */
    ghost predicate Misses(src: Bytes, offset: nat)
      requires fs.Geometry()
      reads this, fs
    {
      Room(offset + |src|) && Strands(offset + |src|) && Behind(offset)
    }

    /** The seek of a write brings a cursor back that growing for it stranded. */
    ghost predicate Recovers(src: Bytes, offset: nat)
      requires fs.Geometry()
      reads this, fs
    {
      Room(offset + |src|) && !Behind(offset) && (src == [] ==> offset < Pos(Need(offset, fs.cs), 0, fs.cs))
    }

    /** Making the file `end` bytes long does not bring a cursor on a lost chain back. */
    ghost predicate Lingers(end: nat)
      requires fs.Geometry()
      reads this, fs
    {
      end <= size || Need(size, fs.cs) == 1
    }

    /** The seek of a write that fits into the file brings a cursor on a lost chain back. */
    ghost predicate Returns(src: Bytes, offset: nat)
      requires fs.Geometry() && this in fs.chains
      reads this, fs
    {
      fs.cs <= offset < Capacity(Ch(), fs.cs) || (src != [] && fs.cs < offset + |src|)
    }

    /** WriteAt once the file is long enough; `was` are its bytes before that. */
    method WriteFully(src: Bytes, offset: nat, ghost was: Bytes, ghost t: seq<nat>) returns (n: int)
      requires fs.Valid() && this in fs.chains && offset + |src| <= size && fs.File(this) == Resize(was, LengthAfter(was, src, offset))
      requires if t == [] then CursorOk() || !Behind(offset)
               else fs.Lost(t) && Behind(offset) && t[0] == cachedCluster && cachedId + |t| < NO_CURSOR
      modifies this`cachedId, this`cachedCluster, fs`data
      ensures fs.Valid() && OthersSame()
      ensures t == [] ==> Placed(was, fs.File(this), src, offset, n, true, Capacity(Ch(), fs.cs)) && Ch() == old(Ch())
      ensures t != [] ==>
        var cap := Pos(old(cachedId) + |t|, 0, fs.cs);
        fs.File(this) == Resize(was, LengthAfter(was, src, offset)) && n == if cap <= offset then -1 else Min(|src|, cap - offset)
      ensures CursorOk() <==>
        t == [] && (old(CursorOk()) || fs.cs <= offset < Capacity(Ch(), fs.cs) || (src != [] && fs.cs < offset + |src|))
      ensures t == [] && src == [] && fs.cs <= offset < Capacity(Ch(), fs.cs) ==> 0 < cachedId < NO_CURSOR
    {
      n := WriteHere(src, offset, t);
      if t == [] {
        assert src == [] ==> Splice(old(fs.File(this)), offset, src) == old(fs.File(this));
        PlacedWhole(was, fs.File(this), src, offset, n, Capacity(Ch(), fs.cs));
      }
    }

    /**
     What the growing for a write has made of a file that had the bytes `was`, folded:
     it has room for `room` bytes, and from a stranded cursor the seek may lead onto
     the lost chain `t`, which ends at byte `cap`.
     */
    ghost predicate Made(ok: bool, src: Bytes, offset: nat, was: Bytes, cap: nat, room: nat, stranded: bool, t: seq<nat>)
      requires fs.Valid() && this in fs.chains
      reads this, fs, fs.chains.Keys`size
    {
      forall x | UnfoldMade(x) ::
        && stranded == !CursorOk() && Capacity(Ch(), fs.cs) == room
        && (if ok then offset + |src| <= size && fs.File(this) == Resize(was, LengthAfter(was, src, offset))
            else size < offset + |src| && fs.File(this) == was && (stranded ==> size <= fs.cs && !Behind(0)))
        && if !stranded || !Behind(offset) then t == []
           else fs.Lost(t) && t[0] == cachedCluster && cachedId + |t| < NO_CURSOR && cap == Pos(cachedId + |t|, 0, fs.cs)
    }

    /** WriteAt once it is known whether the file is long enough. */
    method Finish(ok: bool, src: Bytes, offset: nat, ghost was: Bytes, ghost cap: nat, ghost room: nat, ghost stranded: bool, ghost t: seq<nat>)
      returns (n: int)
      requires fs.Valid() && this in fs.chains && Made(ok, src, offset, was, cap, room, stranded, t)
      modifies this`cachedId, this`cachedCluster, fs`data
      ensures fs.Valid() && OthersSame()
      ensures Ended(was, fs.File(this), src, offset, n, ok, t != [], cap, room) && Capacity(Ch(), fs.cs) == room
      ensures CursorOk() <==> !stranded || (ok && t == [] && (fs.cs <= offset < room || (src != [] && fs.cs < offset + |src|)))
      ensures ok && !stranded && src == [] && fs.cs <= offset < room ==> 0 < cachedId < NO_CURSOR
    {
      assert UnfoldMade(true);
      if ok {
        n := WriteFully(src, offset, was, t);
        return;
      }
      Opened();
      n := PlaceSome(src, offset);
      PlacedPart(was, fs.File(this), src, offset, n, room);
    }

    /** What a write of `src` at `offset` from a cursor on the lost chain `t`, or on the file's, makes of the file and the cursor, folded. */
    twostate predicate Wrote(src: Bytes, offset: nat, t: seq<nat>, n: int)
      requires old(fs.Valid()) && this in old(fs.chains) && fs.Valid() && this in fs.chains
      reads this, fs, fs.chains.Keys`size
    {
      forall x | UnfoldWrote(x) ::
        && (if t == [] && old(Misses(src, offset)) then Missed(old(fs.File(this)), fs.File(this), src, offset, n, old(Capacity(Ch(), fs.cs)))
            else if old(Astray(t, offset) && Lingers(offset + |src|) && Room(offset + |src|)) then
              Missed(old(fs.File(this)), fs.File(this), src, offset, n, old(Pos(cachedId + |t|, 0, fs.cs)))
            else Placed(old(fs.File(this)), fs.File(this), src, offset, n, old(Room(offset + |src|)), Capacity(Ch(), fs.cs)))
        && (CursorOk() <==> if t == [] then !old(Strands(offset + |src|)) || old(Recovers(src, offset))
                            else !old(Lingers(offset + |src|)) || (old(Room(offset + |src|)) && !old(Astray(t, offset)) && Returns(src, offset)))
        && (!old(WillLink(offset + |src|)) ==> Ch() == old(Ch()) && fs.fat == old(fs.fat))
        && (t == [] && src == [] && fs.cs <= offset <= old(size) && offset < old(Capacity(Ch(), fs.cs)) ==> 0 < cachedId < NO_CURSOR)
    }

    /** WriteAt of bytes that stay below the largest file size. */
    method Place(src: Bytes, offset: nat, ghost t: seq<nat>) returns (n: int)
      requires fs.Valid() && this in fs.chains && offset + |src| <= OFF_MAX && CursorAt(t) && (size < offset + |src| ==> !SeeksLost(t, offset + |src|))
      modifies fs, this
      ensures fs.Valid() && this in fs.chains && OthersSame() && Wrote(src, offset, t, n)
    {
      if size < offset + |src| {
        n := MakeRoom(src, offset, t);
        return;
      }
      n := WriteInside(src, offset, t);
    }

    /** A write that does not make the file longer. */
    method WriteInside(src: Bytes, offset: nat, ghost t: seq<nat>) returns (n: int)
      requires fs.Valid() && this in fs.chains && offset + |src| <= size && CursorAt(t)
      modifies this`cachedId, this`cachedCluster, fs`data
      ensures fs.Valid() && this in fs.chains && OthersSame() && Wrote(src, offset, t, n)
    {
      Opened();
      if t != [] { OffOwn(t, 0); }
      NeedMono(offset + |src|, size, fs.cs);
      n := WriteFully(src, offset, fs.File(this), if Behind(offset) then t else []);
      assert UnfoldWrote(true);
    }

    /** A write that does, if it can. */
    method MakeRoom(src: Bytes, offset: nat, ghost t: seq<nat>) returns (n: int)
      requires fs.Valid() && this in fs.chains && size < offset + |src| <= OFF_MAX && CursorAt(t) && !SeeksLost(t, offset + |src|)
      modifies fs, this
      ensures fs.Valid() && this in fs.chains && OthersSame() && Wrote(src, offset, t, n)
    {
      var ok;
      ghost var was, cap := fs.File(this), if t == [] then Capacity(Ch(), fs.cs) else Pos(cachedId + |t|, 0, fs.cs);
      ghost var lost, room, stranded;
      ok, lost, room, stranded := Extend(src, offset, t);
      n := Finish(ok, src, offset, was, cap, room, stranded, lost);
      assert OthersSame() by { assert UnfoldSame(true); }
      WroteLonger(src, offset, t, n, ok, lost, stranded);
    }

    /** A write that was to make the file longer, of which `ok`, `lost` and `stranded` are what Extend found. */
    twostate lemma WroteLonger(new src: Bytes, new offset: nat, new t: seq<nat>, new n: int, new ok: bool, new lost: seq<nat>, new stranded: bool)
      requires old(fs.Valid()) && this in old(fs.chains) && fs.Valid() && this in fs.chains && old(size) < offset + |src|
      requires ok == old(Room(offset + |src|)) && (t == [] ==> old(CursorOk()))
      requires stranded <==> if t == [] then old(Strands(offset + |src|)) else old(Lingers(offset + |src|))
      requires lost == [] <==> !stranded || !old(Behind(offset))
      requires Ended(old(fs.File(this)), fs.File(this), src, offset, n, ok, lost != [],
                 old(if t == [] then Capacity(Ch(), fs.cs) else Pos(cachedId + |t|, 0, fs.cs)), Capacity(Ch(), fs.cs))
      requires t == [] && stranded && ok ==>
        && fs.cs < offset + |src|
        && Capacity(Ch(), fs.cs) == Pos(Need(offset + |src|, fs.cs), 0, fs.cs) && (src != [] ==> offset < Capacity(Ch(), fs.cs))
      requires !old(WillLink(offset + |src|)) ==> Ch() == old(Ch()) && fs.fat == old(fs.fat)
      requires CursorOk() <==> !stranded || (ok && lost == [] && Returns(src, offset))
      ensures Wrote(src, offset, t, n)
    {
      assert UnfoldWrote(true);
    }

    /** Growing for a write; `lost` is the chain its seek then leads onto, [] if that is the file's. */
    method Extend(src: Bytes, offset: nat, ghost t: seq<nat>) returns (ok: bool, ghost lost: seq<nat>, ghost room: nat, ghost stranded: bool)
      requires fs.Valid() && this in fs.chains && size < offset + |src| <= OFF_MAX && CursorAt(t) && !SeeksLost(t, offset + |src|)
      modifies fs, this
      ensures fs.Valid() && this in fs.chains && OthersSame() && ok == old(Room(offset + |src|))
      ensures stranded <==> if t == [] then old(Strands(offset + |src|)) else old(Lingers(offset + |src|))
      ensures !old(WillLink(offset + |src|)) ==> Ch() == old(Ch()) && fs.fat == old(fs.fat)
      ensures lost == [] <==> !stranded || !old(Behind(offset))
      ensures t == [] && stranded && ok ==>
        fs.cs < offset + |src| && room == Pos(Need(offset + |src|, fs.cs), 0, fs.cs) && (src != [] ==> offset < room)
      ensures Made(ok, src, offset, old(fs.File(this)), old(if t == [] then Capacity(Ch(), fs.cs) else Pos(cachedId + |t|, 0, fs.cs)),
                room, stranded, lost)
    {
      Opened();
      lost := [];
      if t == [] { StrandedBounds(offset + |src|, offset); } else { LostBounds(t); }
      ok := Truncate(offset + |src|, t);
      room, stranded := Capacity(Ch(), fs.cs), !CursorOk();
      if stranded && Behind(offset) { lost := if t == [] then old(Ch())[cachedId..] else t; }
      MadeBy(src, offset, ok);
      assert UnfoldMade(true);
    }

    /** What Truncate says about a file that was to grow for a write. */
    twostate lemma MadeBy(new src: Bytes, new offset: nat, new ok: bool)
      requires old(fs.Valid()) && this in old(fs.chains) && fs.Valid() && this in fs.chains && |old(fs.File(this))| == old(size)
      requires Resized(old(Now()), Now(), fs.cs, offset + |src|, ok) && old(size) < offset + |src| <= OFF_MAX
      ensures ok == old(Room(offset + |src|)) && size == if ok then offset + |src| else old(size)
      ensures fs.File(this) == if ok then Resize(old(fs.File(this)), LengthAfter(old(fs.File(this)), src, offset)) else old(fs.File(this))
      ensures !old(WillLink(offset + |src|)) ==> Ch() == old(Ch()) && fs.fat == old(fs.fat)
      ensures old(WillLink(offset + |src|)) && ok ==> |Ch()| == Need(offset + |src|, fs.cs)
    {
      assert UnfoldWrote(true);
    }

    lemma LostBounds(t: seq<nat>)
      requires fs.Valid() && this in fs.chains && CursorAt(t) && t != []
      ensures !Behind(0) && (Need(size, fs.cs) == 1 ==> size <= fs.cs)
    {
      Opened();
      PosOrder(cachedId, 0, 0, fs.cs);
      NeedFits(size, fs.cs, 1);
    }

    /** What stranding the cursor says about positions. */
    lemma StrandedBounds(end: nat, offset: nat)
      requires fs.Valid() && this in fs.chains && CursorOk() && offset <= end
      ensures Strands(end) ==> size < end && size <= fs.cs < end && !Behind(0) && cachedId + |Ch()[cachedId..]| < NO_CURSOR
      ensures Strands(end) ==> offset <= Pos(Need(offset, fs.cs), 0, fs.cs) && (offset < end ==> offset < Pos(Need(end, fs.cs), 0, fs.cs))
    {
      Opened();
      if Strands(end) {
        if end <= size { NeedMono(end, size, fs.cs); }
        NeedFits(size, fs.cs, 1);
        NeedFits(end, fs.cs, 1);
        NeedFits(offset, fs.cs, Need(offset, fs.cs));
        NeedFits(end, fs.cs, Need(end, fs.cs));
      }
    }

    /**
     Inode::WriteAt: overwrites the bytes from `offset` on, or does part of it, or
     fails, as the free clusters decide; unless growing strands the cursor before
     `offset`, when the bytes are lost. From a cursor on a lost chain `t`, a write
     inside the file at the place of the cursor or behind it goes onto that chain.
     */
    method WriteAt(src: Bytes, offset: int, ghost t: seq<nat>) returns (n: int)
      requires fs.Valid() && this in fs.chains && CursorAt(t)
      requires offset >= 0 && size < offset + |Clamped(src, offset)| ==> !SeeksLost(t, offset + |Clamped(src, offset)|)
      modifies fs, this
      ensures fs.Valid() && this in fs.chains && OthersSame()
      ensures
        if offset < 0 || OFF_MAX < offset || (offset == OFF_MAX && src != [])
        then n == -1 && fs.File(this) == old(fs.File(this)) && CursorOk() == old(CursorOk())
        else Wrote(Clamped(src, offset), offset, t, n)
    {
      Opened();
      if offset < 0 || OFF_MAX < offset { return -1; }
      var left, buf := OFF_MAX - offset, src;
      if left < |buf| {
        if left == 0 { return -1; }
        buf := buf[..left];
      }
      n := Place(buf, offset, t);
    }
  }

  /** A volume of four clusters with an empty file and one on two of them. */
  method TwoFiles() returns (f: Inode, g: Inode)
    ensures fresh(f) && fresh(g) && fresh(f.fs) && f.fs == g.fs && f.fs.Valid() && f != g && f in f.fs.chains && g in f.fs.chains
    ensures f.fs.cs == 512 && f.size == 0 && |f.Ch()| == 1 && |g.Ch()| == 2 && |FreeSet(f.fs.fat)| == 1 && f.CursorOk()
  {
    g := OneFile();
    ghost var ch := g.Ch();
    assert FreeSet(g.fs.fat) != {};
    var file := g.fs.Create();
    f := file;
  }

  method OneFile() returns (g: Inode)
    ensures fresh(g) && fresh(g.fs) && g.fs.Valid() && g in g.fs.chains && g.fs.cs == 512 && |g.Ch()| == 2 && |FreeSet(g.fs.fat)| == 2
  {
    var fat := [0xFF8, 0xFFF, 0, 0, 0, 0];
    assert FreeSet(fat) == {2, 3, 4, 5};
    var v := new Volume(4, 512, 1, 0xFF7, 0xFFF, fat, seq(6, _ => Zeros(512)));
    var file := v.Create();
    g := file;
    assert Need(1024, 512) == 2;
    var ok := g.Truncate(1024, []);
    assert UnfoldWrote(true);
  }

  /** All four clusters in use: two by `g`, and two by `f`, which needs one of them, since growing it failed half way. */
  method Crowded() returns (f: Inode, g: Inode)
    ensures fresh(f) && fresh(g) && fresh(f.fs) && f.fs == g.fs && f.fs.Valid() && f != g && f in f.fs.chains && g in f.fs.chains
    ensures f.fs.cs == 512 && f.size == 512 && |f.Ch()| == 2 && |g.Ch()| == 2 && FreeSet(f.fs.fat) == {} && f.CursorOk()
  {
    f, g := TwoFiles();
    ghost var ch := g.Ch();
    assert UnfoldWrote(true);
    var ok := f.Truncate(512, []);
    assert g.Ch() == ch by { assert UnfoldSame(true); }
    assert Need(1536, 512) == 3 by { assert Need(1024, 512) == 2; }
    ok := f.Truncate(1536, []);
    assert g.Ch() == ch by { assert UnfoldSame(true); }
  }

  /** An empty write at the end of `f` moves the cursor to the cluster it does not need. */
  method Ahead() returns (f: Inode, g: Inode)
    ensures fresh(f) && fresh(g) && fresh(f.fs) && f.fs == g.fs && f.fs.Valid() && f != g && f in f.fs.chains && g in f.fs.chains
    ensures f.fs.cs == 512 && f.size == 512 && |f.Ch()| == 2 && |g.Ch()| == 2 && FreeSet(f.fs.fat) == {} && f.CursorOk() && f.cachedId == 1
  {
    f, g := Crowded();
    assert Capacity(f.Ch(), 512) == 1024;
    f.Opened();
    ghost var ch := g.Ch();
    assert UnfoldWrote(true);
    var n := f.WriteAt([], 512, []);
    assert g.Ch() == ch by { assert UnfoldSame(true); }
    f.Opened();
    assert Unfold(true);
  }

  /** Growing `f` when the clusters of `g` are free links one of those instead of the one it has, which is lost with the cursor. */
  method Drifts() returns (f: Inode, ghost t: seq<nat>)
    ensures fresh(f) && fresh(f.fs) && f in f.fs.chains && f.fs.Valid() && f.CursorAt(t) && f.cachedId == 1 && |t| == 1
    ensures f.fs.cs == 512 && f.size == 1024 && |f.Ch()| == 2 && |FreeSet(f.fs.fat)| == 1
  {
    var g;
    f, g := Ahead();
    FreeAgain(g);
    ghost var ch := f.Ch();
    assert Need(1024, 512) == 2;
    assert UnfoldWrote(true);
    var ok := f.Truncate(1024, []);
    t := ch[f.cachedId..];
  }

  method FreeAgain(g: Inode)
    requires g.fs.Valid() && g in g.fs.chains && FreeSet(g.fs.fat) == {}
    modifies g.fs
    ensures g.fs.Valid() && g.fs.chains == old(g.fs.chains) - {g} && |FreeSet(g.fs.fat)| == |old(g.Ch())|
  {
    g.Opened();
    assert Unfold(true);
    ElemsCount(g.Ch());
    g.Delete();
    assert FreeSet(g.fs.fat) == Elems(old(g.Ch()));
  }

  /** Then the next seek goes on to the lost cluster. */
  method LosesItsPlace() returns (f: Inode, c: nat)
    ensures fresh(f) && f in f.fs.chains && f.fs.Valid() && !f.CursorOk()
    ensures 1 < |f.Ch()| && f.Ch()[1] == Walk(f.fs.fat, f.first, 1) != c
  {
    ghost var t;
    f, t := Drifts();
    f.Opened();
    assert Unfold(true) && UnfoldFiles(true);
    WalkFollowsChain(f.fs.fat, f.fs.eof, f.Ch(), 1);
    c := f.SeekCluster(1, t, 1);
    f.OffOwn(t, 0);
  }

  /** And growing makes the file longer than its chain. */
  method Outgrows() returns (f: Inode, ok: bool)
    ensures fresh(f) && f in f.fs.chains && f.fs.TableOk() && ok && f.size == 1536 && |f.Ch()| == 2 && !f.fs.Valid()
  {
    ghost var t;
    f, t := Drifts();
    assert Need(1024, 512) == 2;
    assert Need(1536, 512) == 3;
    var stray;
    ok, stray := f.TruncateAstray(1536, t);
  }

  /** On a full volume a write at the start of a file is cut short, the same one byte later fails although it could have placed bytes. */
  method WritesNothing() returns (f: Inode, m: int, n: int)
    ensures fresh(f) && f.fs.Valid() && f in f.fs.chains && f.size == 512 && m == 512 && n == -1
  {
    var g;
    f, g := Crowded();
    m := CutShort(f, 0);
    n := CutShort(f, 1);
  }

  method CutShort(f: Inode, offset: nat) returns (n: int)
    requires f.fs.Valid() && f in f.fs.chains && f.fs.cs == 512 && f.size == 512 && FreeSet(f.fs.fat) == {} && f.CursorOk() && offset < 512
    modifies f.fs, f
    ensures f.fs.Valid() && f in f.fs.chains && f.size == 512 && FreeSet(f.fs.fat) == {} && f.CursorOk()
    ensures n == if offset == 0 then 512 else -1
  {
    assert Need(513 + offset, 512) == 2;
    f.Opened();
    n := f.WriteAt(Zeros(513), offset, []);
    assert UnfoldWrote(true) && Unfold(true);
    f.Opened();
  }
}
