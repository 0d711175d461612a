/**
 The block tree of an ext2 inode as a value: a position is an inode and the list
 of slot numbers that leads from it to a block, and a tree is a map from
 positions to block numbers. ExtTree keeps that map in step with the tables.
 */
module ExtPath {
  import opened Arithmetic

  /** Slots of an inode: 12 direct ones, then the singly, doubly and triply indirect table. */
  const DIRECT := 12
  const SLOTS := 15

  /** A place in the block tree of inode `ino`. */
  datatype Pos = Pos(ino: nat, path: seq<nat>)

  /** How many slots lead from an inode to a data block through slot `root`. */
  function Depth(root: nat): nat {
    if root < DIRECT then 1 else root - 10
  }

  predicate IsPath(e: nat, p: seq<nat>) {
    && 0 < |p| && p[0] < SLOTS && |p| <= Depth(p[0])
    && forall i {:trigger p[i]} | 0 < i < |p| :: p[i] < e
  }

  /** The path ends in a data block. */
  predicate IsFull(p: seq<nat>)
    requires |p| > 0
  {
    |p| == Depth(p[0])
  }

  /** The number of logical blocks below a doubly indirect table. */
  function Square(e: nat): (s: nat)
    ensures e > 0 ==> s > 0
  {
    Times(e, e)
  }

  /** One past the largest logical block number. */
  function Limit(e: nat): nat {
    DIRECT + e + Square(e) + Times(e, Square(e))
  }

  /** The slots GetBlock follows to logical block `n`. */
  function Path(e: nat, n: nat): seq<nat>
    requires e > 0
  {
    if n < DIRECT then [n]
    else if n < DIRECT + e then [12, n - DIRECT]
    else if n < DIRECT + e + Square(e) then
      var m := n - DIRECT - e; [13, Quot(m, e), Rem(m, e)]
    else
      var m, s := n - DIRECT - e - Square(e), Square(e);
      [14, Quot(m, s), Quot(Rem(m, s), e), Rem(Rem(m, s), e)]
  }

  /** The number of logical blocks below one entry of the table at `p`. */
  function Span(e: nat, p: seq<nat>): nat
    requires 0 < |p|
  {
    if |p| + 1 >= Depth(p[0]) then 1
    else if |p| + 2 == Depth(p[0]) then e
    else Square(e)
  }

  /** The first logical block below `p`; of a full path, its logical block. */
  function First(e: nat, p: seq<nat>): nat
    requires IsPath(e, p)
  {
    if p[0] < DIRECT then p[0]
    else if p[0] == 12 then DIRECT + Term(p, 1, 1)
    else if p[0] == 13 then DIRECT + e + Term(p, 1, e) + Term(p, 2, 1)
    else DIRECT + e + Square(e) + Term(p, 1, Square(e)) + Term(p, 2, e) + Term(p, 3, 1)
  }

  /** What digit `i` contributes; digits not yet given count as 0. */
  function Term(p: seq<nat>, i: nat, span: nat): nat {
    if i < |p| then Times(p[i], span) else 0
  }

  /** Every logical block number in range has a full path, which leads back to it. */
  lemma PathOfNumber(e: nat, n: nat)
    requires e > 0 && n < Limit(e)
    ensures IsPath(e, Path(e, n)) && IsFull(Path(e, n)) && First(e, Path(e, n)) == n
  {
    var s := Square(e);
    if n < DIRECT + e {
      if n >= DIRECT { TimesOne(n - DIRECT); }
    } else if n < DIRECT + e + s {
      Digits(n - DIRECT - e, e, e);
      TimesOne(Rem(n - DIRECT - e, e));
    } else {
      var m := n - DIRECT - e - s;
      Digits(m, e, s);
      Digits(Rem(m, s), e, e);
      TimesOne(Rem(Rem(m, s), e));
    }
  }

  /** Every full path is the path of the logical block it numbers. */
  lemma NumberOfPath(e: nat, p: seq<nat>)
    requires e > 0 && IsPath(e, p) && IsFull(p)
    ensures First(e, p) < Limit(e) && Path(e, First(e, p)) == p
  {
    if p[0] >= DIRECT { TimesOne(p[|p| - 1]); }
    if p[0] == 13 { DigitsOf(p[1], e, p[2], e); }
    if p[0] == 14 {
      DigitsOf(p[2], e, p[3], e);
      DigitsOf(p[1], Square(e), Times(p[2], e) + p[3], e);
    }
  }

  /** The entries of a table number their subtrees one span after the other. */
  lemma FirstOfChild(e: nat, p: seq<nat>, i: nat)
    requires IsPath(e, p) && !IsFull(p) && i < e
    ensures IsPath(e, p + [i]) && First(e, p + [i]) == First(e, p) + Times(i, Span(e, p))
  {
    var q := p + [i];
    assert forall j | 0 <= j < |p| :: q[j] == p[j];
  }

  lemma SpanOfChild(e: nat, p: seq<nat>)
    requires e > 0 && IsPath(e, p) && !IsFull(p) && |p| > 1
    ensures Quot(Span(e, p[..|p| - 1]), e) == Span(e, p)
  {
    QuotRemOf(e, 0, e);
    QuotRemOf(1, 0, e);
  }

  /** A full path has no other full path as a prefix. */
  lemma FullPrefix(e: nat, m: nat, n: nat)
    requires e > 0 && m < Limit(e) && n < Limit(e) && Path(e, m) <= Path(e, n)
    ensures m == n
  {
    PathOfNumber(e, m);
    PathOfNumber(e, n);
    assert Path(e, m) == Path(e, n);
  }

  /** The number of logical blocks below a table `level` levels above the data, 1 for a data block. */
  function Power(e: nat, level: nat): (n: nat)
    ensures e > 0 ==> n > 0
  {
    if level == 0 then 1 else if level == 1 then e else if level == 2 then Square(e) else Times(e, Square(e))
  }

  /** The slots read one after the other from an offset `level` levels above the data. */
  function Expand(e: nat, offset: nat, level: nat): (p: seq<nat>)
    requires e > 0
    ensures |p| == level + 1
  {
    [Quot(offset, Power(e, level))] + if level == 0 then [] else Expand(e, Rem(offset, Power(e, level)), level - 1)
  }

  lemma ExpandSingly(e: nat, m: nat)
    requires m < e
    ensures Expand(e, m + Times(12, e), 1) == [12, m]
  {
    QuotRemOf(12, m, e);
    QuotOne(m);
  }

  lemma ExpandDoubly(e: nat, m: nat)
    requires e > 0 && m < Square(e)
    ensures Expand(e, m + Times(13, Square(e)), 2) == [13, Quot(m, e), Rem(m, e)]
  {
    QuotRemOf(13, m, Square(e));
    QuotOne(Rem(m, e));
    assert Expand(e, m, 1) == [Quot(m, e)] + Expand(e, Rem(m, e), 0);
  }

  lemma ExpandTriply(e: nat, m: nat)
    requires e > 0 && m < Times(e, Square(e))
    ensures var r := Rem(m, Square(e));
      Expand(e, m + Times(14, Times(e, Square(e))), 3) == [14, Quot(m, Square(e)), Quot(r, e), Rem(r, e)]
  {
    var s := Square(e);
    QuotRemOf(14, m, Times(e, s));
    var r := Rem(m, s);
    QuotOne(Rem(r, e));
    assert Expand(e, r, 1) == [Quot(r, e), Rem(r, e)];
    assert Expand(e, m, 2) == [Quot(m, s)] + Expand(e, r, 1);
  }

  /** How GetBlock starts: the level of the slot, and an offset that also selects it. */
  method Start(e: nat, n: nat) returns (level: nat, offset: nat)
    requires e > 0
    ensures level <= 4 && (level == 4 <==> n >= Limit(e))
    ensures level < 4 ==> Expand(e, offset, level) == Path(e, n)
  {
    var square := Multiply(e, e);
    var cube := Multiply(e, square);
    level, offset := 4, 0;
    if n < DIRECT {
      level, offset := 0, n;
      QuotOne(n);
    } else if n < DIRECT + e {
      var base := Multiply(12, e);
      level, offset := 1, n - DIRECT + base;
      ExpandSingly(e, n - DIRECT);
    } else if n < DIRECT + e + square {
      var base := Multiply(13, square);
      level, offset := 2, n - DIRECT - e + base;
      ExpandDoubly(e, n - DIRECT - e);
    } else if n < DIRECT + e + square + cube {
      var base := Multiply(14, cube);
      level, offset := 3, n - DIRECT - e - square + base;
      ExpandTriply(e, n - DIRECT - e - square);
    }
  }

  // The number of blocks in the tree of a file.

  /** The positions on the way to the block at `p`. */
  function Prefixes(p: seq<nat>): set<seq<nat>> {
    set k {:trigger p[..k]} | 0 < k <= |p| :: p[..k]
  }

  /** The positions of the tree that logical blocks 0 to `n - 1` need, data and tables. */
  function Built(e: nat, n: nat): set<seq<nat>>
    requires e > 0
  {
    set k, q | 0 <= k < n && q in Prefixes(Path(e, k)) :: q
  }

  lemma PrefixFirst(e: nat, n: nat, k: nat)
    requires e > 0 && n < Limit(e) && 0 < k <= |Path(e, n)|
    ensures IsPath(e, Path(e, n)[..k]) && First(e, Path(e, n)[..k]) <= n
  {
    PathOfNumber(e, n);
  }

  /** A position lies on the way to its first logical block. */
  lemma PrefixOfFirst(e: nat, q: seq<nat>)
    requires e > 0 && IsPath(e, q)
    ensures First(e, q) < Limit(e) && q <= Path(e, First(e, q))
  {
    var p := q + seq(Depth(q[0]) - |q|, i => 0);
    assert forall i | 0 <= i < |q| :: p[i] == q[i];
    assert First(e, p) == First(e, q);
    NumberOfPath(e, p);
  }

  /** The tree of the first `n` logical blocks holds exactly the positions that begin below `n`. */
  lemma BuiltIs(e: nat, n: nat, q: seq<nat>)
    requires e > 0 && n <= Limit(e)
    ensures q in Built(e, n) <==> IsPath(e, q) && First(e, q) < n
  {
    if q in Built(e, n) {
      var m :| 0 <= m < n && q in Prefixes(Path(e, m));
      var k :| 0 < k <= |Path(e, m)| && q == Path(e, m)[..k];
      PrefixFirst(e, m, k);
    }
    if IsPath(e, q) && First(e, q) < n {
      PrefixOfFirst(e, q);
      var p := Path(e, First(e, q));
      assert q == p[..|q|];
      assert q in Prefixes(p);
    }
  }

  /** Logical block `n` is the first one below a table of the given level. */
  predicate Opens(e: nat, n: nat, level: nat)
    requires e > 0
  {
    if level == 1 then n >= DIRECT && Rem(n - DIRECT, e) == 0
    else if level == 2 then n >= DIRECT + e && Rem(n - DIRECT - e, Square(e)) == 0
    else n >= DIRECT + e + Square(e) && Rem(n - DIRECT - e - Square(e), Times(e, Square(e))) == 0
  }

  lemma TimesZero(a: nat, c: nat)
    requires c > 0
    ensures Times(a, c) >= a && (Times(a, c) == 0 <==> a == 0)
  {
    if a > 0 { TimesZero(a - 1, c); }
  }

  lemma DoublyOpens(e: nat, n: nat)
    requires e > 0 && DIRECT + e <= n < DIRECT + e + Square(e)
    ensures var p := Path(e, n);
      && (Opens(e, n, 1) <==> p[2] == 0) && (Opens(e, n, 2) <==> p[1] == 0 && p[2] == 0) && !Opens(e, n, 3)
  {
    var m := n - DIRECT - e;
    QuotRem(m, e);
    RemAdd(m, 1, e);
    TimesZero(Quot(m, e), e);
  }

  /** Multiples of `e` before a number do not change its last digit. */
  lemma LastDigit(e: nat, q: nat, r: nat)
    requires e > 0
    ensures Rem(e + Square(e) + Times(q, Square(e)) + r, e) == Rem(r, e)
  {
    RemAddSquare(r, 1 + q, e);
    RemAdd(Square(e) + Times(q, Square(e)) + r, 1, e);
  }

  lemma TriplyOpens(e: nat, n: nat)
    requires e > 0 && DIRECT + e + Square(e) <= n < Limit(e)
    ensures var p := Path(e, n);
      && (Opens(e, n, 1) <==> p[3] == 0) && (Opens(e, n, 2) <==> p[2] == 0 && p[3] == 0)
      && (Opens(e, n, 3) <==> p[1] == 0 && p[2] == 0 && p[3] == 0)
  {
    var s, m := Square(e), n - DIRECT - e - Square(e);
    var q, r := Quot(m, s), Rem(m, s);
    QuotRem(m, s);
    QuotRem(r, e);
    LastDigit(e, q, r);
    assert n - DIRECT == e + s + Times(q, s) + r;
    RemAdd(m, 1, s);
    assert n - DIRECT - e == Times(1, s) + m;
    TimesZero(Quot(r, e), e);
    TimesZero(q, s);
    assert Rem(m, Times(e, s)) == m;
  }

  /** The prefix that is `j` slots short of the whole path is new for `n` exactly when a level `j` table opens there. */
  lemma FirstIs(e: nat, n: nat, j: nat)
    requires e > 0 && n < Limit(e) && j < |Path(e, n)|
    ensures IsPath(e, Path(e, n)[..|Path(e, n)| - j])
    ensures First(e, Path(e, n)[..|Path(e, n)| - j]) == n <==> j == 0 || Opens(e, n, j)
  {
    PathOfNumber(e, n);
    var p := Path(e, n);
    if p[0] == 13 {
      DoublyOpens(e, n);
    } else if p[0] == 14 {
      TriplyOpens(e, n);
      TimesZero(p[1], Square(e));
    }
    if |p| > 2 { TimesZero(p[|p| - 2], e); }
    if |p| > 1 { TimesZero(p[|p| - 1], 1); }
  }

  /** The positions that logical block `n` is the first to need. */
  function Opened(e: nat, n: nat): set<seq<nat>>
    requires e > 0
  {
    var p := Path(e, n);
    {p} + (if Opens(e, n, 1) then {p[..|p| - 1]} else {})
    + (if Opens(e, n, 2) then {p[..|p| - 2]} else {})
    + (if Opens(e, n, 3) then {p[..|p| - 3]} else {})
  }

  function Bit(b: bool): nat {
    if b then 1 else 0
  }

  lemma OpenedCount(e: nat, n: nat)
    requires e > 0
    ensures |Opened(e, n)| == 1 + Bit(Opens(e, n, 1)) + Bit(Opens(e, n, 2)) + Bit(Opens(e, n, 3))
  {
    var p := Path(e, n);
    var a := if Opens(e, n, 1) then {p[..|p| - 1]} else {};
    var b := if Opens(e, n, 2) then {p[..|p| - 2]} else {};
    var c := if Opens(e, n, 3) then {p[..|p| - 3]} else {};
    assert forall q | q in a :: |q| == |p| - 1;
    assert forall q | q in b :: |q| == |p| - 2;
    assert forall q | q in c :: |q| == |p| - 3;
    assert {p} !! a && {p} + a !! b && {p} + a + b !! c;
  }

  lemma OpenedHas(e: nat, n: nat, j: nat)
    requires e > 0 && j < |Path(e, n)|
    ensures Path(e, n)[..|Path(e, n)| - j] in Opened(e, n) <==> j == 0 || Opens(e, n, j)
  {
    var p := Path(e, n);
    assert |p[..|p| - j]| == |p| - j && p[..|p|] == p;
  }

  lemma OpenedArePrefixes(e: nat, n: nat)
    requires e > 0
    ensures Opened(e, n) <= Prefixes(Path(e, n))
  {
    var p := Path(e, n);
    assert p == p[..|p|];
  }

  lemma OpenedIs(e: nat, n: nat, q: seq<nat>)
    requires e > 0 && n < Limit(e)
    ensures q in Opened(e, n) <==> q in Prefixes(Path(e, n)) && q !in Built(e, n)
  {
    var p := Path(e, n);
    OpenedArePrefixes(e, n);
    if q in Prefixes(p) {
      var k :| 0 < k <= |p| && q == p[..k];
      FirstIs(e, n, |p| - k);
      OpenedHas(e, n, |p| - k);
      PrefixFirst(e, n, k);
      BuiltIs(e, n, q);
    }
  }

  /** How many tables open at logical block `n`. */
  function TablesAt(e: nat, n: nat): nat
    requires e > 0
  {
    Bit(Opens(e, n, 1)) + Bit(Opens(e, n, 2)) + Bit(Opens(e, n, 3))
  }

  lemma BuiltStep(e: nat, n: nat)
    requires e > 0 && n < Limit(e)
    ensures |Built(e, n + 1)| == |Built(e, n)| + 1 + TablesAt(e, n)
  {
    forall q ensures q in Opened(e, n) <==> q in Prefixes(Path(e, n)) && q !in Built(e, n) { OpenedIs(e, n, q); }
    assert Built(e, n + 1) == Built(e, n) + Opened(e, n) && Built(e, n) !! Opened(e, n);
    OpenedCount(e, n);
  }

  /** The closed form of SetSize. */
  function SetSizeBlocks(e: nat, n: nat): nat
    requires e > 0
  {
    n
    + (if DIRECT <= n then DivUp(n - DIRECT, e) else 0)
    + (if DIRECT + e <= n then DivUp(n - DIRECT - e, Square(e)) else 0)
    + (if DIRECT + e + Square(e) <= n then DivUp(n - DIRECT - e - Square(e), Times(e, Square(e))) else 0)
  }

  lemma SetSizeStep(e: nat, n: nat)
    requires e > 0
    ensures SetSizeBlocks(e, n + 1) == SetSizeBlocks(e, n) + 1 + TablesAt(e, n)
  {
    var s := Square(e);
    if DIRECT <= n { DivUpStep(n - DIRECT, e); }
    if DIRECT + e <= n { DivUpStep(n - DIRECT - e, s); }
    if DIRECT + e + s <= n { DivUpStep(n - DIRECT - e - s, Times(e, s)); }
  }

  /** Blocks counted one logical block at a time, each with the tables it opens. */
  function Counted(e: nat, n: nat): nat
    requires e > 0
  {
    if n == 0 then 0 else Counted(e, n - 1) + 1 + TablesAt(e, n - 1)
  }

  lemma {:induction false} BuiltIsCounted(e: nat, n: nat)
    requires e > 0 && n <= Limit(e)
    ensures |Built(e, n)| == Counted(e, n)
  {
    if n > 0 {
      BuiltIsCounted(e, n - 1);
      BuiltStep(e, n - 1);
    }
  }

  lemma {:induction false} SetSizeIsCounted(e: nat, n: nat)
    requires e > 0
    ensures SetSizeBlocks(e, n) == Counted(e, n)
  {
    if n > 0 {
      SetSizeIsCounted(e, n - 1);
      SetSizeStep(e, n - 1);
    }
  }

  /** Entry `p[k]` of the table at `p[..k]` begins at block `from` or later. */
  predicate Late(e: nat, p: seq<nat>, k: nat, from: nat) {
    k < |p| && IsPath(e, p[..k + 1]) && First(e, p[..k + 1]) >= from
  }

  /** Block `n` is reached through no indirect table, or is the first below an entry of an indirect slot's table. */
  predicate AtEntry(e: nat, n: nat)
    requires e > 0
  {
    if n <= DIRECT + e then true
    else if n < DIRECT + e + Square(e) then Rem(n - DIRECT - e, e) == 0
    else n >= Limit(e) || Rem(n - DIRECT - e - Square(e), Square(e)) == 0
  }

  /** Where the entry of the indirect slot's table on the way to `n` begins. */
  lemma EntryBegins(e: nat, n: nat)
    requires e > 0 && DIRECT <= n < Limit(e)
    ensures IsPath(e, Path(e, n)[..2])
    ensures n < DIRECT + e ==> First(e, Path(e, n)[..2]) == n
    ensures DIRECT + e <= n < DIRECT + e + Square(e) ==>
      First(e, Path(e, n)[..2]) == DIRECT + e + Times(Quot(n - DIRECT - e, e), e)
    ensures DIRECT + e + Square(e) <= n ==>
      First(e, Path(e, n)[..2]) == DIRECT + e + Square(e) + Times(Quot(n - DIRECT - e - Square(e), Square(e)), Square(e))
  {
    PathOfNumber(e, n);
    var p := Path(e, n);
    assert |p[..2]| == 2 && p[..2][0] == p[0] && p[..2][1] == p[1];
    if n < DIRECT + e { TimesOne(n - DIRECT); }
  }

  lemma QuotMono(a: nat, b: nat, c: nat)
    requires c > 0 && a <= b && Rem(a, c) == 0
    ensures a <= Times(Quot(b, c), c)
  {
    QuotRem(a, c);
    QuotRem(b, c);
    if Quot(b, c) < Quot(a, c) { TimesMono(Quot(b, c) + 1, Quot(a, c), c); }
  }

  /** Every later block hangs below a later entry exactly when `from` begins an entry itself. */
  lemma LateFrom(e: nat, from: nat)
    requires e > 0
    ensures (forall n {:trigger Path(e, n)} | from <= n < Limit(e) && DIRECT <= n :: Late(e, Path(e, n), 1, from)) <==> AtEntry(e, from)
  {
    if AtEntry(e, from) {
      forall n | from <= n < Limit(e) && DIRECT <= n ensures Late(e, Path(e, n), 1, from) { LateWhen(e, from, n); }
    } else {
      EarlyAt(e, from);
    }
  }

  /** A block that begins no entry hangs below an earlier one. */
  lemma EarlyAt(e: nat, n: nat)
    requires e > 0 && !AtEntry(e, n)
    ensures DIRECT <= n < Limit(e) && !Late(e, Path(e, n), 1, n)
  {
    EntryBegins(e, n);
    var m := if n < DIRECT + e + Square(e) then n - DIRECT - e else n - DIRECT - e - Square(e);
    QuotRem(m, if n < DIRECT + e + Square(e) then e else Square(e));
  }

  lemma LateWhen(e: nat, from: nat, n: nat)
    requires e > 0 && AtEntry(e, from) && from <= n < Limit(e) && DIRECT <= n
    ensures Late(e, Path(e, n), 1, from)
  {
    EntryBegins(e, n);
    if DIRECT + e < from && n < DIRECT + e + Square(e) {
      QuotMono(from - DIRECT - e, n - DIRECT - e, e);
    }
    if DIRECT + e + Square(e) <= from {
      QuotMono(from - DIRECT - e - Square(e), n - DIRECT - e - Square(e), Square(e));
    }
  }

  /** SetSize counts exactly the data and table blocks of the tree, up to the largest file. */
  lemma SetSizeCountsTree(e: nat, n: nat)
    requires e > 0 && n <= Limit(e)
    ensures SetSizeBlocks(e, n) == |Built(e, n)|
  {
    BuiltIsCounted(e, n);
    SetSizeIsCounted(e, n);
  }
}

/**
 ext2 block trees on disk: GetBlock allocates on demand, FreeIndirect and Truncate
 free. The volume's tables and the ghost map `at` from positions to blocks agree
 at every step, and no two positions of any inode share a block.
 */
module ExtTree {
  import opened Arithmetic
  import opened ExtPath

  /** The parts of a volume the trees live in, as a value. */
  datatype Tree = Tree(e: nat, blocks: seq<seq<nat>>, used: set<nat>, inodes: map<nat, seq<nat>>, at: map<Pos, nat>)

  function Last(p: seq<nat>): nat
    requires |p| > 0
  {
    p[|p| - 1]
  }

  function Parent(q: Pos): Pos
    requires |q.path| > 0
  {
    Pos(q.ino, q.path[..|q.path| - 1])
  }

  function Child(q: Pos, i: nat): Pos {
    Pos(q.ino, q.path + [i])
  }

  function Put(s: seq<nat>, i: nat, v: nat): seq<nat>
    requires i < |s|
  {
    s[i := v]
  }

  /** The block at a position, 0 where there is none. */
  function Get(at: map<Pos, nat>, q: Pos): nat {
    if q in at then at[q] else 0
  }

  ghost predicate Shape(t: Tree) {
    && t.e > 0
    && (forall b {:trigger t.blocks[b]} | 0 <= b < |t.blocks| :: |t.blocks[b]| == t.e)
    && (forall ino | ino in t.inodes :: |t.inodes[ino]| == SLOTS)
  }

  /** A position holds an allocated block and hangs below an existing one. */
  ghost predicate NodeOk(t: Tree, q: Pos)
    requires q in t.at
  {
    && IsPath(t.e, q.path) && q.ino in t.inodes && 0 < t.at[q] < |t.blocks| && t.at[q] in t.used
    && (|q.path| > 1 ==> Parent(q) in t.at)
  }

  /** Entry `i` of the table at `q` names the block at that child position. */
  ghost predicate EntryOk(t: Tree, q: Pos, i: nat)
    requires Shape(t) && q in t.at && i < t.e
  {
    t.at[q] < |t.blocks| && t.blocks[t.at[q]][i] == Get(t.at, Child(q, i))
  }

  ghost predicate RootOk(t: Tree, ino: nat, i: nat)
    requires Shape(t) && ino in t.inodes && i < SLOTS
  {
    t.inodes[ino][i] == Get(t.at, Pos(ino, [i]))
  }

  ghost predicate IsTable(t: Tree, q: Pos) {
    q in t.at && |q.path| > 0 && !IsFull(q.path)
  }

  ghost predicate Differ(t: Tree, q: Pos, r: Pos)
    requires q in t.at && r in t.at
  {
    t.at[q] != t.at[r]
  }

  /**
   The invariant: tables and positions agree, every block of a tree is allocated,
   and distinct positions, of one inode or of two, hold distinct blocks.
   */
  ghost predicate TreeOk(t: Tree) {
    && Shape(t)
    && (forall q {:trigger NodeOk(t, q)} | q in t.at :: NodeOk(t, q))
    && (forall q, i: nat {:trigger EntryOk(t, q, i)} | IsTable(t, q) && i < t.e :: EntryOk(t, q, i))
    && (forall ino, i: nat {:trigger RootOk(t, ino, i)} | ino in t.inodes && i < SLOTS :: RootOk(t, ino, i))
    && (forall q, r {:trigger Differ(t, q, r)} | q in t.at && r in t.at && q != r :: Differ(t, q, r))
  }

  /** A position a block may be put at: below the inode itself, or below a table. */
  ghost predicate Slot(t: Tree, q: Pos) {
    && IsPath(t.e, q.path) && q.ino in t.inodes
    && (|q.path| > 1 ==> Parent(q) in t.at)
  }

  /** The tree with slot `q` holding `v`. */
  ghost function SetSlot(t: Tree, q: Pos, v: nat): (s: Tree)
    requires TreeOk(t) && Slot(t, q)
    ensures Shape(s) && |s.blocks| == |t.blocks| && s.inodes.Keys == t.inodes.Keys
  {
    if |q.path| == 1 then t.(inodes := t.inodes[q.ino := Put(t.inodes[q.ino], q.path[0], v)])
    else
      assert NodeOk(t, Parent(q));
      var b := t.at[Parent(q)];
      t.(blocks := t.blocks[b := Put(t.blocks[b], Last(q.path), v)])
  }

  function Zeros(n: nat): (z: seq<nat>)
    ensures |z| == n && forall i | 0 <= i < n :: z[i] == 0
  {
    seq(n, i => 0)
  }

  /** The tree after a free block `b` is zeroed and put at the empty slot `q`. */
  ghost function Added(t: Tree, q: Pos, b: nat): (s: Tree)
    requires TreeOk(t) && Slot(t, q) && 0 < b < |t.blocks|
    ensures Shape(s)
  {
    var s := SetSlot(t, q, b);
    s.(blocks := s.blocks[b := Zeros(t.e)], used := t.used + {b}, at := t.at[q := b])
  }

  /** The tree after the block at `q` is freed and its slot cleared. */
  ghost function Removed(t: Tree, q: Pos): (s: Tree)
    requires TreeOk(t) && q in t.at
    ensures Shape(s)
  {
    assert NodeOk(t, q);
    SetSlot(t, q, 0).(used := t.used - {t.at[q]}, at := t.at - {q})
  }

  lemma ChildHasParent(t: Tree, q: Pos, i: nat)
    requires TreeOk(t) && |q.path| > 0
    ensures Child(q, i) in t.at ==> q in t.at
  {
    if Child(q, i) in t.at {
      assert NodeOk(t, Child(q, i));
      assert Parent(Child(q, i)) == q;
    }
  }

  lemma Joined(q: Pos)
    requires |q.path| > 0
    ensures Child(Parent(q), Last(q.path)) == q
  {
    assert q.path == q.path[..|q.path| - 1] + [Last(q.path)];
  }

  lemma AddedNodes(t: Tree, q: Pos, b: nat, r: Pos)
    requires TreeOk(t) && Slot(t, q) && q !in t.at && 0 < b < |t.blocks| && b !in t.used && r in Added(t, q, b).at
    ensures NodeOk(Added(t, q, b), r)
    ensures r != q ==> t.at[r] != b
  {
    if r != q { assert NodeOk(t, r); }
  }

  lemma AddedEntries(t: Tree, q: Pos, b: nat, r: Pos, i: nat)
    requires TreeOk(t) && Slot(t, q) && q !in t.at && 0 < b < |t.blocks| && b !in t.used
    requires IsTable(Added(t, q, b), r) && i < t.e
    ensures EntryOk(Added(t, q, b), r, i)
  {
    Joined(q);
    if r == q {
      ChildHasParent(t, q, i);
    } else {
      assert NodeOk(t, r) && EntryOk(t, r, i);
      if Child(r, i) == q {
        assert Parent(q) == r;
      } else if |q.path| > 1 && r != Parent(q) {
        assert Differ(t, r, Parent(q));
      }
    }
  }

  lemma AddedRoots(t: Tree, q: Pos, b: nat, ino: nat, i: nat)
    requires TreeOk(t) && Slot(t, q) && q !in t.at && 0 < b < |t.blocks| && b !in t.used
    requires ino in t.inodes && i < SLOTS
    ensures RootOk(Added(t, q, b), ino, i)
  {
    assert RootOk(t, ino, i);
    if q.ino == ino && |q.path| == 1 && q.path[0] == i { assert q.path == [i]; }
  }

  /** Putting a fresh block at an empty slot keeps the invariant. */
  lemma AddedOk(t: Tree, q: Pos, b: nat)
    requires TreeOk(t) && Slot(t, q) && q !in t.at && 0 < b < |t.blocks| && b !in t.used
    ensures TreeOk(Added(t, q, b))
  {
    var s := Added(t, q, b);
    forall r | r in s.at ensures NodeOk(s, r) { AddedNodes(t, q, b, r); }
    forall r, i: nat | IsTable(s, r) && i < s.e ensures EntryOk(s, r, i) { AddedEntries(t, q, b, r, i); }
    forall ino, i: nat | ino in s.inodes && i < SLOTS ensures RootOk(s, ino, i) { AddedRoots(t, q, b, ino, i); }
    forall r, u | r in s.at && u in s.at && r != u ensures Differ(s, r, u) {
      AddedNodes(t, q, b, r);
      AddedNodes(t, q, b, u);
      if r != q && u != q { assert Differ(t, r, u); }
    }
  }

  /** The block at `q` has nothing below it. */
  ghost predicate Bare(t: Tree, q: Pos) {
    forall i: nat {:trigger Child(q, i)} | i < t.e :: Child(q, i) !in t.at
  }

  lemma RemovedNodes(t: Tree, q: Pos, r: Pos)
    requires TreeOk(t) && q in t.at && Bare(t, q) && r in Removed(t, q).at
    ensures NodeOk(Removed(t, q), r)
  {
    assert NodeOk(t, r) && NodeOk(t, q) && Differ(t, r, q);
    if |r.path| > 1 {
      Joined(r);
      assert Last(r.path) < t.e;
    }
  }

  lemma RemovedEntries(t: Tree, q: Pos, r: Pos, i: nat)
    requires TreeOk(t) && q in t.at && Bare(t, q) && IsTable(Removed(t, q), r) && i < t.e
    ensures EntryOk(Removed(t, q), r, i)
  {
    assert NodeOk(t, r) && NodeOk(t, q) && EntryOk(t, r, i) && Differ(t, r, q);
    Joined(q);
    if |q.path| > 1 {
      if r == Parent(q) { } else { assert Differ(t, r, Parent(q)); }
    }
    if Child(r, i) == q { assert Parent(q) == r; }
  }

  lemma RemovedRoots(t: Tree, q: Pos, ino: nat, i: nat)
    requires TreeOk(t) && q in t.at && ino in t.inodes && i < SLOTS
    ensures RootOk(Removed(t, q), ino, i)
  {
    assert RootOk(t, ino, i) && NodeOk(t, q);
    if q.ino == ino && |q.path| == 1 && q.path[0] == i { assert q.path == [i]; }
  }

  /** Freeing a block with nothing below it keeps the invariant. */
  lemma RemovedOk(t: Tree, q: Pos)
    requires TreeOk(t) && q in t.at && Bare(t, q)
    ensures TreeOk(Removed(t, q))
  {
    var s := Removed(t, q);
    forall r | r in s.at ensures NodeOk(s, r) { RemovedNodes(t, q, r); }
    forall r, i: nat | IsTable(s, r) && i < s.e ensures EntryOk(s, r, i) { RemovedEntries(t, q, r, i); }
    forall ino, i: nat | ino in s.inodes && i < SLOTS ensures RootOk(s, ino, i) { RemovedRoots(t, q, ino, i); }
    forall r, u | r in s.at && u in s.at && r != u ensures Differ(s, r, u) { assert Differ(t, r, u); }
  }

  /** The blocks a growing tree takes, or a shrinking one gives back. */
  ghost function Between(small: map<Pos, nat>, large: map<Pos, nat>): set<nat> {
    set q | q in large && q !in small :: large[q]
  }

  ghost predicate Extends(small: map<Pos, nat>, large: map<Pos, nat>) {
    forall q | q in small :: q in large && large[q] == small[q]
  }

  ghost predicate SameVolume(t: Tree, s: Tree) {
    s.e == t.e && |s.blocks| == |t.blocks| && s.inodes.Keys == t.inodes.Keys
  }

  /** No data block of `at` changed. */
  ghost predicate DataKept(at: map<Pos, nat>, a: seq<seq<nat>>, b: seq<seq<nat>>) {
    forall q {:trigger at[q]} | q in at && |q.path| > 0 && IsFull(q.path) ::
      at[q] < |a| && at[q] < |b| && b[at[q]] == a[at[q]]
  }

  /** `s` is `t` with more blocks, all fresh ones and all on the way to the block at `p` of inode `ino`. */
  ghost predicate Grown(t: Tree, s: Tree, ino: nat, p: seq<nat>) {
    && SameVolume(t, s) && Extends(t.at, s.at) && DataKept(t.at, t.blocks, s.blocks)
    && (forall q | q in s.at && q !in t.at :: q.ino == ino && q.path <= p)
    && s.used == t.used + Between(t.at, s.at) && t.used !! Between(t.at, s.at)
  }

  lemma GrownSelf(t: Tree, ino: nat, p: seq<nat>)
    requires TreeOk(t)
    ensures Grown(t, t, ino, p)
  {
    forall r | r in t.at ensures t.at[r] < |t.blocks| { assert NodeOk(t, r); }
  }

  lemma GrownTwice(t: Tree, s: Tree, u: Tree, ino: nat, p: seq<nat>)
    requires Grown(t, s, ino, p) && Grown(s, u, ino, p)
    ensures Grown(t, u, ino, p)
  {
    assert Between(t.at, u.at) == Between(t.at, s.at) + Between(s.at, u.at);
  }

  lemma GrownByOne(t: Tree, q: Pos, b: nat, p: seq<nat>)
    requires TreeOk(t) && Slot(t, q) && q !in t.at && 0 < b < |t.blocks| && b !in t.used && q.path <= p
    ensures Grown(t, Added(t, q, b), q.ino, p)
  {
    var s := Added(t, q, b);
    assert Between(t.at, s.at) == {b};
    forall r | r in t.at && |r.path| > 0 && IsFull(r.path)
      ensures t.at[r] < |t.blocks| && t.at[r] < |s.blocks| && s.blocks[t.at[r]] == t.blocks[t.at[r]]
    {
      assert NodeOk(t, r);
      if |q.path| > 1 { assert Differ(t, r, Parent(q)); }
    }
  }

  lemma {:induction false} PrefixesArePresent(t: Tree, q: Pos, k: nat)
    requires TreeOk(t) && q in t.at && 0 < k <= |q.path|
    ensures Pos(q.ino, q.path[..k]) in t.at
    decreases |q.path|
  {
    assert NodeOk(t, q);
    if k == |q.path| {
      assert q.path[..k] == q.path;
    } else {
      PrefixesArePresent(t, Parent(q), k);
      assert Parent(q).path[..k] == q.path[..k];
    }
  }

  /** GetBlock changes the block of no other logical block, of this inode or another. */
  lemma OtherNumbersKept(t: Tree, s: Tree, ino: nat, n: nat, other: nat, m: nat)
    requires t.e > 0 && Grown(t, s, ino, Path(t.e, n)) && n < Limit(t.e) && m < Limit(t.e) && (other != ino || m != n)
    ensures Get(s.at, Pos(other, Path(t.e, m))) == Get(t.at, Pos(other, Path(t.e, m)))
  {
    var q := Pos(other, Path(t.e, m));
    if q in s.at && q !in t.at { FullPrefix(t.e, m, n); }
  }

  /** The positions of one inode. */
  ghost function PathsOf(t: Tree, ino: nat): set<seq<nat>> {
    set q | q in t.at && q.ino == ino :: q.path
  }

  /** When GetBlock finds its block, the tree has grown by exactly the positions on the way to it. */
  lemma GrowsByPrefixes(t: Tree, s: Tree, ino: nat, p: seq<nat>)
    requires Grown(t, s, ino, p) && TreeOk(s) && Pos(ino, p) in s.at
    ensures PathsOf(s, ino) == PathsOf(t, ino) + Prefixes(p)
  {
    forall q | q in PathsOf(s, ino) ensures q in PathsOf(t, ino) + Prefixes(p) {
      assert Pos(ino, q) in s.at;
      if Pos(ino, q) !in t.at {
        assert NodeOk(s, Pos(ino, q));
        assert q == p[..|q|];
      }
    }
    forall q | q in Prefixes(p) ensures q in PathsOf(s, ino) {
      var k :| 0 < k <= |p| && q == p[..k];
      PrefixesArePresent(s, Pos(ino, p), k);
      assert Pos(ino, q) in s.at;
    }
    forall q | q in PathsOf(t, ino) ensures q in PathsOf(s, ino) {
      assert Pos(ino, q) in t.at && Pos(ino, q) in s.at;
    }
  }

  /**
   `s` is `t` without some blocks of inode `ino`, all strictly below `p` and all
   numbered `from` or more; exactly those became free.
   */
  ghost predicate Pruned(t: Tree, s: Tree, ino: nat, p: seq<nat>, from: nat) {
    && SameVolume(t, s) && Extends(s.at, t.at) && DataKept(s.at, t.blocks, s.blocks)
    && (forall q {:trigger q in s.at} | q in t.at && q !in s.at ::
          q.ino == ino && p <= q.path && p != q.path && IsPath(t.e, q.path) && First(t.e, q.path) >= from)
    && Between(s.at, t.at) <= t.used && s.used == t.used - Between(s.at, t.at)
  }

  lemma PrunedSelf(t: Tree, ino: nat, p: seq<nat>, from: nat)
    requires TreeOk(t)
    ensures Pruned(t, t, ino, p, from)
  {
    forall r | r in t.at ensures t.at[r] < |t.blocks| { assert NodeOk(t, r); }
    assert Between(t.at, t.at) == {};
  }

  lemma PrunedTwice(t: Tree, s: Tree, u: Tree, ino: nat, p: seq<nat>, p': seq<nat>, from: nat)
    requires Pruned(t, s, ino, p, from) && Pruned(s, u, ino, p', from) && p <= p'
    ensures Pruned(t, u, ino, p, from)
  {
    assert Between(u.at, t.at) == Between(s.at, t.at) + Between(u.at, s.at);
    forall q | q in t.at && q !in u.at
      ensures q.ino == ino && p <= q.path && p != q.path && IsPath(t.e, q.path) && First(t.e, q.path) >= from
    {
      if q in s.at {
        assert p' <= q.path && p' != q.path;
      }
    }
  }

  lemma PrunedByOne(t: Tree, q: Pos, p: seq<nat>, from: nat)
    requires TreeOk(t) && q in t.at && p <= q.path && p != q.path && IsPath(t.e, q.path) && First(t.e, q.path) >= from
    ensures Pruned(t, Removed(t, q), q.ino, p, from)
  {
    var s := Removed(t, q);
    assert NodeOk(t, q) && Between(s.at, t.at) == {t.at[q]};
    forall r | r in s.at && |r.path| > 0 && IsFull(r.path)
      ensures s.at[r] < |t.blocks| && s.at[r] < |s.blocks| && s.blocks[s.at[r]] == t.blocks[s.at[r]]
    {
      assert NodeOk(t, r);
      if |q.path| > 1 { assert Differ(t, r, Parent(q)); }
    }
  }

  /** `s` is `t` without some blocks at or below `c`. */
  ghost predicate OnlyBelow(t: Tree, s: Tree, c: Pos) {
    forall r {:trigger r in s.at} | r in t.at && r !in s.at :: r.ino == c.ino && c.path <= r.path
  }

  /** Removing what is below entry `i`, then the entry. */
  lemma PrunedOnce(t: Tree, s: Tree, u: Tree, q: Pos, i: nat, from: nat)
    requires Pruned(t, s, q.ino, Child(q, i).path, from) && Child(q, i) in s.at && TreeOk(s)
    requires u == Removed(s, Child(q, i)) && Pruned(s, u, q.ino, q.path, from)
    ensures Pruned(t, u, q.ino, q.path, from) && OnlyBelow(t, u, Child(q, i)) && Child(q, i) !in u.at && Extends(u.at, t.at)
  {
    var c := Child(q, i);
    assert Between(u.at, t.at) == Between(s.at, t.at) + Between(u.at, s.at);
    forall r | r in t.at && r !in u.at
      ensures r.ino == q.ino && c.path <= r.path && IsPath(t.e, r.path) && First(t.e, r.path) >= from
    {
      if r in s.at { assert r == c; }
    }
  }

  /** Such a change leaves the other entries alone. */
  lemma OtherEntries(t: Tree, u: Tree, q: Pos, i: nat)
    requires OnlyBelow(t, u, Child(q, i)) && Child(q, i) !in u.at && Extends(u.at, t.at)
    ensures q in t.at ==> q in u.at
    ensures forall j: nat {:trigger Child(q, j)} :: Child(q, j) in u.at <==> j != i && Child(q, j) in t.at
  {
    var c := Child(q, i);
    forall j: nat ensures Child(q, j) in u.at <==> j != i && Child(q, j) in t.at {
      assert Child(q, j).path[|q.path|] == j && c.path[|q.path|] == i;
    }
  }

  /** `s` is `t` without some blocks below slots `lo` to `hi - 1` of inode `ino`, no data block numbered below `from` among them. */
  ghost predicate Trimmed(t: Tree, s: Tree, ino: nat, from: nat, lo: nat, hi: nat) {
    && Pruned(t, s, ino, [], 0)
    && forall q {:trigger q in s.at} | q in t.at && q !in s.at ::
      lo <= q.path[0] < hi && (IsFull(q.path) ==> First(t.e, q.path) >= from)
  }

  lemma TrimmedTwice(t: Tree, s: Tree, u: Tree, ino: nat, from: nat, lo: nat, mid: nat, hi: nat)
    requires Trimmed(t, s, ino, from, lo, mid) && Trimmed(s, u, ino, from, mid, hi) && lo <= mid <= hi
    ensures Trimmed(t, u, ino, from, lo, hi)
  {
    PrunedTwice(t, s, u, ino, [], [], 0);
  }

  /** No block of inode `ino` is left below slot `i`. */
  ghost predicate SlotEmpty(t: Tree, ino: nat, i: nat) {
    forall q {:trigger q in t.at} | q in t.at && q.ino == ino && |q.path| > 0 :: q.path[0] != i
  }

  lemma NothingBelowEmptySlot(t: Tree, ino: nat, i: nat)
    requires TreeOk(t)
    ensures Pos(ino, [i]) !in t.at <==> SlotEmpty(t, ino, i)
  {
    forall q | q in t.at && q.ino == ino && |q.path| > 0 && q.path[0] == i ensures Pos(ino, [i]) in t.at {
      PrefixesArePresent(t, q, 1);
      assert q.path[..1] == [i];
    }
  }

  lemma TrimmedSlots(t: Tree, s: Tree, ino: nat, from: nat, lo: nat, hi: nat, i: nat)
    requires Trimmed(t, s, ino, from, lo, hi) && !(lo <= i < hi)
    ensures SlotEmpty(t, ino, i) <==> SlotEmpty(s, ino, i)
  {
    forall q | q in t.at && q.ino == ino && |q.path| > 0 && q.path[0] == i ensures q in s.at {}
    forall q | q in s.at ensures q in t.at {}
  }

  ghost function BlocksAt(at: map<Pos, nat>, qs: set<Pos>): set<nat> {
    set q | q in qs && q in at :: at[q]
  }

  lemma {:induction false} BlocksCount(t: Tree, qs: set<Pos>)
    requires TreeOk(t) && qs <= t.at.Keys
    ensures |BlocksAt(t.at, qs)| == |qs|
    decreases |qs|
  {
    if qs != {} {
      var q :| q in qs;
      var rest := qs - {q};
      BlocksCount(t, rest);
      forall r | r in rest ensures t.at[r] != t.at[q] { assert Differ(t, r, q); }
      assert BlocksAt(t.at, qs) == BlocksAt(t.at, rest) + {t.at[q]};
    }
  }

  lemma BetweenIs(small: map<Pos, nat>, large: map<Pos, nat>)
    ensures Between(small, large) == BlocksAt(large, large.Keys - small.Keys)
  {
  }

  lemma TakenCount(used: set<nat>, gone: set<nat>)
    requires gone <= used
    ensures |used - gone| + |gone| == |used|
  {
    assert used == (used - gone) + gone;
  }

  /** Freed blocks are counted by the positions they were freed from. */
  lemma PrunedCounts(t: Tree, s: Tree, ino: nat)
    requires TreeOk(t) && Pruned(t, s, ino, [], 0)
    ensures |s.used| + |t.at.Keys - s.at.Keys| == |t.used|
  {
    BetweenIs(s.at, t.at);
    BlocksCount(t, t.at.Keys - s.at.Keys);
    TakenCount(t.used, Between(s.at, t.at));
  }

  /** An inode is empty exactly when all its slots are. */
  lemma AllSlotsEmpty(t: Tree, ino: nat)
    requires TreeOk(t) && ino in t.inodes
    ensures PathsOf(t, ino) == {} <==> forall i: nat {:trigger SlotEmpty(t, ino, i)} | i < SLOTS :: SlotEmpty(t, ino, i)
  {
    if PathsOf(t, ino) == {} {
      forall q | q in t.at ensures q.ino != ino { PathsAre(t, q); }
    } else {
      var q :| q in PathsOf(t, ino);
      assert Pos(ino, q) in t.at && NodeOk(t, Pos(ino, q));
      assert !SlotEmpty(t, ino, q[0]);
    }
  }

  lemma PathsAre(t: Tree, q: Pos)
    requires q in t.at
    ensures q.path in PathsOf(t, q.ino)
  {
  }

  lemma SlotIsZero(t: Tree, ino: nat, i: nat)
    requires TreeOk(t) && ino in t.inodes && i < SLOTS
    ensures SlotEmpty(t, ino, i) <==> t.inodes[ino][i] == 0
  {
    NothingBelowEmptySlot(t, ino, i);
    assert RootOk(t, ino, i);
    if Pos(ino, [i]) in t.at { assert NodeOk(t, Pos(ino, [i])); }
  }

  /** The whole tree is gone exactly when no direct slot past the old size was in use. */
  lemma EmptiedWhen(t: Tree, s: Tree, ino: nat, oldBlocks: nat)
    requires TreeOk(t) && TreeOk(s) && ino in t.inodes && ino in s.inodes && 0 < oldBlocks
    requires forall i: nat {:trigger SlotEmpty(s, ino, i)} | i < SLOTS ::
               SlotEmpty(s, ino, i) <==> i < oldBlocks || DIRECT <= i || SlotEmpty(t, ino, i)
    ensures PathsOf(s, ino) == {} <==> forall i: nat | oldBlocks <= i < DIRECT :: t.inodes[ino][i] == 0
  {
    AllSlotsEmpty(s, ino);
    forall i: nat | oldBlocks <= i < DIRECT ensures SlotEmpty(s, ino, i) <==> t.inodes[ino][i] == 0 { SlotIsZero(t, ino, i); }
  }

  lemma EmptiedOf(t: Tree, s: Tree, ino: nat)
    requires Pruned(t, s, ino, [], 0) && PathsOf(s, ino) == {}
    ensures t.at.Keys - s.at.Keys == set q | q in t.at && q.ino == ino
  {
    forall q | q in s.at ensures q.ino != ino { PathsAre(s, q); }
  }

  /** What FreeIndirect has made of `t` after the first `n` entries of the table at `q`. */
  ghost predicate Swept(t: Tree, s: Tree, q: Pos, from: nat, n: nat, any: bool) {
    && TreeOk(s) && Pruned(t, s, q.ino, q.path, from) && q in s.at
    && (forall i: nat {:trigger Child(q, i)} | i < n && Child(q, i) in s.at ::
          IsPath(s.e, Child(q, i).path) && First(s.e, Child(q, i).path) < from)
    && (forall r {:trigger r in s.at} | r in t.at && r !in s.at :: Late(s.e, r.path, |q.path|, from))
    && (any <==> exists i: nat {:trigger Child(q, i)} :: i < n && Child(q, i) in s.at)
  }

  lemma SweptStays(t: Tree, s: Tree, q: Pos, from: nat, i: nat, any: bool)
    requires Swept(t, s, q, from, i, any) && IsPath(s.e, Child(q, i).path)
    requires Child(q, i) in s.at ==> First(s.e, Child(q, i).path) < from
    ensures Swept(t, s, q, from, i + 1, any || Child(q, i) in s.at)
  {
  }

  lemma SweptGoes(t: Tree, s: Tree, u: Tree, q: Pos, from: nat, i: nat, any: bool)
    requires Swept(t, s, q, from, i, any) && TreeOk(u) && Pruned(s, u, q.ino, q.path, from) && q in u.at
    requires IsPath(s.e, Child(q, i).path) && First(s.e, Child(q, i).path) >= from && OnlyBelow(s, u, Child(q, i))
    requires forall j: nat {:trigger Child(q, j)} :: Child(q, j) in u.at <==> j != i && Child(q, j) in s.at
    ensures Swept(t, u, q, from, i + 1, any)
  {
    PrunedTwice(t, s, u, q.ino, q.path, q.path, from);
    forall r | r in t.at && r !in u.at ensures Late(s.e, r.path, |q.path|, from) {
      if r in s.at { assert r.path[..|q.path| + 1] == Child(q, i).path; }
    }
  }

  /**
   Whether Truncate from `old` to `new` blocks keeps the block at `q`: it goes by
   the entry of the inode's own slot, or of the table in that slot, alone.
   */
  ghost predicate Stays(t: Tree, q: Pos, was: nat, now: nat) {
    && |q.path| > 0
    && if q.path[0] < DIRECT then !(now <= q.path[0] < was)
       else if |q.path| == 1 then exists i: nat {:trigger Child(q, i)} :: i < t.e && Child(q, i) in t.at && !Late(t.e, Child(q, i).path, 1, now)
       else !Late(t.e, q.path, 1, now)
  }

  /** Below slots `lo` to `hi - 1` of inode `ino`, exactly those blocks are left. */
  ghost predicate Exact(t: Tree, s: Tree, ino: nat, lo: nat, hi: nat, was: nat, now: nat) {
    forall q {:trigger q in s.at} | q in t.at && q.ino == ino && |q.path| > 0 && lo <= q.path[0] < hi ::
      q in s.at <==> Stays(t, q, was, now)
  }

  lemma ExactTwice(t: Tree, s: Tree, u: Tree, ino: nat, lo: nat, mid: nat, hi: nat, was: nat, now: nat)
    requires Trimmed(t, s, ino, now, lo, mid) && Trimmed(s, u, ino, now, mid, hi)
    requires Exact(t, s, ino, lo, mid, was, now) && Exact(s, u, ino, mid, hi, was, now)
    ensures Exact(t, u, ino, lo, hi, was, now)
  {
    forall q | q in t.at && q.ino == ino && |q.path| > 0 && lo <= q.path[0] < hi
      ensures q in u.at <==> Stays(t, q, was, now)
    {
      if q.path[0] < mid {
        assert q in u.at <==> q in s.at;
      } else {
        assert q in s.at;
        forall i: nat ensures Child(q, i) in s.at <==> Child(q, i) in t.at { assert Child(q, i).path[0] == q.path[0]; }
      }
    }
  }

  lemma DirectsExact(t: Tree, s: Tree, ino: nat, was: nat, now: nat)
    requires TreeOk(t) && TreeOk(s) && Extends(s.at, t.at)
    requires forall i: nat | i < DIRECT :: SlotEmpty(s, ino, i) <==> now <= i < was || SlotEmpty(t, ino, i)
    ensures Exact(t, s, ino, 0, DIRECT, was, now)
  {
    forall q | q in t.at && q.ino == ino && |q.path| > 0 && q.path[0] < DIRECT
      ensures q in s.at <==> Stays(t, q, was, now)
    {
      assert NodeOk(t, q) && q == Pos(ino, [q.path[0]]);
      NothingBelowEmptySlot(s, ino, q.path[0]);
    }
  }

  /** A block below the table at `q` is left exactly when its entry of that table begins below `from`. */
  lemma SweptExact(t: Tree, s: Tree, q: Pos, from: nat, any: bool, r: Pos)
    requires TreeOk(t) && Swept(t, s, q, from, t.e, any) && |q.path| > 0
    requires r in t.at && r.ino == q.ino && q.path <= r.path && q.path != r.path
    ensures r in s.at <==> !Late(t.e, r.path, |q.path|, from)
  {
    if r in s.at {
      PrefixesArePresent(s, r, |q.path| + 1);
      assert NodeOk(s, r);
      var i := r.path[|q.path|];
      assert Pos(r.ino, r.path[..|q.path| + 1]) == Child(q, i);
    }
  }

  lemma TableExact(t: Tree, s: Tree, u: Tree, q: Pos, from: nat, any: bool, was: nat)
    requires TreeOk(t) && Swept(t, s, q, from, t.e, any) && |q.path| == 1 && q.path[0] >= DIRECT && q in t.at
    requires if any then u == s else q in s.at && u == Removed(s, q)
    ensures Exact(t, u, q.ino, q.path[0], q.path[0] + 1, was, from)
  {
    forall i: nat | Child(q, i) in t.at ensures Child(q, i) in s.at <==> !Late(t.e, Child(q, i).path, 1, from) {
      SweptExact(t, s, q, from, any, Child(q, i));
    }
    forall r | r in t.at && r.ino == q.ino && |r.path| > 0 && r.path[0] == q.path[0]
      ensures r in u.at <==> Stays(t, r, was, from)
    {
      if |r.path| == 1 {
        assert r == q;
      } else {
        SweptExact(t, s, q, from, any, r);
      }
    }
  }

  /** Which logical blocks Truncate leaves. */
  lemma BlockStays(t: Tree, s: Tree, ino: nat, n: nat, was: nat, now: nat)
    requires TreeOk(t) && Exact(t, s, ino, 0, SLOTS, was, now) && n < Limit(t.e) && Pos(ino, Path(t.e, n)) in t.at
    ensures Pos(ino, Path(t.e, n)) in s.at <==>
      if n < DIRECT then !(now <= n < was) else !Late(t.e, Path(t.e, n), 1, now)
  {
    PathOfNumber(t.e, n);
  }

  /**
   When block `now`, reached through a table, exists: Truncate to `now` blocks
   leaves nothing from there on exactly when `now` begins an entry.
   */
  lemma ShrinkIsClean(t: Tree, s: Tree, ino: nat, was: nat, now: nat)
    requires TreeOk(t) && Extends(s.at, t.at) && Exact(t, s, ino, 0, SLOTS, was, now)
    requires DIRECT <= now < Limit(t.e) && Pos(ino, Path(t.e, now)) in t.at
    ensures (forall n {:trigger Path(t.e, n)} | now <= n < Limit(t.e) :: Pos(ino, Path(t.e, n)) !in s.at) <==> AtEntry(t.e, now)
  {
    if AtEntry(t.e, now) {
      forall n | now <= n < Limit(t.e) ensures Pos(ino, Path(t.e, n)) !in s.at {
        LateWhen(t.e, now, n);
        if Pos(ino, Path(t.e, n)) in t.at { BlockStays(t, s, ino, n, was, now); }
      }
    } else {
      EarlyAt(t.e, now);
      BlockStays(t, s, ino, now, was, now);
    }
  }

  /** With 1024-byte blocks, a file cut down to 269 blocks keeps block 269 if it has one. */
  lemma ShrinkMayLeave(t: Tree, s: Tree, ino: nat, was: nat)
    requires TreeOk(t) && t.e == 256 && Extends(s.at, t.at) && Exact(t, s, ino, 0, SLOTS, was, 269)
    requires Pos(ino, Path(t.e, 269)) in t.at
    ensures Pos(ino, Path(t.e, 269)) in s.at
  {
    TimesIsProduct(256, 256);
    EarlyAt(256, 269);
    BlockStays(t, s, ino, 269, was, 269);
  }

  /** How many of the slots on the way to the block at `p`, from depth `k` on, are empty. */
  ghost function Missing(at: map<Pos, nat>, ino: nat, p: seq<nat>, k: nat): nat
    decreases |p| - k
  {
    if |p| <= k then 0 else (if Pos(ino, p[..k + 1]) in at then 0 else 1) + Missing(at, ino, p, k + 1)
  }

  lemma {:induction false} MissingKept(at: map<Pos, nat>, now: map<Pos, nat>, ino: nat, p: seq<nat>, j: nat, k: nat)
    requires j <= k && j <= |p| && forall q | q != Pos(ino, p[..j]) :: q in now <==> q in at
    ensures Missing(now, ino, p, k) == Missing(at, ino, p, k)
    decreases |p| - k
  {
    if k < |p| {
      assert |p[..k + 1]| != |p[..j]|;
      MissingKept(at, now, ino, p, j, k + 1);
    }
  }

  /** With nothing on the way but the last block missing or more, the last one is. */
  lemma {:induction false} MissingAll(at: map<Pos, nat>, ino: nat, p: seq<nat>, k: nat)
    ensures Missing(at, ino, p, k) <= if k < |p| then |p| - k else 0
    ensures Pos(ino, p) !in at && k < |p| ==> Missing(at, ino, p, k) > 0
    decreases |p| - k
  {
    if k < |p| {
      assert p[..|p|] == p;
      MissingAll(at, ino, p, k + 1);
    }
  }

  /** Nothing is below an empty slot. */
  lemma NoWay(t: Tree, ino: nat, p: seq<nat>, k: nat)
    requires TreeOk(t) && k < |p| && Pos(ino, p[..k + 1]) !in t.at
    ensures Pos(ino, p) !in t.at && Missing(t.at, ino, p, k) > 0
  {
    if Pos(ino, p) in t.at { PrefixesArePresent(t, Pos(ino, p), k + 1); }
  }

  /** The blocks of a volume of `n` that may be given out. */
  ghost function FreeIds(used: set<nat>, n: nat): set<nat> {
    set i {:trigger i in used} | 0 < i < n && i !in used
  }

  lemma TakesOne(used: set<nat>, n: nat, b: nat)
    requires 0 < b < n && b !in used
    ensures |FreeIds(used + {b}, n)| == |FreeIds(used, n)| - 1
  {
    assert FreeIds(used + {b}, n) == FreeIds(used, n) - {b};
  }

  lemma {:induction false} AllFree(n: nat)
    requires n > 0
    ensures |FreeIds({}, n)| == n - 1
  {
    if n > 1 {
      AllFree(n - 1);
      assert FreeIds({}, n) == FreeIds({}, n - 1) + {n - 1};
    }
  }

  lemma ChildFits(t: Tree, q: Pos, i: nat)
    requires TreeOk(t) && |q.path| > 0
    ensures Child(q, i) in t.at ==> |q.path| < Depth(q.path[0])
  {
    if Child(q, i) in t.at { assert NodeOk(t, Child(q, i)); }
  }

  lemma DataIsBare(t: Tree, q: Pos)
    requires TreeOk(t) && |q.path| > 0 && IsFull(q.path)
    ensures Bare(t, q)
  {
    forall i: nat | i < t.e ensures Child(q, i) !in t.at { ChildFits(t, q, i); }
  }

  class Volume {
    const e: nat
    var blocks: seq<seq<nat>>
    var used: set<nat>
    var inodes: map<nat, seq<nat>>
    /** How many more blocks the groups of the filesystem can be got to give. */
    var grants: nat
    ghost var at: map<Pos, nat>

    /** A volume whose inodes are all empty. */
    constructor (e: nat, size: nat, inos: set<nat>, grants: nat)
      requires e > 0
      ensures Valid() && this.e == e && |blocks| == size && inodes.Keys == inos && at == map[] && used == {} && this.grants == grants
    {
      this.e, this.grants := e, grants;
      blocks := seq(size, i => Zeros(e));
      used, at := {}, map[];
      inodes := map ino | ino in inos :: Zeros(SLOTS);
    }

    ghost function T(): Tree
      reads this
    {
      Tree(e, blocks, used, inodes, at)
    }

    ghost predicate Valid()
      reads this
    {
      TreeOk(T())
    }

    /** How many blocks can be had. */
    ghost function Available(): nat
      reads this
    {
      if grants <= |FreeIds(used, |blocks|)| then grants else |FreeIds(used, |blocks|)|
    }

    /** Filesystem::AllocateBlock as its callers see it: a block that was free, or nothing when none can be had. */
    method AllocateBlock() returns (b: nat)
      modifies this`used, this`grants
      ensures b == 0 <==> old(Available()) == 0
      ensures b == 0 ==> used == old(used) && grants == old(grants)
      ensures b != 0 ==> b < |blocks| && b !in old(used) && used == old(used) + {b} && Available() == old(Available()) - 1
    {
      b := 0;
      if grants == 0 { return; }
      var i := 1;
      while i < |blocks| && i in used
        invariant 1 <= i && forall j | 0 < j < i && j < |blocks| :: j in used
      {
        i := i + 1;
      }
      if |blocks| <= i {
        assert FreeIds(used, |blocks|) == {};
        return;
      }
      TakesOne(used, |blocks|, i);
      used, grants := used + {i}, grants - 1;
      b := i;
    }

    /** Filesystem::FreeBlock: freeing a block twice is not allowed. */
    method FreeBlock(b: nat)
      requires b in used
      modifies this`used
      ensures used == old(used) - {b}
    {
      used := used - {b};
    }

    /** The table that holds slot `q`: 0 stands for the slots of the inode itself. */
    ghost predicate Holder(table: nat, q: Pos)
      reads this
    {
      Slot(T(), q) && table == if |q.path| == 1 then 0 else at[Parent(q)]
    }

    method Entry(table: nat, index: nat, ino: nat, ghost q: Pos) returns (b: nat)
      requires Valid() && Holder(table, q) && ino == q.ino && index == Last(q.path)
      ensures b == Get(at, q) && (q in at ==> b > 0)
    {
      Joined(q);
      if q in at { assert NodeOk(T(), q); }
      if |q.path| > 1 { assert NodeOk(T(), Parent(q)); }
      if table == 0 {
        assert RootOk(T(), ino, index) && q.path == [index];
        b := inodes[ino][index];
      } else {
        assert EntryOk(T(), Parent(q), index);
        b := blocks[table][index];
      }
    }

    method SetEntry(table: nat, index: nat, ino: nat, b: nat, ghost q: Pos)
      requires Valid() && Holder(table, q) && ino == q.ino && index == Last(q.path)
      modifies this`blocks, this`inodes
      ensures T() == SetSlot(old(T()), q, b)
    {
      if |q.path| > 1 { assert NodeOk(T(), Parent(q)); }
      if table == 0 {
        inodes := inodes[ino := Put(inodes[ino], index, b)];
      } else {
        blocks := blocks[table := Put(blocks[table], index, b)];
      }
    }

    /** Inode::GetBlockFromTable. */
    method GetBlockFromTable(table: nat, index: nat, ino: nat, ghost q: Pos, ghost p: seq<nat>) returns (b: nat)
      requires Valid() && Holder(table, q) && ino == q.ino && index == Last(q.path) && q.path <= p
      modifies this
      ensures Valid() && b == Get(at, q) && (q in at ==> b > 0) && Grown(old(T()), T(), ino, p)
      ensures b == 0 <==> q !in old(at) && old(Available()) == 0
      ensures Available() == if q in old(at) || b == 0 then old(Available()) else old(Available()) - 1
      ensures forall r | r != q :: r in at <==> r in old(at)
    {
      b := Entry(table, index, ino, q);
      GrownSelf(T(), ino, p);
      if b == 0 {
        ghost var t := T();
        b := AllocateBlock();
        if b != 0 {
          SetEntryFresh(table, index, ino, b, q, t);
          GrownByOne(t, q, b, p);
        }
      }
    }

    method SetEntryFresh(table: nat, index: nat, ino: nat, b: nat, ghost q: Pos, ghost t: Tree)
      requires TreeOk(t) && T() == t.(used := t.used + {b}) && Slot(t, q) && q !in at && ino == q.ino && index == Last(q.path)
      requires table == (if |q.path| == 1 then 0 else at[Parent(q)])
      requires 0 < b < |blocks| && b !in t.used
      modifies this`blocks, this`inodes, this`at
      ensures T() == Added(t, q, b) && Valid()
    {
      AddedOk(t, q, b);
      if |q.path| > 1 { assert NodeOk(t, Parent(q)); }
      blocks := blocks[b := Zeros(e)];
      if table == 0 {
        inodes := inodes[ino := Put(inodes[ino], index, b)];
      } else {
        blocks := blocks[table := Put(blocks[table], index, b)];
      }
      at := at[q := b];
    }

    /** The way down from a table `level` levels above the data. */
    method Descend(table: nat, offset: nat, level: nat, ino: nat, ghost p: seq<nat>, ghost k: nat) returns (b: nat)
      requires Valid() && IsPath(e, p) && IsFull(p) && ino in inodes && level <= 3
      requires level + k + 1 == |p| && p[k..] == Expand(e, offset, level)
      requires if k == 0 then table == 0 else Pos(ino, p[..k]) in at && table == at[Pos(ino, p[..k])]
      modifies this
      ensures Valid() && Grown(old(T()), T(), ino, p) && b == Get(at, Pos(ino, p)) && (Pos(ino, p) in at ==> b > 0)
      ensures b != 0 <==> old(Missing(at, ino, p, k)) <= old(Available())
      decreases level
    {
      var index, rest := Step(offset, level, p, k);
      ghost var q := Pos(ino, p[..k + 1]);
      assert p[..k] == q.path[..k];
      b := GetBlockFromTable(table, index, ino, q, p);
      if b == 0 {
        NoWay(T(), ino, p, k);
        MissingKept(old(at), at, ino, p, k + 1, k + 1);
        return;
      }
      if level == 0 {
        assert p[..k + 1] == p;
        return;
      }
      MissingKept(old(at), at, ino, p, k + 1, k + 1);
      ghost var t := T();
      b := Descend(b, rest, level - 1, ino, p, k + 1);
      GrownTwice(old(T()), t, T(), ino, p);
    }

    /** The slot to follow from a table `level` levels above the data, and what is left of the offset. */
    method Step(offset: nat, level: nat, ghost p: seq<nat>, ghost k: nat) returns (index: nat, rest: nat)
      requires e > 0 && level <= 3 && level + k + 1 == |p| && p[k..] == Expand(e, offset, level)
      ensures index == p[k] && (level > 0 ==> p[k + 1..] == Expand(e, rest, level - 1))
    {
      var span := Below(level);
      index, rest := Divide(offset, span);
      assert index == p[k..][0] && p[k + 1..] == p[k..][1..];
    }

    method Below(level: nat) returns (n: nat)
      requires level <= 3
      ensures n == Power(e, level)
    {
      n := 1;
      if level > 0 { n := e; }
      if level > 1 { n := Multiply(e, e); }
      if level > 2 { n := Multiply(e, n); }
    }

    /**
     Inode::GetBlock. The result is the block of logical block `n`, 0 exactly if fewer
     blocks can be had than are missing on the way to it. Either way the invariant holds,
     positions already in use keep their blocks, and every new one is on that way.
     */
    method GetBlock(ino: nat, n: nat) returns (b: nat)
      requires Valid() && ino in inodes
      modifies this
      ensures Valid() && Grown(old(T()), T(), ino, Path(e, n))
      ensures n < Limit(e) ==> b == Get(at, Pos(ino, Path(e, n))) && (Pos(ino, Path(e, n)) in at ==> b > 0)
      ensures n < Limit(e) ==> (b != 0 <==> old(Missing(at, ino, Path(e, n), 0)) <= old(Available()))
      ensures n >= Limit(e) ==> b == 0 && T() == old(T())
    {
      var level, offset := Start(e, n);
      b := 0;
      GrownSelf(T(), ino, Path(e, n));
      if level < 4 {
        PathOfNumber(e, n);
        b := Descend(0, offset, level, ino, Path(e, n), 0);
      }
    }

    /** Freeing the block at `q` and clearing its slot. */
    method Release(table: nat, index: nat, ino: nat, b: nat, ghost q: Pos)
      requires Valid() && q in at && b == at[q] && Bare(T(), q) && Holder(table, q) && ino == q.ino && index == Last(q.path)
      modifies this
      ensures T() == Removed(old(T()), q) && Valid()
    {
      RemovedOk(T(), q);
      assert NodeOk(T(), q);
      SetEntry(table, index, ino, 0, q);
      FreeBlock(b);
      at := at - {q};
    }

    /**
     Inode::FreeIndirect on the table at `q`. No block numbered below `from` is
     freed, every entry that begins at `from` or later is, and the result says
     whether an entry is left.
     */
    method FreeIndirect(from: nat, offset: nat, id: nat, indirection: nat, span: nat, ino: nat, ghost q: Pos) returns (any: bool)
      requires Valid() && IsTable(T(), q) && id == at[q] && IsPath(e, q.path) && ino == q.ino
      requires |q.path| + indirection + 1 == Depth(q.path[0]) && offset == First(e, q.path) && span == Span(e, q.path)
      modifies this
      ensures Swept(old(T()), T(), q, from, e, any)
      decreases indirection, 3
    {
      any := false;
      PrunedSelf(T(), q.ino, q.path, from);
      var i := 0;
      while i < e
        invariant i <= e && Swept(old(T()), T(), q, from, i, any)
      {
        var left := FreeEntry(from, offset, id, indirection, span, i, ino, q, old(T()), any);
        any := any || left;
        i := i + 1;
      }
    }

    /** One entry of the table. */
    method FreeEntry(from: nat, offset: nat, id: nat, indirection: nat, span: nat, i: nat, ino: nat,
                     ghost q: Pos, ghost t: Tree, ghost any: bool) returns (left: bool)
      requires t.e == e && i < e && Swept(t, T(), q, from, i, any) && IsTable(t, q) && id == t.at[q] && IsPath(e, q.path)
      requires |q.path| + indirection + 1 == Depth(q.path[0]) && offset == First(e, q.path) && span == Span(e, q.path) && ino == q.ino
      modifies this
      ensures Swept(t, T(), q, from, i + 1, any || left)
      decreases indirection, 2
    {
      ghost var c := Child(q, i);
      assert Parent(c) == q && NodeOk(T(), q);
      FirstOfChild(e, q.path, i);
      var b := Entry(id, i, ino, c);
      left := b != 0;
      if left {
        var start := Multiply(i, span);
        start := offset + start;
        if from <= start {
          ghost var before := T();
          left := FreeChild(from, start, id, i, b, indirection, span, ino, q);
          SweptGoes(t, before, T(), q, from, i, any);
          return;
        }
      }
      SweptStays(t, T(), q, from, i, any);
    }

    /** An entry that begins at `from` or later. */
    method FreeChild(from: nat, start: nat, id: nat, i: nat, b: nat, indirection: nat, span: nat, ino: nat, ghost q: Pos)
      returns (left: bool)
      requires Valid() && IsTable(T(), q) && id == at[q] && IsPath(e, Child(q, i).path) && i < e && ino == q.ino
      requires Child(q, i) in at && b == at[Child(q, i)] && span == Span(e, q.path)
      requires |q.path| + indirection + 1 == Depth(q.path[0]) && from <= start == First(e, Child(q, i).path)
      modifies this
      ensures !left && Valid() && Pruned(old(T()), T(), ino, q.path, from) && q in at && OnlyBelow(old(T()), T(), Child(q, i))
      ensures forall j: nat {:trigger Child(q, j)} :: Child(q, j) in at <==> j != i && Child(q, j) in old(at)
      decreases indirection, 1
    {
      ghost var c := Child(q, i);
      assert Parent(c) == q && NodeOk(T(), q);
      left := FreeBelow(from, start, b, indirection, span, ino, c);
      ghost var between := T();
      PrunedByOne(between, c, q.path, from);
      if !left { Release(id, i, ino, b, c); }
      PrunedOnce(old(T()), between, T(), q, i, from);
      OtherEntries(old(T()), T(), q, i);
    }

    /** What hangs below an entry that begins at `from` or later goes, so that the entry can go too. */
    method FreeBelow(from: nat, start: nat, b: nat, indirection: nat, span: nat, ino: nat, ghost c: Pos) returns (left: bool)
      requires Valid() && c in at && b == at[c] && IsPath(e, c.path) && ino == c.ino && |c.path| > 1
      requires |c.path| + indirection == Depth(c.path[0]) && from <= start == First(e, c.path) && span == Span(e, Parent(c).path)
      modifies this
      ensures !left && Valid() && Pruned(old(T()), T(), ino, c.path, from) && c in at && Bare(T(), c)
      decreases indirection, 0
    {
      left := false;
      PrunedSelf(T(), ino, c.path, from);
      if indirection == 0 {
        DataIsBare(T(), c);
      } else {
        SpanOfChild(e, c.path);
        var narrower, _ := Divide(span, e);
        left := FreeIndirect(from, start, b, indirection - 1, narrower, ino, c);
        forall i: nat | i < e ensures First(e, c.path) <= First(e, Child(c, i).path) { FirstOfChild(e, c.path, i); }
      }
    }

    /** One of the direct slots. */
    method FreeDirect(ino: nat, i: nat, from: nat)
      requires Valid() && ino in inodes && from <= i < DIRECT
      modifies this
      ensures Valid() && Trimmed(old(T()), T(), ino, from, i, i + 1) && SlotEmpty(T(), ino, i)
    {
      ghost var q := Pos(ino, [i]);
      PrunedSelf(T(), ino, [], 0);
      var b := Entry(0, i, ino, q);
      if b != 0 {
        DataIsBare(T(), q);
        PrunedByOne(T(), q, [], 0);
        Release(0, i, ino, b, q);
      }
      NothingBelowEmptySlot(T(), ino, i);
    }

    method FreeDirects(ino: nat, from: nat, to: nat)
      requires Valid() && ino in inodes
      modifies this
      ensures Valid() && Trimmed(old(T()), T(), ino, from, 0, DIRECT) && Exact(old(T()), T(), ino, 0, DIRECT, to, from)
      ensures forall i: nat | i < DIRECT :: SlotEmpty(T(), ino, i) <==> from <= i < to || SlotEmpty(old(T()), ino, i)
    {
      PrunedSelf(T(), ino, [], 0);
      var i := from;
      while i < to && i < DIRECT
        invariant from <= i && (i <= DIRECT || i == from) && (i <= to || i == from) && Valid() && ino in inodes
        invariant Trimmed(old(T()), T(), ino, from, 0, if i <= DIRECT then i else DIRECT)
        invariant forall j: nat | j < DIRECT :: SlotEmpty(T(), ino, j) <==> from <= j < i || SlotEmpty(old(T()), ino, j)
      {
        ghost var t := T();
        FreeDirect(ino, i, from);
        TrimmedTwice(old(T()), t, T(), ino, from, 0, i, i + 1);
        forall j: nat | j < DIRECT && j != i ensures SlotEmpty(T(), ino, j) <==> SlotEmpty(t, ino, j) {
          TrimmedSlots(t, T(), ino, from, i, i + 1, j);
        }
        i := i + 1;
      }
      DirectsExact(old(T()), T(), ino, to, from);
    }

    /** The table in one of the three indirect slots. */
    method FreeTable(ino: nat, slot: nat, b: nat, from: nat, offset: nat, indirection: nat, span: nat, ghost oldBlocks: nat)
      requires Valid() && ino in inodes && DIRECT <= slot < SLOTS && indirection == slot - DIRECT
      requires Pos(ino, [slot]) in at && b == at[Pos(ino, [slot])] && offset == First(e, [slot]) && span == Span(e, [slot])
      modifies this
      ensures Valid() && Trimmed(old(T()), T(), ino, from, slot, slot + 1)
      ensures Exact(old(T()), T(), ino, slot, slot + 1, oldBlocks, from)
      ensures from <= offset ==> Pos(ino, [slot]) !in at
    {
      ghost var q := Pos(ino, [slot]);
      var any := FreeIndirect(from, offset, b, indirection, span, ino, q);
      forall i: nat | i < e ensures First(e, q.path) <= First(e, Child(q, i).path) { FirstOfChild(e, q.path, i); }
      ghost var t := T();
      if !any {
        PrunedByOne(t, q, [], 0);
        Release(0, slot, ino, b, q);
        PrunedTwice(old(T()), t, T(), ino, [], [], 0);
      }
      TableExact(old(T()), t, T(), q, from, any, oldBlocks);
    }

    /** One of the three indirect slots. */
    method FreeSlot(ino: nat, slot: nat, from: nat, offset: nat, indirection: nat, span: nat, ghost oldBlocks: nat)
      requires Valid() && ino in inodes && DIRECT <= slot < SLOTS && indirection == slot - DIRECT
      requires offset == First(e, [slot]) && span == Span(e, [slot])
      modifies this
      ensures Valid() && Trimmed(old(T()), T(), ino, from, slot, slot + 1)
      ensures Exact(old(T()), T(), ino, slot, slot + 1, oldBlocks, from)
      ensures from <= offset ==> SlotEmpty(T(), ino, slot)
    {
      PrunedSelf(T(), ino, [], 0);
      NothingBelowEmptySlot(T(), ino, slot);
      var b := Entry(0, slot, ino, Pos(ino, [slot]));
      if b != 0 { FreeTable(ino, slot, b, from, offset, indirection, span, oldBlocks); }
      NothingBelowEmptySlot(T(), ino, slot);
    }

    /**
     The block part of Inode::Truncate: no data block numbered below `newBlocks`
     is freed, and a block stays exactly as Stays says, which LateFrom compares
     with the numbers from `newBlocks` on.
     */
    method TruncateBlocks(ino: nat, oldBlocks: nat, newBlocks: nat)
      requires Valid() && ino in inodes && newBlocks <= oldBlocks && 0 < oldBlocks
      modifies this
      ensures Valid() && Trimmed(old(T()), T(), ino, newBlocks, 0, SLOTS)
      ensures Exact(old(T()), T(), ino, 0, SLOTS, oldBlocks, newBlocks)
      ensures newBlocks == 0 ==> forall i: nat {:trigger SlotEmpty(T(), ino, i)} | i < SLOTS ::
                SlotEmpty(T(), ino, i) <==> i < oldBlocks || DIRECT <= i || SlotEmpty(old(T()), ino, i)
    {
      FreeDirects(ino, newBlocks, oldBlocks);
      ghost var t1 := T();
      FreeSlot(ino, 12, newBlocks, DIRECT, 0, 1, oldBlocks);
      ghost var t2 := T();
      FreeSlot(ino, 13, newBlocks, DIRECT + e, 1, e, oldBlocks);
      ghost var t3 := T();
      var square := Multiply(e, e);
      FreeSlot(ino, 14, newBlocks, DIRECT + e + square, 2, square, oldBlocks);
      TrimmedTwice(old(T()), t1, t2, ino, newBlocks, 0, 12, 13);
      TrimmedTwice(old(T()), t2, t3, ino, newBlocks, 0, 13, 14);
      TrimmedTwice(old(T()), t3, T(), ino, newBlocks, 0, 14, 15);
      ExactTwice(old(T()), t1, t2, ino, 0, 12, 13, oldBlocks, newBlocks);
      ExactTwice(old(T()), t2, t3, ino, 0, 13, 14, oldBlocks, newBlocks);
      ExactTwice(old(T()), t3, T(), ino, 0, 14, 15, oldBlocks, newBlocks);
      if newBlocks == 0 {
        forall i: nat | i < SLOTS
          ensures SlotEmpty(T(), ino, i) <==> i < oldBlocks || DIRECT <= i || SlotEmpty(old(T()), ino, i)
        {
          if i != 12 { TrimmedSlots(t1, t2, ino, 0, 12, 13, i); }
          if i != 13 { TrimmedSlots(t2, t3, ino, 0, 13, 14, i); }
          if i != 14 { TrimmedSlots(t3, T(), ino, 0, 14, 15, i); }
        }
      }
    }

    /** Logical block `n` is too large a number, or missing together with more blocks on the way to it than can be had. */
    ghost predicate OutOfReach(ino: nat, n: nat)
      requires e > 0
      reads this
    {
      Limit(e) <= n || Available() < Missing(at, ino, Path(e, n), 0)
    }

    /**
     Inode::Truncate from `oldSize` to `newSize` bytes. A file that does not shrink is
     left alone. Otherwise the block that is cut in two is fetched to be zeroed, which
     allocates it if it is a hole, and is dereferenced even if there is none; `mid` is
     the tree in between.
     */
    method Truncate(ino: nat, oldSize: nat, newSize: nat) returns (trapped: bool, ghost mid: Tree)
      requires Valid() && ino in inodes
      modifies this
      ensures Valid() && ino in inodes
      ensures oldSize <= newSize ==> !trapped && T() == old(T())
      ensures trapped <==> newSize < oldSize && Rem(newSize, 4 * e) != 0 && old(OutOfReach(ino, Quot(newSize, 4 * e)))
      ensures newSize < oldSize && Rem(newSize, 4 * e) == 0 ==> mid == old(T())
      ensures newSize < oldSize && Rem(newSize, 4 * e) != 0 && !trapped ==>
                Grown(old(T()), mid, ino, Path(e, Quot(newSize, 4 * e))) && Pos(ino, Path(e, Quot(newSize, 4 * e))) in mid.at
      ensures newSize < oldSize && !trapped ==>
                var to, from := DivUp(newSize, 4 * e), DivUp(oldSize, 4 * e);
                Trimmed(mid, T(), ino, to, 0, SLOTS) && Exact(mid, T(), ino, 0, SLOTS, from, to)
    {
      mid, trapped := T(), false;
      if oldSize <= newSize { return; }
      var last, partial := Divide(newSize, 4 * e);
      if partial != 0 {
        var b := GetBlock(ino, last);
        if b == 0 { return true, T(); }
        mid := T();
      }
      var from := DivideUp(oldSize, 4 * e);
      var to := DivideUp(newSize, 4 * e);
      DivUpMono(newSize, oldSize, 4 * e);
      TruncateBlocks(ino, from, to);
    }

    /**
     Truncate to nothing. Of a file with bytes the whole tree is gone exactly when no
     direct slot past the old size is in use; then each of its blocks was freed once,
     and the free total has grown by their number. A file without bytes keeps its tree.
     */
    method TruncateToZero(ino: nat, oldSize: nat)
      requires Valid() && ino in inodes
      modifies this
      ensures Valid()
      ensures PathsOf(T(), ino) == {} <==>
                if oldSize == 0 then PathsOf(old(T()), ino) == {}
                else forall i: nat | DivUp(oldSize, 4 * e) <= i < DIRECT :: old(inodes[ino][i]) == 0
      ensures oldSize == 0 ==> T() == old(T())
      ensures |used| + |old(at.Keys) - at.Keys| == |old(used)|
      ensures oldSize > 0 && PathsOf(T(), ino) == {} ==> old(at.Keys) - at.Keys == set q | q in old(at) && q.ino == ino
    {
      if oldSize == 0 {
        assert at.Keys - at.Keys == {};
        return;
      }
      ghost var t := T();
      var blocks := DivideUp(oldSize, 4 * e);
      DivUpMono(0, oldSize, 4 * e);
      TruncateBlocks(ino, blocks, 0);
      EmptiedWhen(t, T(), ino, blocks);
      PrunedCounts(t, T(), ino);
      if PathsOf(T(), ino) == {} { EmptiedOf(t, T(), ino); }
    }
  }

  lemma WholeBlocks(n: nat)
    ensures Rem(n * 1024, 1024) == 0 && DivUp(n * 1024, 1024) == n
  {
    TimesIsProduct(n, 1024);
    QuotRemOf(n, 0, 1024);
  }

  /** A file of nothing but block 269, cut down to 269 blocks, keeps it. */
  method ShrinkLeaves() returns (v: Volume)
    ensures fresh(v) && v.Valid() && v.e == 256 && Pos(0, Path(256, 269)) in v.at
  {
    v := new Volume(256, 10, {0}, 10);
    var b := OnlyBlock(v, 269);
    ghost var t := v.T();
    WholeBlocks(270);
    WholeBlocks(269);
    var trapped, mid := v.Truncate(0, 270 * 1024, 269 * 1024);
    ShrinkMayLeave(t, v.T(), 0, 270);
  }

  /** A file of one byte with a block in a direct slot past it keeps it when it is cut down to nothing. */
  method EmptyKeeps() returns (v: Volume)
    ensures fresh(v) && v.Valid() && PathsOf(v.T(), 0) != {}
  {
    v := new Volume(256, 10, {0}, 10);
    var b := OnlyBlock(v, 5);
    assert Path(256, 5) == [5] && RootOk(v.T(), 0, 5);
    v.TruncateToZero(0, 1);
  }

  /** Cutting a file with holes in the middle of a block on a full volume dereferences no block. */
  method CutTraps() returns (v: Volume, trapped: bool)
    ensures fresh(v) && v.Valid() && trapped
  {
    v := new Volume(256, 10, {0}, 0);
    assert Quot(1, 1024) == 0 && Path(256, 0) == [0];
    ghost var mid;
    trapped, mid := v.Truncate(0, 2, 1);
  }

  /** The first block of a file on an empty volume. */
  method OnlyBlock(v: Volume, n: nat) returns (b: nat)
    requires v.Valid() && v.e == 256 && |v.blocks| == 10 && 0 in v.inodes && v.used == {} && v.grants == 10 && n < 300
    modifies v
    ensures v.Valid() && 0 in v.inodes && Pos(0, Path(256, n)) in v.at && b == v.at[Pos(0, Path(256, n))] > 0
  {
    TimesIsProduct(256, 256);
    AllFree(10);
    PathOfNumber(256, n);
    MissingAll(v.at, 0, Path(256, n), 0);
    b := v.GetBlock(0, n);
  }
}
