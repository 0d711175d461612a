/**
 Partitioning a disk: the scan that fills in the holes between partitions, the
 alignment of those holes to mebibytes, quantities as a user types them, and the
 placement of a new partition inside a hole.
 */
module DiskAreas {
  import opened Sequences
  const MIB := 0x10_0000
  const HALF := 0x8000_0000_0000_0000
  const WORD := 0x1_0000_0000_0000_0000

  /** A partition or a hole. */
  datatype Area = Area(start: int, length: int, part: bool)

  function End(a: Area): int {
    a.start + a.length
  }

  /** Each area ends before the next one begins. */
  ghost predicate Ordered(s: seq<Area>) {
    forall i, j {:trigger s[i], s[j]} | 0 <= i < j < |s| :: End(s[i]) <= s[j].start
  }

  /** The hole before position `to`, if there is room. */
  function Gap(from: int, to: int): seq<Area> {
    if from < to then [Area(from, to - from, false)] else []
  }

  /** The partitions with the holes between `last` and `end` filled in. */
  function Tile(parts: seq<Area>, last: int, end: int): seq<Area> {
    if parts == [] then Gap(last, end)
    else Gap(last, parts[0].start) + [parts[0]] + Tile(parts[1..], End(parts[0]), end)
  }

  /** Areas that follow one another without gaps from `a` to `b`. */
  ghost predicate Chained(s: seq<Area>, a: int, b: int) {
    if s == [] then a == b else s[0].start == a && s[0].length >= 0 && Chained(s[1..], End(s[0]), b)
  }

  /** Partitions in order, inside a range. */
  ghost predicate Layout(parts: seq<Area>, a: int, b: int) {
    a <= b && (parts == [] || (parts[0].part && a <= parts[0].start && parts[0].length >= 0 && Layout(parts[1..], End(parts[0]), b)))
  }

  function Keep(a: Area): seq<Area> {
    if a.part then [a] else []
  }

  function PartsOf(s: seq<Area>): seq<Area> {
    if s == [] then [] else Keep(s[0]) + PartsOf(s[1..])
  }

  lemma PartsCons(a: Area, s: seq<Area>)
    ensures PartsOf([a] + s) == Keep(a) + PartsOf(s)
  {
    assert ([a] + s)[1..] == s;
  }

  lemma {:induction false} PartsConcat(s: seq<Area>, t: seq<Area>)
    ensures PartsOf(s + t) == PartsOf(s) + PartsOf(t)
  {
    if s == [] {
      assert s + t == t;
    } else {
      PartsConcat(s[1..], t);
      assert s == [s[0]] + s[1..];
      Assoc([s[0]], s[1..], t);
      PartsCons(s[0], s[1..] + t);
      Assoc(Keep(s[0]), PartsOf(s[1..]), PartsOf(t));
    }
  }

  lemma ChainedCons(a: Area, s: seq<Area>, b: int)
    requires a.length >= 0 && Chained(s, End(a), b)
    ensures Chained([a] + s, a.start, b)
  {
    assert ([a] + s)[1..] == s;
  }

  /** A hole, if there is one, before a chain. */
  lemma GapFirst(last: int, p: Area, rest: seq<Area>, end: int)
    requires p.part && last <= p.start && p.length >= 0 && Chained(rest, End(p), end)
    ensures var t := Gap(last, p.start) + [p] + rest;
      Chained(t, last, end) && PartsOf(t) == [p] + PartsOf(rest)
  {
    ChainedCons(p, rest, end);
    PartsCons(p, rest);
    Assoc(Gap(last, p.start), [p], rest);
    if last < p.start {
      var g := Area(last, p.start - last, false);
      ChainedCons(g, [p] + rest, end);
      PartsCons(g, [p] + rest);
    } else {
      assert [] + ([p] + rest) == [p] + rest;
    }
  }

  /** The scan of a layout tiles the whole range, and its partitions are the partitions. */
  lemma {:induction false} TileCovers(parts: seq<Area>, last: int, end: int)
    requires Layout(parts, last, end)
    ensures Chained(Tile(parts, last, end), last, end) && PartsOf(Tile(parts, last, end)) == parts
    decreases |parts|
  {
    if parts != [] {
      var p, rest := parts[0], Tile(parts[1..], End(parts[0]), end);
      TileCovers(parts[1..], End(p), end);
      GapFirst(last, p, rest, end);
      assert parts == [p] + parts[1..];
    }
  }

  /** Chained areas are in order. */
  lemma {:induction false} ChainedOrdered(s: seq<Area>, a: int, b: int)
    requires Chained(s, a, b)
    ensures Ordered(s) && a <= b && forall i {:trigger s[i]} | 0 <= i < |s| :: a <= s[i].start && End(s[i]) <= b && s[i].length >= 0
    decreases |s|
  {
    if s != [] {
      ChainedOrdered(s[1..], End(s[0]), b);
      forall i | 0 <= i < |s| ensures a <= s[i].start && End(s[i]) <= b && s[i].length >= 0 {
        if i > 0 { assert s[i] == s[1..][i - 1]; }
      }
      forall i, j | 0 <= i < j < |s| ensures End(s[i]) <= s[j].start {
        assert s[j] == s[1..][j - 1];
        if i > 0 { assert s[i] == s[1..][i - 1]; }
      }
    }
  }

  /**
   The loop of scan_device. The sorted partitions are the last `n` elements of the
   array, the areas are written from element `off` on: no partition is overwritten
   before it is read.
   */
  method Scan(areas: array<Area>, n: nat, off: nat, usableStart: int, usableEnd: int) returns (count: nat)
    requires areas.Length == 2 * n + 1 + off
    modifies areas
    ensures off <= count <= areas.Length && areas[..off] == old(areas[..off])
    ensures areas[off..count] == Tile(old(areas[n + 1 + off..]), usableStart, usableEnd)
  {
    ghost var parts := areas[n + 1 + off..];
    var last, i := usableStart, 0;
    count := off;
    while i < n
      invariant 0 <= i <= n && off <= count <= off + 2 * i
      invariant areas[..off] == old(areas[..off]) && areas[n + 1 + off + i..] == parts[i..]
      invariant areas[off..count] + Tile(parts[i..], last, usableEnd) == Tile(parts, usableStart, usableEnd)
    {
      count, last := ScanOne(areas, n, off, count, i, last, usableEnd, parts, Tile(parts, usableStart, usableEnd));
      i := i + 1;
    }
    assert parts[n..] == [];
    if last < usableEnd {
      ghost var done := areas[off..count];
      areas[count] := Area(last, usableEnd - last, false);
      count := count + 1;
      assert areas[off..count] == done + Gap(last, usableEnd);
    }
  }

  /** One partition of the scan, with the hole before it. */
  method ScanOne(areas: array<Area>, n: nat, off: nat, count: nat, i: nat, last: int, usableEnd: int,
                 ghost parts: seq<Area>, ghost whole: seq<Area>) returns (count': nat, last': int)
    requires areas.Length == 2 * n + 1 + off && i < n == |parts| && off <= count <= off + 2 * i
    requires areas[n + 1 + off + i..] == parts[i..]
    requires areas[off..count] + Tile(parts[i..], last, usableEnd) == whole
    modifies areas
    ensures off <= count' <= off + 2 * i + 2
    ensures areas[..off] == old(areas[..off]) && areas[n + 1 + off + i + 1..] == parts[i + 1..]
    ensures areas[off..count'] + Tile(parts[i + 1..], last', usableEnd) == whole
  {
    ghost var done, p := areas[off..count], parts[i];
    assert areas[n + 1 + off + i] == p by { assert areas[n + 1 + off + i..][0] == parts[i..][0]; }
    count' := count;
    if last < areas[n + 1 + off + i].start {
      areas[count'] := Area(last, areas[n + 1 + off + i].start - last, false);
      count' := count' + 1;
    }
    areas[count'] := areas[n + 1 + off + i];
    count' := count' + 1;
    last' := End(areas[n + 1 + off + i]);
    assert areas[off..count'] == done + Gap(last, p.start) + [p];
    TileNext(done, parts, i, last, usableEnd);
    ghost var x, y, was := areas[n + 1 + off + i + 1..], parts[i + 1..], old(areas[n + 1 + off + i..]);
    forall k | 0 <= k < |y| ensures x[k] == y[k] { assert was[k + 1] == parts[i..][k + 1]; }
  }

  lemma TileNext(done: seq<Area>, parts: seq<Area>, i: nat, last: int, end: int)
    requires i < |parts|
    ensures done + Tile(parts[i..], last, end)
         == done + Gap(last, parts[i].start) + [parts[i]] + Tile(parts[i + 1..], End(parts[i]), end)
  {
    assert parts[i..][0] == parts[i] && parts[i..][1..] == parts[i + 1..];
  }

  // Alignment.

  /** Negation of a 64-bit word. */
  function Neg(x: nat): nat
    requires x < WORD
  {
    if x == 0 then 0 else WORD - x
  }

  /** A word without its low 20 bits. */
  function Masked(x: nat): nat {
    x - x % MIB
  }

  /** `-(-x & mask)` on words. */
  function AlignUp(x: nat): nat
    requires x < WORD
  {
    Neg(Masked(Neg(x)))
  }

  /** Below the top of the range that rounds up to the next multiple of a mebibyte. */
  lemma AlignUpRounds(x: nat)
    requires x <= HALF
    ensures AlignUp(x) % MIB == 0 && x <= AlignUp(x) < x + MIB
    ensures x % MIB == 0 ==> AlignUp(x) == x
  {
  }

  /** What alignment makes of one area: the partition itself, the aligned part of a hole, or nothing. */
  function Align(a: Area): seq<Area>
    requires 0 <= a.start < HALF
  {
    if a.part then [a]
    else
      var start := AlignUp(a.start);
      if a.length < start - a.start then []
      else
        var length := Masked(a.length - (start - a.start));
        if length == 0 then [] else [Area(start, length, false)]
  }

  predicate InRange(s: seq<Area>) {
    forall i {:trigger s[i]} | 0 <= i < |s| :: 0 <= s[i].start < HALF && s[i].length >= 0
  }

  function AlignAll(s: seq<Area>): seq<Area>
    requires InRange(s)
  {
    if s == [] then [] else AlignAll(s[..|s| - 1]) + Align(s[|s| - 1])
  }

  /** A hole on mebibyte boundaries, or a partition. */
  predicate Fine(a: Area) {
    a.part || (a.start % MIB == 0 && a.length % MIB == 0 && a.length > 0)
  }

  lemma AlignOne(a: Area)
    requires 0 <= a.start < HALF && a.length >= 0
    ensures |Align(a)| <= 1
    ensures |Align(a)| == 1 ==> var b := Align(a)[0]; Fine(b) && b.part == a.part && a.start <= b.start && End(b) <= End(a) && b.length >= 0
    ensures a.part ==> Align(a) == [a]
  {
    AlignUpRounds(a.start);
  }

  /** Areas in order between `low` and `high`. */
  ghost predicate Within(s: seq<Area>, low: int, high: int) {
    && Ordered(s)
    && forall i {:trigger s[i]} | 0 <= i < |s| :: low <= s[i].start && End(s[i]) <= high && s[i].length >= 0
  }

  ghost predicate AllFine(s: seq<Area>) {
    forall i {:trigger s[i]} | 0 <= i < |s| :: Fine(s[i])
  }

  lemma WithinMore(s: seq<Area>, x: seq<Area>, low: int, mid: int, high: int)
    requires Within(s, low, mid) && low <= mid <= high && |x| <= 1
    requires x != [] ==> mid <= x[0].start && End(x[0]) <= high && x[0].length >= 0
    ensures Within(s + x, low, high)
  {
  }

  /** After alignment the areas are in order and inside what they were, and holes are whole mebibytes. */
  lemma {:induction false} AlignAllFine(s: seq<Area>, low: int, high: int)
    requires InRange(s) && Within(s, low, high)
    ensures Within(AlignAll(s), low, high) && AllFine(AlignAll(s))
    decreases |s|
  {
    if s != [] {
      var n := |s| - 1;
      AlignOne(s[n]);
      AlignAllFine(s[..n], low, s[n].start);
      WithinMore(AlignAll(s[..n]), Align(s[n]), low, s[n].start, high);
    }
  }

  /** Partitions are untouched by alignment. */
  lemma {:induction false} AlignAllParts(s: seq<Area>)
    requires InRange(s)
    ensures PartsOf(AlignAll(s)) == PartsOf(s)
    decreases |s|
  {
    if s != [] {
      var n := |s| - 1;
      AlignAllParts(s[..n]);
      PartsConcat(s[..n], [s[n]]);
      assert s == s[..n] + [s[n]];
      PartsConcat(AlignAll(s[..n]), Align(s[n]));
      AlignParts(s[n]);
    }
  }

  lemma AlignParts(a: Area)
    requires 0 <= a.start < HALF && a.length >= 0
    ensures PartsOf([a]) == PartsOf(Align(a))
  {
    AlignOne(a);
    OneArea(a);
    if Align(a) != [] {
      assert Align(a) == [Align(a)[0]];
      OneArea(Align(a)[0]);
    }
  }

  lemma OneArea(a: Area)
    ensures PartsOf([a]) == Keep(a)
  {
    assert [a][1..] == [];
  }

  predicate UnfoldCompacted(x: bool) {
    true
  }

  /** Elements `i` and later are still those of `was`; the first `kept` are what alignment made of the elements before. */
  ghost predicate Compacted(areas: array<Area>, was: seq<Area>, i: nat, kept: nat)
    requires InRange(was)
    reads areas
  {
    && kept <= i <= |was| <= areas.Length
    && forall x | UnfoldCompacted(x) :: areas[i..|was|] == was[i..] && areas[..kept] == AlignAll(was[..i])
  }

  lemma CompactedEnds(areas: array<Area>, was: seq<Area>, kept: nat)
    requires InRange(was) && kept <= |was| <= areas.Length
    ensures areas[..|was|] == was ==> Compacted(areas, was, 0, 0)
    ensures Compacted(areas, was, |was|, kept) ==> areas[..kept] == AlignAll(was)
  {
    assert UnfoldCompacted(true);
    assert was[..0] == [] && was[0..] == was && was[..|was|] == was;
  }

  lemma AlignNext(was: seq<Area>, i: nat)
    requires InRange(was) && i < |was|
    ensures AlignAll(was[..i + 1]) == AlignAll(was[..i]) + Align(was[i])
  {
    assert was[..i + 1][..i] == was[..i] && was[..i + 1][i] == was[i];
  }

  /** One area of that loop, and whether it stays. */
  method AlignArea(a: Area) returns (b: Area, keep: bool)
    requires 0 <= a.start < HALF
    ensures Align(a) == if keep then [b] else []
  {
    b, keep := a, true;
    if !a.part {
      var start := AlignUp(a.start);
      keep := start - a.start <= a.length;
      if keep {
        AlignUpRounds(a.start);
        b := Area(start, Masked(a.length - (start - a.start)), false);
        keep := b.length != 0;
      }
    }
  }

  method CompactOne(areas: array<Area>, ghost was: seq<Area>, i: nat, kept: nat) returns (kept': nat)
    requires InRange(was) && i < |was| && Compacted(areas, was, i, kept)
    modifies areas
    ensures Compacted(areas, was, i + 1, kept')
  {
    assert UnfoldCompacted(true);
    ghost var done, rest := areas[..kept], areas[i..|was|];
    AlignNext(was, i);
    assert areas[i] == rest[0] == was[i];
    var a, keep := AlignArea(areas[i]);
    areas[i] := a;
    kept' := kept;
    if keep {
      if kept != i { areas[kept] := a; }
      kept' := kept + 1;
    }
    assert areas[..kept'] == done + Align(was[i]);
    ghost var x, y := areas[i + 1..|was|], was[i + 1..];
    forall k | 0 <= k < |y| ensures x[k] == y[k] { assert rest[k + 1] == was[i..][k + 1]; }
  }

  /** The second loop of scan_device aligns the holes and closes up the array in place. */
  method Compact(areas: array<Area>, count: nat) returns (kept: nat)
    requires count <= areas.Length && InRange(areas[..count])
    modifies areas
    ensures kept <= count && areas[..kept] == AlignAll(old(areas[..count]))
  {
    ghost var was := areas[..count];
    kept := 0;
    CompactedEnds(areas, was, 0);
    var i := 0;
    while i < count
      invariant 0 <= i <= count && Compacted(areas, was, i, kept)
    {
      kept := CompactOne(areas, was, i, kept);
      i := i + 1;
    }
    CompactedEnds(areas, was, kept);
  }

  // Quantities.

  datatype Size = Percent | Bytes | Kilo | Mega | Giga | Tera | Peta

  /** A 64-bit result as the machine computes it. */
  function Wrapped(x: int): (r: int)
    ensures -HALF <= r < HALF && (-HALF <= x < HALF ==> r == x)
  {
    var w := x % WORD;
    if w < HALF then w else w - WORD
  }

  function Factor(unit: Size): int {
    match unit
    case Percent => 1
    case Bytes => 1
    case Kilo => 0x400
    case Mega => 0x10_0000
    case Giga => 0x4000_0000
    case Tera => 0x100_0000_0000
    case Peta => 0x4_0000_0000_0000
  }

  /** Division by 100, which rounds towards zero. */
  function Hundredth(x: int): int {
    if x >= 0 then x / 100 else -(-x / 100)
  }

  /** The number of bytes a quantity comes to on the machine, before it is checked. */
  function Scaled(value: nat, unit: Size, max: int): (r: int)
    requires -HALF <= max < HALF
    ensures -HALF <= r < HALF
  {
    if unit != Percent then Wrapped(value * Factor(unit))
    else if value == 100 then max
    else Hundredth(Wrapped(max * value))
  }

  /** `-(-x & mask)` on words, for a value that may be negative. */
  function AlignSigned(x: int): int
    requires -HALF <= x < HALF
  {
    var a := AlignUp(if x < 0 then WORD + x else x);
    if a < HALF then a else a - WORD
  }

  lemma AlignSignedRounds(x: int)
    requires -HALF <= x <= HALF - MIB
    ensures AlignSigned(x) % MIB == 0 && x <= AlignSigned(x) < x + MIB
  {
  }

  lemma AlignSignedTop(x: int)
    requires HALF - MIB < x < HALF
    ensures AlignSigned(x) == -HALF
  {
  }

  datatype Quantity = Bad | Good(bytes: int)

  /** A quantity as typed: its digits, whether it counts from the end, and its unit. */
  datatype Typed = Typed(value: nat, fromEnd: bool, unit: Size)

  /** The sign is looked for in the value, where that of 0 is lost. */
  predicate Back(q: Typed) {
    q.fromEnd && q.value > 0
  }

  /** parse_disk_quantity after the digits, the sign and the unit are read; the letter of bytes is left unread and refused. */
  function Read(q: Typed, max: int): Quantity
    requires -HALF <= max < HALF
  {
    if q.value >= HALF || q.unit == Bytes || (q.unit == Percent && 100 < q.value) then Bad
    else
      var v := Scaled(q.value, q.unit, max);
      if max < v then Bad
      else Good(AlignSigned(if Back(q) then Wrapped(max - v) else v))
  }

  /** The number of bytes typed. */
  function Asked(q: Typed, max: int): int {
    if q.unit == Percent then max * q.value / 100 else q.value * Factor(q.unit)
  }

  /** The next multiple of a mebibyte. */
  function RoundUp(x: int): int {
    x + (-x) % MIB
  }

  /** What the quantity means against `max` bytes: the number typed, from either end, rounded up, if there are as many. */
  function Meant(q: Typed, max: int): Quantity {
    if (q.unit == Percent && 100 < q.value) || max < Asked(q, max) then Bad
    else Good(RoundUp(if q.fromEnd then max - Asked(q, max) else Asked(q, max)))
  }

  /** The machine gets it right: the product fits, or wraps to something too large, bytes are too many anyway, and nothing is not asked for from the end. */
  predicate Exact(q: Typed, max: int) {
    && (q.fromEnd && q.value == 0 ==> max == 0)
    && (|| q.value >= HALF
        || match q.unit
           case Percent => q.value >= 100 || max * q.value < HALF
           case Bytes => max < q.value
           case _ =>
             var product := q.value * Factor(q.unit);
             product < HALF || max < product % WORD < HALF)
  }

  /** A quantity is read as what it means exactly then. */
  lemma ReadMeans(q: Typed, max: int)
    requires 0 <= max <= HALF - MIB && max % MIB == 0
    ensures Read(q, max) == Meant(q, max) <==> Exact(q, max)
  {
    if q.fromEnd && q.value == 0 {
      AlignSignedRounds(0);
      RoundUpRounds(max);
    } else if q.value < HALF && !(q.unit == Percent && 100 < q.value) {
      if q.unit == Percent {
        if q.value < 100 {
          MulMono(q.value, 99, max);
          PercentMeans(q, max, max * q.value);
        } else {
          assert max * 100 / 100 == max;
          AmountMeans(q.fromEnd, max, max);
        }
      } else if q.unit != Bytes {
        UnitMeans(q, max, q.value * Factor(q.unit));
      }
    }
  }

  /** Rounding on the machine, of an amount that fits. */
  lemma AmountMeans(fromEnd: bool, a: int, max: int)
    requires 0 <= a <= max <= HALF - MIB && max % MIB == 0
    ensures AlignSigned(if fromEnd then Wrapped(max - a) else a) == RoundUp(if fromEnd then max - a else a)
    ensures 0 <= RoundUp(a) <= max && 0 <= RoundUp(max - a) <= max
  {
    var x := if fromEnd then max - a else a;
    AlignSignedRounds(x);
    RoundUpRounds(x);
    RoundUpRounds(a);
    RoundUpRounds(max - a);
    SameMultiple(AlignSigned(x), RoundUp(x), x);
    NoneBetween(RoundUp(a), max);
    NoneBetween(RoundUp(max - a), max);
  }

  lemma RoundUpRounds(x: int)
    ensures RoundUp(x) % MIB == 0 && x <= RoundUp(x) < x + MIB
  {
  }

  lemma NoneBetween(m: int, max: int)
    requires m % MIB == 0 && max % MIB == 0 && m < max + MIB
    ensures m <= max
  {
  }

  lemma SameMultiple(m: int, k: int, x: int)
    requires m % MIB == 0 && k % MIB == 0 && x <= m < x + MIB && x <= k < x + MIB
    ensures m == k
  {
    if m < k { NoneBetween(k, m); } else { NoneBetween(m, k); }
  }

  lemma UnitMeans(q: Typed, max: int, product: int)
    requires 0 <= max <= HALF - MIB && max % MIB == 0 && q.value < HALF && q.unit != Bytes && q.unit != Percent
    requires product == q.value * Factor(q.unit) >= 0 && (q.fromEnd ==> Back(q))
    ensures Read(q, max) == Meant(q, max) <==> product < HALF || max < product % WORD < HALF
  {
    if product <= max { AmountMeans(q.fromEnd, product, max); }
  }

  lemma PercentMeans(q: Typed, max: int, product: int)
    requires 0 <= max <= HALF - MIB && max % MIB == 0 && q.unit == Percent && q.value < 100
    requires product == max * q.value && 0 <= product <= 99 * max && (q.fromEnd ==> Back(q))
    ensures Read(q, max) == Meant(q, max) <==> product < HALF
  {
    var a, v := product / 100, Hundredth(Wrapped(product));
    if product < HALF {
      AmountMeans(q.fromEnd, a, max);
    } else {
      WrappedLess(product);
      FarApart(q.fromEnd, max, a, v);
    }
  }

  /** A percentage that wraps is read as something else. */
  lemma FarApart(fromEnd: bool, max: int, a: int, v: int)
    requires 0 <= a <= max <= HALF - MIB && -HALF / 100 <= v <= HALF / 100 && v <= a - WORD / 100 + 2
    ensures AlignSigned(if fromEnd then Wrapped(max - v) else v) != RoundUp(if fromEnd then max - a else a)
  {
    if fromEnd {
      var w := Wrapped(max - v);
      RoundUpRounds(max - a);
      if w <= HALF - MIB { AlignSignedRounds(w); } else { AlignSignedTop(w); }
    } else {
      AlignSignedRounds(v);
      RoundUpRounds(a);
    }
  }

  lemma WrappedLess(x: int)
    requires HALF <= x
    ensures Wrapped(x) <= x - WORD
  {
  }

  /** A quantity that is accepted although the product wraps around to nothing. */
  lemma WrapsToNothing(max: int)
    requires 0 <= max <= HALF - MIB && max % MIB == 0
    ensures Read(Typed(16384, false, Peta), max) == Good(0) && Meant(Typed(16384, false, Peta), max) == Bad
  {
    assert 16384 * Factor(Peta) == WORD;
  }

  /** Nothing from the end is read as nothing from the start. */
  lemma NothingFromEnd(max: int)
    requires 0 < max <= HALF - MIB && max % MIB == 0
    ensures Read(Typed(0, true, Mega), max) == Good(0) && Meant(Typed(0, true, Mega), max) == Good(max)
  {
    AlignSignedRounds(0);
    RoundUpRounds(max);
  }

  /** The condition on a quantity that keeps its result inside the hole it is measured against. */
  predicate Fits(q: Typed, max: int)
    requires -HALF <= max < HALF
  {
    if q.fromEnd then Scaled(q.value, q.unit, max) >= 0 else Scaled(q.value, q.unit, max) > -MIB
  }

  /** A quantity that is accepted is a whole number of mebibytes, and lies in the hole exactly when its scaled value did not wrap below zero. */
  lemma ReadInHole(q: Typed, max: int)
    requires 0 <= max <= HALF - MIB && max % MIB == 0 && Read(q, max).Good?
    ensures var b := Read(q, max).bytes; b % MIB == 0 && (0 <= b <= max <==> Fits(q, max))
  {
    var v := Scaled(q.value, q.unit, max);
    if Back(q) { BackInHole(v, max); } else { ForthInHole(v, max); }
  }

  lemma ForthInHole(v: int, max: int)
    requires -HALF <= v <= max <= HALF - MIB && 0 <= max && max % MIB == 0
    ensures AlignSigned(v) % MIB == 0 && (0 <= AlignSigned(v) <= max <==> v > -MIB)
  {
    AlignSignedRounds(v);
  }

  lemma BackInHole(v: int, max: int)
    requires -HALF <= v <= max <= HALF - MIB && 0 <= max && max % MIB == 0
    ensures AlignSigned(Wrapped(max - v)) % MIB == 0 && (0 <= AlignSigned(Wrapped(max - v)) <= max <==> v >= 0)
  {
    var w := Wrapped(max - v);
    assert w == if max - v < HALF then max - v else max - v - WORD;
    if w <= HALF - MIB { AlignSignedRounds(w); } else { AlignSignedTop(w); }
  }

  /** The product stays below 2 to the 63, against a disk of `size` bytes or less, or the quantity is refused. */
  predicate Tame(q: Typed, size: int) {
    || q.unit == Bytes || q.value >= HALF
    || if q.unit == Percent then size * q.value < HALF else q.value * Factor(q.unit) < HALF
  }

  /** Then what is read lies inside the hole. */
  lemma TameFits(q: Typed, max: int, size: int)
    requires 0 <= max <= size < HALF && Tame(q, size) && Read(q, max).Good?
    ensures Fits(q, max)
  {
    if q.unit == Percent {
      MulMono(max, size, q.value);
      MulMono(0, max, q.value);
    }
    ScaledPlain(q, max, if q.unit == Percent then max * q.value else q.value * Factor(q.unit));
  }

  /** And it is what is meant, except for bytes, and for nothing from the end. */
  lemma TameIsExact(q: Typed, max: int, size: int)
    requires 0 <= max <= size < HALF && Tame(q, size) && q.unit != Bytes && (q.fromEnd ==> Back(q))
    ensures Exact(q, max)
  {
    if q.unit == Percent { MulMono(max, size, q.value); }
  }

  lemma ScaledPlain(q: Typed, max: int, product: int)
    requires 0 <= max < HALF && product == (if q.unit == Percent then max * q.value else q.value * Factor(q.unit))
    requires 0 <= product < HALF
    ensures Scaled(q.value, q.unit, max) >= 0
  {
  }

  /** But it does wrap: 8192 pebibytes are accepted whatever the size of the hole, and land before it. */
  lemma WrapEscapes(max: int)
    requires 0 <= max < HALF
    ensures Read(Typed(8192, false, Peta), max) == Good(-HALF) && !Fits(Typed(8192, false, Peta), max)
  {
    assert 8192 * Factor(Peta) == HALF;
  }

  lemma MulMono(a: int, b: int, c: nat)
    requires a <= b
    ensures a * c <= b * c
  {
    assert b * c == a * c + (b - a) * c;
    assert (b - a) * c >= 0;
  }

  // Placing partitions.

  /** The partition list with one more, where it begins. */
  function Insert(parts: seq<Area>, p: Area): seq<Area> {
    if parts == [] || p.start < parts[0].start then [p] + parts else [parts[0]] + Insert(parts[1..], p)
  }

  /** The range of `p` lies between `a` and `b` and meets no partition. */
  ghost predicate Free(parts: seq<Area>, a: int, b: int, p: Area) {
    && a <= p.start && 0 <= p.length && End(p) <= b
    && forall i {:trigger parts[i]} | 0 <= i < |parts| :: End(p) <= parts[i].start || End(parts[i]) <= p.start
  }

  lemma {:induction false} LayoutIsWithin(parts: seq<Area>, a: int, b: int)
    ensures Layout(parts, a, b) <==> a <= b && Within(parts, a, b) && forall i {:trigger parts[i]} | 0 <= i < |parts| :: parts[i].part
    decreases |parts|
  {
    if parts != [] {
      LayoutIsWithin(parts[1..], End(parts[0]), b);
      var rest := parts[1..];
      assert forall i | 0 <= i < |rest| :: rest[i] == parts[i + 1];
      forall i | 0 < i < |parts| ensures parts[i] == rest[i - 1] {}
    }
  }

  /** A layout can begin later, up to its first partition. */
  lemma LayoutFrom(parts: seq<Area>, a: int, c: int, b: int)
    requires Layout(parts, a, b)
    ensures Layout(parts, c, b) <==> c <= b && (parts == [] || c <= parts[0].start)
  {
  }

  /** One more partition leaves a layout exactly when its range is free. */
  lemma {:induction false} InsertLayout(parts: seq<Area>, p: Area, a: int, b: int)
    requires Layout(parts, a, b) && p.part && p.length != 0
    ensures Layout(Insert(parts, p), a, b) <==> Free(parts, a, b, p)
    decreases |parts|
  {
    LayoutIsWithin(parts, a, b);
    var now := Insert(parts, p);
    if parts == [] || p.start < parts[0].start {
      assert now[1..] == parts;
      LayoutFrom(parts, a, End(p), b);
      forall i | 0 <= i < |parts| ensures p.start < parts[i].start <= End(parts[i]) && parts[0].start <= parts[i].start {}
    } else {
      var rest := parts[1..];
      assert now[1..] == Insert(rest, p);
      InsertLayout(rest, p, End(parts[0]), b);
      forall i | 0 < i < |parts| ensures parts[i] == rest[i - 1] {}
      if Free(parts, a, b, p) { assert Free(rest, End(parts[0]), b, p); }
    }
  }

  /** `p` lies in the hole. */
  predicate InHole(hole: Area, p: Area) {
    hole.start <= p.start && 0 < p.length && End(p) <= End(hole)
  }

  lemma {:induction false} PartsAre(s: seq<Area>, i: nat) returns (j: nat)
    requires i < |PartsOf(s)|
    ensures j < |s| && s[j] == PartsOf(s)[i] && s[j].part
  {
    if s[0].part && i == 0 {
      j := 0;
    } else {
      j := PartsAre(s[1..], if s[0].part then i - 1 else i);
      j := j + 1;
    }
  }

  /** What lies in a hole meets no partition. */
  lemma HoleIsFree(s: seq<Area>, h: nat, p: Area, a: int, b: int)
    requires Within(s, a, b) && h < |s| && !s[h].part && InHole(s[h], p)
    ensures Free(PartsOf(s), a, b, p)
  {
    var parts := PartsOf(s);
    forall i | 0 <= i < |parts| ensures End(p) <= parts[i].start || End(parts[i]) <= p.start {
      var j := PartsAre(s, i);
      assert j < h ==> End(s[j]) <= s[h].start;
      assert h < j ==> End(s[h]) <= s[j].start;
    }
  }

  datatype Spot = Nowhere | At(p: Area)

  /** Where on_mkpart puts a partition: so much free space into the hole, then so much of what is left. */
  function Chosen(hole: Area, before: Typed, size: Typed): Spot
    requires 0 <= hole.length < HALF
  {
    var start := Read(before, hole.length);
    if start.Bad? || start.bytes == hole.length then Nowhere
    else
      var length := Read(size, Rest(hole, start.bytes));
      if length.Bad? || length.bytes == 0 then Nowhere
      else At(Area(Wrapped(hole.start + start.bytes), length.bytes, true))
  }

  /** What is left of the hole, on the machine. */
  function Rest(hole: Area, start: int): (r: int)
    ensures -HALF <= r < HALF
  {
    Wrapped(hole.length - start)
  }

  /** Where the two quantities mean it to be. */
  function Wanted(hole: Area, before: Typed, size: Typed): Spot {
    var start := Meant(before, hole.length);
    if start.Bad? || start.bytes == hole.length then Nowhere
    else
      var length := Meant(size, hole.length - start.bytes);
      if length.Bad? || length.bytes == 0 then Nowhere else At(Area(hole.start + start.bytes, length.bytes, true))
  }

  /** Neither quantity wraps below zero. */
  predicate BothFit(hole: Area, before: Typed, size: Typed)
    requires 0 <= hole.length < HALF
  {
    Fits(before, hole.length) && (Read(before, hole.length).Good? ==> Fits(size, Rest(hole, Read(before, hole.length).bytes)))
  }

  predicate BothExact(hole: Area, before: Typed, size: Typed)
    requires 0 <= hole.length < HALF
  {
    Exact(before, hole.length) && (Read(before, hole.length).Good? ==> Exact(size, Rest(hole, Read(before, hole.length).bytes)))
  }

  /** The partition lies in its hole exactly when neither quantity wraps below zero. */
  lemma ChosenInHole(hole: Area, before: Typed, size: Typed)
    requires Fine(hole) && !hole.part && 0 <= hole.start && End(hole) <= HALF - MIB && Chosen(hole, before, size).At?
    ensures InHole(hole, Chosen(hole, before, size).p) <==> BothFit(hole, before, size)
    ensures BothFit(hole, before, size) ==> var p := Chosen(hole, before, size).p; p.start % MIB == 0 && p.length % MIB == 0
  {
    var start := Read(before, hole.length).bytes;
    ReadInHole(before, hole.length);
    if 0 <= start <= hole.length {
      WholeSum(hole.length, start);
      WholeSum(hole.start, start);
      assert Rest(hole, start) == hole.length - start && Wrapped(hole.start + start) == hole.start + start;
      ReadInHole(size, hole.length - start);
    } else {
      StartsOutside(hole, start);
    }
  }

  /** A start outside the hole stays outside on the machine, so far as a partition could reach. */
  lemma StartsOutside(hole: Area, start: int)
    requires 0 <= hole.start && 0 <= hole.length && End(hole) <= HALF - MIB && -HALF <= start < HALF && !(0 <= start <= hole.length)
    ensures !(hole.start <= Wrapped(hole.start + start) <= End(hole))
  {
  }

  lemma WholeSum(a: int, b: int)
    requires a % MIB == 0 && b % MIB == 0
    ensures (a + b) % MIB == 0 && (a - b) % MIB == 0
  {
    assert a + b == MIB * (a / MIB + b / MIB) && a - b == MIB * (a / MIB - b / MIB);
  }

  /** And it is where it was meant to be when both are read as what they mean. */
  lemma ChosenIsWanted(hole: Area, before: Typed, size: Typed)
    requires Fine(hole) && !hole.part && 0 <= hole.start && End(hole) <= HALF - MIB && BothExact(hole, before, size)
    ensures Chosen(hole, before, size) == Wanted(hole, before, size)
  {
    ReadMeans(before, hole.length);
    if Read(before, hole.length).Good? {
      var start := Read(before, hole.length).bytes;
      MeantInHole(before, hole.length);
      WholeSum(hole.length, start);
      ReadMeans(size, hole.length - start);
    }
  }

  lemma MeantInHole(q: Typed, max: int)
    requires 0 <= max <= HALF - MIB && max % MIB == 0 && Meant(q, max).Good?
    ensures 0 <= Meant(q, max).bytes <= max && Meant(q, max).bytes % MIB == 0
  {
    AskedNatural(q, max);
    AmountMeans(q.fromEnd, Asked(q, max), max);
    RoundUpRounds(if q.fromEnd then max - Asked(q, max) else Asked(q, max));
  }

  lemma AskedNatural(q: Typed, max: int)
    requires 0 <= max
    ensures 0 <= Asked(q, max)
  {
    if q.unit == Percent { MulMono(0, max, q.value); }
  }

  lemma TameBoth(hole: Area, before: Typed, size: Typed, disk: int)
    requires Fine(hole) && !hole.part && 0 <= hole.start && End(hole) <= disk <= HALF - MIB && Tame(before, disk) && Tame(size, disk)
    requires Chosen(hole, before, size).At?
    ensures BothFit(hole, before, size)
  {
    TameFits(before, hole.length, disk);
    ReadInHole(before, hole.length);
    var start := Read(before, hole.length).bytes;
    TameFits(size, hole.length - start, disk);
  }

  /** A byte offset on a mebibyte boundary is a whole number of logical blocks whose size divides a mebibyte. */
  lemma BlockExact(x: nat, block: nat, q: nat)
    requires block > 0 && MIB == block * q && x % MIB == 0
    ensures x / block * block == x
  {
    var m := x / MIB;
    assert x == MIB * m == block * (q * m) by { assert block * q * m == block * (q * m); }
    DivExact(q * m, block);
  }

  lemma DivExact(k: nat, b: nat)
    requires b > 0
    ensures b * k / b == k
  {
    var d := b * k / b;
    assert b * k == b * d + b * k % b;
    if d < k { MulMono(d + 1, k, b); } else if k < d { MulMono(k + 1, d, b); }
  }

  /** The array of scan_device with the partitions in its back half. */
  method Load(parts: seq<Area>) returns (a: array<Area>)
    ensures fresh(a) && a.Length == 2 * |parts| + 1 && a[|parts| + 1..] == parts
  {
    var n := |parts|;
    a := new Area[2 * n + 1](i => Area(0, 0, false));
    var i := 0;
    while i < n
      invariant 0 <= i <= n && forall k | 0 <= k < i :: a[n + 1 + k] == parts[k]
    {
      a[n + 1 + i] := parts[i];
      i := i + 1;
    }
    ghost var tail := a[n + 1..];
    forall k | 0 <= k < n ensures tail[k] == parts[k] {}
  }

  class Disk {
    const usableStart: int
    const usableEnd: int
    /** The partitions, sorted by where they begin. */
    var parts: seq<Area>

    constructor (usableStart: int, usableEnd: int)
      requires 0 <= usableStart <= usableEnd <= HALF - MIB
      ensures Valid() && parts == [] && this.usableStart == usableStart && this.usableEnd == usableEnd
    {
      this.usableStart, this.usableEnd, parts := usableStart, usableEnd, [];
    }

    ghost predicate Valid()
      reads this
    {
      0 <= usableStart <= usableEnd <= HALF - MIB && Layout(parts, usableStart, usableEnd)
    }

    /** scan_device on a disk without a filesystem of its own: the partitions and the aligned holes between them. */
    method Areas() returns (areas: seq<Area>)
      requires Valid()
      ensures InRange(Tile(parts, usableStart, usableEnd)) && areas == AlignAll(Tile(parts, usableStart, usableEnd))
      ensures Within(areas, usableStart, usableEnd) && AllFine(areas) && PartsOf(areas) == parts
    {
      var n := |parts|;
      var a := Load(parts);
      var count := Scan(a, n, 0, usableStart, usableEnd);
      TileCovers(parts, usableStart, usableEnd);
      ghost var tiles := a[..count];
      assert tiles == Tile(parts, usableStart, usableEnd);
      ChainedOrdered(tiles, usableStart, usableEnd);
      var kept := Compact(a, count);
      AlignAllFine(tiles, usableStart, usableEnd);
      AlignAllParts(tiles);
      areas := a[..kept];
    }

    /**
     The placement of on_mkpart in hole `h` of the scan. The partitions stay apart
     and in range exactly when the range chosen is free, which it is in its hole;
     there it is exactly when neither quantity wraps below zero.
     */
    method Mkpart(h: nat, before: Typed, size: Typed) returns (r: Spot)
      requires Valid()
      modifies this
      ensures InRange(Tile(old(parts), usableStart, usableEnd)) && parts == (if r.At? then Insert(old(parts), r.p) else old(parts))
      ensures var areas := AlignAll(Tile(old(parts), usableStart, usableEnd));
        if h >= |areas| || areas[h].part then r == Nowhere
        else
          && 0 <= areas[h].length < HALF && r == Chosen(areas[h], before, size)
          && (r.At? ==> (InHole(areas[h], r.p) <==> BothFit(areas[h], before, size)) && (InHole(areas[h], r.p) ==> Valid()))
          && (BothExact(areas[h], before, size) ==> r == Wanted(areas[h], before, size))
      ensures Valid() <==> r == Nowhere || Free(old(parts), usableStart, usableEnd, r.p)
      ensures Tame(before, usableEnd) && Tame(size, usableEnd) ==> Valid()
    {
      var areas := Areas();
      if |areas| <= h || areas[h].part { return Nowhere; }
      r := Chosen(areas[h], before, size);
      ghost var hole := areas[h];
      if BothExact(hole, before, size) { ChosenIsWanted(hole, before, size); }
      if r.At? {
        if Tame(before, usableEnd) && Tame(size, usableEnd) { TameBoth(hole, before, size, usableEnd); }
        ChosenInHole(hole, before, size);
        InsertLayout(parts, r.p, usableStart, usableEnd);
        if InHole(hole, r.p) { HoleIsFree(areas, h, r.p, usableStart, usableEnd); }
        parts := Insert(parts, r.p);
      }
    }

    /** Every sequence of creations whose quantities do not wrap, or are refused, keeps the partitions apart and in range. */
    method Mkparts(requests: seq<(nat, Typed, Typed)>)
      requires Valid() && forall i | 0 <= i < |requests| :: Tame(requests[i].1, usableEnd) && Tame(requests[i].2, usableEnd)
      modifies this
      ensures Valid()
    {
      for i := 0 to |requests|
        invariant Valid()
      {
        var r := Mkpart(requests[i].0, requests[i].1, requests[i].2);
      }
    }
  }

  /** A quantity that wraps below zero may still land in another hole, so that the partitions stay apart. */
  lemma WrapMayLandFree()
    ensures var hole, part := Area(9 * MIB, 91 * MIB, false), Area(8 * MIB, MIB, true);
      var before, size, p := Typed(WORD / 1024 - 5 * 1024, false, Kilo), Typed(3, false, Mega), Area(4 * MIB, 3 * MIB, true);
      Chosen(hole, before, size) == At(p) && !BothFit(hole, before, size) && Free([part], MIB, 100 * MIB, p)
  {
    var before := Typed(WORD / 1024 - 5 * 1024, false, Kilo);
    assert before.value * Factor(Kilo) == WORD - 5 * MIB;
    assert Scaled(before.value, Kilo, 91 * MIB) == -5 * MIB;
    AlignSignedRounds(-5 * MIB);
    AlignSignedRounds(3 * MIB);
  }

  lemma ChosenOff(hole: Area)
    requires hole == Area(MIB, 99 * MIB, false)
    ensures Chosen(hole, Typed(8192, false, Peta), Typed(100, false, Percent)) == At(Area(MIB - HALF, 99 * MIB - HALF, true))
  {
    WrapEscapes(99 * MIB);
    assert Rest(hole, -HALF) == 99 * MIB - HALF;
    AlignSignedRounds(99 * MIB - HALF);
  }

  /** 8192 pebibytes of free space and then everything: the partition is made, before the disk begins. */
  method OffTheDisk() returns (d: Disk, r: Spot)
    ensures fresh(d) && r.At? && r.p.start < d.usableStart && !d.Valid()
  {
    d := new Disk(MIB, 100 * MIB);
    var hole := Area(MIB, 99 * MIB, false);
    assert Tile([], MIB, 100 * MIB) == [hole];
    assert AlignAll([hole]) == [hole] by { AlignUpRounds(MIB); assert [hole][..0] == []; }
    ChosenOff(hole);
    r := d.Mkpart(0, Typed(8192, false, Peta), Typed(100, false, Percent));
  }
}
