/**
 Long file names of FAT: up to 20 directory slots of 13 UTF-16 units each, last
 slot first, in front of the slot with the short name, whose checksum they carry.
 The layout is that of "FAT Long Directory Entries" in the FAT32 File System
 Specification.
 */
module FatLongName {
  import opened Sequences
  type Byte = b: nat | b < 256
  type Unit = u: nat | u < 65536
  /** A directory slot of 32 bytes. */
  type Slot = s: seq<Byte> | |s| == 32 witness seq(32, i => 0)

  const UNITS := 13
  const SLOTS := 20
  const BUFFER := 261
  const FILLER: Unit := 0xFFFF

  /** One step of the checksum: rotate right, then add. */
  function Rotate(sum: Byte, c: Byte): Byte {
    ((if sum % 2 == 1 then 128 else 0) + sum / 2 + c) % 256
  }

  /** The checksum of the first `n` bytes of a name. */
  function Sum(name: seq<Byte>, n: nat): Byte
    requires n <= |name|
  {
    if n == 0 then 0 else Rotate(Sum(name, n - 1), name[n - 1])
  }

  method ChecksumName(name: seq<Byte>) returns (sum: Byte)
    requires |name| >= 11
    ensures sum == Sum(name, 11)
  {
    sum := 0;
    for i := 0 to 11
      invariant sum == Sum(name, i)
    {
      sum := Rotate(sum, name[i]);
    }
  }

  lemma RotateDecides(s: Byte, t: Byte, c: Byte, d: Byte)
    requires Rotate(s, c) == Rotate(t, d)
    ensures s == t <==> c == d
  {
  }

  /** Names that differ in exactly one of their first `n` bytes have different checksums. */
  lemma {:induction false} SumDetects(a: seq<Byte>, b: seq<Byte>, i: nat, n: nat)
    requires i < n <= |a| && n <= |b| && a[i] != b[i] && forall k | 0 <= k < n && k != i :: a[k] == b[k]
    ensures Sum(a, n) != Sum(b, n)
  {
    if n == i + 1 {
      SumSame(a, b, i);
      if Sum(a, n) == Sum(b, n) { RotateDecides(Sum(a, i), Sum(b, i), a[i], b[i]); }
    } else {
      SumDetects(a, b, i, n - 1);
      if Sum(a, n) == Sum(b, n) { RotateDecides(Sum(a, n - 1), Sum(b, n - 1), a[n - 1], b[n - 1]); }
    }
  }

  lemma {:induction false} SumSame(a: seq<Byte>, b: seq<Byte>, n: nat)
    requires n <= |a| && n <= |b| && forall k | 0 <= k < n :: a[k] == b[k]
    ensures Sum(a, n) == Sum(b, n)
  {
    if n > 0 { SumSame(a, b, n - 1); }
  }

  function Lo(u: Unit): Byte {
    u % 256
  }

  function Hi(u: Unit): Byte {
    u / 256
  }

  /** Byte `k` of units stored one after the other. */
  function Half(u: seq<Unit>, k: nat): Byte
    requires k / 2 < |u|
  {
    if k % 2 == 0 then Lo(u[k / 2]) else Hi(u[k / 2])
  }

  /** Byte `k` of a slot with 13 units of a long name: 5 of them, 6 behind the attributes and the checksum, and 2 at the end. */
  function LongByte(ord: Byte, sum: Byte, u: seq<Unit>, k: nat): Byte
    requires |u| == UNITS && k < 32
  {
    if k == 0 then ord
    else if k < 11 then Half(u, k - 1)
    else if k == 11 then 0x0F
    else if k == 13 then sum
    else if 14 <= k < 26 then Half(u, k - 4)
    else if 28 <= k then Half(u, k - 6)
    else 0
  }

  function LongSlot(ord: Byte, sum: Byte, u: seq<Unit>): Slot
    requires |u| == UNITS
  {
    seq(32, k requires 0 <= k < 32 => LongByte(ord, sum, u, k))
  }

  /** Where unit `n` of a slot is stored. */
  function Place(n: nat): nat {
    if n < 5 then 1 + 2 * n else if n < 11 then 14 + 2 * (n - 5) else 28 + 2 * (n - 11)
  }

  function UnitAt(s: Slot, n: nat): Unit
    requires n < UNITS
  {
    var lo: nat, hi: nat := s[Place(n)], s[Place(n) + 1];
    lo + 256 * hi
  }

  function UnitsOf(s: Slot): (u: seq<Unit>)
    ensures |u| == UNITS
  {
    seq(UNITS, n requires 0 <= n < UNITS => UnitAt(s, n))
  }

  lemma UnitsBack(ord: Byte, sum: Byte, u: seq<Unit>)
    requires |u| == UNITS
    ensures UnitsOf(LongSlot(ord, sum, u)) == u
  {
    var s := LongSlot(ord, sum, u);
    forall n | 0 <= n < UNITS ensures UnitAt(s, n) == u[n] {
      assert s[Place(n)] == Half(u, 2 * n) && s[Place(n) + 1] == Half(u, 2 * n + 1);
    }
  }

  // Writing a record.

  /** The buffer Link writes slots from: the name, a 0, and filler; the last element stays 0. */
  function Padded(u: seq<Unit>): (p: seq<Unit>)
    requires |u| <= 255
    ensures |p| == BUFFER
  {
    u + [0] + seq(BUFFER - 2 - |u|, i => FILLER) + [0]
  }

  /** The number of slots for the long name. */
  function SlotsFor(length: nat): nat {
    (length + 12) / 13
  }

  /** Slot number `i` of `n`, counted from 1. */
  function SlotOf(p: seq<Unit>, n: nat, i: nat, sum: Byte): Slot
    requires |p| == BUFFER && 0 < i <= n <= SLOTS
  {
    LongSlot(if i == n then 0x40 + i else i, sum, p[UNITS * (i - 1)..UNITS * i])
  }

  /** The slots from number `i` down to 1. */
  function SlotsDown(p: seq<Unit>, n: nat, i: nat, sum: Byte): seq<Slot>
    requires |p| == BUFFER && i <= n <= SLOTS
  {
    if i == 0 then [] else [SlotOf(p, n, i, sum)] + SlotsDown(p, n, i - 1, sum)
  }

  /** A record of a directory: the long name, then the short one. */
  function Record(u: seq<Unit>, short: Slot): seq<Slot>
    requires 0 < |u| <= 255
  {
    SlotsDown(Padded(u), SlotsFor(|u|), SlotsFor(|u|), Sum(short, 11)) + [short]
  }

  /** What Link writes into one slot, with `i` of the `needed` slots still to come after it. */
  method MakeSlot(p: seq<Unit>, needed: nat, i: nat, sum: Byte) returns (slot: Slot)
    requires |p| == BUFFER && 0 < i < needed <= SLOTS + 1
    ensures slot == SlotOf(p, needed - 1, i, sum)
  {
    var ord := if i + 1 == needed then 0x40 + i else i;
    slot := LongSlot(ord, sum, p[UNITS * (i - 1)..UNITS * i]);
  }

  /** With slots `i` down to 1 still to come, the slots of a long name are complete. */
  ghost predicate Written(slots: seq<Slot>, p: seq<Unit>, n: nat, i: nat, sum: Byte)
    requires |p| == BUFFER && i <= n <= SLOTS
  {
    slots + SlotsDown(p, n, i, sum) == SlotsDown(p, n, n, sum)
  }

  lemma WrittenMore(slots: seq<Slot>, p: seq<Unit>, n: nat, i: nat, sum: Byte, s: Slot)
    requires |p| == BUFFER && 0 < i <= n <= SLOTS && s == SlotOf(p, n, i, sum)
    ensures Written(slots, p, n, i, sum) ==> Written(slots + [s], p, n, i - 1, sum)
  {
    var rest := SlotsDown(p, n, i - 1, sum);
    assert SlotsDown(p, n, i, sum) == [s] + rest;
    assert slots + ([s] + rest) == slots + [s] + rest;
  }

  lemma WrittenEnds(slots: seq<Slot>, p: seq<Unit>, n: nat, sum: Byte)
    requires |p| == BUFFER && n <= SLOTS
    ensures Written([], p, n, n, sum)
    ensures Written(slots, p, n, 0, sum) ==> slots == SlotsDown(p, n, n, sum)
  {
    assert [] + SlotsDown(p, n, n, sum) == SlotsDown(p, n, n, sum) && slots + [] == slots;
  }

  method WriteOne(slots: seq<Slot>, p: seq<Unit>, needed: nat, i: nat, sum: Byte) returns (more: seq<Slot>)
    requires |p| == BUFFER && 0 < i < needed <= SLOTS + 1 && Written(slots, p, needed - 1, i, sum)
    ensures Written(more, p, needed - 1, i - 1, sum)
  {
    var slot := MakeSlot(p, needed, i, sum);
    WrittenMore(slots, p, needed - 1, i, sum, slot);
    more := slots + [slot];
  }

  /** The writing loop of Link, which counts the slots down. */
  method WriteLong(p: seq<Unit>, needed: nat, sum: Byte) returns (slots: seq<Slot>)
    requires |p| == BUFFER && 0 < needed <= SLOTS + 1
    ensures slots == SlotsDown(p, needed - 1, needed - 1, sum)
  {
    var i := needed;
    slots := [];
    WrittenEnds([], p, needed - 1, sum);
    while i > 1
      invariant 1 <= i <= needed && Written(slots, p, needed - 1, i - 1, sum)
    {
      i := i - 1;
      slots := WriteOne(slots, p, needed, i, sum);
    }
    WrittenEnds(slots, p, needed - 1, sum);
  }

  /** The slots Link writes for a name. */
  method WriteRecord(u: seq<Unit>, short: Slot) returns (slots: seq<Slot>)
    requires 0 < |u| <= 255
    ensures slots == Record(u, short)
  {
    var needed := (|u| + 12) / 13 + 1;
    var sum := ChecksumName(short);
    slots := WriteLong(Padded(u), needed, sum);
    slots := slots + [short];
  }

  // Reading a record.

  /** What ReadDirectory remembers between slots. */
  datatype Parser = Parser(hasLong: bool, sum: Byte, length: nat, hasName: bool, ordNext: nat, buf: seq<Unit>)

  /** What it finds: the units of a long name, if there is a good one, and how many slots the record has. */
  datatype Found = Found(long: bool, units: seq<Unit>, length: nat)

  /** The reading goes on, has a record, or is at the end of the directory. */
  datatype Outcome = More(parser: Parser) | Done(found: Found) | End

  function Zeros(n: nat): (z: seq<Unit>)
    ensures |z| == n && forall i | 0 <= i < n :: z[i] == 0
  {
    seq(n, i => 0)
  }

  function Start(): Parser {
    Parser(false, 0, 0, false, 0, Zeros(BUFFER))
  }

  function Forget(p: Parser): Parser {
    p.(hasLong := false, hasName := false)
  }

  predicate IsLong(s: Slot) {
    s[11] % 64 == 0x0F
  }

  predicate IsLast(s: Slot) {
    s[0] / 64 % 2 == 1
  }

  /** A slot of a long name. */
  function LongStep(p: Parser, s: Slot): Parser
    requires |p.buf| == BUFFER
  {
    var p := if p.hasLong && s[13] != p.sum then Forget(p) else p;
    var p := if p.hasLong then p else p.(hasLong := true, sum := s[13], length := 0);
    var p := p.(length := p.length + 1);
    if s[12] != 0 then p
    else
      var ord := s[0] % 64;
      if (p.hasName && ord != p.ordNext) || ord == 0 || SLOTS < ord || (!p.hasName && !IsLast(s)) then Forget(p)
      else
        var p := if IsLast(s) then p.(buf := Zeros(BUFFER), hasName := true) else p;
        p.(ordNext := ord - 1, buf := Splice<Unit>(p.buf, (ord - 1) * UNITS, UnitsOf(s)))
  }

  /** How many units there are before a terminator. */
  function Length(buf: seq<Unit>, i: nat): (n: nat)
    requires i <= |buf|
    ensures i <= n <= |buf|
    decreases |buf| - i
  {
    if i == |buf| || buf[i] == 0 || buf[i] == FILLER then i else Length(buf, i + 1)
  }

  /** A slot with a short name. */
  function ShortStep(p: Parser, s: Slot): Found
    requires |p.buf| == BUFFER
  {
    var length := if p.hasLong then p.length + 1 else 1;
    var good := p.hasLong && Sum(s, 11) == p.sum;
    var n := Length(p.buf, 0);
    if good && p.hasName && n <= 255 then Found(true, p.buf[..n], length) else Found(false, [], length)
  }

  function Step(p: Parser, s: Slot): Outcome
    requires |p.buf| == BUFFER
  {
    if s[0] == 0 then End
    else if s[0] == 0xE5 then More(Forget(p))
    else if IsLong(s) then More(LongStep(p, s))
    else if s[11] / 8 % 2 == 1 then More(Forget(p))
    else Done(ShortStep(p, s))
  }

  /** The outcome of reading slots one after the other. */
  function Run(p: Parser, slots: seq<Slot>): Outcome
    requires |p.buf| == BUFFER
    decreases |slots|
  {
    if slots == [] then More(p)
    else match Step(p, slots[0])
      case Done(found) => Done(found)
      case End => End
      case More(q) => assert |q.buf| == BUFFER; Run(q, slots[1..])
  }

  /** The reading loop of ReadDirectory, for a caller that does not look for free slots. */
  method ReadRecord(slots: seq<Slot>) returns (r: Outcome)
    ensures r == Run(Start(), slots)
  {
    r := More(Start());
    var i := 0;
    while r.More? && i < |slots|
      invariant 0 <= i <= |slots| && (r.More? ==> |r.parser.buf| == BUFFER)
      invariant Run(Start(), slots) == if r.More? then Run(r.parser, slots[i..]) else r
      decreases |slots| - i
    {
      assert slots[i..][0] == slots[i] && slots[i..][1..] == slots[i + 1..];
      r := Step(r.parser, slots[i]);
      i := i + 1;
    }
  }

  // What was written is read back.

  /** The reader after slots `n` down to `k + 1` of a name padded to `p`. */
  ghost predicate ReadDown(q: Parser, p: seq<Unit>, n: nat, k: nat, sum: Byte)
    requires |p| == BUFFER && k <= n <= SLOTS
  {
    && q.hasLong && q.sum == sum && q.length == n - k && q.hasName && q.ordNext == k
    && q.buf == Zeros(UNITS * k) + p[UNITS * k..UNITS * n] + Zeros(BUFFER - UNITS * n)
  }

  lemma SlotHeader(p: seq<Unit>, n: nat, i: nat, sum: Byte)
    requires |p| == BUFFER && 0 < i <= n <= SLOTS
    ensures var s := SlotOf(p, n, i, sum);
      && s[0] % 64 == i && s[0] != 0 && s[0] != 0xE5 && IsLong(s) && s[12] == 0 && s[13] == sum && (IsLast(s) <==> i == n)
      && UnitsOf(s) == p[UNITS * (i - 1)..UNITS * i]
  {
    UnitsBack(if i == n then 0x40 + i else i, sum, p[UNITS * (i - 1)..UNITS * i]);
  }

  lemma FillDown(p: seq<Unit>, n: nat, i: nat)
    requires |p| == BUFFER && 0 < i <= n <= SLOTS
    ensures Splice<Unit>(Zeros(UNITS * i) + p[UNITS * i..UNITS * n] + Zeros(BUFFER - UNITS * n), UNITS * (i - 1), p[UNITS * (i - 1)..UNITS * i])
         == Zeros(UNITS * (i - 1)) + p[UNITS * (i - 1)..UNITS * n] + Zeros(BUFFER - UNITS * n)
  {
  }

  lemma FirstSlot(q: Parser, p: seq<Unit>, n: nat, sum: Byte)
    requires |p| == BUFFER && 0 < n <= SLOTS && |q.buf| == BUFFER && !q.hasLong && !q.hasName
    ensures Step(q, SlotOf(p, n, n, sum)).More? && ReadDown(Step(q, SlotOf(p, n, n, sum)).parser, p, n, n - 1, sum)
  {
    SlotHeader(p, n, n, sum);
    FillDown(p, n, n);
    assert Zeros(UNITS * n) + p[UNITS * n..UNITS * n] + Zeros(BUFFER - UNITS * n) == Zeros(BUFFER);
  }

  lemma NextSlot(q: Parser, p: seq<Unit>, n: nat, k: nat, sum: Byte)
    requires |p| == BUFFER && 0 < k < n <= SLOTS && ReadDown(q, p, n, k, sum)
    ensures Step(q, SlotOf(p, n, k, sum)).More? && ReadDown(Step(q, SlotOf(p, n, k, sum)).parser, p, n, k - 1, sum)
  {
    SlotHeader(p, n, k, sum);
    FillDown(p, n, k);
  }

  /** A slot with a short name: in use, not part of a long name, not a volume label. */
  predicate IsShort(s: Slot) {
    s[0] != 0 && s[0] != 0xE5 && !IsLong(s) && s[11] / 8 % 2 == 0
  }

  /** The units of a name before its first terminator. */
  function Head(u: seq<Unit>): seq<Unit> {
    u[..Length(u, 0)]
  }

  lemma {:induction false} LengthOfPrefix(buf: seq<Unit>, u: seq<Unit>, i: nat)
    requires i <= |u| < |buf| && buf[|u|] == 0 && forall k | 0 <= k < |u| :: buf[k] == u[k]
    ensures Length(buf, i) == Length(u, i)
    decreases |u| - i
  {
    if i < |u| { LengthOfPrefix(buf, u, i + 1); }
  }

  lemma {:induction false} HeadIsWhole(u: seq<Unit>, i: nat)
    requires i <= |u|
    ensures Length(u, i) == |u| <==> forall k | i <= k < |u| :: u[k] != 0 && u[k] != FILLER
    decreases |u| - i
  {
    if i < |u| { HeadIsWhole(u, i + 1); }
  }

  /** The short name ends the record and gives the long name back up to a terminator in it. */
  lemma LastSlot(q: Parser, u: seq<Unit>, short: Slot)
    requires 0 < |u| <= 255 && IsShort(short) && ReadDown(q, Padded(u), SlotsFor(|u|), 0, Sum(short, 11))
    ensures Step(q, short) == Done(Found(true, Head(u), SlotsFor(|u|) + 1))
  {
    var p, n, m := Padded(u), SlotsFor(|u|), UNITS * SlotsFor(|u|);
    assert |u| <= m <= 260;
    assert q.buf == p[..m] + Zeros(BUFFER - m);
    assert forall k | 0 <= k < |u| :: q.buf[k] == u[k];
    assert q.buf[|u|] == 0;
    LengthOfPrefix(q.buf, u, 0);
    assert q.buf[..Length(u, 0)] == Head(u);
  }

  lemma RunFirst(q: Parser, slots: seq<Slot>, s: Slot, rest: seq<Slot>)
    requires |q.buf| == BUFFER && slots == [s] + rest
    ensures Run(q, slots) == if Step(q, s).More? then Run(Step(q, s).parser, rest) else Step(q, s)
  {
    assert slots[0] == s && slots[1..] == rest;
  }

  lemma {:induction false} RunDown(q: Parser, u: seq<Unit>, k: nat, short: Slot)
    requires 0 < |u| <= 255 && IsShort(short) && k < SlotsFor(|u|) && ReadDown(q, Padded(u), SlotsFor(|u|), k, Sum(short, 11))
    ensures Run(q, SlotsDown(Padded(u), SlotsFor(|u|), k, Sum(short, 11)) + [short]) == Done(Found(true, Head(u), SlotsFor(|u|) + 1))
    decreases k
  {
    var p, n, sum := Padded(u), SlotsFor(|u|), Sum(short, 11);
    var slots := SlotsDown(p, n, k, sum) + [short];
    if k == 0 {
      LastSlot(q, u, short);
      RunFirst(q, slots, short, []);
    } else {
      var s, rest := SlotOf(p, n, k, sum), SlotsDown(p, n, k - 1, sum) + [short];
      NextSlot(q, p, n, k, sum);
      RunFirst(q, slots, s, rest);
      RunDown(Step(q, s).parser, u, k - 1, short);
    }
  }

  /**
   Reading the record written for a name gives the number of its slots and the name up to
   a terminator in it, whatever the reader had buffered: the name exactly if it has none.
   */
  lemma RoundTrip(q: Parser, u: seq<Unit>, short: Slot)
    requires 0 < |u| <= 255 && IsShort(short) && |q.buf| == BUFFER && !q.hasLong && !q.hasName
    ensures Run(q, Record(u, short)) == Done(Found(true, Head(u), |Record(u, short)|))
    ensures Head(u) == u <==> forall i | 0 <= i < |u| :: u[i] != 0 && u[i] != FILLER
  {
    HeadIsWhole(u, 0);
    var p, n, sum := Padded(u), SlotsFor(|u|), Sum(short, 11);
    FirstSlot(q, p, n, sum);
    var s, rest := SlotOf(p, n, n, sum), SlotsDown(p, n, n - 1, sum) + [short];
    RunFirst(q, Record(u, short), s, rest);
    RunDown(Step(q, s).parser, u, n - 1, short);
    SlotCount(p, n, n, sum);
  }

  lemma {:induction false} SlotCount(p: seq<Unit>, n: nat, i: nat, sum: Byte)
    requires |p| == BUFFER && i <= n <= SLOTS
    ensures |SlotsDown(p, n, i, sum)| == i
  {
    if i > 0 { SlotCount(p, n, i - 1, sum); }
  }

  /** A name that holds the filler comes back cut. */
  lemma FillerIsCut(short: Slot)
    requires IsShort(short)
    ensures Run(Start(), Record([0x61, FILLER, 0x62], short)) == Done(Found(true, [0x61], 2))
  {
    var u: seq<Unit> := [0x61, FILLER, 0x62];
    RoundTrip(Start(), u, short);
    SlotCount(Padded(u), 1, 1, Sum(short, 11));
    assert Length(u, 0) == 1 && u[..1] == [0x61];
  }
}
