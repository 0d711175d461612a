/**
 The outgoing buffer of a display server connection: a ring that grows when it
 is full and is given up when it runs empty.
 */
module RingBuffer {
  import opened Sequences
  import opened Arithmetic

  type Bytes = seq<bv8>

  /** One more than the largest size_t. */
  const WORD := 0x1_0000_0000_0000_0000

  /** Subtraction of size_t values, which wraps around. */
  function Minus(a: nat, b: nat): int {
    if b <= a then a - b else WORD + a - b
  }

  /** An index past the end of a ring of `n` bytes comes round to its front. */
  function Ix(x: nat, n: nat): nat {
    if x < n then x else x - n
  }

  /** The `used` bytes of a ring from `offset` on. */
  function Ring(buf: Bytes, offset: nat, used: nat): (r: Bytes)
    requires used <= |buf| && (used > 0 ==> offset < |buf|)
    ensures |r| == used && forall i | 0 <= i < used :: r[i] == buf[Ix(offset + i, |buf|)]
  {
    seq(used, i requires 0 <= i < used => buf[Ix(offset + i, |buf|)])
  }

  lemma SpliceAt(buf: Bytes, at: nat, w: Bytes, k: nat)
    requires at + |w| <= |buf| && k < |buf|
    ensures Splice(buf, at, w)[k] == if at <= k < at + |w| then w[k - at] else buf[k]
  {
  }

  /** The remainder of an index by the size of the ring. */
  method Wrap(x: nat, size: nat) returns (r: nat)
    requires x < size + size
    ensures r == Ix(x, size)
  {
    var q;
    q, r := Divide(x, size);
  }

  /** How much of `n` bytes fits before the end of a ring of `size` bytes. */
  function First(n: nat, at: nat, size: nat): nat
    requires at <= size
  {
    if n < size - at then n else size - at
  }

  /** Writing a stretch behind the used part, around the end if need be, appends it. */
  lemma Append(buf: Bytes, buf': Bytes, offset: nat, used: nat, w: Bytes)
    requires offset < |buf| && used + |w| <= |buf|
    requires var at := Ix(offset + used, |buf|);
      var first := First(|w|, at, |buf|);
      buf' == Splice(Splice(buf, at, w[..first]), 0, w[first..])
    ensures |buf'| == |buf| && Ring(buf', offset, used + |w|) == Ring(buf, offset, used) + w
  {
    var r, e := Ring(buf', offset, used + |w|), Ring(buf, offset, used) + w;
    forall i | 0 <= i < |r| ensures r[i] == e[i] { AppendAt(buf, buf', offset, used, w, i); }
  }

  lemma AppendAt(buf: Bytes, buf': Bytes, offset: nat, used: nat, w: Bytes, i: nat)
    requires offset < |buf| && used + |w| <= |buf| && i < used + |w|
    requires var at := Ix(offset + used, |buf|);
      var first := First(|w|, at, |buf|);
      buf' == Splice(Splice(buf, at, w[..first]), 0, w[first..])
    ensures buf'[Ix(offset + i, |buf|)] == if i < used then buf[Ix(offset + i, |buf|)] else w[i - used]
  {
    var at := Ix(offset + used, |buf|);
    var first := First(|w|, at, |buf|);
    var k := Ix(offset + i, |buf|);
    SpliceAt(buf, at, w[..first], k);
    SpliceAt(Splice(buf, at, w[..first]), 0, w[first..], k);
  }

  /** Dropping bytes from the front moves the offset. */
  lemma Drop(buf: Bytes, offset: nat, used: nat, n: nat)
    requires offset < |buf| && n <= used <= |buf| && offset + n <= |buf|
    ensures Ring(buf, offset, used) == buf[offset..offset + n] + Ring(buf, Ix(offset + n, |buf|), used - n)
  {
    var r, e := Ring(buf, offset, used), buf[offset..offset + n] + Ring(buf, Ix(offset + n, |buf|), used - n);
    forall i | 0 <= i < |r| ensures r[i] == e[i] {}
  }

  /** A ring read in two pieces. */
  lemma TwoPieces(buf: Bytes, offset: nat, used: nat)
    requires offset < |buf| && used <= |buf|
    ensures var first := First(used, offset, |buf|);
      Ring(buf, offset, used) == buf[offset..offset + first] + buf[..used - first] && Ring(buf, 0, used) == buf[..used]
  {
  }

  lemma Straight(buf: Bytes, x: Bytes, y: Bytes)
    requires |x| + |y| <= |buf| && (forall i | 0 <= i < |x| :: buf[i] == x[i]) && (forall i | 0 <= i < |y| :: buf[|x| + i] == y[i])
    ensures Ring(buf, 0, |x| + |y|) == x + y
  {
    var r, e := Ring(buf, 0, |x| + |y|), x + y;
    forall i | 0 <= i < |r| ensures r[i] == e[i] {
      if i >= |x| { assert buf[|x| + (i - |x|)] == y[i - |x|]; }
    }
  }

  lemma StraightCopy(buf: Bytes, x: Bytes, y: Bytes)
    requires |x| + |y| <= |buf|
    ensures Ring(Splice(Splice(buf, 0, x), |x|, y), 0, |x| + |y|) == x + y
  {
    var b := Splice(Splice(buf, 0, x), |x|, y);
    forall i | 0 <= i < |x| ensures b[i] == x[i] {
      SpliceAt(buf, 0, x, i);
      SpliceAt(Splice(buf, 0, x), |x|, y, i);
    }
    forall i | 0 <= i < |y| ensures b[|x| + i] == y[i] { SpliceAt(Splice(buf, 0, x), |x|, y, |x| + i); }
    Straight(b, x, y);
  }

  /** memcpy into an array. */
  method Copy(dst: array<bv8>, at: nat, src: Bytes)
    requires at + |src| <= dst.Length
    modifies dst
    ensures dst[..] == Splice(old(dst[..]), at, src)
  {
    var i := 0;
    while i < |src|
      invariant 0 <= i <= |src|
      invariant forall k | 0 <= k < dst.Length :: dst[k] == if at <= k < at + i then src[k - at] else old(dst[k])
    {
      dst[at + i] := src[i];
      i := i + 1;
    }
  }

  method CopyTwo(dst: array<bv8>, x: Bytes, y: Bytes)
    requires |x| + |y| <= dst.Length
    modifies dst
    ensures Ring(dst[..], 0, |x| + |y|) == x + y
  {
    ghost var d := dst[..];
    Copy(dst, 0, x);
    Copy(dst, |x|, y);
    StraightCopy(d, x, y);
  }

  /** Writing behind the used part of a ring, in two pieces if the bytes reach its end. */
  method CopyAround(dst: array<bv8>, offset: nat, used: nat, w: Bytes)
    requires offset < dst.Length && used + |w| <= dst.Length
    modifies dst
    ensures Ring(dst[..], offset, used + |w|) == Ring(old(dst[..]), offset, used) + w
  {
    var at := Wrap(offset + used, dst.Length);
    var available := dst.Length - at;
    var first := if |w| < available then |w| else available;
    Copy(dst, at, w[..first]);
    Copy(dst, 0, w[first..]);
    Append(old(dst[..]), dst[..], offset, used, w);
  }

  class Connection {
    var outgoing: array?<bv8>
    var size: nat
    var offset: nat
    var used: nat
    ghost var scheduled: Bytes
    ghost var sent: Bytes

    ghost predicate Shape()
      reads this
    {
      && used <= size < WORD && offset < WORD
      && (if outgoing == null then size == 0 else outgoing.Length == size > 0 && offset < size)
    }

    /** The bytes still in the ring. */
    ghost function Queue(): Bytes
      requires Shape()
      reads this, outgoing
    {
      if outgoing == null then [] else Ring(outgoing[..], offset, used)
    }

    /** What was written followed by what is queued is what was scheduled. */
    ghost predicate Valid()
      reads this, outgoing
    {
      Shape() && sent + Queue() == scheduled
    }

    constructor ()
      ensures Valid() && scheduled == [] && sent == [] && size == 0
    {
      outgoing, size, offset, used, scheduled, sent := null, 0, 0, 0, [], [];
    }

    /** Room for `count` more bytes; the ring is copied to the front of a larger one. */
    method Enlarge(count: nat)
      requires Shape() && size - used < count && used + count < WORD
      modifies this`outgoing, this`offset, this`size
      ensures Shape() && outgoing != null && size == used + count && Queue() == old(Queue())
      ensures fresh(outgoing)
    {
      var required := used + count;
      var larger := new bv8[required];
      var available := Minus(size, offset);
      var first := if used < available then used else available;
      if outgoing != null {
        Straighten(larger, first);
      }
      offset, size, outgoing := 0, required, larger;
    }

    /** The ring in two pieces at the front of `larger`. */
    method Straighten(larger: array<bv8>, first: nat)
      requires Shape() && outgoing != null && larger != outgoing && used <= larger.Length && first == First(used, offset, size)
      modifies larger
      ensures Ring(larger[..], 0, used) == old(Queue()) && Queue() == old(Queue())
    {
      TwoPieces(outgoing[..], offset, used);
      var x, y := outgoing[offset..offset + first], outgoing[..used - first];
      assert x == outgoing[..][offset..offset + first] && y == outgoing[..][..used - first];
      CopyTwo(larger, x, y);
    }

    /** The bytes go behind the used part, in two pieces if they reach the end of the ring. */
    method Store(buffer: Bytes)
      requires Shape() && outgoing != null && used + |buffer| <= size
      modifies outgoing, this`used
      ensures Shape() && Queue() == old(Queue()) + buffer
    {
      CopyAround(outgoing, offset, used, buffer);
      used := used + |buffer|;
    }

    /**
     connection_schedule_transmit. It divides by the size of the ring, which is 0
     exactly when nothing is scheduled on a connection without a ring.
     */
    method Transmit(buffer: Bytes) returns (trapped: bool)
      requires Valid() && used + |buffer| < WORD
      modifies this, outgoing
      ensures trapped <==> buffer == [] && old(size) == 0
      ensures Valid() && sent == old(sent) && scheduled == old(scheduled) + (if trapped then [] else buffer)
      ensures (outgoing == old(outgoing) || fresh(outgoing)) && used == old(used) + (if trapped then 0 else |buffer|)
    {
      trapped := false;
      if size - used < |buffer| { Enlarge(|buffer|); }
      if size == 0 { return true; }
      Assoc(sent, Queue(), buffer);
      Store(buffer);
      scheduled := scheduled + buffer;
    }

    /** The socket takes some of the bytes, or fails. */
    method Write(buf: Bytes) returns (amount: int)
      ensures amount <= |buf|
    {
      amount := *;
      if amount > |buf| { amount := |buf|; }
    }

    /** One write of connection_can_write. */
    method WriteSome() returns (more: bool)
      requires Valid() && used > 0
      modifies this`offset, this`used, this`sent
      ensures Valid() && old(sent) <= sent
      ensures if more then used < old(used) else used == old(used)
    {
      var available := size - offset;
      var count := if used < available then used else available;
      var amount := Write(outgoing[offset..offset + count]);
      more := amount > 0;
      if more {
        Take(amount);
      }
    }

    /** The first bytes of the ring are on their way. */
    method Take(amount: nat)
      requires Valid() && outgoing != null && 0 < amount <= used && offset + amount <= size
      modifies this`offset, this`used, this`sent
      ensures Valid() && used == old(used) - amount && old(sent) <= sent
    {
      ghost var buf := outgoing[..];
      ghost var taken := buf[offset..offset + amount];
      Drop(buf, offset, used, amount);
      offset := Wrap(offset + amount, size);
      used := used - amount;
      Assoc(sent, taken, Queue());
      sent := sent + taken;
    }

    /** connection_can_write: writes until the ring is empty or the socket takes no more. */
    method CanWrite()
      requires Valid()
      modifies this
      ensures Valid() && scheduled == old(scheduled) && old(sent) <= sent
      ensures outgoing == null <==> sent == scheduled
      ensures (outgoing == old(outgoing) || outgoing == null) && used <= old(used)
    {
      var more := true;
      while more && used > 0
        invariant Valid() && scheduled == old(scheduled) && old(sent) <= sent && (used > 0 || more)
        invariant outgoing == old(outgoing) && used <= old(used)
        decreases more, used
      {
        more := WriteSome();
      }
      if used == 0 {
        outgoing, used, size := null, 0, 0;
      }
    }

    method Answer(call: Call) returns (trapped: bool)
      requires Valid() && used + |Of(call)| < WORD
      modifies this, outgoing
      ensures Valid() && scheduled == old(scheduled) + (if trapped then [] else Of(call)) && old(sent) <= sent
      ensures (outgoing == old(outgoing) || outgoing == null || fresh(outgoing)) && used <= old(used) + |Of(call)|
      ensures trapped ==> call == Schedule([])
    {
      trapped := false;
      match call {
        case Schedule(buffer) => trapped := Transmit(buffer);
        case Flush => CanWrite();
      }
    }

    /**
     Transmissions and writes in any order: the bytes sent, followed by those queued, are
     those of the transmissions so far, whatever the socket takes. Only an empty one traps.
     */
    method Serve(calls: seq<Call>) returns (done: nat)
      requires Valid() && used + |Total(calls)| < WORD
      modifies this, outgoing
      ensures Valid() && done <= |calls| && scheduled == old(scheduled) + Total(calls[..done]) && old(sent) <= sent
      ensures done < |calls| ==> calls[done] == Schedule([])
    {
      done := 0;
      assert calls[..0] == [];
      while done < |calls|
        invariant Valid() && done <= |calls| && scheduled == old(scheduled) + Total(calls[..done]) && old(sent) <= sent
        invariant (outgoing == old(outgoing) || outgoing == null || fresh(outgoing)) && used <= old(used) + |Total(calls[..done])|
      {
        TotalNext(calls, done);
        Assoc(old(scheduled), Total(calls[..done]), Of(calls[done]));
        var trapped := Answer(calls[done]);
        if trapped { return; }
        done := done + 1;
      }
      assert calls[..done] == calls;
    }
  }

  datatype Call = Schedule(buffer: Bytes) | Flush

  function Of(call: Call): Bytes {
    if call.Schedule? then call.buffer else []
  }

  /** The bytes of all transmissions. */
  function Total(calls: seq<Call>): Bytes {
    if calls == [] then [] else Total(calls[..|calls| - 1]) + Of(calls[|calls| - 1])
  }

  lemma {:induction false} TotalNext(calls: seq<Call>, k: nat)
    requires k < |calls|
    ensures Total(calls[..k + 1]) == Total(calls[..k]) + Of(calls[k]) && |Total(calls[..k + 1])| <= |Total(calls)|
    decreases |calls|
  {
    assert calls[..k + 1][..k] == calls[..k];
    var front := calls[..|calls| - 1];
    if k < |front| {
      TotalNext(front, k);
      assert front[..k + 1] == calls[..k + 1];
    } else {
      assert calls[..k + 1] == calls;
    }
  }

  /** Scheduling nothing on a new connection divides by the size of a ring that is not there. */
  method Traps() returns (c: Connection, trapped: bool)
    ensures fresh(c) && trapped
  {
    c := new Connection();
    trapped := c.Transmit([]);
  }
}
