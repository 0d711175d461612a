/** Stretches of sequences, as memcpy and memset leave them. */
module Sequences {
  /** `s` with `w` written over it from position `o` on. */
  function Splice<T>(s: seq<T>, o: nat, w: seq<T>): (r: seq<T>)
    requires o + |w| <= |s|
    ensures |r| == |s|
  {
    s[..o] + w + s[o + |w|..]
  }

  lemma Assoc<T>(a: seq<T>, b: seq<T>, c: seq<T>)
    ensures a + (b + c) == a + b + c
  {
  }
}
