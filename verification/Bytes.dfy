/** Byte memory, and moving a range of it. */
module Bytes {
  type Byte = bv8
  type Memory = seq<Byte>

  // Memory dst after n bytes of src, from s on, have been put at d.
  function Moved(dst: Memory, d: nat, src: Memory, s: nat, n: nat): (m: Memory)
    requires d + n <= |dst| && s + n <= |src|
    ensures |m| == |dst|
  {
    dst[..d] + src[s..s + n] + dst[d + n..]
  }

  // Memory m with the bytes put at a.
  function Put(m: Memory, a: nat, bytes: seq<Byte>): (m': Memory)
    requires a + |bytes| <= |m|
    ensures |m'| == |m|
  {
    m[..a] + bytes + m[a + |bytes|..]
  }

  lemma MovedAt(dst: Memory, d: nat, src: Memory, s: nat, n: nat, a: nat)
    requires d + n <= |dst| && s + n <= |src| && a < |dst|
    ensures Moved(dst, d, src, s, n)[a] == if d <= a < d + n then src[s + a - d] else dst[a]
  {
  }

  lemma MovedTwice(dst: Memory, d: nat, src: Memory, s: nat, n: nat, k: nat)
    requires d + n + k <= |dst| && s + n + k <= |src|
    ensures Moved(Moved(dst, d, src, s, n), d + n, src, s + n, k) == Moved(dst, d, src, s, n + k)
  {
  }
}
