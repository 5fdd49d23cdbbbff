/** Byte strings and their exclusive-or. */
module Bytes {

  type Byte = bv8

  function Zeros(n: nat): (r: seq<Byte>)
    ensures |r| == n && forall i :: 0 <= i < n ==> r[i] == 0
  {
    seq(n, _ => 0)
  }

  function Xor(a: seq<Byte>, b: seq<Byte>): (r: seq<Byte>)
    requires |a| == |b|
    ensures |r| == |a| && forall i :: 0 <= i < |r| ==> r[i] == a[i] ^ b[i]
  {
    seq(|a|, i requires 0 <= i < |a| => a[i] ^ b[i])
  }

  /** Applying the same mask twice is the identity. */
  lemma XorCancels(a: seq<Byte>, b: seq<Byte>)
    requires |a| == |b|
    ensures Xor(Xor(a, b), b) == a
    ensures Xor(Xor(a, b), a) == b
    ensures Xor(a, a) == Zeros(|a|)
    ensures Xor(a, Zeros(|a|)) == a == Xor(Zeros(|a|), a)
  {
    forall i | 0 <= i < |a| ensures (a[i] ^ b[i]) ^ b[i] == a[i] && (a[i] ^ b[i]) ^ a[i] == b[i] &&
                                    a[i] ^ a[i] == 0 && a[i] ^ 0 == a[i] == 0 ^ a[i] {
      ByteXor(a[i], b[i]);
    }
  }

  lemma ByteXor(x: Byte, y: Byte)
    ensures (x ^ y) ^ y == x && (x ^ y) ^ x == y && x ^ x == 0 && x ^ 0 == x == 0 ^ x && x ^ y == y ^ x
  {
  }
}
