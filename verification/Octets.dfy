/** Bytes as numbers, and the order that memcmp gives byte strings of equal length. */
module Octets {
  type Octet = x: nat | x < 256
  type Octets = seq<Octet>

  predicate Before(a: Octets, b: Octets) {
    |a| > 0 && |b| > 0 && (a[0] < b[0] || (a[0] == b[0] && Before(a[1..], b[1..])))
  }

  lemma {:induction false} Trichotomy(a: Octets, b: Octets)
    requires |a| == |b|
    ensures a == b || Before(a, b) || Before(b, a)
  {
    if |a| > 0 && a[0] == b[0] {
      Trichotomy(a[1..], b[1..]);
      assert a == [a[0]] + a[1..] && b == [b[0]] + b[1..];
    }
  }

  lemma {:induction false} Transitive(a: Octets, b: Octets, c: Octets)
    requires Before(a, b) && Before(b, c)
    ensures Before(a, c)
  {
    if a[0] == b[0] == c[0] { Transitive(a[1..], b[1..], c[1..]); }
  }

  lemma {:induction false} Irreflexive(a: Octets)
    ensures !Before(a, a)
  {
    if |a| > 0 { Irreflexive(a[1..]); }
  }

  /** A comparison from most to least significant byte. */
  method Compare(a: Octets, b: Octets) returns (r: int)
    requires |a| == |b|
    ensures (r < 0 <==> Before(a, b)) && (r > 0 <==> Before(b, a)) && (r == 0 <==> a == b)
  {
    assert a[0..] == a && b[0..] == b;
    for i := 0 to |a|
      invariant a[..i] == b[..i]
      invariant Before(a, b) == Before(a[i..], b[i..]) && Before(b, a) == Before(b[i..], a[i..])
    {
      assert a[i..][1..] == a[i + 1..] && b[i..][1..] == b[i + 1..];
      if a[i] < b[i] { return -1; }
      if a[i] > b[i] { return 1; }
    }
    return 0;
  }

  /** The first byte that differs decides. */
  lemma {:induction false} BeforeIff(a: Octets, b: Octets, i: nat)
    requires i < |a| && i < |b| && a[..i] == b[..i] && a[i] != b[i]
    ensures Before(a, b) <==> a[i] < b[i]
  {
    if i > 0 {
      assert a[0] == a[..i][0] == b[..i][0] == b[0];
      assert a[1..][..i - 1] == a[..i][1..] && b[1..][..i - 1] == b[..i][1..];
      BeforeIff(a[1..], b[1..], i - 1);
    }
  }
}
