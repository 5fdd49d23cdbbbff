/** The four-round Feistel permutation on 64-bit sequence numbers of src/conflux.c, for an arbitrary
    round function. */
module Feistel {
  import opened Counting

  const HALF := 0x1_0000_0000
  const LIMIT := HALF * HALF

  /** Bitwise exclusive-or of naturals. */
  function XorNat(a: nat, b: nat): nat {
    if a == 0 && b == 0 then 0 else 2 * XorNat(a / 2, b / 2) + (if a % 2 != b % 2 then 1 else 0)
  }

  lemma {:induction false} XorTwice(a: nat, b: nat)
    ensures XorNat(XorNat(a, b), b) == a
  {
    if a != 0 || b != 0 {
      XorTwice(a / 2, b / 2);
      var c := XorNat(a, b);
      assert c / 2 == XorNat(a / 2, b / 2) && (c % 2 == 1 <==> a % 2 != b % 2);
      assert XorNat(c, b) == 2 * XorNat(c / 2, b / 2) + (if c % 2 != b % 2 then 1 else 0);
    }
  }

  lemma {:induction false} XorBelow(a: nat, b: nat, k: nat)
    requires a < Pow2(k) && b < Pow2(k)
    ensures XorNat(a, b) < Pow2(k)
  {
    if k > 0 { XorBelow(a / 2, b / 2, k - 1); }
  }

  /** Bit `k` of `x`. */
  function BitAt(x: nat, k: nat): nat {
    if k == 0 then x % 2 else BitAt(x / 2, k - 1)
  }

  /** Every bit of the result is set exactly if the two bits differ. */
  lemma {:induction false} XorBits(a: nat, b: nat, k: nat)
    ensures BitAt(XorNat(a, b), k) == if BitAt(a, k) != BitAt(b, k) then 1 else 0
  {
    var c := XorNat(a, b);
    assert c / 2 == XorNat(a / 2, b / 2) && c % 2 == if a % 2 != b % 2 then 1 else 0;
    if k > 0 { XorBits(a / 2, b / 2, k - 1); }
  }

  type Half = x: nat | x < HALF

  lemma HalfIsPow2()
    ensures Pow2(32) == HALF
  {
    assert Pow2(8) == 256 by { assert Pow2(4) == 16; }
    assert Pow2(12) == 4096 && Pow2(16) == 65536 && Pow2(20) == 1048576;
    assert Pow2(24) == 16777216 && Pow2(28) == 268435456;
  }

  function Xor32(a: Half, b: Half): (r: Half)
    ensures Xor32(a, b) == XorNat(a, b)
  {
    HalfIsPow2();
    XorBelow(a, b, 32);
    XorNat(a, b)
  }

  /** Round number and half to output, under a fixed key. */
  type RoundFn = (nat, Half) -> Half

  datatype Pair = Pair(l: Half, r: Half)

  function Split(x: nat): Pair
    requires x < LIMIT
  {
    Pair(x / HALF, x % HALF)
  }

  function Join(p: Pair): (x: nat)
    ensures x < LIMIT
  {
    p.l * HALF + p.r
  }

  function Forward(f: RoundFn, p: Pair, n: nat): Pair {
    if n == 0 then p
    else
      var q := Forward(f, p, n - 1);
      Pair(q.r, Xor32(q.l, f(n - 1, q.r)))
  }

  function Back(f: RoundFn, p: Pair, n: nat): Pair
    decreases n
  {
    if n == 0 then p else Back(f, Pair(Xor32(p.r, f(n - 1, p.l)), p.l), n - 1)
  }

  lemma {:induction false} BackForward(f: RoundFn, p: Pair, n: nat)
    ensures Back(f, Forward(f, p, n), n) == p
  {
    if n > 0 {
      var q := Forward(f, p, n - 1);
      XorTwice(q.l, f(n - 1, q.r));
      BackForward(f, p, n - 1);
    }
  }

  lemma {:induction false} ForwardBack(f: RoundFn, p: Pair, n: nat)
    ensures Forward(f, Back(f, p, n), n) == p
    decreases n
  {
    if n > 0 {
      XorTwice(p.r, f(n - 1, p.l));
      ForwardBack(f, Pair(Xor32(p.r, f(n - 1, p.l)), p.l), n - 1);
    }
  }

  function Enc(f: RoundFn, x: nat): (r: nat)
    requires x < LIMIT
    ensures r < LIMIT
  {
    Join(Forward(f, Split(x), 4))
  }

  function Dec(f: RoundFn, x: nat): (r: nat)
    requires x < LIMIT
    ensures r < LIMIT
  {
    Join(Back(f, Split(x), 4))
  }

  /** feistel_encrypt. */
  method Encrypt(f: RoundFn, x: nat) returns (r: nat)
    requires x < LIMIT
    ensures r == Enc(f, x)
  {
    var l: Half, h: Half := x / HALF, x % HALF;
    for i := 0 to 4
      invariant Pair(l, h) == Forward(f, Split(x), i)
    {
      var g := f(i, h);
      l, h := h, Xor32(l, g);
    }
    return l * HALF + h;
  }

  /** feistel_decrypt. */
  method Decrypt(f: RoundFn, x: nat) returns (r: nat)
    requires x < LIMIT
    ensures r == Dec(f, x)
  {
    var l: Half, h: Half := x / HALF, x % HALF;
    for i := 4 downto 0
      invariant Back(f, Pair(l, h), i) == Back(f, Split(x), 4)
    {
      var g := f(i, l);
      l, h := Xor32(h, g), l;
    }
    return l * HALF + h;
  }

  lemma SplitJoin(p: Pair)
    ensures Split(Join(p)) == p
  {
  }

  /** The two functions are mutually inverse permutations of the 64-bit values. */
  lemma Inverse(f: RoundFn, x: nat)
    requires x < LIMIT
    ensures Dec(f, Enc(f, x)) == x && Enc(f, Dec(f, x)) == x
  {
    SplitJoin(Forward(f, Split(x), 4));
    BackForward(f, Split(x), 4);
    SplitJoin(Back(f, Split(x), 4));
    ForwardBack(f, Split(x), 4);
    assert Join(Split(x)) == x;
  }

  /** The four rounds written out: each half in turn is masked with the round function of the other. */
  lemma FourRounds(f: RoundFn, l: Half, r: Half)
    ensures var a := Xor32(l, f(0, r)); var b := Xor32(r, f(1, a)); var c := Xor32(a, f(2, b));
            Enc(f, l * HALF + r) == c * HALF + Xor32(b, f(3, c))
  {
    hide Xor32;
    SplitJoin(Pair(l, r));
    var a := Xor32(l, f(0, r));
    var b := Xor32(r, f(1, a));
    var c := Xor32(a, f(2, b));
    var p := Split(l * HALF + r);
    assert p == Pair(l, r);
    assert Forward(f, p, 0) == p;
    assert Forward(f, p, 1) == Pair(r, a);
    assert Forward(f, p, 2) == Pair(a, b);
    assert Forward(f, p, 3) == Pair(b, c);
    assert Forward(f, p, 4) == Pair(c, Xor32(b, f(3, c)));
  }
}
