/** The distributed point function of src/dht.c: two keys, expanded through a binary tree of seeds
    and control bits, whose evaluations differ at the target only. The pseudo-random generator is
    an arbitrary function. */
module Dpf {
  import opened Bytes
  import opened Counting

  const LAMBDA := 16
  const LEVELS := 8
  const DOMAIN := 256

  type Seed = s: seq<Byte> | |s| == LAMBDA witness Zeros(LAMBDA)

  /** What dpf_prg returns for one seed. */
  datatype Expansion = Expansion(left: Seed, tLeft: bool, right: Seed, tRight: bool) {
    function S(dir: bool): Seed { if dir then right else left }
    function T(dir: bool): bool { if dir then tRight else tLeft }
  }

  type Prg = Seed -> Expansion

  /** Correction word of one level. */
  datatype Cw = Cw(s: Seed, tLeft: bool, tRight: bool) {
    function T(dir: bool): bool { if dir then tRight else tLeft }
  }

  datatype Key = Key(seed: Seed, t: bool, cw: seq<Cw>, leaf: Seed) {
    function Root(): Node { Node(seed, t) }
  }

  /** A tree node as one server sees it. */
  datatype Node = Node(seed: Seed, t: bool)

  function Child(prg: Prg, n: Node, cw: Cw, dir: bool): Node {
    var e := prg(n.seed);
    if n.t then Node(Xor(e.S(dir), cw.s), e.T(dir) != cw.T(dir)) else Node(e.S(dir), e.T(dir))
  }

  /** The node number `x` of level `|cws|`, counted from the left. */
  function NodeAt(prg: Prg, root: Node, cws: seq<Cw>, x: nat): Node {
    if cws == [] then root
    else Child(prg, NodeAt(prg, root, cws[..|cws| - 1], x / 2), cws[|cws| - 1], x % 2 == 1)
  }

  /** The evaluation of a key at point `x`. */
  function Output(prg: Prg, key: Key, x: nat): Byte {
    var n := NodeAt(prg, key.Root(), key.cw, x);
    (if n.t then Xor(n.seed, key.leaf) else n.seed)[0] & 1
  }

  /** `x >> n`. */
  function Shr(x: nat, n: nat): nat {
    if n == 0 then x else Shr(x, n - 1) / 2
  }

  // ---- Generation ----

  /** The correction word for two nodes on the path to the target, which goes on to side `dir`:
      it equalises the other side and makes the control bits differ on side `dir`. */
  function Correction(prg: Prg, a: Node, b: Node, dir: bool): Cw {
    var x, y := prg(a.seed), prg(b.seed);
    Cw(Xor(x.S(!dir), y.S(!dir)), (x.tLeft != y.tLeft) != !dir, (x.tRight != y.tRight) != dir)
  }

  /** Every correction word is the one for the pair of nodes on the path to node `target`. */
  ghost predicate Corrects(prg: Prg, a: Node, b: Node, cws: seq<Cw>, target: nat) {
    cws == [] ||
    var up := cws[..|cws| - 1];
    && Corrects(prg, a, b, up, target / 2)
    && cws[|cws| - 1] == Correction(prg, NodeAt(prg, a, up, target / 2), NodeAt(prg, b, up, target / 2),
      target % 2 == 1)
  }

  function LeafCorrection(a: Seed, b: Seed): (r: Seed) {
    var x := Xor(a, b);
    x[0 := x[0] ^ 1]
  }

  /** A key pair for `target`, as moor_dpf_gen makes it from two root seeds. */
  ghost predicate KeyPair(prg: Prg, a: Key, b: Key, target: nat) {
    && !a.t && b.t && a.cw == b.cw && |a.cw| == LEVELS && a.leaf == b.leaf
    && Corrects(prg, a.Root(), b.Root(), a.cw, target)
    && a.leaf == LeafCorrection(NodeAt(prg, a.Root(), a.cw, target).seed, NodeAt(prg, b.Root(), a.cw, target).seed)
  }

  lemma AtRoot(prg: Prg, a: Node, b: Node, x: nat)
    ensures Corrects(prg, a, b, [], x) && NodeAt(prg, a, [], x) == a && NodeAt(prg, b, [], x) == b
  {
  }

  /** One more level, towards child `x`. */
  lemma Lengthens(prg: Prg, a: Node, b: Node, cws: seq<Cw>, cw: Cw, x: nat)
    requires Corrects(prg, a, b, cws, x / 2)
    requires cw == Correction(prg, NodeAt(prg, a, cws, x / 2), NodeAt(prg, b, cws, x / 2), x % 2 == 1)
    ensures Corrects(prg, a, b, cws + [cw], x)
    ensures NodeAt(prg, a, cws + [cw], x) == Child(prg, NodeAt(prg, a, cws, x / 2), cw, x % 2 == 1)
    ensures NodeAt(prg, b, cws + [cw], x) == Child(prg, NodeAt(prg, b, cws, x / 2), cw, x % 2 == 1)
  {
    hide Correction, Child;
    assert (cws + [cw])[..|cws|] == cws;
  }

  /** moor_dpf_gen, with the random root seeds as parameters. */
  method Gen(prg: Prg, seedA: Seed, seedB: Seed, target: nat) returns (keyA: Key, keyB: Key)
    requires target < DOMAIN
    ensures keyA.seed == seedA && keyB.seed == seedB && KeyPair(prg, keyA, keyB, target)
  {
    hide Xor, NodeAt, Corrects;
    var sA: Seed, sB: Seed, tA, tB := seedA, seedB, false, true;
    var cws: seq<Cw> := [];
    ghost var rootA, rootB := Node(sA, tA), Node(sB, tB);
    AtRoot(prg, rootA, rootB, Shr(target, LEVELS));
    for i := 0 to LEVELS
      invariant |cws| == i
      invariant Corrects(prg, rootA, rootB, cws, Shr(target, LEVELS - i))
      invariant Node(sA, tA) == NodeAt(prg, rootA, cws, Shr(target, LEVELS - i))
      invariant Node(sB, tB) == NodeAt(prg, rootB, cws, Shr(target, LEVELS - i))
    {
      var a, b := prg(sA), prg(sB);
      var dir := Shr(target, LEVELS - 1 - i) % 2 == 1;
      var keepA: Seed, loseA: Seed, tKeepA := a.right, a.left, a.tRight;
      var keepB: Seed, loseB: Seed, tKeepB := b.right, b.left, b.tRight;
      if !dir {
        keepA, loseA, tKeepA := a.left, a.right, a.tLeft;
        keepB, loseB, tKeepB := b.left, b.right, b.tLeft;
      }
      var cw := Cw(Xor(loseA, loseB), (a.tLeft != b.tLeft) != !dir, (a.tRight != b.tRight) != dir);
      if tA { keepA, tKeepA := Xor(keepA, cw.s), tKeepA != cw.T(dir); }
      if tB { keepB, tKeepB := Xor(keepB, cw.s), tKeepB != cw.T(dir); }
      Lengthens(prg, rootA, rootB, cws, cw, Shr(target, LEVELS - 1 - i));
      cws := cws + [cw];
      sA, sB, tA, tB := keepA, keepB, tKeepA, tKeepB;
    }
    var leaf := Xor(sA, sB);
    leaf := leaf[0 := leaf[0] ^ 1];
    keyA, keyB := Key(seedA, false, cws, leaf), Key(seedB, true, cws, leaf);
  }

  // ---- Correctness ----

  /** The children of a pair of nodes on the path. */
  lemma OnPathChild(prg: Prg, a: Node, b: Node, dir: bool, to: bool)
    requires a.t != b.t
    ensures var cw := Correction(prg, a, b, dir);
            var x, y := Child(prg, a, cw, to), Child(prg, b, cw, to);
            if to == dir then x.t != y.t else x == y
  {
    XorCancels(prg(a.seed).S(to), prg(b.seed).S(to));
    var cw := Correction(prg, a, b, dir);
    if to != dir {
      assert cw.s == Xor(prg(a.seed).S(to), prg(b.seed).S(to));
      assert Xor(prg(b.seed).S(to), cw.s) == prg(a.seed).S(to);
    }
  }

  /** The tree invariant: off the path to the target the two servers hold equal nodes, on the path
      their control bits differ. */
  lemma {:induction false} TreeInvariant(prg: Prg, a: Node, b: Node, cws: seq<Cw>, target: nat, x: nat)
    requires a.t != b.t && Corrects(prg, a, b, cws, target)
    requires target < Pow2(|cws|) && x < Pow2(|cws|)
    ensures var p, q := NodeAt(prg, a, cws, x), NodeAt(prg, b, cws, x);
            if x == target then p.t != q.t else p == q
  {
    if cws != [] {
      var up := cws[..|cws| - 1];
      TreeInvariant(prg, a, b, up, target / 2, x / 2);
      if x / 2 == target / 2 {
        OnPathChild(prg, NodeAt(prg, a, up, x / 2), NodeAt(prg, b, up, x / 2), target % 2 == 1, x % 2 == 1);
      }
    }
  }

  lemma DomainSize()
    ensures Pow2(LEVELS) == DOMAIN
  {
    assert Pow2(4) == 16 && Pow2(8) == 2 * Pow2(7) && Pow2(7) == 2 * Pow2(6) && Pow2(6) == 2 * Pow2(5);
  }

  lemma LeafBit(a: Byte, b: Byte)
    ensures ((a ^ ((a ^ b) ^ 1)) & 1) ^ (b & 1) == 1
    ensures (a & 1) ^ ((b ^ ((a ^ b) ^ 1)) & 1) == 1
    ensures (a & 1) ^ (a & 1) == 0
  {
  }

  /** For every generator, root seeds and target, the two evaluations XOR to 1 at the target and to
      0 at every other point. */
  lemma PointFunction(prg: Prg, a: Key, b: Key, target: nat, x: nat)
    requires KeyPair(prg, a, b, target) && target < DOMAIN && x < DOMAIN
    ensures Output(prg, a, x) ^ Output(prg, b, x) == if x == target then 1 else 0
  {
    DomainSize();
    TreeInvariant(prg, a.Root(), b.Root(), a.cw, target, x);
    var p, q := NodeAt(prg, a.Root(), a.cw, x), NodeAt(prg, b.Root(), b.cw, x);
    LeafBit(p.seed[0], q.seed[0]);
  }

  // ---- Full-domain evaluation ----

  /** One level of moor_dpf_eval_full: the first `nextCount` children of the first `count` nodes. */
  method ExpandLevel(prg: Prg, cw: Cw, nodes: array<Node>, next: array<Node>, count: nat, nextCount: nat)
    requires nodes != next && count <= nodes.Length && nextCount <= next.Length && nextCount <= 2 * count
    modifies next
    ensures forall x :: 0 <= x < nextCount ==> next[x] == Child(prg, nodes[x / 2], cw, x % 2 == 1)
  {
    for j := 0 to count
      invariant forall x :: 0 <= x < 2 * j && x < nextCount ==> next[x] == Child(prg, nodes[x / 2], cw, x % 2 == 1)
    {
      var e := prg(nodes[j].seed);
      var sL: Seed, sR: Seed, tL, tR := e.left, e.right, e.tLeft, e.tRight;
      if nodes[j].t {
        sL, sR := Xor(sL, cw.s), Xor(sR, cw.s);
        tL, tR := tL != cw.tLeft, tR != cw.tRight;
      }
      if 2 * j < nextCount { next[2 * j] := Node(sL, tL); }
      if 2 * j + 1 < nextCount { next[2 * j + 1] := Node(sR, tR); }
    }
  }

  /** moor_dpf_eval_full: breadth-first over two swapped level buffers of `n` nodes. The first
      `n` leaves are right for every `n`, since each level keeps only its first `n` nodes. */
  method EvalFull(prg: Prg, key: Key, size: nat) returns (output: seq<Byte>)
    requires size > 0 && |key.cw| == LEVELS
    ensures |output| == (if size > DOMAIN then DOMAIN else size)
    ensures forall x :: 0 <= x < |output| ==> output[x] == Output(prg, key, x)
  {
    var n := if size > DOMAIN then DOMAIN else size;
    var zero := Node(Zeros(LAMBDA), false);
    var nodes, next := new Node[n](_ => zero), new Node[n](_ => zero);
    nodes[0] := Node(key.seed, key.t);
    var count := 1;
    for level := 0 to LEVELS
      invariant nodes.Length == next.Length == n && nodes != next && fresh(nodes) && fresh(next)
      invariant count == if Pow2(level) < n then Pow2(level) else n
      invariant forall x :: 0 <= x < count ==> nodes[x] == NodeAt(prg, key.Root(), key.cw[..level], x)
    {
      var nextCount := count * 2;
      if nextCount > n { nextCount := n; }
      ExpandLevel(prg, key.cw[level], nodes, next, count, nextCount);
      assert key.cw[..level + 1][..level] == key.cw[..level];
      nodes, next := next, nodes;
      count := nextCount;
    }
    DomainSize();
    assert key.cw[..LEVELS] == key.cw;
    output := [];
    for j := 0 to n
      invariant |output| == j
      invariant forall x :: 0 <= x < j ==> output[x] == Output(prg, key, x)
    {
      var leaf := nodes[j].seed;
      if nodes[j].t { leaf := Xor(leaf, key.leaf); }
      output := output + [leaf[0] & 1];
    }
  }

  // ---- Wire format of a key ----

  const CW_SIZE := LAMBDA + 2
  const WIRE_SIZE := LAMBDA + 1 + LEVELS * CW_SIZE + LAMBDA

  function Bit(t: bool): Byte { if t then 1 else 0 }

  function WireCw(cw: Cw): (r: seq<Byte>)
    ensures |r| == CW_SIZE
  {
    cw.s + [Bit(cw.tLeft), Bit(cw.tRight)]
  }

  function WireCws(cws: seq<Cw>): (r: seq<Byte>)
    ensures |r| == |cws| * CW_SIZE
  {
    if cws == [] then [] else WireCws(cws[..|cws| - 1]) + WireCw(cws[|cws| - 1])
  }

  function Wire(key: Key): seq<Byte> {
    key.seed + [Bit(key.t)] + WireCws(key.cw) + key.leaf
  }

  function ReadCw(data: seq<Byte>, off: nat): Cw
    requires off + CW_SIZE <= |data|
  {
    Cw(data[off..off + LAMBDA], data[off + LAMBDA] & 1 == 1, data[off + LAMBDA + 1] & 1 == 1)
  }

  function Read(data: seq<Byte>): Key
    requires |data| >= WIRE_SIZE
  {
    Key(data[..LAMBDA], data[LAMBDA] & 1 == 1,
        seq(LEVELS, i requires 0 <= i < LEVELS => ReadCw(data, LAMBDA + 1 + i * CW_SIZE)),
        data[WIRE_SIZE - LAMBDA..WIRE_SIZE])
  }

  /** moor_dpf_key_serialize. */
  method Serialize(key: Key) returns (out: seq<Byte>)
    requires |key.cw| == LEVELS
    ensures out == Wire(key) && |out| == WIRE_SIZE
  {
    out := key.seed + [if key.t then 1 else 0];
    ghost var head := out;
    for i := 0 to LEVELS
      invariant out == head + WireCws(key.cw[..i])
    {
      var cw := key.cw[i];
      assert key.cw[..i + 1][..i] == key.cw[..i];
      out := out + cw.s;
      out := out + [if cw.tLeft then 1 else 0, if cw.tRight then 1 else 0];
    }
    assert key.cw[..LEVELS] == key.cw;
    out := out + key.leaf;
  }

  datatype ReadResult = ReadOk(key: Key) | TooShort

  /** moor_dpf_key_deserialize. */
  method Deserialize(data: seq<Byte>) returns (r: ReadResult)
    ensures r == if |data| < WIRE_SIZE then TooShort else ReadOk(Read(data))
  {
    if |data| < WIRE_SIZE { return TooShort; }
    var off := LAMBDA;
    var t := data[off] & 1 == 1;
    off := off + 1;
    var cws: seq<Cw> := [];
    for i := 0 to LEVELS
      invariant off == LAMBDA + 1 + i * CW_SIZE
      invariant cws == Read(data).cw[..i]
    {
      var s: Seed := data[off..off + LAMBDA];
      off := off + LAMBDA;
      cws := cws + [Cw(s, data[off] & 1 == 1, data[off + 1] & 1 == 1)];
      off := off + 2;
    }
    assert cws == Read(data).cw;
    return ReadOk(Key(data[..LAMBDA], t, cws, data[off..off + LAMBDA]));
  }

  lemma {:induction false} WireCwAt(cws: seq<Cw>, i: nat)
    requires i < |cws|
    ensures (i + 1) * CW_SIZE <= |WireCws(cws)|
    ensures WireCws(cws)[i * CW_SIZE..(i + 1) * CW_SIZE] == WireCw(cws[i])
  {
    hide WireCw;
    var n := |cws| - 1;
    var up := WireCws(cws[..n]);
    assert WireCws(cws) == up + WireCw(cws[n]) && |up| == n * CW_SIZE;
    if i < n {
      WireCwAt(cws[..n], i);
      assert WireCws(cws)[i * CW_SIZE..(i + 1) * CW_SIZE] == up[i * CW_SIZE..(i + 1) * CW_SIZE];
    }
  }

  /** The wire format: seed, control bit, per level seed correction and two bits, leaf correction. */
  lemma WireLayout(key: Key, i: nat)
    requires |key.cw| == LEVELS && i < LEVELS
    ensures |Wire(key)| == WIRE_SIZE && Wire(key)[..16] == key.seed && Wire(key)[16] == Bit(key.t)
    ensures Wire(key)[WIRE_SIZE - 16..] == key.leaf
    ensures 35 + 18 * i <= WIRE_SIZE && Wire(key)[17 + 18 * i..33 + 18 * i] == key.cw[i].s
    ensures Wire(key)[33 + 18 * i..35 + 18 * i] == [Bit(key.cw[i].tLeft), Bit(key.cw[i].tRight)]
  {
    hide WireCws;
    WireCwAt(key.cw, i);
    WireParts(key.seed + [Bit(key.t)], WireCws(key.cw), key.leaf, 18 * i);
    var c := WireCw(key.cw[i]);
    assert c[..16] == key.cw[i].s && c[16..] == [Bit(key.cw[i].tLeft), Bit(key.cw[i].tRight)];
  }

  lemma WireParts(head: seq<Byte>, cws: seq<Byte>, leaf: seq<Byte>, at: nat)
    requires |head| == 17 && at + 18 <= |cws|
    ensures var w, c := head + cws + leaf, cws[at..at + 18];
            && w[..16] == head[..16] && w[16] == head[16] && w[17 + |cws|..] == leaf
            && w[17 + at..33 + at] == c[..16] && w[33 + at..35 + at] == c[16..]
  {
  }

  lemma CwReadsBack(data: seq<Byte>, off: nat, cw: Cw)
    requires off + CW_SIZE <= |data| && data[off..off + CW_SIZE] == WireCw(cw)
    ensures ReadCw(data, off) == cw
  {
    var w := data[off..off + CW_SIZE];
    assert data[off..off + LAMBDA] == w[..LAMBDA] == cw.s;
    assert data[off + LAMBDA] == w[LAMBDA] && data[off + LAMBDA + 1] == w[LAMBDA + 1];
  }

  /** A serialized key, followed by anything, reads back as the same key. */
  lemma RoundTrip(key: Key, rest: seq<Byte>)
    requires |key.cw| == LEVELS
    ensures |Wire(key) + rest| >= WIRE_SIZE && Read(Wire(key) + rest) == key
  {
    hide WireCws, ReadCw;
    var data := Wire(key) + rest;
    forall i | 0 <= i < LEVELS ensures ReadCw(data, LAMBDA + 1 + i * CW_SIZE) == key.cw[i] {
      WireCwAt(key.cw, i);
      var off := LAMBDA + 1 + i * CW_SIZE;
      assert data[off..off + CW_SIZE] == WireCws(key.cw)[i * CW_SIZE..(i + 1) * CW_SIZE];
      CwReadsBack(data, off, key.cw[i]);
    }
    assert Read(data).cw == key.cw;
    assert data[WIRE_SIZE - LAMBDA..WIRE_SIZE] == key.leaf;
  }
}
