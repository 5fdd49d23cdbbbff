/** Which relays store a descriptor (src/dht.c): the three running relays closest to it on the hash ring.
    Ring positions are an arbitrary function of the identity. */
module Responsible {
  import opened Octets
  import Feistel
  import Counting

  const REPLICAS := 3
  const SMALL_NET := 6

  type Pos = s: Octets | |s| == 32 witness seq(32, _ => 0)

  datatype Relay = Relay(id: Octets, running: bool)

  function XorOctet(a: Octet, b: Octet): (r: Octet)
    ensures r == Feistel.XorNat(b, a)
  {
    assert Counting.Pow2(4) == 16 && Counting.Pow2(8) == 256;
    Feistel.XorBelow(b, a, 8);
    Feistel.XorNat(b, a)
  }

  /** moor_dht_xor_distance. */
  function Distance(a: Pos, b: Pos): (d: Pos)
    ensures forall i :: 0 <= i < 32 ==> d[i] == XorOctet(a[i], b[i])
  {
    seq(32, i requires 0 <= i < 32 => XorOctet(a[i], b[i]))
  }

  /** Different positions have different distances. */
  lemma DistanceInjective(a: Pos, b: Pos, c: Pos)
    requires Distance(a, b) == Distance(a, c)
    ensures b == c
  {
    var d, e := Distance(a, b), Distance(a, c);
    forall i | 0 <= i < 32 ensures b[i] == c[i] {
      assert d[i] == XorOctet(a[i], b[i]) && e[i] == XorOctet(a[i], c[i]);
      Feistel.XorTwice(b[i], a[i]);
      Feistel.XorTwice(c[i], a[i]);
    }
  }

  /** It is a distance: symmetric, zero exactly for equal positions. */
  lemma DistanceMetric(a: Pos, b: Pos)
    ensures Distance(a, b) == Distance(b, a)
    ensures (forall i :: 0 <= i < 32 ==> Distance(a, b)[i] == 0) <==> a == b
  {
    forall i | 0 <= i < 32 ensures XorOctet(a[i], b[i]) == XorOctet(b[i], a[i]) { Swaps(a[i], b[i]); }
    forall i | 0 <= i < 32 ensures XorOctet(a[i], b[i]) == 0 <==> a[i] == b[i] { Swaps(a[i], b[i]); }
  }

  lemma {:induction false} Swaps(x: nat, y: nat)
    ensures Feistel.XorNat(x, y) == Feistel.XorNat(y, x) && (Feistel.XorNat(x, y) == 0 <==> x == y)
  {
    if x != 0 || y != 0 { Swaps(x / 2, y / 2); }
  }

  /** Positions of relays and of the descriptor in one time period. */
  datatype Ring = Ring(pos: Octets -> Pos, desc: Pos)

  function Dist(g: Ring, r: Relay): Pos {
    Distance(g.desc, g.pos(r.id))
  }

  predicate Closer(g: Ring, a: Relay, b: Relay) {
    Before(Dist(g, a), Dist(g, b))
  }

  function Running(rs: seq<Relay>): nat {
    if rs == [] then 0 else Running(rs[..|rs| - 1]) + if rs[|rs| - 1].running then 1 else 0
  }

  // ---- The scan ----

  /** The first `n` indices are distinct and name running relays below `end`. */
  ghost predicate Picked(rs: seq<Relay>, end: nat, idx: seq<int>)
    requires end <= |rs|
  {
    && (forall i :: 0 <= i < |idx| ==> 0 <= idx[i] < end && rs[idx[i]].running)
    && (forall i, j :: 0 <= i < j < |idx| ==> idx[i] != idx[j])
  }

  /** No running relay below `end` that is not picked is closer than one that is. */
  ghost predicate Nearest(g: Ring, rs: seq<Relay>, end: nat, idx: seq<int>)
    requires end <= |rs| && Picked(rs, end, idx)
  {
    forall j, i :: 0 <= j < end && rs[j].running && j !in idx && 0 <= i < |idx| ==> !Closer(g, rs[j], rs[idx[i]])
  }

  datatype Found = NoRelay | Found(all: bool, idx: seq<int>)

  /** The index of a farthest one among the picked. */
  method Worst(g: Ring, rs: seq<Relay>, idx: array<int>, dist: array<Pos>) returns (w: nat)
    requires idx.Length == dist.Length == REPLICAS && Picked(rs, |rs|, idx[..])
    requires forall i :: 0 <= i < REPLICAS ==> dist[i] == Dist(g, rs[idx[i]])
    ensures w < REPLICAS && forall i :: 0 <= i < REPLICAS ==> !Closer(g, rs[idx[w]], rs[idx[i]])
  {
    w := 0;
    Irreflexive(dist[0]);
    for j := 1 to REPLICAS
      invariant w < j && forall i :: 0 <= i < j ==> !Before(dist[w], dist[i])
    {
      var r := Compare(dist[j], dist[w]);
      if r > 0 {
        forall i | 0 <= i <= j ensures !Before(dist[j], dist[i]) { NotBefore(dist[w], dist[j], dist[i]); }
        w := j;
      }
    }
  }

  lemma NotBefore(w: Pos, far: Pos, x: Pos)
    requires Before(w, far)
    ensures !Before(w, x) ==> !Before(far, x)
    ensures !Before(far, far)
  {
    Irreflexive(far);
    if Before(far, x) { Transitive(w, far, x); }
  }

  /** Replacing a farthest by a closer one keeps the picked ones nearest. */
  lemma Replaced(g: Ring, rs: seq<Relay>, i: nat, idx: seq<int>, w: nat)
    requires i < |rs| && rs[i].running && Picked(rs, i, idx) && Nearest(g, rs, i, idx) && w < |idx|
    requires (forall k :: 0 <= k < |idx| ==> !Closer(g, rs[idx[w]], rs[idx[k]])) && Closer(g, rs[i], rs[idx[w]])
    ensures Picked(rs, i + 1, idx[w := i]) && Nearest(g, rs, i + 1, idx[w := i])
  {
    var next := idx[w := i];
    Irreflexive(Dist(g, rs[i]));
    forall j, k | 0 <= j < i + 1 && rs[j].running && j !in next && 0 <= k < |next|
      ensures !Closer(g, rs[j], rs[next[k]]) {
      assert next[w] == i;
      if j in idx {
        Dislodged(idx, w, i, j);
        if k == w { Between(g, rs[i], rs[j], rs[j]); }
      } else if k == w {
        assert !Closer(g, rs[j], rs[idx[w]]);
        Between(g, rs[i], rs[idx[w]], rs[j]);
      }
    }
  }

  lemma Dislodged(idx: seq<int>, w: nat, i: int, j: int)
    requires w < |idx| && j in idx && j !in idx[w := i]
    ensures idx[w] == j
  {
    var m :| 0 <= m < |idx| && idx[m] == j;
    assert idx[w := i][m] == if m == w then i else j;
  }

  /** With `a` closer than `b`, what is not closer than `b` is not closer than `a`. */
  lemma Between(g: Ring, a: Relay, b: Relay, c: Relay)
    requires Closer(g, a, b)
    ensures !Closer(g, c, b) ==> !Closer(g, c, a)
    ensures !Closer(g, b, b)
  {
    Irreflexive(Dist(g, b));
    if Closer(g, c, a) { Transitive(Dist(g, c), Dist(g, a), Dist(g, b)); }
  }

  /** Leaving a relay out that is no closer than a farthest picked one. */
  lemma Skipped(g: Ring, rs: seq<Relay>, i: nat, idx: seq<int>, w: nat)
    requires i < |rs| && Picked(rs, i, idx) && Nearest(g, rs, i, idx) && w < |idx|
    requires forall k :: 0 <= k < |idx| ==> !Closer(g, rs[idx[w]], rs[idx[k]])
    requires !Closer(g, rs[i], rs[idx[w]])
    ensures Picked(rs, i + 1, idx) && Nearest(g, rs, i + 1, idx)
  {
    forall k | 0 <= k < |idx| ensures !Closer(g, rs[i], rs[idx[k]]) {
      Trichotomy(Dist(g, rs[idx[k]]), Dist(g, rs[idx[w]]));
      if Closer(g, rs[idx[k]], rs[idx[w]]) { Between(g, rs[idx[k]], rs[idx[w]], rs[i]); }
    }
  }

  /** Indices of the first `k` running relays. */
  function FirstRunning(rs: seq<Relay>, k: nat): (idx: seq<int>)
    ensures |idx| == if Running(rs) < k then Running(rs) else k
    ensures Picked(rs, |rs|, idx)
  {
    if rs == [] then []
    else
      var n := |rs| - 1;
      var idx := FirstRunning(rs[..n], k);
      if rs[n].running && |idx| < k then idx + [n] else idx
  }

  /** moor_dht_find_responsible. */
  method Find(g: Ring, rs: seq<Relay>) returns (f: Found)
    ensures Running(rs) == 0 ==> f == NoRelay
    ensures 0 < Running(rs) < SMALL_NET ==> f == Found(true, FirstRunning(rs, REPLICAS))
    ensures Running(rs) >= SMALL_NET ==>
      f.Found? && !f.all && |f.idx| == REPLICAS && Picked(rs, |rs|, f.idx) && Nearest(g, rs, |rs|, f.idx)
  {
    var running := Count(rs);
    if running == 0 { return NoRelay; }
    if running < SMALL_NET {
      var idx := Few(rs);
      return Found(true, idx);
    }
    var idx := Scan(g, rs);
    return Found(false, idx);
  }

  method Count(rs: seq<Relay>) returns (n: nat)
    ensures n == Running(rs)
  {
    n := 0;
    for i := 0 to |rs|
      invariant n == Running(rs[..i])
    {
      assert rs[..i + 1][..i] == rs[..i];
      if rs[i].running { n := n + 1; }
    }
    assert rs[..|rs|] == rs;
  }

  /** The small-network branch. */
  method Few(rs: seq<Relay>) returns (idx: seq<int>)
    ensures idx == FirstRunning(rs, REPLICAS)
  {
    idx := [];
    for i := 0 to |rs|
      invariant idx == FirstRunning(rs[..i], REPLICAS)
    {
      assert rs[..i + 1][..i] == rs[..i];
      if rs[i].running && |idx| < REPLICAS { idx := idx + [i]; }
    }
    assert rs[..|rs|] == rs;
  }

  ghost predicate Everything(rs: seq<Relay>, end: nat, idx: seq<int>)
    requires end <= |rs|
  {
    forall j :: 0 <= j < end && rs[j].running ==> j in idx
  }

  /** While there is room every running relay is picked. */
  lemma Filled(g: Ring, rs: seq<Relay>, i: nat, idx: seq<int>)
    requires i < |rs| && rs[i].running && Picked(rs, i, idx) && Everything(rs, i, idx)
    ensures Picked(rs, i + 1, idx + [i]) && Nearest(g, rs, i + 1, idx + [i]) && Everything(rs, i + 1, idx + [i])
  {
  }

  lemma Idle(g: Ring, rs: seq<Relay>, i: nat, idx: seq<int>)
    requires i < |rs| && !rs[i].running && Picked(rs, i, idx) && Nearest(g, rs, i, idx)
    ensures Picked(rs, i + 1, idx) && Nearest(g, rs, i + 1, idx) &&
      (Everything(rs, i, idx) ==> Everything(rs, i + 1, idx))
  {
  }

  /** The distances in the table are those of the picked relays. */
  ghost predicate Measured(g: Ring, rs: seq<Relay>, idx: seq<int>, dist: seq<Pos>) {
    |dist| == |idx| && forall k :: 0 <= k < |idx| ==> 0 <= idx[k] < |rs| && dist[k] == Dist(g, rs[idx[k]])
  }

  lemma Measures(g: Ring, rs: seq<Relay>, idx: seq<int>, dist: seq<Pos>, i: nat)
    requires Measured(g, rs, idx, dist) && i < |rs|
    ensures Measured(g, rs, idx + [i], dist + [Dist(g, rs[i])])
  {
  }

  /** The scan over all running relays with a table of the closest so far. */
  method Scan(g: Ring, rs: seq<Relay>) returns (idx: seq<int>)
    requires Running(rs) >= REPLICAS
    ensures |idx| == REPLICAS && Picked(rs, |rs|, idx) && Nearest(g, rs, |rs|, idx)
  {
    hide Dist, Closer, Picked, Nearest, Everything, Measured;
    var best := new int[REPLICAS](_ => 0);
    var dist := new Pos[REPLICAS](_ => g.desc);
    var found := 0;
    Start(g, rs);
    assert best[..0] == [] && dist[..0] == [];
    for i := 0 to |rs|
      invariant 0 <= found <= REPLICAS && found == (if Running(rs[..i]) < REPLICAS then Running(rs[..i]) else REPLICAS)
      invariant Measured(g, rs, best[..found], dist[..found]) && Picked(rs, i, best[..found])
      invariant (found < REPLICAS ==> Everything(rs, i, best[..found])) && Nearest(g, rs, i, best[..found])
    {
      assert rs[..i + 1][..i] == rs[..i];
      if !rs[i].running {
        Idle(g, rs, i, best[..found]);
        continue;
      }
      var d := Dist(g, rs[i]);
      if found < REPLICAS {
        Filled(g, rs, i, best[..found]);
        Measures(g, rs, best[..found], dist[..found], i);
        ghost var before, far := best[..found], dist[..found];
        dist[found] := d;
        best[found] := i;
        found := found + 1;
        assert best[..found] == before + [i] && dist[..found] == far + [d];
      } else {
        assert best[..found] == best[..] && dist[..found] == dist[..];
        Challenge(g, rs, i, best, dist, d);
        assert best[..found] == best[..] && dist[..found] == dist[..];
      }
    }
    assert rs[..|rs|] == rs && best[..found] == best[..];
    idx := best[..];
  }

  lemma Start(g: Ring, rs: seq<Relay>)
    ensures Picked(rs, 0, []) && Nearest(g, rs, 0, []) && Everything(rs, 0, []) && Measured(g, rs, [], [])
  {
  }

  /** A further relay against the farthest in a full table. */
  method Challenge(g: Ring, rs: seq<Relay>, i: nat, best: array<int>, dist: array<Pos>, d: Pos)
    requires best.Length == dist.Length == REPLICAS && i < |rs| && rs[i].running && d == Dist(g, rs[i])
    requires Measured(g, rs, best[..], dist[..]) && Picked(rs, i, best[..]) && Nearest(g, rs, i, best[..])
    modifies best, dist
    ensures Measured(g, rs, best[..], dist[..]) && Picked(rs, i + 1, best[..]) && Nearest(g, rs, i + 1, best[..])
  {
    hide Dist, Nearest;
    var w := Worst(g, rs, best, dist);
    var c := Compare(d, dist[w]);
    ghost var before, far := best[..], dist[..];
    assert before[w] == best[w] && far[w] == dist[w];
    if c < 0 {
      Replaced(g, rs, i, before, w);
      dist[w] := d;
      best[w] := i;
      assert best[..] == before[w := i] && dist[..] == far[w := d];
    } else {
      Skipped(g, rs, i, before, w);
    }
  }

  // ---- Agreement ----

  ghost predicate SameRelays(rs: seq<Relay>, qs: seq<Relay>) {
    forall r :: r in rs <==> r in qs
  }

  /** No two running relays have the same position, or are listed twice. */
  ghost predicate Spread(g: Ring, rs: seq<Relay>) {
    forall i, j :: 0 <= i < j < |rs| && rs[i].running && rs[j].running ==> g.pos(rs[i].id) != g.pos(rs[j].id)
  }

  /** The picked relays themselves. */
  ghost function Chosen(rs: seq<Relay>, idx: seq<int>): (c: set<Relay>)
    requires Picked(rs, |rs|, idx)
    ensures forall r :: r in c ==> r in rs && r.running
  {
    if idx == [] then {} else Chosen(rs, idx[..|idx| - 1]) + {rs[idx[|idx| - 1]]}
  }

  lemma {:induction false} WhereChosen(rs: seq<Relay>, idx: seq<int>, r: Relay) returns (k: nat)
    requires Picked(rs, |rs|, idx) && r in Chosen(rs, idx)
    ensures k < |idx| && rs[idx[k]] == r
  {
    k := |idx| - 1;
    if rs[idx[k]] != r {
      k := WhereChosen(rs, idx[..k], r);
    }
  }

  lemma {:induction false} IsChosen(rs: seq<Relay>, idx: seq<int>, k: nat)
    requires Picked(rs, |rs|, idx) && k < |idx|
    ensures rs[idx[k]] in Chosen(rs, idx)
  {
    if k < |idx| - 1 { IsChosen(rs, idx[..|idx| - 1], k); }
  }

  lemma {:induction false} ChosenSize(g: Ring, rs: seq<Relay>, idx: seq<int>)
    requires Picked(rs, |rs|, idx) && Spread(g, rs)
    ensures |Chosen(rs, idx)| == |idx|
  {
    if idx != [] {
      ChosenSize(g, rs, idx[..|idx| - 1]);
      ChosenNew(g, rs, idx);
    }
  }

  lemma ChosenNew(g: Ring, rs: seq<Relay>, idx: seq<int>)
    requires Picked(rs, |rs|, idx) && Spread(g, rs) && idx != []
    ensures rs[idx[|idx| - 1]] !in Chosen(rs, idx[..|idx| - 1])
  {
    hide Spread, Chosen;
    var n := |idx| - 1;
    if rs[idx[n]] in Chosen(rs, idx[..n]) {
      var k := WhereChosen(rs, idx[..n], rs[idx[n]]);
      SamePlace(g, rs, idx[k], idx[n]);
    }
  }

  lemma SamePlace(g: Ring, rs: seq<Relay>, i: nat, j: nat)
    requires Spread(g, rs) && i < |rs| && j < |rs| && rs[i].running && rs[j].running &&
      g.pos(rs[i].id) == g.pos(rs[j].id)
    ensures i == j
  {
  }

  /** With distinct positions, the responsible relays do not depend on the order of the consensus: any
      two scans of the same relays choose the same ones. */
  lemma OrderIndependent(g: Ring, rs: seq<Relay>, qs: seq<Relay>, a: seq<int>, b: seq<int>)
    requires SameRelays(rs, qs) && Spread(g, rs) && Spread(g, qs)
    requires Picked(rs, |rs|, a) && Picked(qs, |qs|, b) && |a| == |b| && Nearest(g, rs, |rs|, a) &&
      Nearest(g, qs, |qs|, b)
    ensures Chosen(rs, a) == Chosen(qs, b)
  {
    hide Nearest, Spread;
    ChosenSize(g, rs, a);
    ChosenSize(g, qs, b);
    var x, y := Chosen(rs, a), Chosen(qs, b);
    if x != y {
      SameSize(x, y);
      var r :| r in x && r !in y;
      var s :| s in y && s !in x;
      LeftOut(g, rs, a, s, r);
      LeftOut(g, qs, b, r, s);
      Tie(g, rs, r, s);
      assert false;
    }
  }

  lemma Equal<T>(x: set<T>, y: set<T>)
    requires |x| == |y| && x <= y
    ensures x == y
  {
    assert y == x + (y - x);
  }

  lemma SameSize<T>(x: set<T>, y: set<T>)
    requires |x| == |y| && x != y
    ensures (exists r :: r in x && r !in y) && (exists s :: s in y && s !in x)
  {
    if x <= y { Equal(x, y); }
    if y <= x { Equal(y, x); }
  }

  /** A relay left out is no closer than a chosen one. */
  lemma LeftOut(g: Ring, rs: seq<Relay>, idx: seq<int>, out: Relay, chosen: Relay)
    requires Picked(rs, |rs|, idx) && Nearest(g, rs, |rs|, idx) && out in rs && out.running
    requires chosen in Chosen(rs, idx) && out !in Chosen(rs, idx)
    ensures !Closer(g, out, chosen)
  {
    hide Closer, Chosen;
    var j :| 0 <= j < |rs| && rs[j] == out;
    var i := WhereChosen(rs, idx, chosen);
    forall k | 0 <= k < |idx| ensures idx[k] != j { IsChosen(rs, idx, k); }
  }

  lemma Tie(g: Ring, rs: seq<Relay>, r: Relay, s: Relay)
    requires Spread(g, rs) && r in rs && s in rs && r.running && s.running && !Closer(g, r, s) && !Closer(g, s, r)
    ensures r == s
  {
    Trichotomy(Dist(g, r), Dist(g, s));
    DistanceInjective(g.desc, g.pos(r.id), g.pos(s.id));
    var i :| 0 <= i < |rs| && rs[i] == r;
    var j :| 0 <= j < |rs| && rs[j] == s;
    SamePlace(g, rs, i, j);
  }

  /** A running relay exactly where the descriptor is belongs to the nearest ones. */
  lemma AtDescriptor(g: Ring, rs: seq<Relay>, idx: seq<int>, j: nat)
    requires Spread(g, rs) && Picked(rs, |rs|, idx) && Nearest(g, rs, |rs|, idx) && idx != []
    requires j < |rs| && rs[j].running && g.pos(rs[j].id) == g.desc
    ensures j in idx
  {
    if j !in idx {
      var i := idx[0];
      assert !Closer(g, rs[j], rs[i]);
      assert g.pos(rs[i].id) != g.desc by { if i < j { } else { assert j < i; } }
      DistanceMetric(g.desc, g.pos(rs[j].id));
      DistanceMetric(g.desc, g.pos(rs[i].id));
      ZeroFirst(Dist(g, rs[j]), Dist(g, rs[i]), 0);
      assert false;
    }
  }

  lemma {:induction false} ZeroFirst(a: Pos, b: Pos, n: nat)
    requires n <= 32 && (forall i :: 0 <= i < 32 ==> a[i] == 0) && (forall i :: 0 <= i < n ==> b[i] == 0)
    requires exists i :: 0 <= i < 32 && b[i] != 0
    ensures Before(a, b)
    decreases 32 - n
  {
    if n < 32 {
      if b[n] == 0 {
        ZeroFirst(a, b, n + 1);
      } else {
        assert a[..n] == b[..n];
        BeforeIff(a, b, n);
      }
    }
  }

  /** `yes` tells whether the relay is among three nearest ones. */
  ghost predicate Decides(g: Ring, rs: seq<Relay>, me: Octets, yes: bool) {
    exists idx :: |idx| == REPLICAS && Picked(rs, |rs|, idx) && Nearest(g, rs, |rs|, idx) && Answers(rs, idx, me, yes)
  }

  ghost predicate Answers(rs: seq<Relay>, idx: seq<int>, me: Octets, yes: bool)
    requires Picked(rs, |rs|, idx)
  {
    yes <==> exists r :: r in Chosen(rs, idx) && r.id == me
  }

  /** Publisher, replica and client agree on who is responsible, in whatever order they list the relays. */
  lemma DecisionsAgree(g: Ring, rs: seq<Relay>, qs: seq<Relay>, me: Octets, a: bool, b: bool)
    requires SameRelays(rs, qs) && Spread(g, rs) && Spread(g, qs) && Decides(g, rs, me, a) && Decides(g, qs, me, b)
    ensures a == b
  {
    hide Nearest, Spread;
    var x :| |x| == REPLICAS && Picked(rs, |rs|, x) && Nearest(g, rs, |rs|, x) && Answers(rs, x, me, a);
    var y :| |y| == REPLICAS && Picked(qs, |qs|, y) && Nearest(g, qs, |qs|, y) && Answers(qs, y, me, b);
    OrderIndependent(g, rs, qs, x, y);
  }

  /** moor_dht_is_responsible for the relay with identity `me`. */
  method IsResponsible(g: Ring, rs: seq<Relay>, me: Octets) returns (yes: bool)
    ensures Running(rs) == 0 ==> !yes
    ensures 0 < Running(rs) < SMALL_NET ==>
      (yes <==> exists r :: r in Chosen(rs, FirstRunning(rs, REPLICAS)) && r.id == me)
    ensures Running(rs) >= SMALL_NET ==> Decides(g, rs, me, yes)
  {
    var f := Find(g, rs);
    if f == NoRelay { return false; }
    yes := false;
    for i := 0 to |f.idx|
      invariant yes <==> exists k :: 0 <= k < i && rs[f.idx[k]].id == me
    {
      if rs[f.idx[i]].id == me { yes := true; }
    }
    Named(rs, f.idx, me);
    assert Answers(rs, f.idx, me, yes);
  }

  lemma Named(rs: seq<Relay>, idx: seq<int>, me: Octets)
    requires Picked(rs, |rs|, idx)
    ensures (exists k :: 0 <= k < |idx| && rs[idx[k]].id == me) <==> exists r :: r in Chosen(rs, idx) && r.id == me
  {
    hide Chosen;
    if exists k :: 0 <= k < |idx| && rs[idx[k]].id == me {
      var k :| 0 <= k < |idx| && rs[idx[k]].id == me;
      IsChosen(rs, idx, k);
    }
    if exists r :: r in Chosen(rs, idx) && r.id == me {
      var r :| r in Chosen(rs, idx) && r.id == me;
      var k := WhereChosen(rs, idx, r);
    }
  }

  /** In a small network "full replication" reaches every running relay if and only if there are no more
      than three of them. */
  lemma FullReplicationIff(rs: seq<Relay>)
    ensures Everything(rs, |rs|, FirstRunning(rs, REPLICAS)) <==> Running(rs) <= REPLICAS
  {
    AllFirst(rs, REPLICAS);
  }

  lemma {:induction false} AllFirst(rs: seq<Relay>, k: nat)
    ensures Everything(rs, |rs|, FirstRunning(rs, k)) <==> Running(rs) <= k
    ensures Running(rs) <= k ==> |FirstRunning(rs, k)| == Running(rs)
  {
    if rs != [] {
      var n := |rs| - 1;
      AllFirst(rs[..n], k);
      var init, idx := FirstRunning(rs[..n], k), FirstRunning(rs, k);
      assert forall j :: 0 <= j < n ==> (j in idx <==> j in init);
      assert Everything(rs, |rs|, idx) <==> Everything(rs[..n], n, init) && (rs[n].running ==> n in idx);
    }
  }

  // ---- Small networks and the order of the list ----

  /** However the relays are listed, the first three running ones are the same. */
  ghost predicate OrderFree(rs: seq<Relay>) {
    forall qs :: Counting.Distinct(qs) && SameRelays(rs, qs) ==>
      Chosen(qs, FirstRunning(qs, REPLICAS)) == Chosen(rs, FirstRunning(rs, REPLICAS))
  }

  /** In a small network the choice is independent of the order of the list if and only if there are no
      more than three running relays. */
  lemma SmallOrderIff(rs: seq<Relay>)
    requires Counting.Distinct(rs)
    ensures OrderFree(rs) <==> Running(rs) <= REPLICAS
  {
    hide Chosen, FirstRunning, Running, SameRelays;
    if Running(rs) <= REPLICAS {
      forall qs | Counting.Distinct(qs) && SameRelays(rs, qs)
        ensures Chosen(qs, FirstRunning(qs, REPLICAS)) == Chosen(rs, FirstRunning(rs, REPLICAS))
      {
        SameRunning(rs, qs);
        AllChosen(rs);
        AllChosen(qs);
      }
    } else {
      FullReplicationIff(rs);
      var j :| 0 <= j < |rs| && rs[j].running && j !in FirstRunning(rs, REPLICAS);
      var qs := ToFront(rs, j);
      assert rs[j] !in Chosen(rs, FirstRunning(rs, REPLICAS)) by {
        if rs[j] in Chosen(rs, FirstRunning(rs, REPLICAS)) {
          var k := WhereChosen(rs, FirstRunning(rs, REPLICAS), rs[j]);
        }
      }
      HeadRunning(qs, REPLICAS);
      var k :| 0 <= k < |FirstRunning(qs, REPLICAS)| && FirstRunning(qs, REPLICAS)[k] == 0;
      IsChosen(qs, FirstRunning(qs, REPLICAS), k);
    }
  }

  ghost function RunningSet(rs: seq<Relay>): set<Relay> {
    set r | r in rs && r.running
  }

  lemma {:induction false} RunningCount(rs: seq<Relay>)
    requires Counting.Distinct(rs)
    ensures Running(rs) == |RunningSet(rs)|
  {
    hide RunningSet;
    assert RunningSet([]) == {} by { NoneRunning(); }
    if rs != [] {
      var init, r := rs[..|rs| - 1], rs[|rs| - 1];
      RunningCount(init);
      assert r !in init;
      assert rs == init + [r];
      RunningMore(init, r);
    }
  }

  lemma NoneRunning()
    ensures RunningSet([]) == {}
  {
  }

  lemma RunningMore(rs: seq<Relay>, r: Relay)
    requires r !in rs
    ensures |RunningSet(rs + [r])| == |RunningSet(rs)| + if r.running then 1 else 0
  {
    assert forall x :: x in rs + [r] <==> x in rs || x == r;
    if r.running {
      assert RunningSet(rs + [r]) == RunningSet(rs) + {r};
    } else {
      assert RunningSet(rs + [r]) == RunningSet(rs);
    }
  }

  lemma SameRunning(rs: seq<Relay>, qs: seq<Relay>)
    requires Counting.Distinct(rs) && Counting.Distinct(qs) && SameRelays(rs, qs)
    ensures RunningSet(rs) == RunningSet(qs) && Running(rs) == Running(qs)
  {
    RunningCount(rs);
    RunningCount(qs);
    assert RunningSet(rs) == RunningSet(qs);
  }

  lemma AllChosen(rs: seq<Relay>)
    requires Running(rs) <= REPLICAS
    ensures Chosen(rs, FirstRunning(rs, REPLICAS)) == RunningSet(rs)
  {
    hide Chosen, FirstRunning, Running;
    FullReplicationIff(rs);
    var idx := FirstRunning(rs, REPLICAS);
    forall r | r in RunningSet(rs) ensures r in Chosen(rs, idx) {
      var j :| 0 <= j < |rs| && rs[j] == r;
      assert j in idx;
      var k :| 0 <= k < |idx| && idx[k] == j;
      IsChosen(rs, idx, k);
    }
  }

  lemma ToFront(rs: seq<Relay>, j: nat) returns (qs: seq<Relay>)
    requires j < |rs| && Counting.Distinct(rs)
    ensures qs != [] && qs[0] == rs[j] && Counting.Distinct(qs) && SameRelays(rs, qs)
  {
    qs := [rs[j]] + rs[..j] + rs[j + 1..];
    forall r ensures r in rs <==> r in qs {
      assert rs == rs[..j] + [rs[j]] + rs[j + 1..];
    }
  }

  lemma {:induction false} HeadRunning(rs: seq<Relay>, k: nat)
    requires rs != [] && rs[0].running && k > 0
    ensures 0 in FirstRunning(rs, k)
  {
    if |rs| > 1 {
      HeadRunning(rs[..|rs| - 1], k);
    } else {
      assert FirstRunning(rs, k) == [] + [0];
    }
  }
}
