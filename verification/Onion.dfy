/** Layered relay encryption of src/circuit.c with the running digests of src/cell.c: what the
    client wraps, the relays peel one layer each, and back. Hash and key stream are arbitrary
    functions of fixed output length. */
module Onion {
  import opened Bytes

  const PAYLOAD := 509
  const DIGEST := 32
  const MAX_NONCE := 0xFFFF_FFFF_FFFF_FFFF

  type Text = s: seq<Byte> | |s| == PAYLOAD witness Zeros(PAYLOAD)
  type Digest = s: seq<Byte> | |s| == DIGEST witness Zeros(DIGEST)

  datatype Crypto = Crypto(hash: seq<Byte> -> Digest, stream: (seq<Byte>, nat) -> Text)

  /** What one end keeps about one hop: keys, nonces and running digests of both directions. */
  datatype Layer = Layer(fKey: seq<Byte>, bKey: seq<Byte>, fNonce: nat, bNonce: nat, fDigest: Digest, bDigest: Digest)

  // ---- Running digests (src/cell.c) ----

  function Zeroed(p: Text): (r: Text)
    ensures forall i :: 0 <= i < PAYLOAD ==> r[i] == if 5 <= i < 9 then 0 else p[i]
  {
    p[..5] + Zeros(4) + p[9..]
  }

  function Stamp(p: Text, d: Digest): (r: Text)
    ensures forall i :: 0 <= i < PAYLOAD ==> r[i] == if 5 <= i < 9 then d[i - 5] else p[i]
  {
    p[..5] + d[..4] + p[9..]
  }

  function NextDigest(c: Crypto, running: Digest, p: Text): Digest {
    c.hash(running + Zeroed(p))
  }

  /** moor_relay_set_digest: the stamped payload and the new running digest. */
  method SetDigest(c: Crypto, p: Text, running: Digest) returns (out: Text, next: Digest)
    ensures next == NextDigest(c, running, p) && out == Stamp(p, next)
  {
    var zeroed: Text := p[..5] + Zeros(4) + p[9..];
    next := c.hash(running + zeroed);
    out := zeroed[..5] + next[..4] + zeroed[9..];
  }

  /** moor_relay_check_digest: on a match the running digest is committed. */
  method CheckDigest(c: Crypto, p: Text, running: Digest) returns (ok: bool, next: Digest)
    ensures ok == Checks(c, p, running)
    ensures next == if ok then NextDigest(c, running, p) else running
  {
    var expected := c.hash(running + (p[..5] + Zeros(4) + p[9..]));
    if p[5..9] != expected[..4] { return false, running; }
    return true, expected;
  }

  predicate Checks(c: Crypto, p: Text, running: Digest) {
    p[5..9] == NextDigest(c, running, p)[..4]
  }

  /** A stamped payload passes the check against the same running digest, which then moves alike. */
  lemma StampChecks(c: Crypto, p: Text, running: Digest)
    ensures var q := Stamp(p, NextDigest(c, running, p));
            Checks(c, q, running) && NextDigest(c, running, q) == NextDigest(c, running, p)
  {
    var q := Stamp(p, NextDigest(c, running, p));
    assert Zeroed(q) == Zeroed(p);
    assert q[5..9] == NextDigest(c, running, p)[..4];
  }

  /** An end whose running digest is `e` accepts a cell stamped under the running digest `d` exactly if the
      hashes of the two, each followed by the payload, agree in four bytes. */
  lemma ChecksIff(c: Crypto, p: Text, d: Digest, e: Digest)
    ensures Checks(c, Stamp(p, NextDigest(c, d, p)), e) <==> c.hash(d + Zeroed(p))[..4] == c.hash(e + Zeroed(p))[..4]
  {
    var q := Stamp(p, NextDigest(c, d, p));
    assert Zeroed(q) == Zeroed(p);
    assert q[5..9] == NextDigest(c, d, p)[..4];
  }

  /** A cell whose payload was altered on the way is accepted exactly if the hashes of the two payloads agree
      in four bytes. */
  lemma AlteredIff(c: Crypto, p: Text, q: Text, d: Digest)
    ensures var t := Stamp(q, NextDigest(c, d, p));
            Checks(c, t, d) <==> c.hash(d + Zeroed(p))[..4] == c.hash(d + Zeroed(q))[..4]
  {
    var t := Stamp(q, NextDigest(c, d, p));
    assert Zeroed(t) == Zeroed(q);
    assert t[5..9] == NextDigest(c, d, p)[..4];
  }

  /** The running digest of one end out of step with the other's: with a hash that copies what it is given,
      every cell is refused. */
  lemma OutOfStepRefused(c: Crypto, p: Text, d: Digest, e: Digest)
    requires forall x: seq<Byte> :: |x| >= DIGEST ==> c.hash(x) == x[..DIGEST]
    requires d[..4] != e[..4]
    ensures !Checks(c, Stamp(p, NextDigest(c, d, p)), e)
  {
    ChecksIff(c, p, d, e);
    assert (d + Zeroed(p))[..DIGEST] == d && (e + Zeroed(p))[..DIGEST] == e;
  }

  // ---- Layers ----

  /** `p` under the forward layers of hops `i` and beyond. */
  function Wrapped(c: Crypto, hops: seq<Layer>, p: Text, i: nat): Text
    requires i <= |hops|
    decreases |hops| - i
  {
    if i == |hops| then p else Xor(Wrapped(c, hops, p, i + 1), c.stream(hops[i].fKey, hops[i].fNonce))
  }

  /** `p` under the backward layers of hops `i` and beyond. */
  function Backed(c: Crypto, hops: seq<Layer>, p: Text, i: nat): Text
    requires i <= |hops|
    decreases |hops| - i
  {
    if i == |hops| then p else Xor(Backed(c, hops, p, i + 1), c.stream(hops[i].bKey, hops[i].bNonce))
  }

  /** `wire` after the client has removed the backward layers of the first `i` hops. */
  function Peeled(c: Crypto, hops: seq<Layer>, wire: Text, i: nat): Text
    requires i <= |hops|
  {
    if i == 0 then wire else Xor(Peeled(c, hops, wire, i - 1), c.stream(hops[i - 1].bKey, hops[i - 1].bNonce))
  }

  lemma {:induction false} PeelBacked(c: Crypto, hops: seq<Layer>, p: Text, i: nat)
    requires i <= |hops|
    ensures Peeled(c, hops, Backed(c, hops, p, 0), i) == Backed(c, hops, p, i)
  {
    if i > 0 {
      PeelBacked(c, hops, p, i - 1);
      XorCancels(Backed(c, hops, p, i), c.stream(hops[i - 1].bKey, hops[i - 1].bNonce));
    }
  }

  /** The hops after a forward cell `p`, when hops `k` and below were not reached; the last hop commits
      the digest if `ok`. */
  ghost function Sent(c: Crypto, hops: seq<Layer>, p: Text, k: int, ok: bool): (r: seq<Layer>)
    ensures |r| == |hops|
  {
    seq(|hops|, i requires 0 <= i < |hops| =>
      hops[i].(fNonce := if i > k then hops[i].fNonce + 1 else hops[i].fNonce,
               fDigest := if ok && i == |hops| - 1 then NextDigest(c, hops[i].fDigest, p) else hops[i].fDigest))
  }

  /** The hops after peeling the first `k` layers of a cell, and committing the digest of `p` if `ok`. */
  ghost function Got(c: Crypto, hops: seq<Layer>, p: Text, k: int, ok: bool): (r: seq<Layer>)
    ensures |r| == |hops|
  {
    seq(|hops|, i requires 0 <= i < |hops| =>
      hops[i].(bNonce := if i < k then hops[i].bNonce + 1 else hops[i].bNonce,
               bDigest := if ok && i == |hops| - 1 then NextDigest(c, hops[i].bDigest, p) else hops[i].bDigest))
  }

  class Client {
    const c: Crypto
    var hops: seq<Layer>

    constructor (crypto: Crypto)
      ensures c == crypto && hops == []
    {
      c, hops := crypto, [];
    }

    /** moor_circuit_encrypt_forward: stamp for the last hop, then one layer per hop, last first. It
        stops at the last hop `k` with an exhausted nonce. */
    method EncryptForward(p: Text) returns (ok: bool, wire: Text, ghost k: int)
      modifies this
      ensures -1 <= k < |hops| && ok == (k == -1) && hops == Sent(c, old(hops), p, k, true)
      ensures forall i :: k < i < |hops| ==> old(hops)[i].fNonce != MAX_NONCE
      ensures !ok ==> old(hops)[k].fNonce == MAX_NONCE
      ensures ok ==> wire == if hops == [] then p
                             else Wrapped(c, old(hops), Stamp(p, NextDigest(c, old(hops)[|hops| - 1].fDigest, p)), 0)
    {
      hide Stamp, NextDigest, Xor;
      ghost var before := hops;
      wire := p;
      var n := |hops|;
      if n > 0 {
        var d;
        wire, d := SetDigest(c, wire, hops[n - 1].fDigest);
        hops := hops[n - 1 := hops[n - 1].(fDigest := d)];
      }
      ghost var q := wire;
      for i := n downto 0
        invariant hops == Sent(c, before, p, i - 1, true)
        invariant forall j :: i <= j < n ==> before[j].fNonce != MAX_NONCE
        invariant wire == Wrapped(c, before, q, i)
      {
        if hops[i].fNonce == MAX_NONCE { return false, wire, i; }
        wire := Xor(wire, c.stream(hops[i].fKey, hops[i].fNonce));
        hops := hops[i := hops[i].(fNonce := hops[i].fNonce + 1)];
      }
      return true, wire, -1;
    }

    /** moor_circuit_decrypt_backward: peel every layer, first hop first, then check the digest. It
        stops at the first hop `k` with an exhausted nonce. */
    method DecryptBackward(wire: Text) returns (ok: bool, p: Text, ghost k: nat)
      modifies this
      ensures k <= |hops| && hops == Got(c, old(hops), p, k, ok) && p == Peeled(c, old(hops), wire, k)
      ensures forall i :: 0 <= i < k ==> old(hops)[i].bNonce != MAX_NONCE
      ensures k < |hops| ==> !ok && old(hops)[k].bNonce == MAX_NONCE
      ensures k == |hops| ==> ok == (hops == [] || Checks(c, p, old(hops)[k - 1].bDigest))
    {
      ghost var before := hops;
      p := wire;
      var n := |hops|;
      for i := 0 to n
        invariant hops == Got(c, before, p, i, false)
        invariant forall j :: 0 <= j < i ==> before[j].bNonce != MAX_NONCE
        invariant p == Peeled(c, before, wire, i)
      {
        if hops[i].bNonce == MAX_NONCE { return false, p, i; }
        p := Xor(p, c.stream(hops[i].bKey, hops[i].bNonce));
        hops := hops[i := hops[i].(bNonce := hops[i].bNonce + 1)];
      }
      ok, k := true, n;
      if n > 0 {
        var d;
        ok, d := CheckDigest(c, p, hops[n - 1].bDigest);
        if ok { hops := hops[n - 1 := hops[n - 1].(bDigest := d)]; }
      }
    }
  }

  class Relay {
    const c: Crypto
    var s: Layer
    var closing: bool

    constructor (crypto: Crypto, layer: Layer)
      ensures c == crypto && s == layer && !closing
    {
      c, s, closing := crypto, layer, false;
    }

    /** moor_circuit_relay_decrypt. */
    method Decrypt(wire: Text) returns (ok: bool, out: Text)
      modifies `s
      ensures ok == (old(s).fNonce != MAX_NONCE)
      ensures ok ==> s == old(s).(fNonce := old(s).fNonce + 1) && out == Xor(wire, c.stream(old(s).fKey, old(s).fNonce))
      ensures !ok ==> s == old(s) && out == wire
    {
      if s.fNonce == MAX_NONCE { return false, wire; }
      out := Xor(wire, c.stream(s.fKey, s.fNonce));
      s := s.(fNonce := s.fNonce + 1);
      ok := true;
    }

    /** moor_circuit_relay_encrypt: on exhaustion the payload is wiped and the circuit marked. */
    method Encrypt(p: Text) returns (ok: bool, out: Text)
      modifies this
      ensures ok == (old(s).bNonce != MAX_NONCE)
      ensures ok ==> s == old(s).(bNonce := old(s).bNonce + 1) && closing == old(closing)
      ensures ok ==> out == Xor(p, c.stream(old(s).bKey, old(s).bNonce))
      ensures !ok ==> s == old(s) && out == Zeros(PAYLOAD) && closing
    {
      if s.bNonce == MAX_NONCE {
        closing := true;
        return false, Zeros(PAYLOAD);
      }
      out := Xor(p, c.stream(s.bKey, s.bNonce));
      s := s.(bNonce := s.bNonce + 1);
      ok := true;
    }
  }

  /** Each layer is the key stream of its hop, under the key and the nonce of the direction. */
  lemma LayerIs(c: Crypto, hops: seq<Layer>, p: Text, i: nat)
    requires i < |hops|
    ensures Xor(Wrapped(c, hops, p, i), Wrapped(c, hops, p, i + 1)) == c.stream(hops[i].fKey, hops[i].fNonce)
    ensures Xor(Backed(c, hops, p, i), Backed(c, hops, p, i + 1)) == c.stream(hops[i].bKey, hops[i].bNonce)
  {
    XorCancels(Wrapped(c, hops, p, i + 1), c.stream(hops[i].fKey, hops[i].fNonce));
    XorCancels(Backed(c, hops, p, i + 1), c.stream(hops[i].bKey, hops[i].bNonce));
  }

  // ---- Whole circuits ----

  /** A circuit: the client's hops and the relays along the path. */
  datatype Path = Path(client: seq<Layer>, relays: seq<Layer>)

  /** A cell to or from the current last hop, or the path growing by one hop whose keys and initial
      digests both ends agreed on. */
  datatype Event =
    | Forward(p: Text)
    | Backward(p: Text)
    | Extend(fKey: seq<Byte>, bKey: seq<Byte>, fDigest: Digest, bDigest: Digest)

  /** `at` is the hop that took the cell or sent it; a forward cell may be taken by no relay. */
  datatype Outcome = Received(at: nat, text: Text, ok: bool) | Failed | Grown

  /** `wire` after the first `i` relays have each removed their forward layer. */
  function Through(c: Crypto, relays: seq<Layer>, wire: Text, i: nat): Text
    requires i <= |relays|
  {
    if i == 0 then wire else Xor(Through(c, relays, wire, i - 1), c.stream(relays[i - 1].fKey, relays[i - 1].fNonce))
  }

  lemma {:induction false} ThroughWrapped(c: Crypto, hops: seq<Layer>, p: Text, i: nat)
    requires i <= |hops|
    ensures Through(c, hops, Wrapped(c, hops, p, 0), i) == Wrapped(c, hops, p, i)
  {
    if i > 0 {
      ThroughWrapped(c, hops, p, i - 1);
      XorCancels(Wrapped(c, hops, p, i), c.stream(hops[i - 1].fKey, hops[i - 1].fNonce));
    }
  }

  /** A relay takes a cell if its recognized field is 0 and the digest matches. */
  predicate Takes(c: Crypto, text: Text, layer: Layer) {
    text[1] == 0 && text[2] == 0 && Checks(c, text, layer.fDigest)
  }

  /** A cell whose recognized field is not 0 is passed on, whatever its digest. */
  lemma Unrecognized(c: Crypto, text: Text, layer: Layer)
    requires text[1] != 0 || text[2] != 0
    ensures !Takes(c, text, layer)
  {
  }

  /** The first relay from `i` on that takes the cell, `|relays|` if none does. */
  function Taker(c: Crypto, relays: seq<Layer>, wire: Text, i: nat): (k: nat)
    requires i <= |relays|
    ensures i <= k <= |relays| && (k < |relays| ==> Takes(c, Through(c, relays, wire, k + 1), relays[k]))
    ensures forall j :: i <= j < k ==> !Takes(c, Through(c, relays, wire, j + 1), relays[j])
    decreases |relays| - i
  {
    if i == |relays| || Takes(c, Through(c, relays, wire, i + 1), relays[i]) then i else Taker(c, relays, wire, i + 1)
  }

  /** The relays after a forward cell that relay `k` takes, or that passes all of them. */
  ghost function Taken(c: Crypto, relays: seq<Layer>, wire: Text, k: nat): (r: seq<Layer>)
    requires k <= |relays|
    ensures |r| == |relays|
  {
    seq(|relays|, i requires 0 <= i < |relays| =>
      relays[i].(fNonce := if i <= k then relays[i].fNonce + 1 else relays[i].fNonce,
                 fDigest := if i == k then NextDigest(c, relays[i].fDigest, Through(c, relays, wire, k + 1))
                   else relays[i].fDigest))
  }

  predicate Exhausted(hops: seq<Layer>) {
    exists i :: 0 <= i < |hops| && (hops[i].fNonce == MAX_NONCE || hops[i].bNonce == MAX_NONCE)
  }

  /** What the client puts on the wire for the last hop. */
  function Onward(c: Crypto, hops: seq<Layer>, p: Text): Text
    requires hops != []
  {
    Wrapped(c, hops, Stamp(p, NextDigest(c, hops[|hops| - 1].fDigest, p)), 0)
  }

  ghost function Step(c: Crypto, s: Path, e: Event): (Path, Outcome)
    requires |s.client| == |s.relays|
  {
    var n := |s.client|;
    match e
    case Extend(fKey, bKey, fDigest, bDigest) =>
      var layer := Layer(fKey, bKey, 0, 0, fDigest, bDigest);
      (Path(s.client + [layer], s.relays + [layer]), Grown)
    case Forward(p) =>
      if n == 0 || Exhausted(s.client) || Exhausted(s.relays) then (s, Failed)
      else
        var wire := Onward(c, s.client, p);
        var k := Taker(c, s.relays, wire, 0);
        (Path(Sent(c, s.client, p, -1, true), Taken(c, s.relays, wire, k)),
         Received(k, Through(c, s.relays, wire, if k < n then k + 1 else n), k < n))
    case Backward(p) =>
      if n == 0 || Exhausted(s.client) || Exhausted(s.relays) then (s, Failed)
      else
        var wire := Backed(c, s.relays, Stamp(p, NextDigest(c, s.relays[n - 1].bDigest, p)), 0);
        var text := Peeled(c, s.client, wire, n);
        var ok := Checks(c, text, s.client[n - 1].bDigest);
        (Path(Got(c, s.client, text, n, ok), Got(c, s.relays, p, n, true)), Received(n - 1, text, ok))
  }

  /** The text is the payload that was sent to or by hop `at`, up to the digest field, and was accepted. */
  ghost predicate Delivers(o: Outcome, p: Text, at: int) {
    o.Received? && o.ok && o.at == at && o.text[..5] == p[..5] && o.text[9..] == p[9..]
  }

  /** A relay before the last takes the cell by chance: what it sees under its own layer happens to have
      a zero recognized field and to match its running digest. */
  ghost predicate Misread(c: Crypto, hops: seq<Layer>, e: Event) {
    && e.Forward? && hops != []
    && var q := Stamp(e.p, NextDigest(c, hops[|hops| - 1].fDigest, e.p));
       exists j :: 0 <= j < |hops| - 1 && Takes(c, Wrapped(c, hops, q, j + 1), hops[j])
  }

  /** Relay cells leave the client with a zero recognized field. */
  predicate Plain(e: Event) {
    e.Forward? ==> e.p[1] == 0 && e.p[2] == 0
  }

  /** With both ends in step, the last relay takes a forward cell exactly if no other one does. */
  lemma LastTakes(c: Crypto, hops: seq<Layer>, e: Event)
    requires hops != [] && e.Forward? && Plain(e)
    ensures var k := Taker(c, hops, Onward(c, hops, e.p), 0);
            && (Misread(c, hops, e) <==> k < |hops| - 1) && (!Misread(c, hops, e) ==> k == |hops| - 1)
            && Through(c, hops, Onward(c, hops, e.p), |hops|)
              == Stamp(e.p, NextDigest(c, hops[|hops| - 1].fDigest, e.p))
  {
    hide Checks, NextDigest;
    var n := |hops|;
    var q := Stamp(e.p, NextDigest(c, hops[n - 1].fDigest, e.p));
    var wire := Onward(c, hops, e.p);
    forall j | 0 <= j <= n ensures Through(c, hops, wire, j)
      == Wrapped(c, hops, q, j) { ThroughWrapped(c, hops, q, j); }
    StampChecks(c, e.p, hops[n - 1].fDigest);
    assert Takes(c, Through(c, hops, wire, n - 1 + 1), hops[n - 1]);
  }

  /** With both ends in step, a cell arrives intact and leaves both ends in step, unless a relay before
      the last takes it. */
  lemma StepDelivers(c: Crypto, s: Path, e: Event)
    requires s.client == s.relays && Plain(e)
    ensures var (s', o) := Step(c, s, e);
            && (!Misread(c, s.client, e) || Exhausted(s.client) ==> s'.client == s'.relays)
            && (s.client != [] && !Exhausted(s.client) && (e.Forward? || e.Backward?) ==>
                 (Delivers(o, e.p, |s.client| - 1) <==> !Misread(c, s.client, e)))
  {
    hide Misread;
    var hops, n := s.client, |s.client|;
    if n > 0 && !Exhausted(hops) {
      match e
      case Extend(_, _, _, _) => NoMisread(c, hops, e);
      case Forward(p) => ForwardDelivers(c, s, e);
      case Backward(p) =>
        NoMisread(c, hops, e);
        var q := Stamp(p, NextDigest(c, hops[n - 1].bDigest, p));
        PeelBacked(c, hops, q, n);
        StampChecks(c, p, hops[n - 1].bDigest);
        assert Got(c, hops, q, n, true) == Got(c, hops, p, n, true);
    }
  }

  lemma NoMisread(c: Crypto, hops: seq<Layer>, e: Event)
    requires !e.Forward?
    ensures !Misread(c, hops, e)
  {
  }

  lemma ForwardDelivers(c: Crypto, s: Path, e: Event)
    requires s.client == s.relays && s.client != [] && !Exhausted(s.client) && e.Forward? && Plain(e)
    ensures var (s', o) := Step(c, s, e);
            && (!Misread(c, s.client, e) ==> s'.client == s'.relays)
            && (Delivers(o, e.p, |s.client| - 1) <==> !Misread(c, s.client, e))
  {
    hide Misread, Checks, NextDigest, Exhausted, Through, Onward, Taker;
    var hops, n := s.client, |s.client|;
    LastTakes(c, hops, e);
    if !Misread(c, hops, e) {
      StampChecks(c, e.p, hops[n - 1].fDigest);
      assert Taken(c, hops, Onward(c, hops, e.p), n - 1) == Sent(c, hops, e.p, -1, true);
    }
  }

  /** A step advances each nonce by at most one, and below the limit no hop is exhausted. */
  lemma StepCounts(c: Crypto, s: Path, e: Event, n: nat)
    requires s.client == s.relays && n < MAX_NONCE
    requires forall i :: 0 <= i < |s.client| ==> s.client[i].fNonce <= n && s.client[i].bNonce <= n
    ensures !Exhausted(s.client) && (s.client != [] || e.Extend? ==> Step(c, s, e).0.client != [])
    ensures forall i :: 0 <= i < |Step(c, s, e).0.client| ==>
      Step(c, s, e).0.client[i].fNonce <= n + 1 && Step(c, s, e).0.client[i].bNonce <= n + 1
  {
    hide Checks, Through, Wrapped, Backed, Peeled, Stamp, NextDigest;
  }

  /** The path after the events, starting without hops, and all outcomes. */
  ghost function Run(c: Crypto, es: seq<Event>): (r: (Path, seq<Outcome>))
    ensures |r.0.client| == |r.0.relays| && |r.1| == |es|
  {
    if es == [] then (Path([], []), [])
    else
      var (s, os) := Run(c, es[..|es| - 1]);
      var (s', o) := Step(c, s, es[|es| - 1]);
      (s', os + [o])
  }

  /** No relay before the last takes one of the first `n` cells. */
  ghost predicate NoneMisread(c: Crypto, es: seq<Event>, n: nat)
    requires n <= |es|
  {
    forall i :: 0 <= i < n ==> !Misread(c, Run(c, es[..i]).0.client, es[i])
  }

  ghost predicate AllPlain(es: seq<Event>) {
    forall i :: 0 <= i < |es| ==> Plain(es[i])
  }

  /** Cell `i` arrived at, or came from, the last hop there was at that time. */
  ghost predicate Arrived(c: Crypto, es: seq<Event>, i: nat)
    requires i < |es|
  {
    es[i].Extend? || Delivers(Run(c, es).1[i], es[i].p, |Run(c, es[..i]).0.client| - 1)
  }

  lemma {:induction false} OutcomeAt(c: Crypto, es: seq<Event>, i: nat)
    requires i < |es|
    ensures Run(c, es).1[i] == Step(c, Run(c, es[..i]).0, es[i]).1
  {
    hide Step;
    var n := |es| - 1;
    if i < n {
      OutcomeAt(c, es[..n], i);
      assert es[..n][..i] == es[..i];
    }
  }

  /** As long as no relay before the last takes a cell, both ends stay in step. */
  lemma {:induction false} InStep(c: Crypto, es: seq<Event>)
    requires |es| <= MAX_NONCE && AllPlain(es) && NoneMisread(c, es, |es|)
    ensures var s := Run(c, es).0;
            && s.client == s.relays && (es != [] && es[0].Extend? ==> s.client != [])
            && (forall i :: 0 <= i < |s.client| ==> s.client[i].fNonce <= |es| && s.client[i].bNonce <= |es|)
  {
    hide Step, Exhausted, Misread;
    if es != [] {
      var init := es[..|es| - 1];
      forall i | 0 <= i < |init| ensures init[..i] == es[..i] {}
      InStep(c, init);
      StepCounts(c, Run(c, init).0, es[|es| - 1], |init|);
      StepDelivers(c, Run(c, init).0, es[|es| - 1]);
    }
  }

  /** With both ends in step before it, a cell arrives exactly if no relay before the last takes it. */
  lemma ArrivesIff(c: Crypto, es: seq<Event>, i: nat)
    requires i < |es| <= MAX_NONCE && AllPlain(es) && es[0].Extend? && NoneMisread(c, es, i)
    ensures Arrived(c, es, i) <==> !Misread(c, Run(c, es[..i]).0.client, es[i])
  {
    hide Step, Exhausted, Misread, Run, Delivers;
    var init := es[..i];
    forall j | 0 <= j < i ensures init[..j] == es[..j] {}
    InStep(c, init);
    StepCounts(c, Run(c, init).0, es[i], i);
    StepDelivers(c, Run(c, init).0, es[i]);
    OutcomeAt(c, es, i);
    if es[i].Extend? { NoMisread(c, Run(c, init).0.client, es[i]); }
    if i == 0 { NoMisread(c, Run(c, init).0.client, es[0]); }
  }

  /** In every in-order run that starts with a hop and stays below the nonce limit, with hops added at
      any time: all cells in both directions arrive intact and are accepted if and only if no relay before
      the last takes one for its own by chance. */
  lemma AllDeliveredIff(c: Crypto, es: seq<Event>)
    requires 0 < |es| <= MAX_NONCE && AllPlain(es) && es[0].Extend?
    ensures (forall i :: 0 <= i < |es| ==> Arrived(c, es, i)) <==> NoneMisread(c, es, |es|)
  {
    hide Arrived, Misread, Run;
    if NoneMisread(c, es, |es|) {
      forall i | 0 <= i < |es| ensures Arrived(c, es, i) { ArrivesIff(c, es, i); }
    } else {
      var i := FirstMisread(c, es);
      ArrivesIff(c, es, i);
    }
  }

  lemma FirstMisread(c: Crypto, es: seq<Event>) returns (i: nat)
    requires !NoneMisread(c, es, |es|)
    ensures i < |es| && NoneMisread(c, es, i) && Misread(c, Run(c, es[..i]).0.client, es[i])
  {
    hide Misread, Run;
    i := 0;
    while i < |es| && !Misread(c, Run(c, es[..i]).0.client, es[i])
      invariant i <= |es| && NoneMisread(c, es, i)
    {
      i := i + 1;
    }
  }

  /** It can happen: under a hash and a key stream that are constantly zero, the first of two relays takes
      a cell for the second. */
  lemma CanMisread(key: seq<Byte>)
    ensures var c := Crypto(_ => Zeros(DIGEST), (_, _) => Zeros(PAYLOAD));
            var hop := Extend(key, key, Zeros(DIGEST), Zeros(DIGEST));
            !Arrived(c, [hop, hop, Forward(Zeros(PAYLOAD))], 2)
  {
    var c := Crypto(_ => Zeros(DIGEST), (_, _) => Zeros(PAYLOAD));
    var hop := Extend(key, key, Zeros(DIGEST), Zeros(DIGEST));
    var es := [hop, hop, Forward(Zeros(PAYLOAD))];
    var layer := Layer(key, key, 0, 0, Zeros(DIGEST), Zeros(DIGEST));
    assert es[..2] == [hop, hop] && es[..1] == [hop] && [hop, hop][..1] == [hop] && es[..0] == [] && [hop][..0] == [];
    assert Run(c, []).0 == Path([], []);
    assert Run(c, [hop]).0 == Path([layer], [layer]);
    var hops := Run(c, es[..2]).0.client;
    assert hops == [layer, layer];
    var zero := Zeros(PAYLOAD);
    assert Stamp(zero, NextDigest(c, hops[1].fDigest, zero)) == zero;
    XorZeros(c, hops, zero);
    assert Takes(c, Wrapped(c, hops, zero, 1), hops[0]);
    assert Misread(c, hops, es[2]);
    NoMisread(c, Run(c, es[..0]).0.client, es[0]);
    NoMisread(c, Run(c, es[..1]).0.client, es[1]);
    ArrivesIff(c, es, 2);
  }

  lemma XorZeros(c: Crypto, hops: seq<Layer>, zero: Text)
    requires |hops| == 2 && zero == Zeros(PAYLOAD) && c.stream(hops[1].fKey, hops[1].fNonce) == zero
    ensures Wrapped(c, hops, zero, 1) == zero
  {
    assert Wrapped(c, hops, zero, 2) == zero;
  }

  // ---- Digests out of step ----

  /** Same keys and nonces, so that the layers come off. */
  ghost predicate SameLayers(client: seq<Layer>, relays: seq<Layer>) {
    && |client| == |relays|
    && forall i :: 0 <= i < |client| ==> client[i].fKey == relays[i].fKey && client[i].fNonce == relays[i].fNonce
  }

  lemma {:induction false} ThroughSame(c: Crypto, client: seq<Layer>, relays: seq<Layer>, wire: Text, i: nat)
    requires SameLayers(client, relays) && i <= |client|
    ensures Through(c, client, wire, i) == Through(c, relays, wire, i)
  {
    if i > 0 { ThroughSame(c, client, relays, wire, i - 1); }
  }

  /** A cell that no relay before the last takes is taken by the last exactly if the hashes of its running
      digest and of the client's, each followed by the payload, agree in four bytes. */
  lemma LastTakesIff(c: Crypto, client: seq<Layer>, relays: seq<Layer>, e: Event)
    requires SameLayers(client, relays) && client != [] && e.Forward? && Plain(e)
    ensures var n, k := |client|, Taker(c, relays, Onward(c, client, e.p), 0);
            k >= n - 1 ==>
              (k == n - 1 <==> c.hash(client[n - 1].fDigest + Zeroed(e.p))[..4] ==
                               c.hash(relays[n - 1].fDigest + Zeroed(e.p))[..4])
  {
    hide Checks, NextDigest, Zeroed;
    var n := |client|;
    var q := Stamp(e.p, NextDigest(c, client[n - 1].fDigest, e.p));
    var wire := Onward(c, client, e.p);
    ThroughWrapped(c, client, q, n);
    ThroughSame(c, client, relays, wire, n);
    ChecksIff(c, e.p, client[n - 1].fDigest, relays[n - 1].fDigest);
    assert Takes(c, Through(c, relays, wire, n - 1 + 1), relays[n - 1]) <==> Checks(c, q, relays[n - 1].fDigest);
  }

  /** After a cell `p` that the last relay decrypted and did not take, the next one, `q`, is taken only if the
      hash of the digest that moved on and of the one that did not agree in four bytes. */
  lemma UnseenThenTaken(c: Crypto, hops: seq<Layer>, p: Text, q: Text)
    requires hops != [] && q[1] == q[2] == 0
    requires !Exhausted(Sent(c, hops, p, -1, true)) && !Exhausted(Sent(c, hops, p, -1, false))
    ensures var n, d := |hops|, hops[|hops| - 1].fDigest;
            var o := Step(c, Path(Sent(c, hops, p, -1, true), Sent(c, hops, p, -1, false)), Forward(q)).1;
            o.Received? && o.at == n - 1 && o.ok ==>
              c.hash(c.hash(d + Zeroed(p)) + Zeroed(q))[..4] == c.hash(d + Zeroed(q))[..4]
  {
    hide Exhausted, Checks, Zeroed;
    var client, relays := Sent(c, hops, p, -1, true), Sent(c, hops, p, -1, false);
    LastTakesIff(c, client, relays, Forward(q));
  }

  // ---- Key streams are used once ----

  /** A cell uses up one nonce of every hop in its direction; a new hop starts at 0. */
  lemma StepNonces(c: Crypto, s: Path, e: Event)
    requires s.client == s.relays && !Exhausted(s.client)
    ensures var t := Step(c, s, e).0.client;
            && |t| == (if e.Extend? then |s.client| + 1 else |s.client|)
            && (forall h :: 0 <= h < |s.client| ==>
                  && t[h].fKey == s.client[h].fKey && t[h].bKey == s.client[h].bKey
                  && t[h].fNonce == (if e.Forward? then s.client[h].fNonce + 1 else s.client[h].fNonce)
                  && t[h].bNonce == (if e.Backward? then s.client[h].bNonce + 1 else s.client[h].bNonce))
            && (e.Extend? ==> t[|s.client|].fNonce == t[|s.client|].bNonce == 0
                              && t[|s.client|].fKey == e.fKey && t[|s.client|].bKey == e.bKey)
  {
    hide Checks, Wrapped, Backed, Through, Peeled, Stamp, NextDigest, Taker, Onward;
  }

  /** The nonce of hop `h` before the event number `i`. */
  ghost function FNonce(c: Crypto, es: seq<Event>, i: nat, h: nat): nat
    requires i <= |es| && h < |Run(c, es[..i]).0.client|
  {
    Run(c, es[..i]).0.client[h].fNonce
  }

  ghost function BNonce(c: Crypto, es: seq<Event>, i: nat, h: nat): nat
    requires i <= |es| && h < |Run(c, es[..i]).0.client|
  {
    Run(c, es[..i]).0.client[h].bNonce
  }

  lemma OneStep(c: Crypto, es: seq<Event>, i: nat, h: nat)
    requires i < |es| <= MAX_NONCE && AllPlain(es) && NoneMisread(c, es, |es|) && h < |Run(c, es[..i]).0.client|
    ensures h < |Run(c, es[..i + 1]).0.client|
    ensures FNonce(c, es, i + 1, h) == FNonce(c, es, i, h) + if es[i].Forward? then 1 else 0
    ensures BNonce(c, es, i + 1, h) == BNonce(c, es, i, h) + if es[i].Backward? then 1 else 0
    ensures Run(c, es[..i + 1]).0.client[h].fKey == Run(c, es[..i]).0.client[h].fKey
    ensures Run(c, es[..i + 1]).0.client[h].bKey == Run(c, es[..i]).0.client[h].bKey
  {
    hide Step, Misread, Exhausted;
    var init := es[..i];
    forall j | 0 <= j < i ensures init[..j] == es[..j] {}
    InStep(c, init);
    StepCounts(c, Run(c, init).0, es[i], i);
    StepNonces(c, Run(c, init).0, es[i]);
    assert es[..i + 1][..i] == init;
  }

  /** No two cells of a run are encrypted for a hop under the same key and nonce, in either direction. */
  lemma {:induction false} NoncesOnce(c: Crypto, es: seq<Event>, i: nat, j: nat, h: nat)
    requires i < j <= |es| <= MAX_NONCE && AllPlain(es) && NoneMisread(c, es, |es|)
    requires h < |Run(c, es[..i]).0.client|
    ensures h < |Run(c, es[..j]).0.client| && FNonce(c, es, i, h) <= FNonce(c, es, j, h)
    ensures BNonce(c, es, i, h) <= BNonce(c, es, j, h)
    ensures es[i].Forward? ==> FNonce(c, es, i, h) < FNonce(c, es, j, h)
    ensures es[i].Backward? ==> BNonce(c, es, i, h) < BNonce(c, es, j, h)
    decreases j
  {
    hide Run, NoneMisread;
    if i + 1 == j {
      OneStep(c, es, i, h);
    } else {
      NoncesOnce(c, es, i, j - 1, h);
      OneStep(c, es, j - 1, h);
    }
  }
}
