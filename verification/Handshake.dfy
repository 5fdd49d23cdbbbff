/** The link handshake of src/connection.c: the IK pattern (section 7.5 of the Noise Protocol
    Framework) followed by a KEM exchange in sealed cells. The primitives are arbitrary functions
    with the laws of `Ideal`. */
module Handshake {
  import opened Bytes
  import opened Options

  const KEY := 32
  const MAC := 16
  const MSG1 := 80
  const MSG2 := 48
  const PAYLOAD := 509
  const CELL := 514
  const FRAME := 2 + CELL + MAC
  const KEM_PK := 1184
  const KEM_CT := 1088
  const KEM_CMD: Byte := 8
  const BUFFER := 4096

  type Blob = seq<Byte>

  datatype Pair = Pair(a: Blob, b: Blob)

  datatype Crypto = Crypto(
    name: Blob,
    hash: Blob -> Blob,
    hkdf: (Blob, Blob) -> Pair,
    pub: Blob -> Blob,
    dh: (Blob, Blob) -> Option<Blob>,
    seal: (Blob, nat, Blob, Blob) -> Blob,
    unseal: (Blob, nat, Blob, Blob) -> Option<Blob>,
    kemPub: Blob -> Blob,
    encap: (Blob, Blob) -> Pair,
    decap: (Blob, Blob) -> Option<Blob>)

  /** Lengths, Diffie-Hellman, opening what was sealed, decapsulation. `encap(pk, coins)` is the
      ciphertext and the shared secret. */
  ghost predicate Ideal(c: Crypto) {
    && (forall sk :: |c.pub(sk)| == KEY && |c.kemPub(sk)| == KEM_PK)
    && (forall x, y :: c.dh(x, c.pub(y)) == c.dh(y, c.pub(x)))
    && (forall k, n, ad, p :: |c.seal(k, n, ad, p)| == |p| + MAC && c.unseal(k, n, ad, c.seal(k, n, ad, p)) == Some(p))
    && (forall k, n, ad, s :: c.unseal(k, n, ad, s).Some? ==> |s| == |c.unseal(k, n, ad, s).value| + MAC)
    && (forall sk, coins :: var e := c.encap(c.kemPub(sk), coins); |e.a| == KEM_CT && c.decap(e.a, sk) == Some(e.b))
  }

  // ---- Noise state ----

  datatype Noise = Noise(h: Blob, ck: Blob, k: Blob)

  function Init(c: Crypto): Noise {
    Noise(c.hash(c.name), c.hash(c.name), [])
  }

  function MixHash(c: Crypto, n: Noise, data: Blob): Noise {
    n.(h := c.hash(n.h + data))
  }

  function MixKey(c: Crypto, n: Noise, ikm: Blob): Noise {
    var p := c.hkdf(n.ck, ikm);
    n.(ck := p.a, k := p.b)
  }

  /** Mixing in the shared secret of `sk` and `pk`. */
  function MixDh(c: Crypto, n: Noise, sk: Blob, pk: Blob): Option<Noise> {
    var s := c.dh(sk, pk);
    if s.None? then None else Some(MixKey(c, n, s.value))
  }

  function Sealed(c: Crypto, n: Noise, p: Blob): Blob {
    c.seal(n.k, 0, n.h, p)
  }

  function Unsealed(c: Crypto, n: Noise, s: Blob): Option<Blob> {
    c.unseal(n.k, 0, n.h, s)
  }

  /** Link keys after the Noise part. */
  datatype Keys = Keys(send: Blob, recv: Blob)

  function Split(c: Crypto, n: Noise): Pair {
    c.hkdf(n.ck, [])
  }

  // ---- The client ----

  /** Our keys, the peer's, and the ephemeral ones drawn for this handshake. */
  datatype Client = Client(sk: Blob, peer: Blob, eph: Blob, kem: Blob)

  datatype Hello = Hello(noise: Noise, msg1: Blob)

  function Greet(c: Crypto, w: Client): Option<Hello> {
    var n0 := MixHash(c, MixHash(c, Init(c), w.peer), c.pub(w.eph));
    match MixDh(c, n0, w.eph, w.peer)
    case None => None
    case Some(n1) =>
      var s := Sealed(c, n1, c.pub(w.sk));
      match MixDh(c, MixHash(c, n1, s), w.sk, w.peer)
      case None => None
      case Some(n2) => Some(Hello(n2, c.pub(w.eph) + s))
  }

  /** The keys that message 2 leads to. */
  function Welcome(c: Crypto, w: Client, n: Noise, msg2: Blob): Option<Keys>
    requires |msg2| == MSG2
  {
    var re := msg2[..KEY];
    match MixDh(c, MixHash(c, n, re), w.eph, re)
    case None => None
    case Some(n1) =>
      match MixDh(c, n1, w.sk, re)
      case None => None
      case Some(n2) =>
        if Unsealed(c, n2, msg2[KEY..]).None? then None
        else var k := Split(c, n2); Some(Keys(k.a, k.b))
  }

  // ---- Sealed cells ----

  function Packed(chunk: Blob): Blob
    requires |chunk| <= PAYLOAD
  {
    Zeros(4) + [KEM_CMD] + chunk + Zeros(PAYLOAD - |chunk|)
  }

  function Framed(s: Blob): Blob {
    [2, 18] + s
  }

  /** Chunk number `i` of `data`. */
  function Chunk(data: Blob, i: nat): (r: Blob)
    requires i * PAYLOAD < |data|
    ensures |r| == if |data| - i * PAYLOAD > PAYLOAD then PAYLOAD else |data| - i * PAYLOAD
  {
    data[i * PAYLOAD..if |data| - i * PAYLOAD > PAYLOAD then (i + 1) * PAYLOAD else |data|]
  }

  /** The first `n` cells that carry `data`. */
  function Cells(c: Crypto, key: Blob, data: Blob, n: nat): Blob
    requires n == 0 || (n - 1) * PAYLOAD < |data|
  {
    if n == 0 then [] else Cells(c, key, data, n - 1) + CellAt(c, key, data, n - 1)
  }

  function CellAt(c: Crypto, key: Blob, data: Blob, i: nat): Blob
    requires i * PAYLOAD < |data|
  {
    Framed(c.seal(key, i, [], Packed(Chunk(data, i))))
  }

  datatype Pull = More | Bad | Got(cmd: Byte, payload: Blob, rest: Blob)

  function Length(buf: Blob): nat
    requires |buf| >= 2
  {
    buf[0] as nat * 256 + buf[1] as nat
  }

  /** The next cell in `buf`. The asynchronous client insists on full cells; the blocking reader takes
      shorter ones, and the rest of the cell is then whatever `stack` held. */
  function NextCell(c: Crypto, key: Blob, nonce: nat, buf: Blob, strict: bool, stack: Blob): Pull
    requires |stack| == CELL
  {
    if |buf| < 2 then More
    else
      var len := Length(buf);
      if (if strict then len != CELL + MAC else len < MAC || len > CELL + MAC) then Bad
      else if |buf| < 2 + len then More
      else
        match c.unseal(key, nonce, [], buf[2..2 + len])
        case None => Bad
        case Some(p) =>
          var plain := if |p| < CELL then p + stack[|p|..] else p;
          Got(plain[4], plain[5..CELL], buf[2 + len..])
  }

  datatype Collected = Waiting | Failed | Done(data: Blob, nonce: nat, rest: Blob)

  /** Collecting `size` bytes of KEM data from the cells in `buf`, of which `got` are there. */
  function Collect(c: Crypto, key: Blob, nonce: nat, buf: Blob, got: Blob, size: nat, strict: bool,
          stack: Blob): Collected
    requires |stack| == CELL
    decreases size - |got|
  {
    if |got| >= size then Done(got, nonce, buf)
    else
      match NextCell(c, key, nonce, buf, strict, stack)
      case More => Waiting
      case Bad => Failed
      case Got(cmd, payload, rest) =>
        if cmd != KEM_CMD then Failed
        else Collect(c, key, nonce + 1, rest, got + Taken(payload, size - |got|), size, strict, stack)
  }

  function Taken(payload: Blob, space: nat): (r: Blob)
    requires space > 0 && |payload| == PAYLOAD
    ensures |r| > 0 && |r| == if PAYLOAD > space then space else PAYLOAD
  {
    if PAYLOAD > space then payload[..space] else payload
  }

  // ---- Whole handshakes, as functions of the bytes that come in ----

  /** Link keys, nonces and unread bytes at the end. */
  datatype Link = Link(send: Blob, recv: Blob, sendNonce: nat, recvNonce: nat, rest: Blob)

  datatype Outcome = Pending | Broken | Finished(sent: Blob, link: Link)

  function MixKem(c: Crypto, key: Blob, ss: Blob): Blob {
    c.hkdf(key, ss).a
  }

  function ClientRun(c: Crypto, w: Client, input: Blob, strict: bool, stack: Blob): Outcome
    requires |stack| == CELL && |c.kemPub(w.kem)| == KEM_PK
  {
    match Greet(c, w)
    case None => Broken
    case Some(hello) =>
      if |input| < MSG2 then Pending
      else
        match Welcome(c, w, hello.noise, input[..MSG2])
        case None => Broken
        case Some(keys) =>
          match Collect(c, keys.recv, 0, input[MSG2..], [], KEM_CT, strict, stack)
          case Waiting => Pending
          case Failed => Broken
          case Done(ct, nonce, rest) =>
            match c.decap(ct, w.kem)
            case None => Broken
            case Some(ss) =>
              Finished(hello.msg1 + Cells(c, keys.send, c.kemPub(w.kem), 3),
                       Link(MixKem(c, keys.send, ss), MixKem(c, keys.recv, ss), 3, nonce, rest))
  }

  /** The responder: our static key, an ephemeral one and the coins of the encapsulation. */
  datatype Server = Server(sk: Blob, eph: Blob, coins: Blob)

  datatype Reply = Reply(msg2: Blob, keys: Keys)

  function Respond(c: Crypto, w: Server, msg1: Blob): Option<Reply>
    requires |msg1| == MSG1
  {
    var ie := msg1[..KEY];
    match MixDh(c, MixHash(c, MixHash(c, Init(c), c.pub(w.sk)), ie), w.sk, ie)
    case None => None
    case Some(n1) =>
      match Unsealed(c, n1, msg1[KEY..])
      case None => None
      case Some(peer) =>
        match MixDh(c, MixHash(c, n1, msg1[KEY..]), w.sk, peer)
        case None => None
        case Some(n2) => Answer(c, w, MixHash(c, n2, c.pub(w.eph)), ie, peer)
  }

  function Answer(c: Crypto, w: Server, n: Noise, ie: Blob, peer: Blob): Option<Reply> {
    match MixDh(c, n, w.eph, ie)
    case None => None
    case Some(n1) =>
      match MixDh(c, n1, w.eph, peer)
      case None => None
      case Some(n2) => var k := Split(c, n2); Some(Reply(c.pub(w.eph) + Sealed(c, n2, []), Keys(k.b, k.a)))
  }

  function ServerRun(c: Crypto, w: Server, input: Blob, stack: Blob): Outcome
    requires |stack| == CELL
  {
    if |input| < MSG1 then Pending
    else
      match Respond(c, w, input[..MSG1])
      case None => Broken
      case Some(reply) =>
        match Collect(c, reply.keys.recv, 0, input[MSG1..], [], KEM_PK, false, stack)
        case Waiting => Pending
        case Failed => Broken
        case Done(pk, nonce, rest) =>
          var e := c.encap(pk, w.coins);
          if |e.a| != KEM_CT then Broken
          else Finished(reply.msg2 + Cells(c, reply.keys.send, e.a, 3),
                        Link(MixKem(c, reply.keys.send, e.b), MixKem(c, reply.keys.recv, e.b), 3, nonce, rest))
  }

  // ---- Reading cells from a growing buffer ----

  lemma NextCellMore(c: Crypto, key: Blob, nonce: nat, buf: Blob, x: Blob, strict: bool, stack: Blob)
    requires |stack| == CELL
    ensures match NextCell(c, key, nonce, buf, strict, stack)
            case More => true
            case Bad => NextCell(c, key, nonce, buf + x, strict, stack) == Bad
            case Got(cmd, payload, rest) =>
              NextCell(c, key, nonce, buf + x, strict, stack) == Got(cmd, payload, rest + x)
  {
    hide Length;
    if |buf| >= 2 {
      LengthMore(buf, x);
      if |buf| >= 2 + Length(buf) { SliceMore(buf, x, 2 + Length(buf)); }
    }
  }

  lemma LengthMore(buf: Blob, x: Blob)
    requires |buf| >= 2
    ensures Length(buf + x) == Length(buf)
  {
  }

  lemma SliceMore(buf: Blob, x: Blob, n: nat)
    requires 2 <= n <= |buf|
    ensures (buf + x)[2..n] == buf[2..n] && (buf + x)[n..] == buf[n..] + x
  {
  }

  /** More bytes change nothing but what is left over, once the data is complete or broken. */
  lemma {:induction false} CollectMore(c: Crypto, key: Blob, nonce: nat, buf: Blob, x: Blob, got: Blob, size: nat,
                                           strict: bool, stack: Blob)
    requires |stack| == CELL
    ensures match Collect(c, key, nonce, buf, got, size, strict, stack)
            case Waiting => true
            case Failed => Collect(c, key, nonce, buf + x, got, size, strict, stack) == Failed
            case Done(d, n, rest) => Collect(c, key, nonce, buf + x, got, size, strict, stack) == Done(d, n, rest + x)
    decreases size - |got|
  {
    hide NextCell;
    NextCellMore(c, key, nonce, buf, x, strict, stack);
    if |got| < size {
      match NextCell(c, key, nonce, buf, strict, stack)
      case More =>
      case Bad =>
      case Got(cmd, payload, rest) =>
        GotPayload(c, key, nonce, buf, strict, stack);
        if cmd == KEM_CMD {
          CollectMore(c, key, nonce + 1, rest, x, got + Taken(payload, size - |got|), size, strict, stack);
        }
    }
  }

  lemma GotPayload(c: Crypto, key: Blob, nonce: nat, buf: Blob, strict: bool, stack: Blob)
    requires |stack| == CELL
    ensures var r := NextCell(c, key, nonce, buf, strict, stack); r.Got? ==> |r.payload| == PAYLOAD
  {
  }

  /** What the strict reader completes, the lenient one completes alike. */
  lemma {:induction false} StrictCollect(c: Crypto, key: Blob, nonce: nat, buf: Blob, got: Blob, size: nat, stack: Blob)
    requires |stack| == CELL && Collect(c, key, nonce, buf, got, size, true, stack).Done?
    ensures Collect(c, key, nonce, buf, got, size, false, stack) == Collect(c, key, nonce, buf, got, size, true, stack)
    decreases size - |got|
  {
    if |got| < size {
      var r := NextCell(c, key, nonce, buf, true, stack);
      assert NextCell(c, key, nonce, buf, false, stack) == r;
      StrictCollect(c, key, nonce + 1, r.rest, got + Taken(r.payload, size - |got|), size, stack);
    }
  }

  /** A handshake that the asynchronous client completes, the blocking client completes with the same
      bytes sent, the same keys and the same nonces. */
  lemma AsyncAsBlocking(c: Crypto, w: Client, input: Blob, stack: Blob)
    requires |stack| == CELL && |c.kemPub(w.kem)| == KEM_PK && ClientRun(c, w, input, true, stack).Finished?
    ensures ClientRun(c, w, input, false, stack) == ClientRun(c, w, input, true, stack)
  {
    hide Collect, Cells;
    var hello := Greet(c, w).value;
    var keys := Welcome(c, w, hello.noise, input[..MSG2]).value;
    StrictCollect(c, keys.recv, 0, input[MSG2..], [], KEM_CT, stack);
  }

  // ---- Agreement of the two ends ----

  lemma CellReads(c: Crypto, key: Blob, data: Blob, i: nat, rest: Blob, strict: bool, stack: Blob)
    requires Ideal(c) && |stack| == CELL && i * PAYLOAD < |data|
    ensures NextCell(c, key, i, CellAt(c, key, data, i) + rest, strict, stack) ==
            Got(KEM_CMD, Chunk(data, i) + Zeros(PAYLOAD - |Chunk(data, i)|), rest)
  {
    var p := Packed(Chunk(data, i));
    var s := c.seal(key, i, [], p);
    var buf := CellAt(c, key, data, i) + rest;
    assert |p| == CELL && |s| == CELL + MAC;
    assert buf[0] == 2 && buf[1] == 18 && Length(buf) == CELL + MAC;
    assert buf[2..FRAME] == s && buf[FRAME..] == rest;
    assert p[4] == KEM_CMD && p[5..CELL] == Chunk(data, i) + Zeros(PAYLOAD - |Chunk(data, i)|);
  }

  /** A cell on the wire: its length, then a seal under its number of four zero bytes, the command, the next bytes
      of the data, and zeros. */
  lemma CellLayout(c: Crypto, key: Blob, data: Blob, i: nat)
    requires Ideal(c) && i * PAYLOAD < |data|
    ensures var cell, left := CellAt(c, key, data, i), |data| - i * PAYLOAD;
            var n := if left > PAYLOAD then PAYLOAD else left;
            && |cell| == FRAME && Length(cell) == CELL + MAC
            && exists p :: |p| == CELL && c.unseal(key, i, [], cell[2..]) == Some(p)
                 && p[..4] == Zeros(4) && p[4] == KEM_CMD && p[5..5 + n] == data[i * PAYLOAD..i * PAYLOAD + n]
                 && p[5 + n..] == Zeros(PAYLOAD - n) && cell[2..] == c.seal(key, i, [], p)
  {
    var p, cell := Packed(Chunk(data, i)), CellAt(c, key, data, i);
    var n := |Chunk(data, i)|;
    assert |p| == CELL && cell[2..] == c.seal(key, i, [], p) && cell[0] == 2 && cell[1] == 18;
    assert p[..4] == Zeros(4) && p[5..5 + n] == Chunk(data, i) && p[5 + n..] == Zeros(PAYLOAD - n);
  }

  /** One cell of the data, read when all before it have been. */
  lemma CollectCell(c: Crypto, key: Blob, data: Blob, i: nat, rest: Blob, strict: bool, stack: Blob)
    requires Ideal(c) && |stack| == CELL && i * PAYLOAD < |data|
    ensures var end := if |data| - i * PAYLOAD > PAYLOAD then (i + 1) * PAYLOAD else |data|;
            Collect(c, key, i, CellAt(c, key, data, i) + rest, data[..i * PAYLOAD], |data|, strict, stack) ==
            Collect(c, key, i + 1, rest, data[..end], |data|, strict, stack)
  {
    hide NextCell, CellAt;
    var chunk, space := Chunk(data, i), |data| - i * PAYLOAD;
    CellReads(c, key, data, i, rest, strict, stack);
    var payload := chunk + Zeros(PAYLOAD - |chunk|);
    assert Taken(payload, space) == chunk;
    assert data[..i * PAYLOAD] + chunk == data[..i * PAYLOAD + |chunk|];
  }

  /** The KEM data arrives whole, with three nonces used. */
  lemma CollectCells(c: Crypto, key: Blob, data: Blob, rest: Blob, strict: bool, stack: Blob)
    requires Ideal(c) && |stack| == CELL && 2 * PAYLOAD < |data| <= 3 * PAYLOAD
    ensures Collect(c, key, 0, Cells(c, key, data, 3) + rest, [], |data|, strict, stack) == Done(data, 3, rest)
  {
    hide CellAt, NextCell;
    var a, b, d := CellAt(c, key, data, 0), CellAt(c, key, data, 1), CellAt(c, key, data, 2);
    assert Cells(c, key, data, 1) == a && Cells(c, key, data, 2) == a + b && Cells(c, key, data, 3) == a + b + d;
    assert Cells(c, key, data, 3) + rest == a + (b + (d + rest)) && data[..0] == [];
    CollectCell(c, key, data, 0, b + (d + rest), strict, stack);
    CollectCell(c, key, data, 1, d + rest, strict, stack);
    CollectCell(c, key, data, 2, rest, strict, stack);
    assert data[..|data|] == data;
  }

  /** The Diffie-Hellman values an honest pair needs exist. */
  predicate Shares(c: Crypto, w: Client, v: Server) {
    && c.dh(w.eph, c.pub(v.sk)).Some? && c.dh(w.sk, c.pub(v.sk)).Some?
    && c.dh(w.eph, c.pub(v.eph)).Some? && c.dh(w.sk, c.pub(v.eph)).Some?
  }

  /** The Noise part: the responder answers, the initiator accepts, and each end's sending key is the
      other's receiving key. */
  lemma NoiseAgrees(c: Crypto, w: Client, v: Server)
    requires Ideal(c) && w.peer == c.pub(v.sk) && Shares(c, w, v)
    ensures Greet(c, w).Some? && |Greet(c, w).value.msg1| == MSG1
    ensures var hello := Greet(c, w).value; var r := Respond(c, v, hello.msg1);
            && r.Some? && |r.value.msg2| == MSG2
            && Welcome(c, w, hello.noise, r.value.msg2) == Some(Keys(r.value.keys.recv, r.value.keys.send))
  {
    var n0 := MixHash(c, MixHash(c, Init(c), w.peer), c.pub(w.eph));
    var n1 := MixDh(c, n0, w.eph, w.peer).value;
    var s := Sealed(c, n1, c.pub(w.sk));
    var hello := Greet(c, w).value;
    assert hello.msg1[..KEY] == c.pub(w.eph) && hello.msg1[KEY..] == s;
    assert MixDh(c, n0, v.sk, c.pub(w.eph)) == Some(n1);
    assert Unsealed(c, n1, s) == Some(c.pub(w.sk));
    AnswerAgrees(c, w, v, hello.noise);
  }

  lemma AnswerAgrees(c: Crypto, w: Client, v: Server, n: Noise)
    requires Ideal(c) && Shares(c, w, v)
    ensures var r := Answer(c, v, MixHash(c, n, c.pub(v.eph)), c.pub(w.eph), c.pub(w.sk));
            && r.Some? && |r.value.msg2| == MSG2
            && Welcome(c, w, n, r.value.msg2) == Some(Keys(r.value.keys.recv, r.value.keys.send))
  {
    var m := MixHash(c, n, c.pub(v.eph));
    var r := Answer(c, v, m, c.pub(w.eph), c.pub(w.sk)).value;
    var n1 := MixDh(c, m, v.eph, c.pub(w.eph)).value;
    var n2 := MixDh(c, n1, v.eph, c.pub(w.sk)).value;
    assert r.msg2[..KEY] == c.pub(v.eph) && r.msg2[KEY..] == Sealed(c, n2, []);
    assert Unsealed(c, n2, Sealed(c, n2, [])) == Some([]);
  }

  /** Both ends, each fed with what the other sends and with anything after it, finish; the sending key
      and nonce of each are the receiving key and nonce of the other. */
  lemma EndsAgree(c: Crypto, w: Client, v: Server, fromServer: Blob, fromClient: Blob, strict: bool, stack: Blob)
    requires Ideal(c) && w.peer == c.pub(v.sk) && Shares(c, w, v) && |stack| == CELL
    ensures exists toServer, toClient, a, b ::
              && ClientRun(c, w, toClient + fromServer, strict, stack) == Finished(toServer, a)
              && ServerRun(c, v, toServer + fromClient, stack) == Finished(toClient, b)
              && a.send == b.recv && a.recv == b.send && a.sendNonce == b.recvNonce == 3 &&
                a.recvNonce == b.sendNonce == 3
              && a.rest == fromServer && b.rest == fromClient
  {
    hide Collect, Cells, Greet, Respond, Welcome;
    NoiseAgrees(c, w, v);
    var hello := Greet(c, w).value;
    var reply := Respond(c, v, hello.msg1).value;
    var keys := Keys(reply.keys.recv, reply.keys.send);
    var pk := c.kemPub(w.kem);
    var e := c.encap(pk, v.coins);
    var up, down := Cells(c, keys.send, pk, 3), Cells(c, keys.recv, e.a, 3);
    CollectCells(c, keys.send, pk, fromClient, false, stack);
    CollectCells(c, keys.recv, e.a, fromServer, strict, stack);
    var input := hello.msg1 + up + fromClient;
    assert input[..MSG1] == hello.msg1 && input[MSG1..] == up + fromClient;
    var input' := reply.msg2 + down + fromServer;
    assert input'[..MSG2] == reply.msg2 && input'[MSG2..] == down + fromServer;
    var a := Link(MixKem(c, keys.send, e.b), MixKem(c, keys.recv, e.b), 3, 3, fromServer);
    var b := Link(MixKem(c, keys.recv, e.b), MixKem(c, keys.send, e.b), 3, 3, fromClient);
    assert ClientRun(c, w, input', strict, stack) == Finished(hello.msg1 + up, a);
    assert ServerRun(c, v, input, stack) == Finished(reply.msg2 + down, b);
  }

  // ---- What keys and messages depend on ----

  /** The chaining key that the secrets lead to, mixed in one after the other. */
  function Chained(c: Crypto, secrets: seq<Blob>): Blob {
    if secrets == [] then c.hash(c.name) else c.hkdf(Chained(c, secrets[..|secrets| - 1]), secrets[|secrets| - 1]).a
  }

  /** The hash of the transcript `items`. */
  function Transcript(c: Crypto, items: seq<Blob>): Blob {
    if items == [] then c.hash(c.name) else c.hash(Transcript(c, items[..|items| - 1]) + items[|items| - 1])
  }

  /** The key that seals a message once the secrets are mixed in. */
  function SealKey(c: Crypto, secrets: seq<Blob>): Blob
    requires secrets != []
  {
    c.hkdf(Chained(c, secrets[..|secrets| - 1]), secrets[|secrets| - 1]).b
  }

  lemma ChainedMore(c: Crypto, secrets: seq<Blob>, x: Blob)
    ensures Chained(c, secrets + [x]) == c.hkdf(Chained(c, secrets), x).a
    ensures SealKey(c, secrets + [x]) == c.hkdf(Chained(c, secrets), x).b
  {
    assert (secrets + [x])[..|secrets|] == secrets;
  }

  lemma TranscriptMore(c: Crypto, items: seq<Blob>, x: Blob)
    ensures Transcript(c, items + [x]) == c.hash(Transcript(c, items) + x)
  {
    assert (items + [x])[..|items|] == items;
  }

  /** A Noise state in which `items` were hashed and `secrets` mixed in. */
  ghost predicate Holds(c: Crypto, n: Noise, items: seq<Blob>, secrets: seq<Blob>) {
    && n.h == Transcript(c, items) && n.ck == Chained(c, secrets)
    && (secrets != [] ==> n.k == SealKey(c, secrets))
  }

  lemma InitHolds(c: Crypto)
    ensures Holds(c, Init(c), [], [])
  {
  }

  lemma HashHolds(c: Crypto, n: Noise, items: seq<Blob>, secrets: seq<Blob>, x: Blob)
    requires Holds(c, n, items, secrets)
    ensures Holds(c, MixHash(c, n, x), items + [x], secrets)
  {
    TranscriptMore(c, items, x);
  }

  lemma DhHolds(c: Crypto, n: Noise, items: seq<Blob>, secrets: seq<Blob>, sk: Blob, pk: Blob)
    requires Holds(c, n, items, secrets)
    ensures MixDh(c, n, sk, pk).Some? <==> c.dh(sk, pk).Some?
    ensures c.dh(sk, pk).Some? ==> Holds(c, MixDh(c, n, sk, pk).value, items, secrets + [c.dh(sk, pk).value])
  {
    if c.dh(sk, pk).Some? { ChainedMore(c, secrets, c.dh(sk, pk).value); }
  }

  /** Message 1 carries the ephemeral key and, sealed under the first secret and the transcript so far, the
      static key; two secrets are mixed in. */
  lemma GreetFrom(c: Crypto, w: Client)
    ensures Greet(c, w).Some? <==> c.dh(w.eph, w.peer).Some? && c.dh(w.sk, w.peer).Some?
    ensures Greet(c, w).Some? ==>
      var hello, d1, d2 := Greet(c, w).value, c.dh(w.eph, w.peer).value, c.dh(w.sk, w.peer).value;
      var s := c.seal(SealKey(c, [d1]), 0, Transcript(c, [w.peer, c.pub(w.eph)]), c.pub(w.sk));
      hello.msg1 == c.pub(w.eph) + s && Holds(c, hello.noise, [w.peer, c.pub(w.eph), s], [d1, d2])
  {
    hide Holds, Transcript, Chained, SealKey, MixDh;
    var h1 := MixHash(c, Init(c), w.peer);
    var n0 := MixHash(c, h1, c.pub(w.eph));
    InitHolds(c);
    HashHolds(c, Init(c), [], [], w.peer);
    HashHolds(c, h1, [] + [w.peer], [], c.pub(w.eph));
    assert [] + [w.peer] + [c.pub(w.eph)] == [w.peer, c.pub(w.eph)];
    DhHolds(c, n0, [w.peer, c.pub(w.eph)], [], w.eph, w.peer);
    if c.dh(w.eph, w.peer).Some? {
      var n1, d1 := MixDh(c, n0, w.eph, w.peer).value, c.dh(w.eph, w.peer).value;
      assert [] + [d1] == [d1];
      StateOf(c, n1, [w.peer, c.pub(w.eph)], [d1]);
      var s := Sealed(c, n1, c.pub(w.sk));
      HashHolds(c, n1, [w.peer, c.pub(w.eph)], [d1], s);
      assert [w.peer, c.pub(w.eph)] + [s] == [w.peer, c.pub(w.eph), s];
      DhHolds(c, MixHash(c, n1, s), [w.peer, c.pub(w.eph), s], [d1], w.sk, w.peer);
      if c.dh(w.sk, w.peer).Some? { assert [d1] + [c.dh(w.sk, w.peer).value] == [d1, c.dh(w.sk, w.peer).value]; }
    }
  }

  lemma StateOf(c: Crypto, n: Noise, items: seq<Blob>, secrets: seq<Blob>)
    requires Holds(c, n, items, secrets) && secrets != []
    ensures n.h == Transcript(c, items) && n.ck == Chained(c, secrets) && n.k == SealKey(c, secrets)
  {
  }

  /** Message 2 is accepted exactly if the two secrets with its ephemeral key exist and its seal opens under all
      four secrets and the whole transcript; the keys are derived from the four secrets, in this order. */
  lemma WelcomeFrom(c: Crypto, w: Client, n: Noise, items: seq<Blob>, secrets: seq<Blob>, msg2: Blob)
    requires |msg2| == MSG2 && Holds(c, n, items, secrets)
    ensures var re := msg2[..KEY]; var d3, d4 := c.dh(w.eph, re), c.dh(w.sk, re);
            && (Welcome(c, w, n, msg2).Some? <==>
                d3.Some? && d4.Some? &&
                c.unseal(SealKey(c, secrets + [d3.value, d4.value]), 0, Transcript(c, items + [re]), msg2[KEY..]).Some?)
            && (Welcome(c, w, n, msg2).Some? ==>
                var k := c.hkdf(Chained(c, secrets + [d3.value, d4.value]), []);
                Welcome(c, w, n, msg2) == Some(Keys(k.a, k.b)))
  {
    hide Holds, Transcript, Chained, SealKey, MixDh;
    var re := msg2[..KEY];
    var n0 := MixHash(c, n, re);
    HashHolds(c, n, items, secrets, re);
    DhHolds(c, n0, items + [re], secrets, w.eph, re);
    if c.dh(w.eph, re).Some? {
      var n1, d3 := MixDh(c, n0, w.eph, re).value, c.dh(w.eph, re).value;
      DhHolds(c, n1, items + [re], secrets + [d3], w.sk, re);
      if c.dh(w.sk, re).Some? {
        var n2, d4 := MixDh(c, n1, w.sk, re).value, c.dh(w.sk, re).value;
        assert secrets + [d3] + [d4] == secrets + [d3, d4];
        StateOf(c, n2, items + [re], secrets + [d3, d4]);
      }
    }
  }

  /** The responder answers exactly if its secrets exist and message 1 opens; it mixes in its four secrets and
      seals message 2 under them and the transcript it saw. */
  lemma RespondFrom(c: Crypto, v: Server, msg1: Blob)
    requires |msg1| == MSG1 && Respond(c, v, msg1).Some?
    ensures c.dh(v.sk, msg1[..KEY]).Some? && c.dh(v.eph, msg1[..KEY]).Some?
    ensures var ie, d1 := msg1[..KEY], c.dh(v.sk, msg1[..KEY]).value;
            var peer := c.unseal(SealKey(c, [d1]), 0, Transcript(c, [c.pub(v.sk), ie]), msg1[KEY..]);
            && peer.Some? && c.dh(v.sk, peer.value).Some? && c.dh(v.eph, peer.value).Some?
            && var secrets := [d1, c.dh(v.sk, peer.value).value, c.dh(v.eph, ie).value, c.dh(v.eph, peer.value).value];
               var items := [c.pub(v.sk), ie, msg1[KEY..], c.pub(v.eph)];
               var reply, k := Respond(c, v, msg1).value, c.hkdf(Chained(c, secrets), []);
               && reply.msg2 == c.pub(v.eph) + c.seal(SealKey(c, secrets), 0, Transcript(c, items), [])
               && reply.keys == Keys(k.b, k.a)
  {
    hide Holds, Transcript, Chained, SealKey, MixDh;
    var ie, pk := msg1[..KEY], c.pub(v.sk);
    var h1 := MixHash(c, Init(c), pk);
    var n0 := MixHash(c, h1, ie);
    InitHolds(c);
    HashHolds(c, Init(c), [], [], pk);
    HashHolds(c, h1, [] + [pk], [], ie);
    assert [] + [pk] + [ie] == [pk, ie];
    DhHolds(c, n0, [pk, ie], [], v.sk, ie);
    var n1, d1 := MixDh(c, n0, v.sk, ie).value, c.dh(v.sk, ie).value;
    assert [] + [d1] == [d1];
    StateOf(c, n1, [pk, ie], [d1]);
    var peer := Unsealed(c, n1, msg1[KEY..]).value;
    HashHolds(c, n1, [pk, ie], [d1], msg1[KEY..]);
    assert [pk, ie] + [msg1[KEY..]] == [pk, ie, msg1[KEY..]];
    DhHolds(c, MixHash(c, n1, msg1[KEY..]), [pk, ie, msg1[KEY..]], [d1], v.sk, peer);
    var n2, d2 := MixDh(c, MixHash(c, n1, msg1[KEY..]), v.sk, peer).value, c.dh(v.sk, peer).value;
    assert [d1] + [d2] == [d1, d2];
    AnswerFrom(c, v, n2, [pk, ie, msg1[KEY..]], [d1, d2], ie, peer);
    assert [pk, ie, msg1[KEY..]] + [c.pub(v.eph)] == [pk, ie, msg1[KEY..], c.pub(v.eph)];
    var d3, d4 := c.dh(v.eph, ie).value, c.dh(v.eph, peer).value;
    assert [d1, d2] + [d3, d4] == [d1, d2, d3, d4];
  }

  lemma AnswerFrom(c: Crypto, v: Server, n: Noise, items: seq<Blob>, secrets: seq<Blob>, ie: Blob, peer: Blob)
    requires Holds(c, n, items, secrets)
    requires Answer(c, v, MixHash(c, n, c.pub(v.eph)), ie, peer).Some?
    ensures c.dh(v.eph, ie).Some? && c.dh(v.eph, peer).Some?
    ensures var all := secrets + [c.dh(v.eph, ie).value, c.dh(v.eph, peer).value];
            var reply, k := Answer(c, v, MixHash(c, n, c.pub(v.eph)), ie, peer).value, c.hkdf(Chained(c, all), []);
            && reply.msg2 == c.pub(v.eph) + c.seal(SealKey(c, all), 0, Transcript(c, items + [c.pub(v.eph)]), [])
            && reply.keys == Keys(k.b, k.a)
  {
    hide Holds, Transcript, Chained, SealKey, MixDh;
    var m := MixHash(c, n, c.pub(v.eph));
    HashHolds(c, n, items, secrets, c.pub(v.eph));
    DhHolds(c, m, items + [c.pub(v.eph)], secrets, v.eph, ie);
    var n1, d3 := MixDh(c, m, v.eph, ie).value, c.dh(v.eph, ie).value;
    DhHolds(c, n1, items + [c.pub(v.eph)], secrets + [d3], v.eph, peer);
    var n2, d4 := MixDh(c, n1, v.eph, peer).value, c.dh(v.eph, peer).value;
    assert secrets + [d3] + [d4] == secrets + [d3, d4];
    StateOf(c, n2, items + [c.pub(v.eph)], secrets + [d3, d4]);
  }

  // ---- Binding ----

  /** The key derivation does not collide on two pairs of arguments. */
  predicate Apart(c: Crypto, k: Blob, x: Blob, l: Blob, y: Blob) {
    (c.hkdf(k, x).a == c.hkdf(l, y).a || c.hkdf(k, x).b == c.hkdf(l, y).b) ==> k == l && x == y
  }

  /** It does not collide in two runs of secrets, nor in the derivation of the keys from them. */
  ghost predicate ChainsApart(c: Crypto, xs: seq<Blob>, ys: seq<Blob>) {
    && |xs| == |ys|
    && (forall i :: 0 <= i < |xs| ==> Apart(c, Chained(c, xs[..i]), xs[i], Chained(c, ys[..i]), ys[i]))
    && Apart(c, Chained(c, xs), [], Chained(c, ys), [])
  }

  lemma ChainStep(c: Crypto, xs: seq<Blob>, n: nat)
    requires 0 < n <= |xs|
    ensures Chained(c, xs[..n]) == c.hkdf(Chained(c, xs[..n - 1]), xs[n - 1]).a
    ensures xs[..n] == xs[..n - 1] + [xs[n - 1]]
  {
    assert xs[..n][..n - 1] == xs[..n - 1];
  }

  lemma {:induction false} ChainBinds(c: Crypto, xs: seq<Blob>, ys: seq<Blob>, n: nat)
    requires ChainsApart(c, xs, ys) && n <= |xs| && Chained(c, xs[..n]) == Chained(c, ys[..n])
    ensures xs[..n] == ys[..n]
  {
    hide Chained;
    if n > 0 {
      ChainStep(c, xs, n);
      ChainStep(c, ys, n);
      assert Apart(c, Chained(c, xs[..n - 1]), xs[n - 1], Chained(c, ys[..n - 1]), ys[n - 1]);
      ChainBinds(c, xs, ys, n - 1);
    }
  }

  /** The four secrets of a client with a peer whose ephemeral key is `re`. */
  function Secrets(c: Crypto, w: Client, re: Blob): seq<Blob>
    requires c.dh(w.eph, w.peer).Some? && c.dh(w.sk, w.peer).Some? && c.dh(w.eph, re).Some? && c.dh(w.sk, re).Some?
  {
    [c.dh(w.eph, w.peer).value, c.dh(w.sk, w.peer).value, c.dh(w.eph, re).value, c.dh(w.sk, re).value]
  }

  /** The Noise keys a client ends with. */
  function NoiseKeys(c: Crypto, w: Client, msg2: Blob): Option<Keys>
    requires |msg2| == MSG2
  {
    match Greet(c, w)
    case None => None
    case Some(hello) => Welcome(c, w, hello.noise, msg2)
  }

  lemma NoiseKeysFrom(c: Crypto, w: Client, msg2: Blob)
    requires |msg2| == MSG2 && NoiseKeys(c, w, msg2).Some?
    ensures c.dh(w.eph, w.peer).Some? && c.dh(w.sk, w.peer).Some?
    ensures c.dh(w.eph, msg2[..KEY]).Some? && c.dh(w.sk, msg2[..KEY]).Some?
    ensures var k := c.hkdf(Chained(c, Secrets(c, w, msg2[..KEY])), []); NoiseKeys(c, w, msg2) == Some(Keys(k.a, k.b))
  {
    hide Holds, Transcript, Chained, SealKey, Greet, Welcome;
    GreetFrom(c, w);
    var hello, d1, d2 := Greet(c, w).value, c.dh(w.eph, w.peer).value, c.dh(w.sk, w.peer).value;
    var s := c.seal(SealKey(c, [d1]), 0, Transcript(c, [w.peer, c.pub(w.eph)]), c.pub(w.sk));
    WelcomeFrom(c, w, hello.noise, [w.peer, c.pub(w.eph), s], [d1, d2], msg2);
    var d3, d4 := c.dh(w.eph, msg2[..KEY]).value, c.dh(w.sk, msg2[..KEY]).value;
    assert [d1, d2] + [d3, d4] == [d1, d2, d3, d4];
  }

  /** Two clients that end with an equal Noise key, in either direction, had the same four Diffie-Hellman
      secrets, unless the derivation collides. */
  lemma KeysBind(c: Crypto, w: Client, msg2: Blob, w': Client, msg2': Blob)
    requires |msg2| == |msg2'| == MSG2 && NoiseKeys(c, w, msg2).Some? && NoiseKeys(c, w', msg2').Some?
    requires NoiseKeys(c, w, msg2).value.send == NoiseKeys(c, w', msg2').value.send
          || NoiseKeys(c, w, msg2).value.recv == NoiseKeys(c, w', msg2').value.recv
    ensures c.dh(w.eph, w.peer).Some? && c.dh(w.sk, w.peer).Some?
    ensures c.dh(w.eph, msg2[..KEY]).Some? && c.dh(w.sk, msg2[..KEY]).Some?
    ensures c.dh(w'.eph, w'.peer).Some? && c.dh(w'.sk, w'.peer).Some?
    ensures c.dh(w'.eph, msg2'[..KEY]).Some? && c.dh(w'.sk, msg2'[..KEY]).Some?
    ensures var xs, ys := Secrets(c, w, msg2[..KEY]), Secrets(c, w', msg2'[..KEY]);
            ChainsApart(c, xs, ys) ==> xs == ys
  {
    hide NoiseKeys, Chained, Secrets;
    NoiseKeysFrom(c, w, msg2);
    NoiseKeysFrom(c, w', msg2');
    var xs, ys := Secrets(c, w, msg2[..KEY]), Secrets(c, w', msg2'[..KEY]);
    if ChainsApart(c, xs, ys) {
      assert xs[..|xs|] == xs && ys[..|ys|] == ys;
      ChainBinds(c, xs, ys, |xs|);
    }
  }

  /** The KEM secret of a finished client. */
  function KemSecret(c: Crypto, w: Client, input: Blob, strict: bool, stack: Blob): Blob
    requires |stack| == CELL && |c.kemPub(w.kem)| == KEM_PK && ClientRun(c, w, input, strict, stack).Finished?
  {
    var keys := NoiseKeys(c, w, input[..MSG2]).value;
    c.decap(Collect(c, keys.recv, 0, input[MSG2..], [], KEM_CT, strict, stack).data, w.kem).value
  }

  /** The keys of a finished link are derived from the Noise keys and the KEM secret. */
  lemma LinkFrom(c: Crypto, w: Client, input: Blob, strict: bool, stack: Blob)
    requires |stack| == CELL && |c.kemPub(w.kem)| == KEM_PK && ClientRun(c, w, input, strict, stack).Finished?
    ensures |input| >= MSG2 && NoiseKeys(c, w, input[..MSG2]).Some?
    ensures var keys, ss := NoiseKeys(c, w, input[..MSG2]).value, KemSecret(c, w, input, strict, stack);
            var link := ClientRun(c, w, input, strict, stack).link;
            link.send == c.hkdf(keys.send, ss).a && link.recv == c.hkdf(keys.recv, ss).a
  {
    hide Collect, Cells, Greet, Welcome;
  }

  /** Two finished clients with an equal sending key of the link had an equal Noise key and an equal KEM secret,
      and so had those with an equal receiving key, unless the derivation collides. */
  lemma LinkBinds(c: Crypto, w: Client, input: Blob, w': Client, input': Blob, strict: bool, stack: Blob)
    requires |stack| == CELL && |c.kemPub(w.kem)| == |c.kemPub(w'.kem)| == KEM_PK
    requires ClientRun(c, w, input, strict, stack).Finished? && ClientRun(c, w', input', strict, stack).Finished?
    ensures |input| >= MSG2 && NoiseKeys(c, w, input[..MSG2]).Some?
    ensures |input'| >= MSG2 && NoiseKeys(c, w', input'[..MSG2]).Some?
    ensures var k, l := NoiseKeys(c, w, input[..MSG2]).value, NoiseKeys(c, w', input'[..MSG2]).value;
            var ss, tt := KemSecret(c, w, input, strict, stack), KemSecret(c, w', input', strict, stack);
            var a, b := ClientRun(c, w, input, strict, stack).link, ClientRun(c, w', input', strict, stack).link;
            && (a.send == b.send && Apart(c, k.send, ss, l.send, tt) ==> k.send == l.send && ss == tt)
            && (a.recv == b.recv && Apart(c, k.recv, ss, l.recv, tt) ==> k.recv == l.recv && ss == tt)
  {
    hide ClientRun, NoiseKeys, KemSecret;
    LinkFrom(c, w, input, strict, stack);
    LinkFrom(c, w', input', strict, stack);
  }

  /** No hash collision between two transcripts of the same length. */
  ghost predicate TranscriptsApart(c: Crypto, xs: seq<Blob>, ys: seq<Blob>) {
    && |xs| == |ys|
    && forall i :: 0 <= i < |xs| ==> HashApart(c, Transcript(c, xs[..i]) + xs[i], Transcript(c, ys[..i]) + ys[i])
  }

  predicate HashApart(c: Crypto, x: Blob, y: Blob) {
    c.hash(x) == c.hash(y) ==> x == y
  }

  lemma SplitAlike(x: Blob, a: Blob, y: Blob, b: Blob)
    requires |x| == |y| && x + a == y + b
    ensures x == y && a == b
  {
    assert x == (x + a)[..|x|] && a == (x + a)[|x|..];
    assert y == (y + b)[..|x|] && b == (y + b)[|x|..];
  }

  ghost predicate FixedSize(c: Crypto) {
    forall x :: |c.hash(x)| == KEY
  }

  lemma TranscriptSize(c: Crypto, items: seq<Blob>)
    requires FixedSize(c)
    ensures |Transcript(c, items)| == KEY
  {
  }

  lemma TranscriptStep(c: Crypto, xs: seq<Blob>, n: nat)
    requires 0 < n <= |xs|
    ensures Transcript(c, xs[..n]) == c.hash(Transcript(c, xs[..n - 1]) + xs[n - 1])
    ensures xs[..n] == xs[..n - 1] + [xs[n - 1]]
  {
    assert xs[..n][..n - 1] == xs[..n - 1];
  }

  lemma {:induction false} TranscriptBinds(c: Crypto, xs: seq<Blob>, ys: seq<Blob>, n: nat)
    requires FixedSize(c) && TranscriptsApart(c, xs, ys) && n <= |xs|
    requires Transcript(c, xs[..n]) == Transcript(c, ys[..n])
    ensures xs[..n] == ys[..n]
  {
    hide FixedSize, Transcript;
    if n > 0 {
      var x, y := Transcript(c, xs[..n - 1]), Transcript(c, ys[..n - 1]);
      TranscriptSize(c, xs[..n - 1]);
      TranscriptSize(c, ys[..n - 1]);
      TranscriptStep(c, xs, n);
      TranscriptStep(c, ys, n);
      assert HashApart(c, x + xs[n - 1], y + ys[n - 1]);
      SplitAlike(x, xs[n - 1], y, ys[n - 1]);
      TranscriptBinds(c, xs, ys, n - 1);
    }
  }

  /** What the client hashed and what the responder hashed before the seal of message 2. */
  ghost function ClientItems(c: Crypto, w: Client, v: Server): seq<Blob>
    requires Greet(c, w).Some? && |c.pub(w.eph)| == KEY
  {
    GreetFrom(c, w);
    [w.peer, c.pub(w.eph), Greet(c, w).value.msg1[KEY..], c.pub(v.eph)]
  }

  ghost function ServerItems(c: Crypto, v: Server, msg1: Blob): seq<Blob>
    requires |msg1| == MSG1
  {
    [c.pub(v.sk), msg1[..KEY], msg1[KEY..], c.pub(v.eph)]
  }

  ghost function ServerSecrets(c: Crypto, v: Server, msg1: Blob): (r: seq<Blob>)
    requires |msg1| == MSG1 && Respond(c, v, msg1).Some?
    ensures |r| == 4
  {
    RespondFrom(c, v, msg1);
    var ie, d1 := msg1[..KEY], c.dh(v.sk, msg1[..KEY]).value;
    var peer := c.unseal(SealKey(c, [d1]), 0, Transcript(c, [c.pub(v.sk), ie]), msg1[KEY..]).value;
    [d1, c.dh(v.sk, peer).value, c.dh(v.eph, ie).value, c.dh(v.eph, peer).value]
  }

  /** The seal of the responder's message 2 does not open for the client under another transcript. */
  ghost predicate NoForgery(c: Crypto, w: Client, v: Server, msg1: Blob)
    requires |msg1| == MSG1 && Respond(c, v, msg1).Some? && Greet(c, w).Some? && |c.pub(w.eph)| == KEY
  {
    GreetFrom(c, w);
    c.dh(w.eph, c.pub(v.eph)).Some? && c.dh(w.sk, c.pub(v.eph)).Some? ==>
      (c.unseal(SealKey(c, Secrets(c, w, c.pub(v.eph))), 0, Transcript(c, ClientItems(c, w, v)),
                c.seal(SealKey(c, ServerSecrets(c, v, msg1)), 0, Transcript(c, ServerItems(c, v, msg1)), [])).Some?
       ==> Transcript(c, ClientItems(c, w, v)) == Transcript(c, ServerItems(c, v, msg1)))
  }

  lemma ItemsFrom(c: Crypto, w: Client, v: Server)
    requires Greet(c, w).Some? && |c.pub(w.eph)| == KEY
    ensures var hello, d1, d2 := Greet(c, w).value, c.dh(w.eph, w.peer), c.dh(w.sk, w.peer);
            && d1.Some? && d2.Some?
            && hello.msg1 == c.pub(w.eph) + hello.msg1[KEY..] && hello.msg1[..KEY] == c.pub(w.eph)
            && Holds(c, hello.noise, ClientItems(c, w, v)[..3], [d1.value, d2.value])
  {
    hide Holds, Transcript, Chained, SealKey, Greet;
    GreetFrom(c, w);
    var hello, d1 := Greet(c, w).value, c.dh(w.eph, w.peer).value;
    var s := c.seal(SealKey(c, [d1]), 0, Transcript(c, [w.peer, c.pub(w.eph)]), c.pub(w.sk));
    assert hello.msg1[KEY..] == s;
    assert ClientItems(c, w, v)[..3] == [w.peer, c.pub(w.eph), s];
  }

  /** A client that accepts message 2 of a responder talks to that responder, and the responder saw its
      message 1 unaltered, unless the hash collides or the seal opens under another transcript. */
  lemma SameTranscript(c: Crypto, w: Client, v: Server, msg1: Blob)
    requires FixedSize(c) && forall sk :: |c.pub(sk)| == KEY
    requires |msg1| == MSG1 && Respond(c, v, msg1).Some? && |Respond(c, v, msg1).value.msg2| == MSG2
    requires NoiseKeys(c, w, Respond(c, v, msg1).value.msg2).Some? && NoForgery(c, w, v, msg1)
    requires TranscriptsApart(c, ClientItems(c, w, v), ServerItems(c, v, msg1))
    ensures w.peer == c.pub(v.sk) && msg1 == Greet(c, w).value.msg1
  {
    hide Holds, Transcript, Chained, SealKey, Greet, Welcome, Respond, TranscriptsApart;
    var xs, ys := ClientItems(c, w, v), ServerItems(c, v, msg1);
    assert Transcript(c, xs) == Transcript(c, ys) by { TranscriptsMeet(c, w, v, msg1); }
    assert xs[..4] == xs && ys[..4] == ys;
    TranscriptBinds(c, xs, ys, 4);
    assert xs[0] == ys[0] && xs[1] == ys[1] && xs[2] == ys[2];
    ItemsFrom(c, w, v);
    assert msg1 == msg1[..KEY] + msg1[KEY..];
  }

  lemma TranscriptsMeet(c: Crypto, w: Client, v: Server, msg1: Blob)
    requires forall sk :: |c.pub(sk)| == KEY
    requires |msg1| == MSG1 && Respond(c, v, msg1).Some? && |Respond(c, v, msg1).value.msg2| == MSG2
    requires NoiseKeys(c, w, Respond(c, v, msg1).value.msg2).Some? && NoForgery(c, w, v, msg1)
    ensures Transcript(c, ClientItems(c, w, v)) == Transcript(c, ServerItems(c, v, msg1))
  {
    hide Holds, Transcript, Chained, SealKey, Greet, Welcome, Respond;
    ItemsFrom(c, w, v);
    RespondFrom(c, v, msg1);
    var hello, msg2, re := Greet(c, w).value, Respond(c, v, msg1).value.msg2, c.pub(v.eph);
    var d1, d2 := c.dh(w.eph, w.peer).value, c.dh(w.sk, w.peer).value;
    assert msg2[..KEY] == re;
    WelcomeFrom(c, w, hello.noise, ClientItems(c, w, v)[..3], [d1, d2], msg2);
    assert ClientItems(c, w, v)[..3] + [re] == ClientItems(c, w, v);
    assert [d1, d2] + [c.dh(w.eph, re).value, c.dh(w.sk, re).value] == Secrets(c, w, re);
    assert msg2[KEY..] ==
           c.seal(SealKey(c, ServerSecrets(c, v, msg1)), 0, Transcript(c, ServerItems(c, v, msg1)), []);
  }
}
