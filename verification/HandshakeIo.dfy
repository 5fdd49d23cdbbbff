/** The two clients and the server of src/connection.c over sockets that take and give bytes in
    arbitrary pieces. */
module HandshakeIo {
  import opened Bytes
  import opened Handshake
  import opened Options

  /** A blocking socket: the bytes the peer will send, and how many of them each call returns. */
  class Socket {
    const input: Blob
    const size: nat -> nat
    var pos: nat
    var calls: nat

    ghost predicate Valid()
      reads this
    {
      pos <= |input|
    }

    constructor (bytes: Blob, piece: nat -> nat)
      ensures Valid() && input == bytes && pos == 0
    {
      input, size, pos, calls := bytes, piece, 0, 0;
    }

    /** At least one byte and at most `want`, or none at the end of the stream. */
    method Recv(want: nat) returns (data: Blob)
      requires Valid() && want > 0
      modifies this
      ensures Valid() && old(pos) <= pos && data == input[old(pos)..pos] && |data| <= want
      ensures data == [] ==> pos == |input|
    {
      var n := size(calls);
      calls := calls + 1;
      if n == 0 { n := 1; }
      if n > want { n := want; }
      if n > |input| - pos { n := |input| - pos; }
      data := input[pos..pos + n];
      pos := pos + n;
    }

    /** The receive loop of the Noise messages. */
    method RecvAll(want: nat) returns (r: Option<Blob>)
      requires Valid()
      modifies this
      ensures Valid()
      ensures if old(pos) + want <= |input| then pos == old(pos) + want && r == Some(input[old(pos)..pos])
        else r == None
    {
      var msg: Blob := [];
      while |msg| < want
        invariant Valid() && pos == old(pos) + |msg| && |msg| <= want && msg == input[old(pos)..pos]
        decreases want - |msg|
      {
        var data := Recv(want - |msg|);
        if data == [] { return None; }
        msg := msg + data;
      }
      return Some(msg);
    }
  }

  datatype Kem = Kem(data: Blob, nonce: nat, buf: Blob)

  /** The loop that collects KEM data with moor_connection_recv_cell. */
  method RecvKem(c: Crypto, key: Blob, size: nat, sock: Socket, stack: Blob) returns (r: Option<Kem>)
    requires sock.Valid() && |stack| == CELL
    modifies sock
    ensures sock.Valid()
    ensures var x := Collect(c, key, 0, old(sock.input[sock.pos..]), [], size, false, stack);
            if x.Done? then r.Some? && x == Done(r.value.data, r.value.nonce, r.value.buf + sock.input[sock.pos..])
              else r == None
  {
    hide NextCell;
    var buf: Blob, got: Blob, nonce := [], [], 0;
    ghost var all := Collect(c, key, 0, sock.input[sock.pos..], [], size, false, stack);
    assert buf + sock.input[sock.pos..] == sock.input[sock.pos..];
    while |got| < size
      invariant sock.Valid() && |buf| <= BUFFER
      invariant Collect(c, key, nonce, buf + sock.input[sock.pos..], got, size, false, stack) == all
      decreases size - |got|
    {
      var cell := RecvCell(c, key, nonce, buf, sock, stack);
      if !cell.Got? || cell.cmd != KEM_CMD { return None; }
      var space := size - |got|;
      got := got + (if PAYLOAD > space then cell.payload[..space] else cell.payload);
      nonce, buf := nonce + 1, cell.rest;
    }
    r := Some(Kem(got, nonce, buf));
  }

  /** moor_connection_recv_cell, called until it has a cell: never `More` unless the stream has ended. */
  method RecvCell(c: Crypto, key: Blob, nonce: nat, before: Blob, sock: Socket, stack: Blob) returns (r: Pull)
    requires sock.Valid() && |stack| == CELL && |before| <= BUFFER
    modifies sock
    ensures sock.Valid()
    ensures var x := NextCell(c, key, nonce, before + old(sock.input[sock.pos..]), false, stack);
            if x.Got? then r.Got? && |r.payload| == PAYLOAD && |r.rest| <= BUFFER &&
                           x == Got(r.cmd, r.payload, r.rest + sock.input[sock.pos..])
            else !r.Got?
  {
    hide NextCell;
    ghost var whole := before + sock.input[sock.pos..];
    var buf := before;
    r := Parse(c, key, nonce, buf, stack);
    while r.More?
      invariant sock.Valid() && |buf| <= BUFFER && buf + sock.input[sock.pos..] == whole
      invariant r == NextCell(c, key, nonce, buf, false, stack)
      decreases |sock.input| - sock.pos
    {
      MoreIsShort(c, key, nonce, buf, false, stack);
      var data := sock.Recv(BUFFER - |buf|);
      if data == [] {
        assert whole == buf + [] == buf;
        return;
      }
      assert buf + data + sock.input[sock.pos..] == whole;
      buf := buf + data;
      r := Parse(c, key, nonce, buf, stack);
    }
    NextCellMore(c, key, nonce, buf, sock.input[sock.pos..], false, stack);
    GotPayload(c, key, nonce, buf, false, stack);
    if r.Got? { RestIsShort(c, key, nonce, buf, false, stack); }
  }

  lemma MoreIsShort(c: Crypto, key: Blob, nonce: nat, buf: Blob, strict: bool, stack: Blob)
    requires |stack| == CELL && NextCell(c, key, nonce, buf, strict, stack).More?
    ensures |buf| < FRAME
  {
  }

  lemma RestIsShort(c: Crypto, key: Blob, nonce: nat, buf: Blob, strict: bool, stack: Blob)
    requires |stack| == CELL && NextCell(c, key, nonce, buf, strict, stack).Got?
    ensures |NextCell(c, key, nonce, buf, strict, stack).rest| <= |buf|
  {
  }

  /** One attempt to take a cell out of the receive buffer. */
  method Parse(c: Crypto, key: Blob, nonce: nat, buf: Blob, stack: Blob) returns (r: Pull)
    requires |stack| == CELL
    ensures r == NextCell(c, key, nonce, buf, false, stack)
  {
    if |buf| < 2 { return More; }
    var len := Length(buf);
    if len < MAC || len > CELL + MAC { return Bad; }
    if |buf| < 2 + len { return More; }
    var p := c.unseal(key, nonce, [], buf[2..2 + len]);
    if p.None? { return Bad; }
    var plain := p.value;
    if |plain| < CELL { plain := plain + stack[|plain|..]; }
    return Got(plain[4], plain[5..CELL], buf[2 + len..]);
  }

  /** The loop that sends KEM data in sealed cells. */
  method SendKem(c: Crypto, key: Blob, data: Blob) returns (out: Blob, nonce: nat)
    requires 2 * PAYLOAD < |data| <= 3 * PAYLOAD
    ensures out == Cells(c, key, data, 3) && nonce == 3
  {
    var off := 0;
    out, nonce := [], 0;
    while off < |data|
      invariant 0 <= off <= |data| && nonce <= 3 && (nonce < 3 ==> off == nonce * PAYLOAD) &&
        (nonce == 3 <==> off == |data|)
      invariant out == Cells(c, key, data, nonce)
      decreases |data| - off
    {
      var chunk := |data| - off;
      if chunk > PAYLOAD { chunk := PAYLOAD; }
      var plain := Zeros(4) + [KEM_CMD] + data[off..off + chunk] + Zeros(PAYLOAD - chunk);
      assert data[off..off + chunk] == Chunk(data, nonce);
      out := out + ([2, 18] + c.seal(key, nonce, [], plain));
      nonce := nonce + 1;
      off := off + chunk;
    }
  }

  datatype Result = Result(sent: Blob, link: Link)

  /** The result is the outcome, with its unread bytes split between receive buffer and socket. */
  ghost predicate Reports(r: Option<Result>, o: Outcome, unread: Blob) {
    if !o.Finished? then r == None
    else r.Some? && o == Finished(r.value.sent, r.value.link.(rest := r.value.link.rest + unread))
  }

  /** link_handshake_client_pq: whatever the pieces the bytes come in, its result is that of the
      whole stream. */
  method BlockingClient(c: Crypto, w: Client, sock: Socket, stack: Blob) returns (r: Option<Result>)
    requires sock.Valid() && sock.pos == 0 && |stack| == CELL && |c.kemPub(w.kem)| == KEM_PK
    modifies sock
    ensures sock.Valid()
    ensures Reports(r, ClientRun(c, w, sock.input, false, stack), sock.input[sock.pos..])
  {
    hide Collect, Cells, NextCell, MixDh;
    var hello := Greet(c, w);
    if hello.None? { return None; }
    var msg2 := sock.RecvAll(MSG2);
    if msg2.None? { return None; }
    var keys := Welcome(c, w, hello.value.noise, msg2.value);
    if keys.None? { return None; }
    var cells, sendNonce := SendKem(c, keys.value.send, c.kemPub(w.kem));
    var kem := RecvKem(c, keys.value.recv, KEM_CT, sock, stack);
    if kem.None? { return None; }
    var ss := c.decap(kem.value.data, w.kem);
    if ss.None? { return None; }
    r := Some(Result(hello.value.msg1 + cells,
                     Link(c.hkdf(keys.value.send, ss.value).a, c.hkdf(keys.value.recv, ss.value).a,
                          sendNonce, kem.value.nonce, kem.value.buf)));
  }

  /** link_handshake_server_pq. */
  method BlockingServer(c: Crypto, w: Server, sock: Socket, stack: Blob) returns (r: Option<Result>)
    requires sock.Valid() && sock.pos == 0 && |stack| == CELL
    modifies sock
    ensures sock.Valid()
    ensures Reports(r, ServerRun(c, w, sock.input, stack), sock.input[sock.pos..])
  {
    hide Collect, Cells, NextCell, MixDh;
    var msg1 := sock.RecvAll(MSG1);
    if msg1.None? { return None; }
    var reply := Respond(c, w, msg1.value);
    if reply.None? { return None; }
    var kem := RecvKem(c, reply.value.keys.recv, KEM_PK, sock, stack);
    if kem.None? { return None; }
    var e := c.encap(kem.value.data, w.coins);
    if |e.a| != KEM_CT { return None; }
    var cells, sendNonce := SendKem(c, reply.value.keys.send, e.a);
    r := Some(Result(reply.value.msg2 + cells,
                     Link(c.hkdf(reply.value.keys.send, e.b).a, c.hkdf(reply.value.keys.recv, e.b).a,
                          sendNonce, kem.value.nonce, kem.value.buf)));
  }

  // ---- The asynchronous client ----

  datatype State = Connecting | HsSending | HsReceiving | PqSending | PqReceiving | Open | Closed

  /** What a non-blocking send or receive gives. */
  datatype Write = Wrote(n: nat) | WriteAgain | WriteError
  datatype Read = Bytes(data: Blob) | ReadAgain | ReadError

  /** With `got` collected and `buf` unread, the result is that of `whole` from the start, whatever
      bytes follow. */
  ghost predicate Continues(c: Crypto, key: Blob, nonce: nat, buf: Blob, got: Blob, whole: Blob, stack: Blob)
    requires |stack| == CELL
  {
    forall x :: Collect(c, key, nonce, buf + x, got, KEM_CT, true, stack)
      == Collect(c, key, 0, whole + x, [], KEM_CT, true, stack)
  }

  lemma Arrives(c: Crypto, key: Blob, nonce: nat, buf: Blob, got: Blob, whole: Blob, stack: Blob, data: Blob)
    requires |stack| == CELL && Continues(c, key, nonce, buf, got, whole, stack)
    ensures Continues(c, key, nonce, buf + data, got, whole + data, stack)
  {
    hide Collect;
    forall x ensures Collect(c, key, nonce, buf + data + x, got, KEM_CT, true, stack) ==
                     Collect(c, key, 0, whole + data + x, [], KEM_CT, true, stack)
    {
      assert buf + data + x == buf + (data + x) && whole + data + x == whole + (data + x);
    }
  }

  lemma CellTaken(c: Crypto, key: Blob, nonce: nat, buf: Blob, got: Blob, whole: Blob, stack: Blob)
    requires |stack| == CELL && Continues(c, key, nonce, buf, got, whole, stack) && |got| < KEM_CT
    requires var r := NextCell(c, key, nonce, buf, true, stack); r.Got? && r.cmd == KEM_CMD && |r.payload| == PAYLOAD
    ensures var r := NextCell(c, key, nonce, buf, true, stack);
            Continues(c, key, nonce + 1, r.rest, got + Taken(r.payload, KEM_CT - |got|), whole, stack)
  {
    hide NextCell;
    var r := NextCell(c, key, nonce, buf, true, stack);
    forall x
      ensures Collect(c, key, nonce + 1, r.rest + x, got + Taken(r.payload, KEM_CT - |got|), KEM_CT, true, stack) ==
                     Collect(c, key, 0, whole + x, [], KEM_CT, true, stack)
    {
      NextCellMore(c, key, nonce, buf, x, true, stack);
      assert Collect(c, key, nonce, buf + x, got, KEM_CT, true, stack)
        == Collect(c, key, 0, whole + x, [], KEM_CT, true, stack);
    }
  }

  /** A missing or bad cell is one of the whole stream. */
  lemma Stops(c: Crypto, key: Blob, nonce: nat, buf: Blob, got: Blob, whole: Blob, stack: Blob)
    requires |stack| == CELL && Continues(c, key, nonce, buf, got, whole, stack) && |got| < KEM_CT
    ensures match NextCell(c, key, nonce, buf, true, stack)
            case More => Collect(c, key, 0, whole, [], KEM_CT, true, stack) == Waiting
            case Bad => Collect(c, key, 0, whole, [], KEM_CT, true, stack) == Failed
            case Got(cmd, _, _) => cmd != KEM_CMD ==> Collect(c, key, 0, whole, [], KEM_CT, true, stack) == Failed
  {
    hide NextCell;
    assert buf + [] == buf && whole + [] == whole;
    GotPayload(c, key, nonce, buf, true, stack);
    assert Collect(c, key, nonce, buf + [], got, KEM_CT, true, stack)
      == Collect(c, key, 0, whole + [], [], KEM_CT, true, stack);
  }

  lemma Nothing(c: Crypto, key: Blob, stack: Blob)
    requires |stack| == CELL
    ensures Collect(c, key, 0, [], [], KEM_CT, true, stack) == Waiting
  {
  }

  /** Complete data is what the whole stream gives. */
  lemma AllTaken(c: Crypto, key: Blob, nonce: nat, buf: Blob, got: Blob, whole: Blob, stack: Blob)
    requires |stack| == CELL && Continues(c, key, nonce, buf, got, whole, stack) && |got| == KEM_CT
    ensures Collect(c, key, 0, whole, [], KEM_CT, true, stack) == Done(got, nonce, buf)
  {
    assert buf + [] == buf && whole + [] == whole;
    assert Collect(c, key, nonce, buf + [], got, KEM_CT, true, stack) == Done(got, nonce, buf);
  }

  class AsyncClient {
    const c: Crypto
    const w: Client
    ghost const stack: Blob
    var state: State
    var noise: Noise
    var msg: Blob
    var offset: nat
    var frame: Blob
    var phase: nat
    var recvBuf: Blob
    var sendKey: Blob
    var recvKey: Blob
    var sendNonce: nat
    var recvNonce: nat
    ghost var sent: Blob
    ghost var received: Blob
    ghost var lost: bool

    /** Noise state and message 1 are as in the blocking client. */
    ghost predicate Greeted(n: Noise, msg1: Blob) {
      Greet(c, w) == Some(Hello(n, msg1)) && |msg1| == MSG1
    }

    ghost predicate Keyed()
      reads `received, `sendKey, `recvKey
    {
      && Greet(c, w).Some? && |received| >= MSG2
      && Welcome(c, w, Greet(c, w).value.noise, received[..MSG2]) == Some(Keys(sendKey, recvKey))
    }

    /** The cells still to be read from buffer and network give what all of them give. */
    ghost predicate Collecting()
      reads `received, `recvKey, `recvNonce, `recvBuf, `msg
    {
      |received| >= MSG2 && |stack| == CELL && Continues(c, recvKey, recvNonce, recvBuf, msg, received[MSG2..], stack)
    }

    ghost function Run(): Outcome
      requires Ideal(c) && |stack| == CELL
      reads `received
    {
      ClientRun(c, w, received, true, stack)
    }

    /** The public key is sent up to `offset` in the cell of this phase, or all of it. */
    ghost predicate Uploading()
      requires Ideal(c)
      reads `phase, `sendNonce, `msg, `frame, `sendKey, `sent, `offset
    {
      && phase < 3 && sendNonce == phase + 1 && msg == KemPk() && frame == CellAt(c, sendKey, msg, phase) &&
        offset <= |frame|
      && sent == Head() + Cells(c, sendKey, msg, phase) + frame[..offset]
    }

    ghost predicate Uploaded()
      requires Ideal(c)
      reads `sendNonce, `sendKey, `sent
    {
      sendNonce == 3 && sent == Head() + Cells(c, sendKey, KemPk(), 3)
    }

    ghost function Head(): Blob {
      if Greet(c, w).Some? then Greet(c, w).value.msg1 else []
    }

    /** Where the handshake stands: open just when the bytes received so far finish it, and closed
        only by an error of the socket or because they break it. */
    ghost predicate Valid()
      reads this
    {
      && Ideal(c) && |stack| == CELL && |recvBuf| <= BUFFER
      && (state.HsSending? || state.HsReceiving? || state.PqSending? || state.PqReceiving? ==> Run() == Pending)
      && match state
         case Connecting => sent == received == recvBuf == []
         case HsSending => Greeted(noise, msg) && offset < MSG1 && sent == msg[..offset] && received == recvBuf == []
         case HsReceiving => Greeted(noise, sent) && received == msg && |msg| < MSG2 && recvBuf == []
         case PqSending => Keyed() && |received| == MSG2 && recvBuf == [] && recvNonce == 0 && Uploading() &&
           offset < |frame|
         case PqReceiving => Keyed() && Collecting() && |msg| < KEM_CT && Uploaded()
         case Open => Run() == Finished(sent, Link(sendKey, recvKey, sendNonce, recvNonce, recvBuf))
         case Closed => lost || Run() == Broken
    }

    constructor (crypto: Crypto, who: Client, ghost memory: Blob)
      requires Ideal(crypto) && |memory| == CELL
      ensures Valid() && state == Connecting && c == crypto && w == who && stack == memory &&
        sent == received == [] && !lost
    {
      c, w, stack, state := crypto, who, memory, Connecting;
      noise, msg, offset, frame, phase, recvBuf := Noise([], [], []), [], 0, [], 0, [];
      sendKey, recvKey, sendNonce, recvNonce, sent, received, lost := [], [], 0, 0, [], [], false;
    }

    /** handle_tcp_connect, once the connection stands. */
    method Connected(io: Write)
      requires Valid() && state == Connecting && (io.Wrote? ==> 0 < io.n <= MSG1)
      modifies this
      ensures Valid() && received == []
      ensures if Greet(c, w).None? then state == Closed && sent == [] && lost == old(lost)
              else |sent| == (if io.Wrote? then io.n else 0) && lost == (old(lost) || io.WriteError?)
    {
      var hello := Greet(c, w);
      if hello.None? {
        state := Closed;
        return;
      }
      noise, msg, offset := hello.value.noise, hello.value.msg1, 0;
      state := HsSending;
      HsSend(io);
    }

    /** handle_hs_sending. */
    method HsSend(io: Write)
      requires Valid() && state == HsSending && (io.Wrote? ==> 0 < io.n <= MSG1 - offset)
      modifies this
      ensures Valid() && received == old(received) && lost == (old(lost) || io.WriteError?)
      ensures |sent| == |old(sent)| + (if io.Wrote? then io.n else 0)
    {
      match io
      case WriteAgain =>
      case WriteError => state, lost := Closed, true;
      case Wrote(n) =>
        sent := sent + msg[offset..offset + n];
        offset := offset + n;
        if offset == MSG1 {
          assert sent == msg;
          msg, offset := [], 0;
          state := HsReceiving;
        }
    }

    /** handle_hs_receiving. */
    method HsReceive(io: Read)
      requires Valid() && state == HsReceiving && (io.Bytes? ==> 0 < |io.data| <= MSG2 - |msg|)
      modifies this
      ensures Valid() && sent == old(sent) && lost == (old(lost) || io.ReadError?)
      ensures received == old(received) + (if io.Bytes? then io.data else [])
    {
      match io
      case ReadAgain =>
      case ReadError => state, lost := Closed, true;
      case Bytes(data) =>
        msg := msg + data;
        received := received + data;
        if |msg| == MSG2 { StartKem(); }
    }

    /** The end of handle_hs_receiving: split the keys and seal the first cell. */
    method StartKem()
      requires Ideal(c) && |stack| == CELL && Greeted(noise, sent) && received == msg && |msg| == MSG2 && recvBuf == []
      modifies this
      ensures Valid() && sent == old(sent) && received == old(received) && lost == old(lost)
    {
      hide Collect, CellAt, Continues, Uploaded, Run, Ideal, Keyed;
      var ok := SplitKeys();
      if !ok {
        state := Closed;
        return;
      }
      ghost var pk := KemPk();
      msg, phase := c.kemPub(w.kem), 0;
      SealCell();
      state := PqSending;
    }

    method SplitKeys() returns (ok: bool)
      requires Ideal(c) && |stack| == CELL && Greeted(noise, sent) && received == msg && |msg| == MSG2
      modifies `sendKey, `recvKey, `sendNonce, `recvNonce
      ensures if ok then Keyed() && Run() == Pending && sendNonce == recvNonce == 0 else Run() == Broken
    {
      hide Welcome, Greet, Collect, Run, Ideal;
      assert received[..MSG2] == received && received[MSG2..] == [];
      var keys := Welcome(c, w, noise, msg);
      Refuses(noise, sent);
      if keys.None? { return false; }
      sendKey, recvKey, sendNonce, recvNonce := keys.value.send, keys.value.recv, 0, 0;
      Nothing(c, recvKey, stack);
      Judge();
      return true;
    }

    /** hs_encrypt_cell_raw on the chunk of the current phase. */
    method SealCell()
      requires phase < 3 && |msg| == KEM_PK && phase * PAYLOAD < |msg| && sendNonce == phase
      modifies `frame, `offset, `sendNonce
      ensures frame == CellAt(c, sendKey, msg, phase) && |frame| >= 2 && offset == 0 && sendNonce == phase + 1
    {
      var chunk := |msg| - phase * PAYLOAD;
      if chunk > PAYLOAD { chunk := PAYLOAD; }
      var plain := Zeros(4) + [KEM_CMD] + msg[phase * PAYLOAD..phase * PAYLOAD + chunk] + Zeros(PAYLOAD - chunk);
      assert msg[phase * PAYLOAD..phase * PAYLOAD + chunk] == Chunk(msg, phase);
      frame, offset := [2, 18] + c.seal(sendKey, sendNonce, [], plain), 0;
      sendNonce := sendNonce + 1;
    }

    /** handle_pq_sending. */
    method PqSend(io: Write)
      requires Valid() && state == PqSending && (io.Wrote? ==> 0 < io.n <= |frame| - offset)
      modifies this
      ensures Valid() && received == old(received) && lost == (old(lost) || io.WriteError?)
      ensures |sent| == |old(sent)| + (if io.Wrote? then io.n else 0)
    {
      hide Keyed, Collecting, CellAt, Cells, Run, Head, Ideal, Greeted, Uploaded;
      match io
      case WriteAgain =>
      case WriteError => state, lost := Closed, true;
      case Wrote(n) =>
        sent := sent + frame[offset..offset + n];
        offset := offset + n;
        if offset == |frame| { NextFrame(); }
    }

    /** The end of handle_pq_sending, when a cell is out. */
    method NextFrame()
      requires Ideal(c) && |stack| == CELL && Keyed() && |received| == MSG2 && recvBuf == [] && recvNonce == 0 &&
        Run() == Pending
      requires Uploading() && offset == |frame| && state == PqSending
      modifies `phase, `frame, `offset, `sendNonce, `msg, `state
      ensures Valid()
    {
      hide Keyed, CellAt, Run, Head, Ideal, Collect;
      ghost var head := Head();
      assert frame[..offset] == frame;
      assert head + Cells(c, sendKey, msg, phase) + frame == head + Cells(c, sendKey, msg, phase + 1);
      phase := phase + 1;
      if phase < 3 {
        SealCell();
      } else {
        phase, msg, state := 0, [], PqReceiving;
        assert received[MSG2..] == [];
      }
    }

    /** handle_pq_receiving. */
    method PqReceive(io: Read)
      requires Valid() && state == PqReceiving && (io.Bytes? ==> 0 < |io.data| <= BUFFER - |recvBuf|)
      modifies this
      ensures Valid() && sent == old(sent) && lost == (old(lost) || io.ReadError?)
      ensures received == old(received) + (if io.Bytes? then io.data else [])
    {
      hide Continues, Uploaded, Run, Welcome, Greet;
      match io
      case ReadError => state, lost := Closed, true;
      case ReadAgain => TakeCells();
      case Bytes(data) =>
        assert (received + data)[MSG2..] == received[MSG2..] + data && (received + data)[..MSG2] == received[..MSG2];
        Arrives(c, recvKey, recvNonce, recvBuf, msg, received[MSG2..], stack, data);
        recvBuf := recvBuf + data;
        received := received + data;
        TakeCells();
    }

    /** The loop of handle_pq_receiving over the complete cells in the buffer. */
    method TakeCells()
      requires Ideal(c) && |stack| == CELL && |recvBuf| <= BUFFER && state == PqReceiving
      requires Keyed() && Collecting() && |msg| <= KEM_CT && Uploaded()
      modifies `state, `msg, `recvBuf, `recvNonce, `sendKey, `recvKey
      ensures Valid()
    {
      hide Collect, Keyed, NextCell, Continues, Ideal, Run, Uploaded;
      while |msg| < KEM_CT
        invariant |recvBuf| <= BUFFER && state == PqReceiving && Keyed() && Collecting() && |msg| <= KEM_CT &&
          Uploaded()
        decreases KEM_CT - |msg|
      {
        var r := ParseStrict();
        GotPayload(c, recvKey, recvNonce, recvBuf, true, stack);
        if r.More? || r.Bad? || r.cmd != KEM_CMD {
          Stops(c, recvKey, recvNonce, recvBuf, msg, received[MSG2..], stack);
        }
        if r.More? {
          Judge();
          return;
        }
        if r.Bad? || r.cmd != KEM_CMD {
          Judge();
          state := Closed;
          return;
        }
        CellTaken(c, recvKey, recvNonce, recvBuf, msg, received[MSG2..], stack);
        RestIsShort(c, recvKey, recvNonce, recvBuf, true, stack);
        var space := KEM_CT - |msg|;
        msg := msg + (if PAYLOAD > space then r.payload[..space] else r.payload);
        recvNonce, recvBuf := recvNonce + 1, r.rest;
      }
      AllTaken(c, recvKey, recvNonce, recvBuf, msg, received[MSG2..], stack);
      FinishKem();
    }

    /** The outcome follows from the collection. */
    lemma Judge()
      requires Ideal(c) && |stack| == CELL && Keyed()
      ensures match Collect(c, recvKey, 0, received[MSG2..], [], KEM_CT, true, stack)
              case Waiting => Run() == Pending
              case Failed => Run() == Broken
              case Done(ct, n, rest) => c.decap(ct, w.kem).None? ==> Run() == Broken
    {
      hide Collect, Cells, Welcome, Greet;
    }

    lemma Refuses(n: Noise, msg1: Blob)
      requires Ideal(c) && |stack| == CELL && Greeted(n, msg1) && |received| >= MSG2
      ensures Welcome(c, w, n, received[..MSG2]).None? ==> Run() == Broken
    {
      hide Collect, Cells, Welcome, Greet;
    }

    ghost function KemPk(): (pk: Blob)
      requires Ideal(c)
      ensures |pk| == KEM_PK
    {
      c.kemPub(w.kem)
    }

    /** hs_decrypt_cell_raw. */
    method ParseStrict() returns (r: Pull)
      requires |stack| == CELL && Ideal(c)
      ensures r == NextCell(c, recvKey, recvNonce, recvBuf, true, stack)
    {
      if |recvBuf| < 2 { return More; }
      var len := Length(recvBuf);
      if len != CELL + MAC { return Bad; }
      if |recvBuf| < 2 + len { return More; }
      var p := c.unseal(recvKey, recvNonce, [], recvBuf[2..2 + len]);
      if p.None? { return Bad; }
      return Got(p.value[4], p.value[5..CELL], recvBuf[2 + len..]);
    }

    /** The end of handle_pq_receiving: decapsulate and mix. */
    method FinishKem()
      requires Ideal(c) && |stack| == CELL && |recvBuf| <= BUFFER && Keyed() && Uploaded()
      requires Collect(c, recvKey, 0, received[MSG2..], [], KEM_CT, true, stack) == Done(msg, recvNonce, recvBuf)
      modifies `state, `sendKey, `recvKey
      ensures Valid()
    {
      hide Collect, Cells, Welcome, Greet;
      Judge();
      var ss := c.decap(msg, w.kem);
      if ss.None? {
        state := Closed;
        return;
      }
      ghost var o := ClientRun(c, w, received, true, stack);
      sendKey, recvKey := c.hkdf(sendKey, ss.value).a, c.hkdf(recvKey, ss.value).a;
      state := Open;
      assert o == Finished(sent, Link(sendKey, recvKey, sendNonce, recvNonce, recvBuf));
    }

    /** An open connection sent the bytes and has the keys and nonces of the blocking client. */
    lemma OpensAsBlocking()
      requires Valid() && state == Open
      ensures ClientRun(c, w, received, false, stack) == Finished(sent,
        Link(sendKey, recvKey, sendNonce, recvNonce, recvBuf))
    {
      hide ClientRun;
      AsyncAsBlocking(c, w, received, stack);
    }
  }
}
