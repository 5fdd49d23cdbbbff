/** Circuit-level flow control: package and deliver windows refilled by SENDME cells, each
    authenticated by the digest of the data cell that triggered it. The client's ends are in
    src/circuit.c, the exit's receiving end is the RELAY_DATA handler in src/relay.c. */
module FlowControl {
  import opened Bytes
  import opened Counting
  import opened Options

  const WINDOW := 1000
  const INCREMENT := 100
  const AUTH_MAX := 10
  const AUTH_LEN := 20

  type Digest = d: seq<Byte> | |d| == AUTH_LEN witness Zeros(AUTH_LEN)

  // ---- The sender ----

  /** Package window, cells in flight, and the ring of expected digests. */
  datatype Tx = Tx(window: int, inflight: int, ring: seq<Digest>, head: nat, count: nat)

  ghost predicate Shaped(tx: Tx) {
    |tx.ring| == AUTH_MAX && tx.head < AUTH_MAX && tx.count <= AUTH_MAX && tx.inflight >= 0
  }

  /** The bookkeeping of moor_circuit_send_data for one data cell with forward digest `d`. */
  function SendOne(tx: Tx, d: Digest): Tx
    requires |tx.ring| == AUTH_MAX && tx.head < AUTH_MAX
  {
    var inflight := tx.inflight + 1;
    var window := if tx.window > 0 then tx.window - 1 else tx.window;
    if inflight > 0 && inflight % INCREMENT == 0 && tx.count < AUTH_MAX then
      Tx(window, inflight, tx.ring[tx.head := d], (tx.head + 1) % AUTH_MAX, tx.count + 1)
    else tx.(window := window, inflight := inflight)
  }

  function Tail(tx: Tx): (t: nat)
    requires tx.count <= AUTH_MAX
    ensures t < AUTH_MAX
  {
    (tx.head + AUTH_MAX - tx.count) % AUTH_MAX
  }

  predicate Accepts(tx: Tx, body: seq<Byte>)
    requires Shaped(tx)
  {
    tx.count > 0 && |body| >= AUTH_LEN && body[..AUTH_LEN] == tx.ring[Tail(tx)]
  }

  /** The window part of moor_circuit_handle_sendme, once the digest has matched. */
  function Refill(tx: Tx): Tx
    requires tx.count > 0
  {
    tx.(count := tx.count - 1,
        inflight := if tx.inflight >= INCREMENT then tx.inflight - INCREMENT else 0,
        window := (if tx.window > WINDOW then WINDOW else tx.window) + INCREMENT)
  }

  /** `sent` are the digests of all data cells so far, `acked` counts the accepted SENDMEs. */
  ghost predicate Accounted(tx: Tx, sent: seq<Digest>, acked: nat) {
    && Shaped(tx)
    && tx.window + tx.inflight == WINDOW && tx.window >= 0
    && tx.inflight == |sent| - acked * INCREMENT
    && tx.count == tx.inflight / INCREMENT
    && tx.head == (|sent| / INCREMENT) % AUTH_MAX
    && Pending(tx.ring, tx.count, sent, acked)
  }

  /** The ring holds the digests of the cells at the next `count` increment boundaries. */
  ghost predicate Pending(ring: seq<Digest>, count: nat, sent: seq<Digest>, acked: nat)
    requires |ring| == AUTH_MAX && (acked + count) * INCREMENT <= |sent|
  {
    forall j :: acked <= j < acked + count ==> ring[j % AUTH_MAX] == sent[(j + 1) * INCREMENT - 1]
  }

  /** A data cell keeps the books; its digest is always recorded at an increment boundary. */
  lemma SendAccounted(tx: Tx, sent: seq<Digest>, acked: nat, d: Digest)
    requires Accounted(tx, sent, acked) && tx.window > 0
    ensures Accounted(SendOne(tx, d), sent + [d], acked)
  {
    hide Pending;
    var n := |sent|;
    assert (n + 1) / INCREMENT == n / INCREMENT + (if (n + 1) % INCREMENT == 0 then 1 else 0);
    assert (tx.inflight + 1) % INCREMENT == 0 <==> (n + 1) % INCREMENT == 0;
    if (n + 1) % INCREMENT == 0 {
      assert n / INCREMENT == acked + tx.count && (n / INCREMENT + 1) * INCREMENT == n + 1;
      PendingGrows(tx.ring, tx.count, sent, acked, d);
    } else {
      PendingStays(tx.ring, tx.count, sent, acked, d);
    }
  }

  lemma PendingStays(ring: seq<Digest>, count: nat, sent: seq<Digest>, acked: nat, d: Digest)
    requires |ring| == AUTH_MAX && (acked + count) * INCREMENT <= |sent| && Pending(ring, count, sent, acked)
    ensures Pending(ring, count, sent + [d], acked)
  {
  }

  lemma PendingGrows(ring: seq<Digest>, count: nat, sent: seq<Digest>, acked: nat, d: Digest)
    requires |ring| == AUTH_MAX && count < AUTH_MAX && (acked + count + 1) * INCREMENT == |sent| + 1
    requires Pending(ring, count, sent, acked)
    ensures Pending(ring[(acked + count) % AUTH_MAX := d], count + 1, sent + [d], acked)
  {
    forall j | acked <= j < acked + count ensures j % AUTH_MAX != (acked + count) % AUTH_MAX {
      assert 0 < acked + count - j < AUTH_MAX;
    }
  }

  lemma TailIsNext(tx: Tx, sent: seq<Digest>, acked: nat)
    requires Accounted(tx, sent, acked)
    ensures tx.count > 0 <==> |sent| >= (acked + 1) * INCREMENT
    ensures tx.count > 0 ==> Tail(tx) == acked % AUTH_MAX
  {
    assert |sent| / INCREMENT == acked + tx.count;
    RingIndex(acked, tx.count);
  }

  lemma RingIndex(acked: nat, count: nat)
    requires count <= AUTH_MAX
    ensures ((acked + count) % AUTH_MAX + AUTH_MAX - count) % AUTH_MAX == acked % AUTH_MAX
  {
    var q := (acked + count) / AUTH_MAX;
    assert acked == q * AUTH_MAX + ((acked + count) % AUTH_MAX - count);
  }

  /** The only SENDME accepted next is the one with the digest of data cell number
      `(acked + 1) * INCREMENT`, once that cell was sent. */
  lemma AcceptsNext(tx: Tx, sent: seq<Digest>, acked: nat, body: seq<Byte>)
    requires Accounted(tx, sent, acked)
    ensures Accepts(tx, body) <==>
      |sent| >= (acked + 1) * INCREMENT && |body| >= AUTH_LEN && body[..AUTH_LEN] == sent[(acked + 1) * INCREMENT - 1]
  {
    TailIsNext(tx, sent, acked);
  }

  /** Accepting it keeps the books; the underflow guard and the overflow cap change nothing. */
  lemma RefillAccounted(tx: Tx, sent: seq<Digest>, acked: nat)
    requires Accounted(tx, sent, acked) && tx.count > 0
    ensures Accounted(Refill(tx), sent, acked + 1)
    ensures Refill(tx).inflight == tx.inflight - INCREMENT && Refill(tx).window == tx.window + INCREMENT <= WINDOW
  {
  }

  /** The return values of moor_circuit_send_data: 0, the number of bytes sent, -1. */
  datatype Outcome = Done | Short | Error

  predicate Exhausted(window: int, stream: Option<int>) {
    window <= 0 || (stream.Some? && stream.value <= 0)
  }

  class Sender {
    var window: int
    var inflight: int
    const ring: array<Digest>
    var head: nat
    var count: nat
    ghost var sent: seq<Digest>
    ghost var acked: nat

    ghost function State(): Tx
      reads this, ring
    {
      Tx(window, inflight, ring[..], head, count)
    }

    ghost predicate Valid()
      reads this, ring
    {
      Accounted(State(), sent, acked)
    }

    constructor ()
      ensures Valid() && fresh(ring) && sent == [] && acked == 0
    {
      window, inflight, head, count := WINDOW, 0, 0, 0;
      ring := new Digest[AUTH_MAX](_ => Zeros(AUTH_LEN));
      sent, acked := [], 0;
    }

    /** moor_circuit_send_data on a circuit with hops: `cells` are the forward digests after each
        data cell it has to send, `stream` the package window of the stream if it is still there,
        and `goes` says whether encrypting and queueing a cell succeed. It stops at the first empty
        window, which is an error only if nothing was sent, and at the first failure. */
    method SendData(cells: seq<Digest>, stream: Option<int>, goes: nat -> bool)
      returns (n: nat, left: Option<int>, result: Outcome)
      requires Valid()
      modifies this, ring
      ensures Valid() && acked == old(acked) && n <= |cells| && sent == old(sent) + cells[..n]
      ensures window == old(window) - n && left == if stream.Some? then Some(stream.value - n) else None
      ensures forall i :: 0 <= i < n ==> goes(i)
      ensures result.Done? <==> n == |cells|
      ensures result.Short? <==> 0 < n < |cells| && Exhausted(window, left)
      ensures result.Error? <==> n < |cells| && if Exhausted(window, left) then n == 0 else !goes(n)
    {
      n, left := 0, stream;
      while n < |cells|
        invariant Valid() && n <= |cells| && acked == old(acked)
        invariant sent == old(sent) + cells[..n] && window == old(window) - n
        invariant left == if stream.Some? then Some(stream.value - n) else None
        invariant forall i :: 0 <= i < n ==> goes(i)
      {
        if window <= 0 || (left.Some? && left.value <= 0) {
          return n, left, if n > 0 then Short else Error;
        }
        if !goes(n) { return n, left, Error; }
        SendCell(cells[n]);
        if left.Some? { left := Some(left.value - 1); }
        n := n + 1;
      }
      result := Done;
    }

    /** The bookkeeping for one data cell. */
    method SendCell(d: Digest)
      requires Valid() && window > 0
      modifies this, ring
      ensures Valid() && acked == old(acked) && sent == old(sent) + [d] && window == old(window) - 1
    {
      SendAccounted(State(), sent, acked, d);
      ghost var goal := SendOne(State(), d);
      inflight := inflight + 1;
      window := window - 1;
      if inflight > 0 && inflight % INCREMENT == 0 {
        if count < AUTH_MAX {
          ring[head] := d;
          head := (head + 1) % AUTH_MAX;
          count := count + 1;
        }
      }
      assert State() == goal;
      sent := sent + [d];
    }

    /** moor_circuit_handle_sendme at circuit level. */
    method HandleSendme(body: seq<Byte>) returns (ok: bool)
      requires Valid()
      modifies this
      ensures Valid() && sent == old(sent) && acked == if ok then old(acked) + 1 else old(acked)
      ensures ok <==> |sent| >= (old(acked) + 1) * INCREMENT && |body| >= AUTH_LEN
                      && body[..AUTH_LEN] == sent[(old(acked) + 1) * INCREMENT - 1]
      ensures window == if ok then old(window) + INCREMENT else old(window)
    {
      AcceptsNext(State(), sent, acked, body);
      if count == 0 { return false; }
      if |body| < AUTH_LEN { return false; }
      var tail := (head + AUTH_MAX - count) % AUTH_MAX;
      if body[..AUTH_LEN] != ring[tail] { return false; }
      RefillAccounted(State(), sent, acked);
      count := count - 1;
      if inflight >= INCREMENT { inflight := inflight - INCREMENT; } else { assert false; }
      if window > WINDOW { assert false; }
      window := window + INCREMENT;
      acked := acked + 1;
      return true;
    }
  }

  // ---- The receivers ----

  datatype Reply = Refused | Quiet | Sendme(digest: Digest)

  /** The client's deliver window after a data cell with digest `d`, and the reply; `goes` says
      whether encrypting and queueing a SENDME succeed. */
  function Deliver(window: int, d: Digest, goes: bool): (int, Reply) {
    if window <= 0 then (window, Refused)
    else if window - 1 > WINDOW - INCREMENT then (window - 1, Quiet)
    else if goes then (window - 1 + INCREMENT, Sendme(d))
    else (window - 1, Refused)
  }

  class Receiver {
    var window: int

    constructor ()
      ensures window == WINDOW
    {
      window := WINDOW;
    }

    /** moor_circuit_maybe_send_sendme at circuit level: `d` is the running digest of the cell. */
    method OnData(d: Digest, goes: bool) returns (r: Reply)
      modifies this
      ensures (window, r) == Deliver(old(window), d, goes)
    {
      if window <= 0 { return Refused; }
      window := window - 1;
      if window <= WINDOW - INCREMENT {
        if !goes { return Refused; }
        window := window + INCREMENT;
        return Sendme(d);
      }
      return Quiet;
    }
  }

  /** What the exit finds when a data cell arrives: no such stream, a stream still connecting, a
      stream with an empty deliver window, a write to the target that fails, one that takes
      nothing, one that takes some bytes. */
  datatype Fate = NoStream | Connecting | StreamEmpty | WriteError | Stalled | Written

  /** The exit that counts nothing: a failed write. */
  predicate Uncounted(window: int, fate: Fate) {
    window > 0 && fate.WriteError?
  }

  /** The exit's deliver window after counting a cell. */
  function Counted(window: int, fate: Fate): int {
    if fate.NoStream? || fate.Connecting? then window - 1
    else if window <= 0 || fate.StreamEmpty? then if window > -WINDOW then window - 1 else window
    else window - 1
  }

  /** The exit's deliver window after a data cell with digest `d`, and the reply; `goes` says
      whether the previous hop is open and the SENDME is queued. */
  function Handle(window: int, d: Digest, fate: Fate, goes: bool): (int, Reply) {
    if Uncounted(window, fate) then (window, Quiet)
    else
      var w := Counted(window, fate);
      if w <= WINDOW - INCREMENT && goes then (w + INCREMENT, Sendme(d)) else (w, Quiet)
  }

  /** Every cell is counted, except by a window run down to its floor on a cell that is not for a missing or a
      connecting stream. */
  lemma CountedIs(window: int, fate: Fate)
    ensures Counted(window, fate) ==
      if window > -WINDOW || fate.NoStream? || fate.Connecting? then window - 1 else window
  {
  }

  class Exit {
    var window: int

    constructor ()
      ensures window == WINDOW
    {
      window := WINDOW;
    }

    /** The circuit-level part of the RELAY_DATA handler. Its cap on the window is never met. */
    method OnData(d: Digest, fate: Fate, open: bool, queued: bool) returns (r: Reply)
      modifies this
      ensures (window, r) == Handle(old(window), d, fate, open && queued) && !r.Refused?
    {
      if fate.NoStream? {
        window := window - 1;
      } else if fate.Connecting? {
        window := window - 1;
      } else if window <= 0 || fate.StreamEmpty? {
        if window > -WINDOW { window := window - 1; }
      } else if fate.WriteError? {
        return Quiet;
      } else {
        window := window - 1;
      }
      if !open { return Quiet; }
      r := Quiet;
      if window <= WINDOW - INCREMENT {
        if window + INCREMENT > WINDOW { assert false; }
        if queued {
          window := window + INCREMENT;
          r := Sendme(d);
        }
      }
    }
  }

  // ---- Client, exit and the cells between them ----

  /** Client, data cells and SENDMEs under way (each in order), exit; then the history: digests
      sent, data cells received, SENDMEs accepted and refused, and how many data cells came before
      the first one the exit did not account for. */
  datatype Link = Link(tx: Tx, data: seq<Digest>, rx: int, acks: seq<Digest>,
                       sent: seq<Digest>, received: nat, acked: nat, refused: nat, missed: Option<nat>)

  datatype Event = Send(d: Digest) | DataArrives(fate: Fate, goes: bool) | SendmeArrives

  /** The exit does not account for a cell: it leaves it uncounted, or it owes a SENDME and fails
      to send it. */
  predicate Misses(window: int, fate: Fate, goes: bool) {
    Uncounted(window, fate) || (!goes && Counted(window, fate) <= WINDOW - INCREMENT)
  }

  ghost function Next(s: Link, e: Event): (r: Link)
    requires Shaped(s.tx)
    ensures Shaped(r.tx) && s.sent <= r.sent
    ensures s.missed.Some? ==> r.missed == s.missed
  {
    match e
    case Send(d) => if s.tx.window <= 0 then s else AfterSend(s, d)
    case DataArrives(fate, goes) =>
      if s.data == [] then s
      else AfterData(s, Handle(s.rx, s.data[0], fate, goes), Misses(s.rx, fate, goes))
    case SendmeArrives => if s.acks == [] then s else AfterSendme(s, Accepts(s.tx, s.acks[0]))
  }

  ghost function AfterSend(s: Link, d: Digest): Link
    requires Shaped(s.tx)
  {
    s.(tx := SendOne(s.tx, d), data := s.data + [d], sent := s.sent + [d])
  }

  ghost function AfterData(s: Link, r: (int, Reply), miss: bool): Link
    requires s.data != []
  {
    s.(data := s.data[1..], rx := r.0, acks := if r.1.Sendme? then s.acks + [r.1.digest] else s.acks,
       received := s.received + 1,
       missed := if s.missed.None? && miss then Some(s.received) else s.missed)
  }

  ghost function AfterSendme(s: Link, ok: bool): Link
    requires s.acks != [] && (ok ==> s.tx.count > 0)
  {
    s.(tx := if ok then Refill(s.tx) else s.tx, acks := s.acks[1..],
       acked := if ok then s.acked + 1 else s.acked, refused := if ok then s.refused else s.refused + 1)
  }

  // ---- While every cell is accounted for ----

  ghost predicate Good(s: Link) {
    && Accounted(s.tx, s.sent, s.acked) && s.refused == 0 && s.missed.None?
    && s.received <= |s.sent| && s.data == s.sent[s.received..]
    && s.rx == WINDOW - s.received % INCREMENT
    && Owed(s.acks, s.sent, s.acked, s.received)
  }

  /** The SENDMEs under way answer, in order, the increment boundaries received and not yet accepted. */
  ghost predicate Owed(acks: seq<Digest>, sent: seq<Digest>, acked: nat, received: nat)
    requires received <= |sent|
  {
    && |acks| == received / INCREMENT - acked
    && forall i :: 0 <= i < |acks| ==> acks[i] == sent[(acked + i + 1) * INCREMENT - 1]
  }

  lemma OwedGrows(acks: seq<Digest>, sent: seq<Digest>, acked: nat, n: nat)
    requires n < |sent| && Owed(acks, sent, acked, n)
    ensures Owed(if (n + 1) % INCREMENT == 0 then acks + [sent[n]] else acks, sent, acked, n + 1)
  {
    assert (n + 1) / INCREMENT == n / INCREMENT + (if (n + 1) % INCREMENT == 0 then 1 else 0);
    if (n + 1) % INCREMENT == 0 {
      assert (acked + |acks| + 1) * INCREMENT == n + 1;
    }
  }

  lemma OwedShrinks(acks: seq<Digest>, sent: seq<Digest>, acked: nat, n: nat)
    requires n <= |sent| && Owed(acks, sent, acked, n) && acks != []
    ensures Owed(acks[1..], sent, acked + 1, n)
  {
  }

  lemma OwedStays(acks: seq<Digest>, sent: seq<Digest>, acked: nat, n: nat, d: Digest)
    requires n <= |sent| && Owed(acks, sent, acked, n)
    ensures Owed(acks, sent + [d], acked, n)
  {
  }

  lemma DataArrivesGood(s: Link, fate: Fate, goes: bool)
    requires Good(s) && s.data != [] && !Misses(s.rx, fate, goes)
    ensures Good(Next(s, DataArrives(fate, goes)))
  {
    var n := s.received;
    hide Owed, Pending;
    assert s.data[0] == s.sent[n] && s.data[1..] == s.sent[n + 1..];
    OwedGrows(s.acks, s.sent, s.acked, n);
    assert (n + 1) % INCREMENT == if n % INCREMENT == INCREMENT - 1 then 0 else n % INCREMENT + 1;
  }

  lemma SendmeArrivesGood(s: Link)
    requires Good(s) && s.acks != []
    ensures Good(Next(s, SendmeArrives))
  {
    hide Pending;
    OwedShrinks(s.acks, s.sent, s.acked, s.received);
    AcceptsNext(s.tx, s.sent, s.acked, s.acks[0]);
    RefillAccounted(s.tx, s.sent, s.acked);
  }

  lemma SendGood(s: Link, d: Digest)
    requires Good(s) && s.tx.window > 0
    ensures Good(Next(s, Send(d)))
  {
    hide Owed, Accounted;
    SendAccounted(s.tx, s.sent, s.acked, d);
    OwedStays(s.acks, s.sent, s.acked, s.received, d);
  }

  lemma NextGood(s: Link, e: Event)
    requires Good(s) && Next(s, e).missed.None?
    ensures Good(Next(s, e))
  {
    hide Owed, Pending;
    match e
    case Send(d) => if s.tx.window > 0 { SendGood(s, d); }
    case DataArrives(fate, goes) => if s.data != [] { DataArrivesGood(s, fate, goes); }
    case SendmeArrives => if s.acks != [] { SendmeArrivesGood(s); }
  }

  // ---- Once a cell was missed ----

  /** The first increment boundary after data cell number `m`: the one whose SENDME goes wrong. */
  function Boundary(m: nat): nat {
    (m / INCREMENT + 1) * INCREMENT
  }

  /** `m` cells came before the first miss. The SENDMEs of the earlier boundaries are owed as before;
      all that follow them carry digests of cells beyond the boundary after the miss, so the client
      accepts none of them. */
  ghost predicate Adrift(s: Link, m: nat) {
    && s.missed == Some(m) && Accounted(s.tx, s.sent, s.acked)
    && m < s.received <= |s.sent| && s.data == s.sent[s.received..]
    && s.acked <= m / INCREMENT
    && Astray(s.acks, s.sent, s.acked, m, s.received)
    && (s.received < Boundary(m) ==> WINDOW - s.rx < s.received - (Boundary(m) - INCREMENT))
    && WINDOW - s.rx <= s.received - (Boundary(m) - INCREMENT)
    && (s.received <= Boundary(m) ==> |s.acks| == m / INCREMENT - s.acked && s.refused == 0)
  }

  ghost predicate Astray(acks: seq<Digest>, sent: seq<Digest>, acked: nat, m: nat, received: nat)
    requires m <= received <= |sent| && acked <= m / INCREMENT
  {
    && |acks| >= m / INCREMENT - acked
    && (forall i :: 0 <= i < m / INCREMENT - acked ==> acks[i] == sent[(acked + i + 1) * INCREMENT - 1])
    && (forall i :: m / INCREMENT - acked <= i < |acks| ==> Within(acks[i], sent, Boundary(m), received))
  }

  ghost predicate Within(d: Digest, sent: seq<Digest>, from: nat, to: nat)
    requires to <= |sent|
  {
    exists j :: from <= j < to && sent[j] == d
  }

  lemma AstrayStays(s: Link, m: nat, sent: seq<Digest>, received: nat)
    requires Adrift(s, m) && s.received <= received <= |sent| && s.sent <= sent
    ensures Astray(s.acks, sent, s.acked, m, received)
  {
    forall i | m / INCREMENT - s.acked <= i < |s.acks|
      ensures Within(s.acks[i], sent, Boundary(m), received)
    {
      var j :| Boundary(m) <= j < s.received && s.sent[j] == s.acks[i];
      assert sent[j] == s.acks[i];
    }
  }

  lemma AstrayGrows(acks: seq<Digest>, sent: seq<Digest>, acked: nat, m: nat, n: nat)
    requires m <= n < |sent| && acked <= m / INCREMENT && Boundary(m) <= n
    requires Astray(acks, sent, acked, m, n + 1)
    ensures Astray(acks + [sent[n]], sent, acked, m, n + 1)
  {
    assert Within(sent[n], sent, Boundary(m), n + 1);
  }

  /** The first miss: nothing is owed for the boundary after it. */
  lemma MissAdrift(s: Link, fate: Fate, goes: bool)
    requires Good(s) && s.data != [] && Misses(s.rx, fate, goes)
    ensures Adrift(Next(s, DataArrives(fate, goes)), s.received)
  {
    hide Pending, Within;
    var n := s.received;
    assert s.data[0] == s.sent[n] && s.data[1..] == s.sent[n + 1..];
    assert Boundary(n) - INCREMENT + n % INCREMENT == n;
  }

  lemma DataAdrift(s: Link, m: nat, fate: Fate, goes: bool)
    requires Adrift(s, m) && s.data != []
    ensures Adrift(Next(s, DataArrives(fate, goes)), m)
  {
    hide Pending, Astray, Within;
    var n := s.received;
    assert s.data[0] == s.sent[n] && s.data[1..] == s.sent[n + 1..];
    AstrayStays(s, m, s.sent, n + 1);
    if Boundary(m) <= n {
      AstrayGrows(s.acks, s.sent, s.acked, m, n);
    }
  }

  lemma SendAdrift(s: Link, m: nat, d: Digest)
    requires Adrift(s, m) && s.tx.window > 0
    ensures Adrift(Next(s, Send(d)), m)
  {
    hide Astray, Accounted;
    SendAccounted(s.tx, s.sent, s.acked, d);
    AstrayStays(s, m, s.sent + [d], s.received);
  }

  /** With distinct digests only the SENDMEs owed from before the miss are accepted. */
  lemma AcceptsOwed(s: Link, m: nat)
    requires Adrift(s, m) && s.acks != [] && Distinct(s.sent)
    ensures Accepts(s.tx, s.acks[0]) <==> s.acked < m / INCREMENT
  {
    hide Accounted;
    AcceptsNext(s.tx, s.sent, s.acked, s.acks[0]);
    assert s.acks[0][..AUTH_LEN] == s.acks[0];
    if s.acked == m / INCREMENT {
      assert Within(s.acks[0], s.sent, Boundary(m), s.received);
      var j :| Boundary(m) <= j < s.received && s.sent[j] == s.acks[0];
      assert s.sent[Boundary(m) - 1] != s.sent[j];
    }
  }

  lemma SendmeAdrift(s: Link, m: nat)
    requires Adrift(s, m) && s.acks != [] && Distinct(s.sent)
    ensures Adrift(Next(s, SendmeArrives), m)
  {
    hide Pending, Within, Accepts;
    AcceptsOwed(s, m);
    if s.acked < m / INCREMENT {
      AcceptsNext(s.tx, s.sent, s.acked, s.acks[0]);
      TailIsNext(s.tx, s.sent, s.acked);
      RefillAccounted(s.tx, s.sent, s.acked);
    }
  }

  ghost predicate Known(s: Link) {
    match s.missed
    case None => Good(s)
    case Some(m) => Adrift(s, m)
  }

  lemma NextKnown(s: Link, e: Event)
    requires Known(s) && Distinct(s.sent)
    ensures Known(Next(s, e))
  {
    hide Owed, Pending, Astray;
    if Next(s, e).missed.None? {
      NextGood(s, e);
    } else if s.missed.None? {
      assert e.DataArrives?;
      MissAdrift(s, e.fate, e.goes);
    } else {
      var m := s.missed.value;
      match e
      case Send(d) => if s.tx.window > 0 { SendAdrift(s, m, d); }
      case DataArrives(fate, goes) => if s.data != [] { DataAdrift(s, m, fate, goes); }
      case SendmeArrives => if s.acks != [] { SendmeAdrift(s, m); }
    }
  }

  // ---- Whole runs ----

  ghost function Start(ring: seq<Digest>): (s: Link)
    requires |ring| == AUTH_MAX
    ensures Good(s)
  {
    Link(Tx(WINDOW, 0, ring, 0, 0), [], WINDOW, [], [], 0, 0, 0, None)
  }

  ghost function Run(s: Link, es: seq<Event>): (r: Link)
    requires Shaped(s.tx)
    ensures Shaped(r.tx) && s.sent <= r.sent
    ensures s.missed.Some? ==> r.missed == s.missed
  {
    if es == [] then s else Next(Run(s, es[..|es| - 1]), es[|es| - 1])
  }

  lemma {:induction false} RunGood(s: Link, es: seq<Event>)
    requires Good(s) && Run(s, es).missed.None?
    ensures Good(Run(s, es))
  {
    if es != [] {
      var before := es[..|es| - 1];
      assert Run(s, before).missed.None?;
      RunGood(s, before);
      NextGood(Run(s, before), es[|es| - 1]);
    }
  }

  lemma {:induction false} RunKnown(s: Link, es: seq<Event>)
    requires Known(s) && Shaped(s.tx) && Distinct(Run(s, es).sent)
    ensures Known(Run(s, es))
  {
    hide Good, Adrift;
    if es != [] {
      var before := Run(s, es[..|es| - 1]);
      assert before.sent <= Run(s, es).sent;
      RunKnown(s, es[..|es| - 1]);
      NextKnown(before, es[|es| - 1]);
    }
  }

  /** Over every interleaving, as long as the exit accounts for every cell: window and cells in flight
      add up to the full window, the deliver window never runs down, no SENDME is refused, and when
      nothing is under way the client may send: no deadlock. */
  lemma FlowControlHolds(ring: seq<Digest>, es: seq<Event>)
    requires |ring| == AUTH_MAX && Run(Start(ring), es).missed.None?
    ensures var s := Run(Start(ring), es);
            && s.tx.window + s.tx.inflight == WINDOW && s.tx.count * INCREMENT <= s.tx.inflight
            && s.refused == 0 && s.rx > WINDOW - INCREMENT
            && (s.data == [] && s.acks == [] ==> s.tx.window > WINDOW - INCREMENT)
  {
    RunGood(Start(ring), es);
  }

  /** Exactly when all is well once nothing is under way: the exit accounted for every cell, or the
      boundary after the cell it missed has not been sent yet. */
  lemma QuietIff(ring: seq<Digest>, es: seq<Event>)
    requires |ring| == AUTH_MAX && Distinct(Run(Start(ring), es).sent)
    requires Run(Start(ring), es).data == [] && Run(Start(ring), es).acks == []
    ensures var s := Run(Start(ring), es);
            s.refused == 0 && s.tx.window > WINDOW - INCREMENT
            <==> s.missed.None? || |s.sent| < Boundary(s.missed.value)
  {
    RunKnown(Start(ring), es);
  }

  /** After a miss at cell number `m` the client never sends more than one full window past the last
      boundary before it, whatever happens. */
  lemma MissStops(ring: seq<Digest>, es: seq<Event>, m: nat)
    requires |ring| == AUTH_MAX && Distinct(Run(Start(ring), es).sent) && Run(Start(ring), es).missed == Some(m)
    ensures var s := Run(Start(ring), es);
            s.acked <= m / INCREMENT && |s.sent| + s.tx.window <= Boundary(m) - INCREMENT + WINDOW
  {
    RunKnown(Start(ring), es);
  }

  // ---- A miss stops the circuit for good ----

  /** Events in which no write to a target fails and every SENDME is queued. */
  predicate Served(es: seq<Event>) {
    forall i :: 0 <= i < |es| ==> es[i].DataArrives? ==> !es[i].fate.WriteError? && es[i].goes
  }

  /** Events in which, moreover, every cell is written. */
  predicate Smooth(es: seq<Event>) {
    forall i :: 0 <= i < |es| ==> es[i].DataArrives? ==> es[i].fate.Written? && es[i].goes
  }

  /** Nothing is under way and the client may not send. */
  predicate Stuck(s: Link) {
    s.data == [] && s.acks == [] && s.tx.window == 0
  }

  lemma {:induction false} RunJoins(s: Link, a: seq<Event>, b: seq<Event>)
    requires Shaped(s.tx)
    ensures Run(s, a + b) == Run(Run(s, a), b)
  {
    hide Next, Shaped;
    if b == [] {
      assert a + b == a;
    } else {
      RunJoins(s, a, b[..|b| - 1]);
      assert (a + b)[..|a + b| - 1] == a + b[..|b| - 1];
    }
  }

  lemma RunFirst(s: Link, e: Event, es: seq<Event>)
    requires Shaped(s.tx)
    ensures Run(s, [e] + es) == Run(Next(s, e), es)
  {
    hide Next, Shaped;
    assert Run(s, []) == s && [e][..0] == [];
    assert Run(s, [e]) == Next(s, e);
    RunJoins(s, [e], es);
  }

  lemma {:induction false} ServedKeeps(s: Link, es: seq<Event>)
    requires Shaped(s.tx) && Served(es)
    ensures Run(s, es).missed == s.missed
  {
    if es != [] {
      ServedKeeps(s, es[..|es| - 1]);
    }
  }

  /** All data cells under way arrive and are served. */
  lemma {:induction false} DrainData(s: Link) returns (es: seq<Event>)
    requires Shaped(s.tx)
    ensures Smooth(es) && Served(es) && Run(s, es).data == [] && Run(s, es).sent == s.sent
    decreases |s.data|
  {
    if s.data == [] {
      return [];
    }
    var e := DataArrives(Written, true);
    var more := DrainData(Next(s, e));
    RunFirst(s, e, more);
    return [e] + more;
  }

  /** All SENDMEs under way arrive. */
  lemma {:induction false} DrainAcks(s: Link) returns (es: seq<Event>)
    requires Shaped(s.tx)
    ensures Smooth(es) && Served(es) && Run(s, es).acks == [] && Run(s, es).sent == s.sent && Run(s, es).data == s.data
    decreases |s.acks|
  {
    if s.acks == [] {
      return [];
    }
    var more := DrainAcks(Next(s, SendmeArrives));
    RunFirst(s, SendmeArrives, more);
    return [SendmeArrives] + more;
  }

  lemma Drain(s: Link) returns (es: seq<Event>)
    requires Shaped(s.tx)
    ensures Smooth(es) && Served(es) && Run(s, es).data == [] && Run(s, es).acks == [] && Run(s, es).sent == s.sent
  {
    var a := DrainData(s);
    var b := DrainAcks(Run(s, a));
    RunJoins(s, a, b);
    return a + b;
  }

  lemma SendStep(s: Link, d: Digest)
    requires Shaped(s.tx) && s.tx.window > 0
    ensures Next(s, Send(d)).tx.window == s.tx.window - 1 && Next(s, Send(d)).sent == s.sent + [d]
    ensures Next(s, Send(d)).received == s.received
  {
  }

  /** The client sends until its window is empty. */
  lemma {:induction false} SendAll(s: Link, ds: seq<Digest>) returns (es: seq<Event>)
    requires Shaped(s.tx) && 0 <= s.tx.window <= |ds|
    ensures Smooth(es) && Served(es) && Run(s, es).tx.window == 0 && Run(s, es).sent == s.sent + ds[..s.tx.window]
    ensures Run(s, es).received == s.received
    decreases |ds|
  {
    hide Next;
    if s.tx.window == 0 {
      es := [];
      assert s.sent + ds[..0] == s.sent && Run(s, es) == s;
      return;
    }
    SendStep(s, ds[0]);
    var more := SendAll(Next(s, Send(ds[0])), ds[1..]);
    RunFirst(s, Send(ds[0]), more);
    assert s.sent + [ds[0]] + ds[1..][..s.tx.window - 1] == s.sent + ds[..s.tx.window];
    return [Send(ds[0])] + more;
  }

  lemma AdriftQuiet(s: Link, m: nat)
    requires Adrift(s, m) && s.data == [] && s.acks == []
    ensures s.tx.window == WINDOW + m / INCREMENT * INCREMENT - |s.sent|
  {
  }

  /** From any state after a miss the client can be served without fault and still come to a halt. */
  lemma Halts(s: Link, ds: seq<Digest>) returns (es: seq<Event>)
    requires Known(s) && Shaped(s.tx) && s.missed.Some? && |ds| == WINDOW && Distinct(s.sent + ds)
    ensures Smooth(es) && Served(es) && Distinct(Run(s, es).sent) && Stuck(Run(s, es))
  {
    hide Good, Adrift, Next;
    var m := s.missed.value;
    var a := Drain(s);
    var quiet := Run(s, a);
    DistinctPrefix(s.sent, ds, 0);
    assert s.sent + ds[..0] == s.sent;
    RunKnown(s, a);
    AdriftQuiet(quiet, m);
    KnownWindow(quiet);
    var b := SendAll(quiet, ds);
    var empty := Run(quiet, b);
    DistinctPrefix(s.sent, ds, quiet.tx.window);
    RunKnown(quiet, b);
    var c := Drain(empty);
    RunKnown(empty, c);
    AdriftQuiet(Run(empty, c), m);
    RunJoins(quiet, b, c);
    RunJoins(s, a, b + c);
    es := a + (b + c);
  }

  lemma KnownWindow(s: Link)
    requires Known(s)
    ensures 0 <= s.tx.window <= WINDOW
  {
  }

  lemma DistinctPrefix<T>(a: seq<T>, b: seq<T>, n: nat)
    requires n <= |b| && Distinct(a + b)
    ensures Distinct(a + b[..n])
  {
    assert a + b[..n] <= a + b;
  }

  ghost predicate CanStick(s: Link)
    requires Shaped(s.tx)
  {
    exists es :: Served(es) && Distinct(Run(s, es).sent) && Stuck(Run(s, es))
  }

  /** Without further faults the circuit can come to a halt exactly if the exit missed a cell. `ds` are
      digests not used so far. */
  lemma StuckIff(ring: seq<Digest>, es: seq<Event>, ds: seq<Digest>)
    requires |ring| == AUTH_MAX && |ds| == WINDOW && Distinct(Run(Start(ring), es).sent + ds)
    ensures CanStick(Run(Start(ring), es)) <==> Run(Start(ring), es).missed.Some?
  {
    var s := Run(Start(ring), es);
    DistinctPrefix(s.sent, ds, 0);
    assert s.sent + ds[..0] == s.sent;
    RunKnown(Start(ring), es);
    if s.missed.Some? {
      var more := Halts(s, ds);
    } else {
      forall more | Served(more) ensures !Stuck(Run(s, more)) {
        ServedKeeps(s, more);
        RunGood(s, more);
      }
    }
  }

  /** In terms of what happens to the cells: if no write fails and every SENDME is queued, whatever else the exit
      finds, nothing is refused, the windows add up, and a quiet link leaves the client able to send. */
  lemma ServedHolds(ring: seq<Digest>, es: seq<Event>)
    requires |ring| == AUTH_MAX && Served(es)
    ensures var s := Run(Start(ring), es);
            && s.missed.None? && s.refused == 0 && s.rx > WINDOW - INCREMENT
            && s.tx.window + s.tx.inflight == WINDOW
            && (s.data == [] && s.acks == [] ==> s.tx.window > WINDOW - INCREMENT)
  {
    ServedKeeps(Start(ring), es);
    FlowControlHolds(ring, es);
  }

  /** A cell that arrives is not written, or it completes an increment and its SENDME is not queued. */
  ghost predicate Faulty(s: Link, e: Event) {
    && e.DataArrives? && s.data != []
    && (e.fate.WriteError? || ((s.received + 1) % INCREMENT == 0 && !e.goes))
  }

  ghost predicate NoFault(ring: seq<Digest>, es: seq<Event>)
    requires |ring| == AUTH_MAX
  {
    forall i :: 0 <= i < |es| ==> !Faulty(Run(Start(ring), es[..i]), es[i])
  }

  lemma FaultyIff(s: Link, e: Event)
    requires Good(s)
    ensures Next(s, e).missed.Some? <==> Faulty(s, e)
  {
    var n := s.received;
    assert (n + 1) % INCREMENT == if n % INCREMENT == INCREMENT - 1 then 0 else n % INCREMENT + 1;
  }

  /** The exit misses a cell exactly if a write fails or a SENDME is not queued at an increment boundary. */
  lemma {:induction false} MissedIff(ring: seq<Digest>, es: seq<Event>)
    requires |ring| == AUTH_MAX
    ensures Run(Start(ring), es).missed.None? <==> NoFault(ring, es)
  {
    hide Next, Good, Faulty, NoFault;
    if es == [] {
      assert NoFault(ring, es) by { NoneFaulty(ring); }
    } else {
      var n := |es| - 1;
      var init := es[..n];
      MissedIff(ring, init);
      NoFaultMore(ring, es);
      var s := Run(Start(ring), init);
      if s.missed.None? {
        RunGood(Start(ring), init);
        FaultyIff(s, es[n]);
      }
    }
  }

  lemma NoneFaulty(ring: seq<Digest>)
    requires |ring| == AUTH_MAX
    ensures NoFault(ring, [])
  {
  }

  lemma NoFaultMore(ring: seq<Digest>, es: seq<Event>)
    requires |ring| == AUTH_MAX && es != []
    ensures var init := es[..|es| - 1];
            NoFault(ring, es) <==> NoFault(ring, init) && !Faulty(Run(Start(ring), init), es[|es| - 1])
  {
    hide Run, Faulty;
    var n := |es| - 1;
    var init := es[..n];
    forall i | 0 <= i < n ensures init[..i] == es[..i] && init[i] == es[i] {}
    if NoFault(ring, es) {
      forall i | 0 <= i < n ensures !Faulty(Run(Start(ring), init[..i]), init[i]) {
        assert !Faulty(Run(Start(ring), es[..i]), es[i]);
      }
    }
  }

  /** One failed write, of the very first cell, is enough. */
  lemma WriteErrorSticks(ring: seq<Digest>, ds: seq<Digest>) returns (es: seq<Event>)
    requires |ring| == AUTH_MAX && |ds| == WINDOW + 1 && Distinct(ds)
    ensures |es| >= 2 && es[..2] == [Send(ds[0]), DataArrives(WriteError, true)] && Smooth(es[2..])
    ensures Stuck(Run(Start(ring), es))
  {
    var first := [Send(ds[0]), DataArrives(WriteError, true)];
    var s0 := Start(ring);
    var s1 := Next(s0, first[0]);
    var s := Next(s1, first[1]);
    assert Run(s0, first[..1]) == s1 by { assert Run(s0, []) == s0; assert first[..1][..0] == []; }
    assert Run(s0, first) == s;
    assert s.sent == [ds[0]] && [ds[0]] + ds[1..] == ds;
    RunKnown(s0, first);
    var more := Halts(s, ds[1..]);
    RunJoins(s0, first, more);
    es := first + more;
  }
}
