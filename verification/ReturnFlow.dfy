/** Circuit-level flow control from exit to client: the exit reads from its targets and counts in
    src/relay.c, the client counts deliveries and sends SENDMEs in src/circuit.c. The two ends behave
    like client and exit of the other direction, step by step. */
module ReturnFlow {
  import opened Bytes
  import opened Counting
  import opened Options
  import opened FlowControl

  // ---- The exit as sender ----

  /** Package window, data cells since the last recorded digest, and the ring of expected digests. */
  datatype BackTx = BackTx(window: int, cells: nat, ring: seq<Digest>, head: nat, count: nat)

  ghost predicate BackShaped(tx: BackTx) {
    |tx.ring| == AUTH_MAX && tx.head < AUTH_MAX && tx.count <= AUTH_MAX
  }

  /** The bookkeeping for one data cell with backward digest `d`. */
  function Charge(tx: BackTx, d: Digest): BackTx
    requires |tx.ring| == AUTH_MAX && tx.head < AUTH_MAX
  {
    var cells := tx.cells + 1;
    if cells < INCREMENT then tx.(window := tx.window - 1, cells := cells)
    else if tx.count < AUTH_MAX then
      BackTx(tx.window - 1, 0, tx.ring[tx.head := d], (tx.head + 1) % AUTH_MAX, tx.count + 1)
    else tx.(window := tx.window - 1, cells := 0)
  }

  /** The exit checks a SENDME only if it expects one. */
  predicate BackMatches(tx: BackTx, body: Digest)
    requires BackShaped(tx)
  {
    tx.count == 0 || body == tx.ring[(tx.head + AUTH_MAX - tx.count) % AUTH_MAX]
  }

  /** A SENDME that is not expected is taken, whatever it says, and refills the window. */
  lemma UnexpectedTaken(tx: BackTx, body: Digest)
    requires BackShaped(tx) && tx.count == 0
    ensures BackMatches(tx, body) && BackRefill(tx) == tx.(window := tx.window + INCREMENT)
  {
  }

  function BackRefill(tx: BackTx): BackTx {
    tx.(window := tx.window + INCREMENT, count := if tx.count > 0 then tx.count - 1 else 0)
  }

  /** The state in the terms of the other direction. */
  function Abs(tx: BackTx): Tx {
    Tx(tx.window, WINDOW - tx.window, tx.ring, tx.head, tx.count)
  }

  /** The counter of cells follows the cells sent. */
  ghost predicate Tuned(tx: BackTx, sent: seq<Digest>) {
    BackShaped(tx) && tx.cells == |sent| % INCREMENT
  }

  /** A data cell is accounted for as in the other direction. */
  lemma ChargeAlike(tx: BackTx, sent: seq<Digest>, acked: nat, d: Digest)
    requires Tuned(tx, sent) && Accounted(Abs(tx), sent, acked) && tx.window > 0
    ensures Tuned(Charge(tx, d), sent + [d]) && Abs(Charge(tx, d)) == SendOne(Abs(tx), d)
  {
    hide Pending;
    var n := |sent|;
    assert (n + 1) % INCREMENT == if n % INCREMENT == INCREMENT - 1 then 0 else n % INCREMENT + 1;
    assert (WINDOW - tx.window + 1) % INCREMENT == (n + 1 - acked * INCREMENT) % INCREMENT == (n + 1) % INCREMENT;
  }

  /** So is a SENDME, as long as the exit expects one. */
  lemma SendmeAlike(tx: BackTx, sent: seq<Digest>, acked: nat, body: Digest)
    requires Tuned(tx, sent) && Accounted(Abs(tx), sent, acked) && tx.count > 0
    ensures BackMatches(tx, body) <==> Accepts(Abs(tx), body)
    ensures Abs(BackRefill(tx)) == Refill(Abs(tx)) && Tuned(BackRefill(tx), sent)
  {
    hide Pending;
    assert body[..AUTH_LEN] == body;
    RefillAccounted(Abs(tx), sent, acked);
  }

  class Exit {
    var window: int
    var cells: nat
    const ring: array<Digest>
    var head: nat
    var count: nat
    ghost var sent: seq<Digest>
    ghost var acked: nat

    ghost function State(): BackTx
      reads this, ring
    {
      BackTx(window, cells, ring[..], head, count)
    }

    ghost predicate Valid()
      reads this, ring
    {
      Tuned(State(), sent) && Accounted(Abs(State()), sent, acked)
    }

    constructor ()
      ensures Valid() && fresh(ring) && sent == [] && acked == 0
    {
      window, cells, head, count := WINDOW, 0, 0, 0;
      ring := new Digest[AUTH_MAX](_ => Zeros(AUTH_LEN));
      sent, acked := [], 0;
    }

    /** The reading callback once data was read from a target; `stream` is the package window of the
        stream. A cell that cannot be queued is counted all the same; if the previous hop is gone the
        window is charged and nothing is sent. `d` is the backward digest after the cell. */
    method OnRead(d: Digest, stream: Option<int>, open: bool) returns (sends: bool, left: Option<int>)
      requires Valid()
      modifies this, ring
      ensures var goes := old(window) > 0 && stream.Some? && stream.value > 0;
              && sends == (goes && open)
              && left == (if goes then Some(stream.value - 1) else stream)
              && window == (if goes then old(window) - 1 else old(window))
      ensures !sends ==> (cells, ring[..], head, count) == old((cells, ring[..], head, count))
      ensures sends || window == old(window) ==> Valid() && acked == old(acked)
      ensures sent == if sends then old(sent) + [d] else old(sent)
    {
      left, sends := stream, false;
      if stream.None? || stream.value <= 0 || window <= 0 { return; }
      ChargeAlike(State(), sent, acked, d);
      SendAccounted(Abs(State()), sent, acked, d);
      ghost var goal := Charge(State(), d);
      left := Some(stream.value - 1);
      window := window - 1;
      if !open { return; }
      sends := true;
      cells := cells + 1;
      if cells >= INCREMENT {
        cells := 0;
        if count < AUTH_MAX {
          ring[head] := d;
          head := (head + 1) % AUTH_MAX;
          count := count + 1;
        }
      }
      assert State() == goal;
      sent := sent + [d];
    }

    /** The circuit-level part of the RELAY_SENDME handler. A SENDME the exit does not expect is not
        checked at all, and refills the window unless it is above its maximum. */
    method OnSendme(body: Digest, length: nat) returns (ok: bool)
      requires Valid()
      modifies `window, `count, `acked
      ensures ok <==>
        (old(count) == 0 || (length >= 8 && body == sent[(old(acked) + 1) * INCREMENT - 1]))
      ensures window == if ok then old(window) + INCREMENT else old(window)
      ensures old(count) > 0 ==> Valid() && acked == if ok then old(acked) + 1 else old(acked)
    {
      if count > 0 {
        TailIsNext(Abs(State()), sent, acked);
        AcceptsNext(Abs(State()), sent, acked, body);
        SendmeAlike(State(), sent, acked, body);
        RefillAccounted(Abs(State()), sent, acked);
        if length < 8 { return false; }
        var tail := (head + AUTH_MAX - count) % AUTH_MAX;
        if body != ring[tail] { return false; }
        ghost var goal := BackRefill(State());
        count := count - 1;
        if window > WINDOW { assert false; }
        window := window + INCREMENT;
        acked := acked + 1;
        assert State() == goal;
        return true;
      }
      if window > WINDOW { assert false; }
      window := window + INCREMENT;
      return true;
    }
  }

  // ---- Both ends and the cells between them ----

  datatype BackLink = BackLink(tx: BackTx, data: seq<Digest>, rx: int, acks: seq<Digest>,
                               sent: seq<Digest>, received: nat, acked: nat, refused: nat, missed: Option<nat>)

  /** The exit reads data and sends a cell; a data cell arrives, and a SENDME due for it is queued or not; a
      SENDME arrives. */
  datatype BackEvent = Reads(d: Digest) | Delivered(goes: bool) | Acknowledged

  ghost function BackNext(s: BackLink, e: BackEvent): (r: BackLink)
    requires BackShaped(s.tx)
    ensures BackShaped(r.tx) && s.sent <= r.sent && (s.missed.Some? ==> r.missed == s.missed)
  {
    match e
    case Reads(d) =>
      if s.tx.window <= 0 then s else s.(tx := Charge(s.tx, d), data := s.data + [d], sent := s.sent + [d])
    case Delivered(goes) =>
      if s.data == [] then s
      else
        var (rx, reply) := Deliver(s.rx, s.data[0], goes);
        s.(data := s.data[1..], rx := rx, received := s.received + 1,
           acks := if reply.Sendme? then s.acks + [reply.digest] else s.acks,
           missed := if s.missed.None? && reply.Refused? then Some(s.received) else s.missed)
    case Acknowledged =>
      if s.acks == [] then s
      else if !BackMatches(s.tx, s.acks[0]) then s.(acks := s.acks[1..], refused := s.refused + 1)
      else if s.tx.window <= WINDOW then s.(tx := BackRefill(s.tx), acks := s.acks[1..], acked := s.acked + 1)
      else
        s.(tx := s.tx.(count := if s.tx.count > 0 then s.tx.count - 1 else 0), acks := s.acks[1..],
          refused := s.refused + 1)
  }

  /** State and event in the terms of the other direction. */
  function AbsLink(s: BackLink): Link {
    Link(Abs(s.tx), s.data, s.rx, s.acks, s.sent, s.received, s.acked, s.refused, s.missed)
  }

  function AbsEvent(e: BackEvent): Event {
    match e
    case Reads(d) => Send(d)
    case Delivered(goes) => DataArrives(Written, goes)
    case Acknowledged => SendmeArrives
  }

  function AbsEvents(es: seq<BackEvent>): (r: seq<Event>)
    ensures |r| == |es| && forall i :: 0 <= i < |es| ==> r[i] == AbsEvent(es[i])
  {
    seq(|es|, i requires 0 <= i < |es| => AbsEvent(es[i]))
  }

  /** The client never meets an empty window. */
  lemma WindowLeft(s: Link)
    requires Known(s) && s.data != []
    ensures s.rx > 0
  {
  }

  /** The exit never gets a SENDME it does not expect. */
  lemma Expected(s: Link)
    requires Known(s) && s.acks != []
    ensures s.tx.count > 0
  {
    if s.missed.Some? && s.acked == s.missed.value / INCREMENT {
      assert Within(s.acks[0], s.sent, Boundary(s.missed.value), s.received);
    }
  }

  lemma DeliverAlike(rx: int, d: Digest, goes: bool)
    requires rx > 0
    ensures var (w, reply) := Deliver(rx, d, goes);
            && w == Handle(rx, d, Written, goes).0
            && (reply.Refused? <==> Misses(rx, Written, goes))
            && (reply.Sendme? <==> Handle(rx, d, Written, goes).1.Sendme?)
            && (reply.Sendme? ==> reply == Handle(rx, d, Written, goes).1)
  {
  }

  /** Every step is a step of the other direction. */
  lemma NextAlike(s: BackLink, e: BackEvent)
    requires Known(AbsLink(s)) && Tuned(s.tx, s.sent)
    ensures Shaped(Abs(s.tx)) && AbsLink(BackNext(s, e)) == Next(AbsLink(s), AbsEvent(e))
    ensures Tuned(BackNext(s, e).tx, BackNext(s, e).sent)
  {
    hide Known, Charge, SendOne, Accepts, Refill, Deliver, Handle, Misses, BackMatches, BackRefill;
    KnownBooks(AbsLink(s));
    match e
    case Reads(d) => if s.tx.window > 0 { ChargeAlike(s.tx, s.sent, s.acked, d); }
    case Delivered(goes) =>
      if s.data != [] {
        WindowLeft(AbsLink(s));
        DeliverAlike(s.rx, s.data[0], goes);
      }
    case Acknowledged =>
      if s.acks != [] {
        Expected(AbsLink(s));
        SendmeAlike(s.tx, s.sent, s.acked, s.acks[0]);
      }
  }

  lemma KnownBooks(s: Link)
    requires Known(s)
    ensures Shaped(s.tx) && Accounted(s.tx, s.sent, s.acked)
  {
  }

  // ---- Whole runs ----

  ghost function BackStart(ring: seq<Digest>): (s: BackLink)
    requires |ring| == AUTH_MAX
    ensures AbsLink(s) == Start(ring) && Tuned(s.tx, s.sent)
  {
    BackLink(BackTx(WINDOW, 0, ring, 0, 0), [], WINDOW, [], [], 0, 0, 0, None)
  }

  ghost function BackRun(s: BackLink, es: seq<BackEvent>): (r: BackLink)
    requires BackShaped(s.tx)
    ensures BackShaped(r.tx) && s.sent <= r.sent && (s.missed.Some? ==> r.missed == s.missed)
  {
    if es == [] then s else BackNext(BackRun(s, es[..|es| - 1]), es[|es| - 1])
  }

  /** A run in which every cell is accounted for, or no two digests are equal, is a run of the other
      direction. */
  lemma {:induction false} RunAlike(s: BackLink, es: seq<BackEvent>)
    requires Known(AbsLink(s)) && Tuned(s.tx, s.sent)
    requires BackRun(s, es).missed.None? || Distinct(BackRun(s, es).sent)
    ensures var r := BackRun(s, es);
            && Tuned(r.tx, r.sent) && Known(AbsLink(r))
            && Shaped(Abs(s.tx)) && AbsLink(r) == Run(AbsLink(s), AbsEvents(es))
  {
    hide Known, BackNext, Next;
    KnownBooks(AbsLink(s));
    if es != [] {
      var init, e := es[..|es| - 1], es[|es| - 1];
      var before := BackRun(s, init);
      assert before.sent <= BackRun(s, es).sent;
      RunAlike(s, init);
      NextAlike(before, e);
      assert AbsEvents(es)[..|es| - 1] == AbsEvents(init);
      if before.missed.None? && BackRun(s, es).missed.None? {
        StillGood(AbsLink(before), AbsEvent(e));
      } else {
        NextKnown(AbsLink(before), AbsEvent(e));
      }
    }
  }

  lemma StillGood(s: Link, e: Event)
    requires Known(s) && Shaped(s.tx) && s.missed.None? && Next(s, e).missed.None?
    ensures Known(Next(s, e))
  {
    hide Next;
    NextGood(s, e);
  }

  lemma StartKnown(ring: seq<Digest>)
    requires |ring| == AUTH_MAX
    ensures Known(Start(ring))
  {
  }

  /** Over every interleaving, as long as every SENDME that is due is queued: the windows add up, no data
      cell or SENDME is refused, and when nothing is under way the exit may send: no deadlock. */
  lemma ReturnFlowHolds(ring: seq<Digest>, es: seq<BackEvent>)
    requires |ring| == AUTH_MAX && BackRun(BackStart(ring), es).missed.None?
    ensures var s := BackRun(BackStart(ring), es);
            && s.tx.window + |s.sent| - s.acked * INCREMENT == WINDOW && s.tx.count == |s.sent| / INCREMENT - s.acked
            && s.refused == 0 && s.rx > WINDOW - INCREMENT
            && (s.data == [] && s.acks == [] ==> s.tx.window > WINDOW - INCREMENT)
  {
    RunAlike(BackStart(ring), es);
    FlowControlHolds(ring, AbsEvents(es));
  }

  ghost predicate BackServed(es: seq<BackEvent>) {
    forall i :: 0 <= i < |es| ==> es[i].Delivered? ==> es[i].goes
  }

  ghost predicate BackStuck(s: BackLink) {
    s.data == [] && s.acks == [] && s.tx.window == 0
  }

  ghost predicate BackCanStick(s: BackLink)
    requires BackShaped(s.tx)
  {
    exists es :: BackServed(es) && Distinct(BackRun(s, es).sent) && BackStuck(BackRun(s, es))
  }

  /** Smooth runs of the other direction are runs of this one. */
  function BackEvents(es: seq<Event>): (r: seq<BackEvent>)
    requires Smooth(es)
    ensures |r| == |es| && BackServed(r) && AbsEvents(r) == es
  {
    var r := seq(|es|, i requires 0 <= i < |es| => BackOf(es[i]));
    assert AbsEvents(r) == es;
    r
  }

  function BackOf(e: Event): BackEvent {
    match e
    case Send(d) => Reads(d)
    case DataArrives(_, goes) => Delivered(goes)
    case SendmeArrives => Acknowledged
  }

  /** The same from a run of the other direction. */
  lemma {:induction false} RunBack(s: BackLink, es: seq<BackEvent>)
    requires Known(AbsLink(s)) && Tuned(s.tx, s.sent) && Shaped(Abs(s.tx))
    requires Distinct(Run(AbsLink(s), AbsEvents(es)).sent)
    ensures var r := BackRun(s, es);
            Tuned(r.tx, r.sent) && Known(AbsLink(r)) && AbsLink(r) == Run(AbsLink(s), AbsEvents(es))
  {
    hide Known, BackNext, Next;
    if es != [] {
      var init, e := es[..|es| - 1], es[|es| - 1];
      assert AbsEvents(es)[..|es| - 1] == AbsEvents(init);
      assert Run(AbsLink(s), AbsEvents(init)).sent <= Run(AbsLink(s), AbsEvents(es)).sent;
      RunBack(s, init);
      NextAlike(BackRun(s, init), e);
      NextKnown(AbsLink(BackRun(s, init)), AbsEvent(e));
    }
  }

  /** A served run misses nothing. */
  lemma {:induction false} ServedMissesNone(s: BackLink, es: seq<BackEvent>)
    requires Known(AbsLink(s)) && Tuned(s.tx, s.sent) && s.missed.None? && BackServed(es)
    ensures BackRun(s, es).missed.None?
  {
    hide Known, BackNext, Next;
    if es != [] {
      var init, e := es[..|es| - 1], es[|es| - 1];
      ServedMissesNone(s, init);
      RunAlike(s, init);
      NextAlike(BackRun(s, init), e);
      ServedStep(AbsLink(BackRun(s, init)), e);
    }
  }

  lemma ServedStep(s: Link, e: BackEvent)
    requires Shaped(s.tx) && (e.Delivered? ==> e.goes)
    ensures Next(s, AbsEvent(e)).missed == s.missed
  {
  }

  lemma NeverStuck(s: BackLink, es: seq<BackEvent>)
    requires Known(AbsLink(s)) && Tuned(s.tx, s.sent) && s.missed.None? && BackServed(es)
    ensures !BackStuck(BackRun(s, es))
  {
    ServedMissesNone(s, es);
    RunAlike(s, es);
  }

  /** Without further faults the circuit can come to a halt exactly if the client once failed to send a
      SENDME that was due. `ds` are digests not used so far. */
  lemma ReturnStuckIff(ring: seq<Digest>, es: seq<BackEvent>, ds: seq<Digest>)
    requires |ring| == AUTH_MAX && |ds| == WINDOW && Distinct(BackRun(BackStart(ring), es).sent + ds)
    ensures BackCanStick(BackRun(BackStart(ring), es)) <==> BackRun(BackStart(ring), es).missed.Some?
  {
    hide Known, Next, BackNext;
    var s := BackRun(BackStart(ring), es);
    DistinctPrefix(s.sent, ds, 0);
    assert s.sent + ds[..0] == s.sent;
    StartKnown(ring);
    RunAlike(BackStart(ring), es);
    if s.missed.Some? {
      KnownBooks(AbsLink(s));
      var more := Halts(AbsLink(s), ds);
      var back := BackEvents(more);
      RunBack(s, back);
    } else {
      forall more | BackServed(more) ensures !BackStuck(BackRun(s, more)) {
        NeverStuck(s, more);
      }
    }
  }

  /** `n` data cells under way arrive and are served. */
  lemma {:induction false} Arrive(s: Link, n: nat) returns (es: seq<Event>)
    requires Shaped(s.tx) && n <= |s.data|
    ensures Smooth(es) && Served(es) && Run(s, es).received == s.received + n && |Run(s, es).data| == |s.data| - n
    ensures Run(s, es).sent == s.sent && Run(s, es).tx == s.tx
    decreases n
  {
    if n == 0 {
      return [];
    }
    var e := DataArrives(Written, true);
    var more := Arrive(Next(s, e), n - 1);
    RunFirst(s, e, more);
    return [e] + more;
  }

  lemma GoodData(s: Link)
    requires Good(s)
    ensures s.data == s.sent[s.received..]
  {
  }

  /** The exit uses up its window and all but one of the cells before the first boundary arrive. */
  lemma BeforeBoundary(ring: seq<Digest>, ds: seq<Digest>) returns (es: seq<Event>)
    requires |ring| == AUTH_MAX && |ds| == WINDOW && Distinct(ds)
    ensures Smooth(es) && Served(es) && var s := Run(Start(ring), es);
            && Good(s) && s.sent == ds && s.tx.window == 0 && s.received == INCREMENT - 1
  {
    hide Next, Good;
    var s0 := Start(ring);
    var a := SendAll(s0, ds);
    var s := Run(s0, a);
    assert s0.sent + ds[..s0.tx.window] == ds;
    ServedKeeps(s0, a);
    RunGood(s0, a);
    GoodData(s);
    var b := Arrive(s, INCREMENT - 1);
    ServedKeeps(s, b);
    RunGood(s, b);
    RunJoins(s0, a, b);
    es := a + b;
  }

  /** The SENDME due for the next cell is not queued. */
  lemma MissNow(s: Link)
    requires Good(s) && |s.sent| == WINDOW && s.received == INCREMENT - 1
    ensures Next(s, DataArrives(Written, false)).missed == Some(INCREMENT - 1)
    ensures Next(s, DataArrives(Written, false)).sent == s.sent
  {
  }

  /** A single SENDME that the client fails to send, the first, brings the circuit to a halt. */
  lemma SendmeLostSticks(ring: seq<Digest>, ds: seq<Digest>) returns (a: seq<BackEvent>, b: seq<BackEvent>)
    requires |ring| == AUTH_MAX && |ds| == WINDOW && Distinct(ds)
    ensures BackServed(a) && BackServed(b)
    ensures BackStuck(BackRun(BackStart(ring), a + [Delivered(false)] + b))
  {
    hide Next, BackNext, Good, Adrift;
    var s0, e := Start(ring), DataArrives(Written, false);
    var before := BeforeBoundary(ring, ds);
    var s := Run(s0, before);
    MissNow(s);
    var missed := Next(s, e);
    var after := Drain(missed);
    RunFirst(s, e, after);
    RunJoins(s0, before, [e] + after);
    var all := before + ([e] + after);
    var end := Run(s0, all);
    StartKnown(ring);
    RunKnown(s0, all);
    AdriftQuiet(end, INCREMENT - 1);
    a, b := BackEvents(before), BackEvents(after);
    assert AbsEvents(a + [Delivered(false)] + b) == all;
    RunBack(BackStart(ring), a + [Delivered(false)] + b);
  }
}
