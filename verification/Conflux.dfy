/** Multi-path delivery of src/conflux.c: chunks numbered by the sender, sent over any legs, and put
    back in order by a bounded reorder buffer. */
module Conflux {
  import Counting
  import opened Bytes
  import Feistel

  const MAX_SEQ := Feistel.LIMIT - 1
  const CHUNK_MAX := 490

  datatype Chunk = Chunk(stream: nat, data: seq<Byte>)

  /** A chunk handed over, with its number. */
  datatype Item = Item(q: nat, c: Chunk)

  // ---- The receiver as a value: next expected number and buffered chunks ----

  datatype Rx = Rx(next: nat, held: map<nat, Chunk>)

  datatype Verdict = Deliver | Buffered | Duplicate | TooFar | Exhausted | Oversized | UnknownLeg | Full

  /** The last part of moor_conflux_receive, with room in the buffer. */
  function Accept(rx: Rx, window: nat, q: nat, c: Chunk): (Rx, Verdict) {
    if q == rx.next then
      if q == MAX_SEQ then (rx, Exhausted) else (rx.(next := q + 1), Deliver)
    else if q < rx.next then (rx, Duplicate)
    else if q - rx.next >= window then (rx, TooFar)
    else if q in rx.held then (rx, Duplicate)
    else if |c.data| > CHUNK_MAX then (rx, Oversized)
    else (rx.(held := rx.held[q := c]), Buffered)
  }

  /** Dropping the entries in `dead`: if that happened and the next number is not buffered, the
      receiver skips to the lowest buffered one. */
  ghost function Expire(rx: Rx, dead: set<nat>): Rx {
    var held := rx.held - dead;
    if held == rx.held || rx.next in held || held.Keys <= {MAX_SEQ} then rx.(held := held)
    else
      var m := Least(held.Keys - {MAX_SEQ});
      Rx(if m > rx.next then m else rx.next, held)
  }

  ghost function Least(s: set<nat>): (m: nat)
    requires s != {}
    ensures m in s && forall x :: x in s ==> m <= x
  {
    var x :| x in s;
    if s == {x} then x
    else
      assert s == (s - {x}) + {x};
      var m := Least(s - {x});
      if x < m then x else m
  }

  /** moor_conflux_deliver, repeated until nothing is left to deliver: the chunks with their numbers. */
  function Drain(rx: Rx): (Rx, seq<Item>)
    decreases |rx.held|
  {
    if rx.next !in rx.held then (rx, [])
    else if rx.next == MAX_SEQ then (rx.(held := rx.held - {rx.next}), [])
    else
      assert |rx.held - {rx.next}| < |rx.held| by {
        assert rx.held == (rx.held - {rx.next})[rx.next := rx.held[rx.next]];
      }
      var (rx', out) := Drain(Rx(rx.next + 1, rx.held - {rx.next}));
      (rx', [Item(rx.next, rx.held[rx.next])] + out)
  }

  /** Handling one arrived cell: receive, hand over the chunk if it is next, then drain. */
  function Step(rx: Rx, window: nat, q: nat, c: Chunk): (Rx, seq<Item>) {
    var (rx1, v) := Accept(rx, window, q, c);
    if v != Deliver && v != Buffered then (rx1, [])
    else
      var (rx2, out) := Drain(rx1);
      (rx2, (if v == Deliver then [Item(q, c)] else []) + out)
  }

  // ---- Runs ----

  datatype Leg = Leg(circ: nat, active: bool)

  /** A data cell on a leg: encrypted number and chunk. */
  datatype Cell = Cell(leg: nat, enc: nat, c: Chunk)

  /** The `i`-th cell sent arrives from circuit `from`, 0 for none, when the receiver has the legs
      `legs`; before it is handled the buffered numbers in `dead` time out. */
  datatype Arrival = Arrival(i: nat, from: nat, legs: seq<Leg>, dead: set<nat>)

  predicate Heard(from: nat, legs: seq<Leg>) {
    from == 0 || Leg(from, true) in legs
  }

  /** Handling an arrival. A cell from an unknown or inactive leg is dropped. */
  ghost function Handle(f: Feistel.RoundFn, rx: Rx, window: nat, cell: Cell, a: Arrival): (Rx, seq<Item>)
    requires cell.enc < Feistel.LIMIT
  {
    var rx0 := Expire(rx, a.dead);
    if Heard(a.from, a.legs) then Step(rx0, window, Feistel.Dec(f, cell.enc), cell.c) else (rx0, [])
  }

  /** `sent` binds the number of every cell to its chunk. */
  ghost predicate Carries(f: Feistel.RoundFn, cells: seq<Cell>, sent: map<nat, Chunk>) {
    Small(sent) && Encoded(cells) && forall i :: 0 <= i < |cells| ==> Carried(f, cells[i], sent)
  }

  ghost predicate Small(sent: map<nat, Chunk>) {
    forall k :: k in sent ==> k < MAX_SEQ && |sent[k].data| <= CHUNK_MAX
  }

  ghost predicate Carried(f: Feistel.RoundFn, cell: Cell, sent: map<nat, Chunk>) {
    cell.enc < Feistel.LIMIT && var q := Feistel.Dec(f, cell.enc); q in sent && sent[q] == cell.c
  }

  predicate Encoded(cells: seq<Cell>) {
    forall i :: 0 <= i < |cells| ==> cells[i].enc < Feistel.LIMIT
  }

  ghost predicate Drawn(arrived: seq<Arrival>, n: nat) {
    forall j :: 0 <= j < |arrived| ==> arrived[j].i < n
  }

  /** The state after the arrivals, and everything handed over. */
  ghost function Run(f: Feistel.RoundFn, window: nat, cells: seq<Cell>, arrived: seq<Arrival>): (Rx, seq<Item>)
    requires Encoded(cells) && Drawn(arrived, |cells|)
  {
    if arrived == [] then (Rx(0, map[]), [])
    else
      var (rx, out) := Run(f, window, cells, arrived[..|arrived| - 1]);
      var a := arrived[|arrived| - 1];
      var (rx', more) := Handle(f, rx, window, cells[a.i], a);
      (rx', out + more)
  }

  // ---- Runs without timeouts ----

  /** Everything buffered is a sent chunk, inside the window and past the next number. */
  ghost predicate Safe(rx: Rx, window: nat, sent: map<nat, Chunk>) {
    && rx.next !in rx.held
    && forall k :: k in rx.held ==> rx.next <= k < rx.next + window && k in sent && rx.held[k] == sent[k]
  }

  ghost predicate Numbered(out: seq<Item>, sent: map<nat, Chunk>, from: nat, to: nat) {
    && from <= to && |out| == to - from && (forall k :: from <= k < to ==> k in sent)
    && forall i :: 0 <= i < |out| ==> out[i] == Item(from + i, sent[from + i])
  }

  ghost predicate Genuine(rx: Rx, sent: map<nat, Chunk>) {
    forall k :: k in rx.held ==> k in sent && rx.held[k] == sent[k]
  }

  lemma {:induction false} DrainIncreases(rx: Rx, sent: map<nat, Chunk>)
    requires Genuine(rx, sent) && Small(sent)
    ensures var (rx', out) := Drain(rx);
            Genuine(rx', sent) && Numbered(out, sent, rx.next, rx'.next)
    decreases |rx.held|
  {
    if rx.next in rx.held {
      assert |rx.held - {rx.next}| < |rx.held| by {
        assert rx.held == (rx.held - {rx.next})[rx.next := rx.held[rx.next]];
      }
      DrainIncreases(Rx(rx.next + 1, rx.held - {rx.next}), sent);
    }
  }

  lemma {:induction false} DrainKeeps(rx: Rx, window: nat)
    requires forall k :: k in rx.held ==> rx.next <= k < rx.next + window && k < MAX_SEQ
    ensures var rx' := Drain(rx).0;
            && rx'.next !in rx'.held && rx.next <= rx'.next
            && (forall k :: k in rx'.held ==> k in rx.held && rx'.next <= k < rx'.next + window)
            && (forall k :: k in rx.held ==> k in rx'.held || k < rx'.next)
    decreases |rx.held|
  {
    if rx.next in rx.held {
      assert |rx.held - {rx.next}| < |rx.held| by {
        assert rx.held == (rx.held - {rx.next})[rx.next := rx.held[rx.next]];
      }
      DrainKeeps(Rx(rx.next + 1, rx.held - {rx.next}), window);
    }
  }

  lemma DrainDelivers(rx: Rx, window: nat, sent: map<nat, Chunk>)
    requires Small(sent)
    requires forall k :: k in rx.held ==> rx.next <= k < rx.next + window && k in sent && rx.held[k] == sent[k]
    ensures var (rx', out) := Drain(rx);
            && Safe(rx', window, sent) && Numbered(out, sent, rx.next, rx'.next)
            && forall k :: k in rx.held ==> k in rx'.held || k < rx'.next
  {
    hide Drain, Numbered;
    DrainKeeps(rx, window);
    DrainIncreases(rx, sent);
  }

  /** One arrival of sent chunk `q`, first or repeated, hands over the next run of the stream. */
  lemma StepDelivers(rx: Rx, window: nat, sent: map<nat, Chunk>, q: nat)
    requires Safe(rx, window, sent) && Small(sent) && q in sent
    ensures var (rx', out) := Step(rx, window, q, sent[q]);
            && Safe(rx', window, sent) && Numbered(out, sent, rx.next, rx'.next)
            && (forall k :: k in rx.held || k < rx.next ==> k in rx'.held || k < rx'.next)
            && (q < rx.next + window ==> q in rx'.held || q < rx'.next)
  {
    hide Drain;
    var (rx1, v) := Accept(rx, window, q, sent[q]);
    if v == Deliver || v == Buffered {
      DrainDelivers(rx1, window, sent);
    }
  }

  ghost predicate Untimed(arrived: seq<Arrival>) {
    forall j :: 0 <= j < |arrived| ==> arrived[j].dead == {}
  }

  lemma NoneExpire(rx: Rx)
    ensures Expire(rx, {}) == rx
  {
    assert rx.held - {} == rx.held;
  }

  /** One arrival without timeouts, from any circuit. */
  lemma HandleDelivers(f: Feistel.RoundFn, rx: Rx, window: nat, sent: map<nat, Chunk>, cell: Cell, a: Arrival)
    requires Safe(rx, window, sent) && Small(sent) && Carried(f, cell, sent) && a.dead == {}
    ensures var (rx', out) := Handle(f, rx, window, cell, a);
            && Safe(rx', window, sent) && Numbered(out, sent, rx.next, rx'.next)
            && (forall k :: k in rx.held || k < rx.next ==> k in rx'.held || k < rx'.next)
            && var q := Feistel.Dec(f, cell.enc);
               Heard(a.from, a.legs) && q < rx.next + window ==> q in rx'.held || q < rx'.next
  {
    hide Step, Expire, Heard;
    NoneExpire(rx);
    StepDelivers(rx, window, sent, Feistel.Dec(f, cell.enc));
  }

  /** In every run, whatever the order, repetition and legs of the arrivals, what is handed over is a
      prefix of the sent stream by number, each chunk once. */
  lemma {:induction false} DeliversPrefix(f: Feistel.RoundFn, window: nat, cells: seq<Cell>, sent: map<nat, Chunk>,
          arrived: seq<Arrival>)
    requires Carries(f, cells, sent) && Drawn(arrived, |cells|) && Untimed(arrived)
    ensures var (rx, out) := Run(f, window, cells, arrived);
            Safe(rx, window, sent) && Numbered(out, sent, 0, rx.next)
  {
    hide Handle, Carried, Small;
    if arrived != [] {
      var init, a := arrived[..|arrived| - 1], arrived[|arrived| - 1];
      var (rx, out) := Run(f, window, cells, init);
      DeliversPrefix(f, window, cells, sent, init);
      HandleDelivers(f, rx, window, sent, cells[a.i], a);
    }
  }

  /** No cell heard was beyond the window of the receiver at that moment. */
  ghost predicate InWindow(f: Feistel.RoundFn, window: nat, cells: seq<Cell>, arrived: seq<Arrival>)
    requires Encoded(cells) && Drawn(arrived, |cells|)
  {
    forall j :: 0 <= j < |arrived| ==>
      Feistel.Dec(f, cells[arrived[j].i].enc) < Run(f, window, cells, arrived[..j]).0.next + window
  }

  /** Number `k` arrives over a leg that is heard. */
  ghost predicate Arrives(f: Feistel.RoundFn, cells: seq<Cell>, arrived: seq<Arrival>, k: nat)
    requires Encoded(cells) && Drawn(arrived, |cells|)
  {
    exists j :: 0 <= j < |arrived| && Heard(arrived[j].from, arrived[j].legs) &&
      Feistel.Dec(f, cells[arrived[j].i].enc) == k
  }

  /** If the first `n` numbers all arrive and nothing beyond the window, the first `n` chunks are handed
      over. */
  lemma DeliversAll(f: Feistel.RoundFn, window: nat, cells: seq<Cell>, sent: map<nat, Chunk>, arrived: seq<Arrival>,
          n: nat)
    requires Carries(f, cells, sent) && Drawn(arrived, |cells|) && Untimed(arrived)
    requires InWindow(f, window, cells, arrived) && forall k :: 0 <= k < n ==> Arrives(f, cells, arrived, k)
    ensures var (rx, out) := Run(f, window, cells, arrived);
            rx.next >= n && Numbered(out, sent, 0, rx.next)
  {
    DeliversPrefix(f, window, cells, sent, arrived);
    var rx := Run(f, window, cells, arrived).0;
    if rx.next < n {
      assert Arrives(f, cells, arrived, rx.next);
      var j :| 0 <= j < |arrived| && Heard(arrived[j].from, arrived[j].legs) &&
        Feistel.Dec(f, cells[arrived[j].i].enc) == rx.next;
      KeepsArrived(f, window, cells, sent, arrived, j);
    }
  }

  lemma InWindowBefore(f: Feistel.RoundFn, window: nat, cells: seq<Cell>, arrived: seq<Arrival>)
    requires Encoded(cells) && arrived != [] && Drawn(arrived, |cells|) && InWindow(f, window, cells, arrived)
    ensures var init := arrived[..|arrived| - 1];
            && InWindow(f, window, cells, init)
            && Feistel.Dec(f, cells[arrived[|arrived| - 1].i].enc) < Run(f, window, cells, init).0.next + window
  {
    hide Run;
    var init := arrived[..|arrived| - 1];
    forall j | 0 <= j < |init|
      ensures Feistel.Dec(f, cells[init[j].i].enc) < Run(f, window, cells, init[..j]).0.next + window
    {
      assert init[..j] == arrived[..j];
    }
  }

  lemma {:induction false} KeepsArrived(f: Feistel.RoundFn, window: nat, cells: seq<Cell>, sent: map<nat, Chunk>,
          arrived: seq<Arrival>, j: nat)
    requires Carries(f, cells, sent) && Drawn(arrived, |cells|) && Untimed(arrived) &&
      InWindow(f, window, cells, arrived)
    requires j < |arrived| && Heard(arrived[j].from, arrived[j].legs)
    ensures var rx, q := Run(f, window, cells, arrived).0, Feistel.Dec(f, cells[arrived[j].i].enc);
            q in rx.held || q < rx.next
  {
    hide InWindow, Handle, Safe, Numbered, Heard, Small, Carried, Feistel.Dec;
    assert Encoded(cells);
    var n := |arrived| - 1;
    var init, a := arrived[..n], arrived[n];
    InWindowBefore(f, window, cells, arrived);
    DeliversPrefix(f, window, cells, sent, init);
    HandleDelivers(f, Run(f, window, cells, init).0, window, sent, cells[a.i], a);
    if j < n {
      KeepsArrived(f, window, cells, sent, init, j);
    }
  }

  /** Nothing is buffered or handed over that did not arrive. */
  lemma {:induction false} OnlyArrived(f: Feistel.RoundFn, window: nat, cells: seq<Cell>, arrived: seq<Arrival>, k: nat)
    requires Encoded(cells) && Drawn(arrived, |cells|) && Untimed(arrived)
    ensures var rx := Run(f, window, cells, arrived).0; k in rx.held || k < rx.next ==> Arrives(f, cells, arrived, k)
  {
    hide Handle, Heard, Feistel.Dec;
    if arrived != [] {
      var n := |arrived| - 1;
      var init, a := arrived[..n], arrived[n];
      var before, after := Run(f, window, cells, init).0, Run(f, window, cells, arrived).0;
      OnlyArrived(f, window, cells, init, k);
      HandleTakes(f, before, window, cells[a.i], a, k);
      if Arrives(f, cells, init, k) { ArrivesStill(f, cells, arrived, n, k); }
    }
  }

  lemma ArrivesStill(f: Feistel.RoundFn, cells: seq<Cell>, arrived: seq<Arrival>, n: nat, k: nat)
    requires Encoded(cells) && Drawn(arrived, |cells|) && n <= |arrived| && Arrives(f, cells, arrived[..n], k)
    ensures Arrives(f, cells, arrived, k)
  {
    hide Heard, Feistel.Dec;
    var j :| 0 <= j < n && Heard(arrived[..n][j].from, arrived[..n][j].legs)
      && Feistel.Dec(f, cells[arrived[..n][j].i].enc) == k;
    assert arrived[..n][j] == arrived[j];
  }

  lemma HandleTakes(f: Feistel.RoundFn, rx: Rx, window: nat, cell: Cell, a: Arrival, k: nat)
    requires cell.enc < Feistel.LIMIT && a.dead == {}
    ensures var after := Handle(f, rx, window, cell, a).0;
            k in after.held || k < after.next ==>
              k in rx.held || k < rx.next || (Heard(a.from, a.legs) && Feistel.Dec(f, cell.enc) == k)
  {
    hide Heard, Feistel.Dec, Drain, Expire;
    NoneExpire(rx);
    var q := Feistel.Dec(f, cell.enc);
    DrainTakes(Accept(rx, window, q, cell.c).0, k);
  }

  lemma {:induction false} DrainTakes(rx: Rx, k: nat)
    ensures var after := Drain(rx).0; k in after.held || k < after.next ==> k in rx.held || k < rx.next
    decreases |rx.held|
  {
    if rx.next in rx.held && rx.next != MAX_SEQ {
      assert |rx.held - {rx.next}| < |rx.held| by {
        assert rx.held == (rx.held - {rx.next})[rx.next := rx.held[rx.next]];
      }
      DrainTakes(Rx(rx.next + 1, rx.held - {rx.next}), k);
    }
  }

  /** No cell arrives before everything a window below it has arrived. */
  ghost predicate Spaced(f: Feistel.RoundFn, window: nat, cells: seq<Cell>, arrived: seq<Arrival>)
    requires Encoded(cells) && Drawn(arrived, |cells|)
  {
    forall j, k :: 0 <= j < |arrived| && 0 <= k <= Feistel.Dec(f, cells[arrived[j].i].enc) - window ==>
      Arrives(f, cells, arrived[..j], k)
  }

  /** Then nothing is beyond the window of the receiver. */
  lemma {:induction false} SpacedInWindow(f: Feistel.RoundFn, window: nat, cells: seq<Cell>, sent: map<nat, Chunk>,
          arrived: seq<Arrival>)
    requires Carries(f, cells, sent) && Drawn(arrived, |cells|) && Untimed(arrived) && Spaced(f, window, cells, arrived)
    ensures InWindow(f, window, cells, arrived)
  {
    hide Run, Feistel.Dec, Small, Arrives, Carried;
    if arrived != [] {
      var n := |arrived| - 1;
      var init := arrived[..n];
      assert Encoded(cells);
      SpacedBefore(f, window, cells, arrived);
      SpacedInWindow(f, window, cells, sent, init);
      var q := Feistel.Dec(f, cells[arrived[n].i].enc);
      if q >= window {
        DeliversAll(f, window, cells, sent, init, q - window + 1);
      }
      forall j | 0 <= j < |arrived|
        ensures Feistel.Dec(f, cells[arrived[j].i].enc) < Run(f, window, cells, arrived[..j]).0.next + window
      {
        if j < n { assert init[..j] == arrived[..j]; }
      }
    }
  }

  lemma SpacedBefore(f: Feistel.RoundFn, window: nat, cells: seq<Cell>, arrived: seq<Arrival>)
    requires Encoded(cells) && Drawn(arrived, |cells|) && Spaced(f, window, cells, arrived) && arrived != []
    ensures Spaced(f, window, cells, arrived[..|arrived| - 1])
  {
    hide Feistel.Dec, Arrives;
    var init := arrived[..|arrived| - 1];
    forall j, k | 0 <= j < |init| && 0 <= k <= Feistel.Dec(f, cells[init[j].i].enc) - window
      ensures Arrives(f, cells, init[..j], k)
    {
      assert init[..j] == arrived[..j];
    }
  }

  /** If no cell runs ahead of the others by a window or more, the first `n` chunks are handed over exactly
      if the first `n` numbers arrive. */
  lemma DeliversIff(f: Feistel.RoundFn, window: nat, cells: seq<Cell>, sent: map<nat, Chunk>, arrived: seq<Arrival>,
          n: nat)
    requires Carries(f, cells, sent) && Drawn(arrived, |cells|) && Untimed(arrived) && Spaced(f, window, cells, arrived)
    ensures Run(f, window, cells, arrived).0.next >= n <==> forall k :: 0 <= k < n ==> Arrives(f, cells, arrived, k)
  {
    hide Run, Arrives, Spaced, InWindow, Small, Carried;
    SpacedInWindow(f, window, cells, sent, arrived);
    assert Encoded(cells);
    if forall k :: 0 <= k < n ==> Arrives(f, cells, arrived, k) {
      DeliversAll(f, window, cells, sent, arrived, n);
    }
    forall k | 0 <= k < n && k < Run(f, window, cells, arrived).0.next ensures Arrives(f, cells, arrived, k) {
      OnlyArrived(f, window, cells, arrived, k);
    }
  }

  /** When a number inside the window finds the buffer full, something buffered lies outside it. A
      safe receiver holds no such chunk, so "buffer full" is unreachable. */
  lemma FullMeansStale(rx: Rx, window: nat, q: nat)
    requires |rx.held| >= window && q !in rx.held && rx.next <= q < rx.next + window
    ensures exists k :: k in rx.held && !(rx.next <= k < rx.next + window)
  {
    var inside := rx.held.Keys * Counting.Between(rx.next, window);
    Counting.Subset(inside, Counting.Between(rx.next, window) - {q});
    assert inside != rx.held.Keys;
  }

  // ---- Runs with timeouts ----

  /** A timeout does not leave the receiver waiting for a lost number: once something was dropped, it expects
      the lowest number it still holds. */
  lemma ExpireSkips(rx: Rx, dead: set<nat>, k: nat, q: nat)
    requires (forall i :: i in rx.held ==> i > rx.next) && k in rx.held && k in dead
    requires q in rx.held && q !in dead && q != MAX_SEQ
    ensures var after := Expire(rx, dead);
            && after.held == rx.held - dead && after.next in after.held && after.next != MAX_SEQ
            && forall i :: i in after.held && i != MAX_SEQ ==> after.next <= i
  {
    var held := rx.held - dead;
    assert k !in held && q in held.Keys - {MAX_SEQ};
    assert held != rx.held;
    var m := Least(held.Keys - {MAX_SEQ});
    assert m in held && m > rx.next;
    forall i | i in held && i != MAX_SEQ ensures m <= i { assert i in held.Keys - {MAX_SEQ}; }
  }

  /** Handed-over numbers increase strictly, stay below `next`, and carry the right chunks. */
  ghost predicate Increasing(out: seq<Item>, sent: map<nat, Chunk>, next: nat) {
    && (forall i :: 0 <= i < |out| ==> out[i].q < next && out[i].q in sent && out[i].c == sent[out[i].q])
    && (forall i, j :: 0 <= i < j < |out| ==> out[i].q < out[j].q)
  }

  /** With timeouts chunks may be lost, but what is handed over is still in strictly increasing order
      and unaltered, even if the network repeats cells. */
  lemma {:induction false} TimedRunIncreases(f: Feistel.RoundFn, window: nat, cells: seq<Cell>,
          sent: map<nat, Chunk>, arrived: seq<Arrival>)
    requires Carries(f, cells, sent) && Drawn(arrived, |cells|)
    ensures var (rx, out) := Run(f, window, cells, arrived);
            Genuine(rx, sent) && Increasing(out, sent, rx.next)
  {
    hide Handle, Small, Carried;
    if arrived != [] {
      var init, a := arrived[..|arrived| - 1], arrived[|arrived| - 1];
      var (rx, out) := Run(f, window, cells, init);
      TimedRunIncreases(f, window, cells, sent, init);
      TimedStepIncreases(f, window, sent, rx, cells[a.i], a);
    }
  }

  lemma TimedStepIncreases(f: Feistel.RoundFn, window: nat, sent: map<nat, Chunk>, rx: Rx, cell: Cell, a: Arrival)
    requires Small(sent) && Carried(f, cell, sent) && Genuine(rx, sent)
    ensures var (rx', out) := Handle(f, rx, window, cell, a);
            Genuine(rx', sent) && rx.next <= rx'.next - |out| && Numbered(out, sent, rx'.next - |out|, rx'.next)
  {
    hide Step, Heard, Feistel.Dec, Expire;
    ExpireGenuine(rx, a.dead, sent);
    StepIncreases(window, sent, Expire(rx, a.dead), Feistel.Dec(f, cell.enc));
  }

  lemma StepIncreases(window: nat, sent: map<nat, Chunk>, rx: Rx, q: nat)
    requires Small(sent) && Genuine(rx, sent) && q in sent
    ensures var (rx', out) := Step(rx, window, q, sent[q]);
            Genuine(rx', sent) && Numbered(out, sent, rx.next, rx'.next)
  {
    hide Drain;
    var (rx1, v) := Accept(rx, window, q, sent[q]);
    if v == Deliver || v == Buffered { DrainIncreases(rx1, sent); }
  }

  lemma ExpireGenuine(rx: Rx, dead: set<nat>, sent: map<nat, Chunk>)
    requires Genuine(rx, sent)
    ensures Genuine(Expire(rx, dead), sent) && rx.next <= Expire(rx, dead).next
  {
  }

  // ---- The reorder buffer in place ----

  datatype Slot = Empty | Held(q: nat, c: Chunk, at: nat)

  ghost predicate Keeps(s: seq<Slot>, k: nat) {
    exists i :: 0 <= i < |s| && s[i].Held? && s[i].q == k
  }

  /** The slots hold exactly the bindings of `m`, one slot each. */
  ghost predicate Represents(s: seq<Slot>, m: map<nat, Chunk>) {
    && (forall i :: 0 <= i < |s| && s[i].Held? ==> s[i].q in m && m[s[i].q] == s[i].c)
    && (forall i, j :: 0 <= i < |s| && 0 <= j < |s| && s[i].Held? && s[j].Held? && s[i].q == s[j].q ==> i == j)
    && (forall k :: k in m ==> Keeps(s, k))
  }

  lemma Cleared(s: seq<Slot>, m: map<nat, Chunk>, i: nat)
    requires i < |s| && s[i].Held? && Represents(s, m)
    ensures Represents(s[i := Empty], m - {s[i].q})
  {
    var s' := s[i := Empty];
    forall k | k in m && k != s[i].q ensures Keeps(s', k) {
      assert Keeps(s, k);
      var j :| 0 <= j < |s| && s[j].Held? && s[j].q == k;
      assert s'[j] == s[j];
    }
  }

  lemma OneSlot(s: seq<Slot>, m: map<nat, Chunk>, i: nat)
    requires i < |s| && s[i].Held? && Represents(s, m)
    ensures s[i].q in m && forall j :: 0 <= j < |s| && s[j].Held? && j != i ==> s[j].q != s[i].q
  {
  }

  lemma Filled(s: seq<Slot>, m: map<nat, Chunk>, i: nat, q: nat, c: Chunk, at: nat)
    requires i < |s| && s[i].Empty? && Represents(s, m) && q !in m
    ensures Represents(s[i := Held(q, c, at)], m[q := c])
  {
    var s' := s[i := Held(q, c, at)];
    forall k | k in m[q := c] ensures Keeps(s', k) {
      if k == q {
        assert s'[i].q == k;
      } else {
        assert Keeps(s, k);
        var j :| 0 <= j < |s| && s[j].Held? && s[j].q == k;
        assert s'[j] == s[j];
      }
    }
  }

  lemma NoRoom(s: seq<Slot>, m: map<nat, Chunk>)
    requires Represents(s, m) && forall i :: 0 <= i < |s| ==> s[i].Held?
    ensures |s| <= |m|
  {
    Counting.Pigeonhole(seq(|s|, i requires 0 <= i < |s| => s[i].q), m.Keys);
  }

  /** `now - at` in 64-bit arithmetic. */
  function Elapsed(now: nat, at: nat): int {
    if now >= at then now - at else now - at + Feistel.LIMIT
  }

  /** It is the difference modulo the size of the clock, also when the clock went back. */
  lemma ElapsedIs(now: nat, at: nat)
    requires now < Feistel.LIMIT && at < Feistel.LIMIT
    ensures 0 <= Elapsed(now, at) < Feistel.LIMIT && (at + Elapsed(now, at)) % Feistel.LIMIT == now
  {
    if now < at { assert at + Elapsed(now, at) == now + Feistel.LIMIT; }
  }

  class Receiver {
    const f: Feistel.RoundFn
    const timeout: nat
    const reorder: array<Slot>
    var legs: seq<Leg>
    var next: nat
    ghost var held: map<nat, Chunk>

    ghost predicate Valid()
      reads this, reorder
    {
      && Represents(reorder[..], held) && next <= MAX_SEQ
      && (forall k :: k in held ==> k <= MAX_SEQ && |held[k].data| <= CHUNK_MAX)
    }

    ghost function State(): Rx
      reads this
    {
      Rx(next, held)
    }

    constructor (roundFn: Feistel.RoundFn, window: nat, expiry: nat, ls: seq<Leg>)
      ensures Valid() && fresh(reorder) && reorder.Length == window && State() == Rx(0, map[])
      ensures f == roundFn && legs == ls && timeout == if expiry > 0 then expiry else 10000
    {
      f, timeout, legs := roundFn, if expiry > 0 then expiry else 10000, ls;
      reorder := new Slot[window](_ => Empty);
      next, held := 0, map[];
    }

    /** The index of the slot that holds number `q`, `reorder.Length` if there is none. */
    method Find(q: nat) returns (i: nat)
      requires Valid()
      ensures i <= reorder.Length && (i < reorder.Length <==> q in held)
      ensures i < reorder.Length ==> reorder[i].Held? && reorder[i].q == q && reorder[i].c == held[q]
    {
      i := 0;
      while i < reorder.Length && !(reorder[i].Held? && reorder[i].q == q)
        invariant i <= reorder.Length
        invariant forall j :: 0 <= j < i ==> !(reorder[j].Held? && reorder[j].q == q)
      {
        i := i + 1;
      }
      if q in held { assert Keeps(reorder[..], q); }
    }

    /** The sweep of moor_conflux_receive over timed-out entries. */
    method Sweep(now: nat) returns (expired: bool, ghost dead: set<nat>)
      requires Valid()
      modifies reorder, `held
      ensures Valid() && held == old(held) - dead && dead <= old(held).Keys && expired == (dead != {})
      ensures forall i :: 0 <= i < reorder.Length && old(reorder[i]).Held? ==>
        (old(reorder[i]).q in dead <==> Elapsed(now, old(reorder[i]).at) > timeout)
    {
      hide Represents;
      expired, dead := false, {};
      ghost var s0 := reorder[..];
      for i := 0 to reorder.Length
        invariant Valid() && held == old(held) - dead && dead <= old(held).Keys && expired == (dead != {})
        invariant forall j :: i <= j < reorder.Length ==> reorder[j] == s0[j]
        invariant forall j :: 0 <= j < i && s0[j].Held? ==> (s0[j].q in dead <==> Elapsed(now, s0[j].at) > timeout)
        invariant forall j :: i <= j < reorder.Length && s0[j].Held? ==> s0[j].q !in dead
      {
        if reorder[i].Held? && Elapsed(now, reorder[i].at) > timeout {
          Cleared(reorder[..], held, i);
          OneSlot(s0, old(held), i);
          ghost var s := reorder[..];
          held, dead := held - {reorder[i].q}, dead + {reorder[i].q};
          reorder[i] := Empty;
          expired := true;
          assert reorder[..] == s[i := Empty];
        }
      }
    }

    /** The lowest buffered number below MAX_SEQ, MAX_SEQ if there is none. */
    method Lowest() returns (m: nat)
      requires Valid()
      ensures if held.Keys <= {MAX_SEQ} then m == MAX_SEQ
              else m < MAX_SEQ && m == Least(held.Keys - {MAX_SEQ})
    {
      m := MAX_SEQ;
      for i := 0 to reorder.Length
        invariant m <= MAX_SEQ && (m < MAX_SEQ ==> m in held)
        invariant forall j :: 0 <= j < i && reorder[j].Held? ==> m <= reorder[j].q
      {
        if reorder[i].Held? && reorder[i].q < m { m := reorder[i].q; }
      }
      forall k | k in held ensures m <= k { assert Keeps(reorder[..], k); }
      if !(held.Keys <= {MAX_SEQ}) {
        var l := Least(held.Keys - {MAX_SEQ});
        assert l in held && m <= l && m in held.Keys - {MAX_SEQ};
      }
    }

    /** The timeout part of moor_conflux_receive. */
    method Timeouts(now: nat) returns (ghost dead: set<nat>)
      requires Valid()
      modifies reorder, `held, `next
      ensures Valid() && State() == Expire(old(State()), dead)
      ensures forall i :: 0 <= i < reorder.Length && old(reorder[i]).Held? ==>
        (old(reorder[i]).q in dead <==> Elapsed(now, old(reorder[i]).at) > timeout)
    {
      var expired;
      expired, dead := Sweep(now);
      assert dead != {} ==> old(held) != held by {
        if dead != {} { var k :| k in dead; assert k in old(held) && k !in held; }
      }
      assert dead == {} ==> held == old(held);
      if expired {
        var i := Find(next);
        if i == reorder.Length {
          var m := Lowest();
          if m != MAX_SEQ && m > next { next := m; }
        }
      }
    }

    /** moor_conflux_receive. `from == 0` is no circuit. */
    method Receive(from: nat, enc: nat, c: Chunk, now: nat) returns (v: Verdict, ghost dead: set<nat>)
      requires Valid() && enc < Feistel.LIMIT
      modifies reorder, `held, `next
      ensures Valid()
      ensures forall i :: 0 <= i < reorder.Length && old(reorder[i]).Held? ==>
        (old(reorder[i]).q in dead <==> Elapsed(now, old(reorder[i]).at) > timeout)
      ensures var rx, q := Expire(old(State()), dead), Feistel.Dec(f, enc);
        if from != 0 && Leg(from, true) !in legs then v == UnknownLeg && State() == rx
        else if v == Full then State() == rx && |rx.held| >= reorder.Length &&
          rx.next < q < rx.next + reorder.Length && q !in rx.held
        else (State(), v) == Accept(rx, reorder.Length, q, c)
    {
      hide Expire, Represents;
      var q := Feistel.Decrypt(f, enc);
      dead := Timeouts(now);
      if from != 0 {
        var i := 0;
        while i < |legs| && legs[i] != Leg(from, true)
          invariant 0 <= i <= |legs| && Leg(from, true) !in legs[..i]
        {
          i := i + 1;
        }
        if i == |legs| { return UnknownLeg, dead; }
      }
      if q == next {
        if next == MAX_SEQ { return Exhausted, dead; }
        next := next + 1;
        return Deliver, dead;
      }
      if q < next { return Duplicate, dead; }
      if q - next >= reorder.Length { return TooFar, dead; }
      v := Put(q, c, now);
    }

    /** The end of moor_conflux_receive: buffer an out-of-order chunk. */
    method Put(q: nat, c: Chunk, now: nat) returns (v: Verdict)
      requires Valid() && q <= MAX_SEQ && next < q < next + reorder.Length
      modifies reorder, `held
      ensures Valid()
      ensures if v == Full then held == old(held) && |held| >= reorder.Length && q !in held
              else (State(), v) == Accept(old(State()), reorder.Length, q, c)
    {
      var d := Find(q);
      if d < reorder.Length { return Duplicate; }
      for i := 0 to reorder.Length
        invariant Valid() && unchanged(reorder) && held == old(held)
        invariant forall j :: 0 <= j < i ==> reorder[j].Held?
      {
        if reorder[i].Empty? {
          if |c.data| > CHUNK_MAX { return Oversized; }
          Filled(reorder[..], held, i, q, c, now);
          ghost var s := reorder[..];
          reorder[i] := Held(q, c, now);
          held := held[q := c];
          assert reorder[..] == s[i := Held(q, c, now)];
          return Buffered;
        }
      }
      NoRoom(reorder[..], held);
      return Full;
    }

    /** moor_conflux_deliver: 1 with the next chunk, 0 if it is missing or does not fit, -1 at the
        end of the number space. */
    method DeliverNext(limit: nat) returns (r: int, c: Chunk)
      requires Valid()
      modifies reorder, `held, `next
      ensures Valid()
      ensures if old(next in held && |held[next].data| <= limit) then
                held == old(held) - {old(next)} && (if old(next) == MAX_SEQ then r == -1 && next == old(next)
                else r == 1 && c == old(held)[old(next)] && next == old(next) + 1)
              else r == 0 && State() == old(State())
    {
      c := Chunk(0, []);
      var i := Find(next);
      if i == reorder.Length || |reorder[i].c.data| > limit { return 0, c; }
      c := reorder[i].c;
      Cleared(reorder[..], held, i);
      ghost var s := reorder[..];
      reorder[i] := Empty;
      held := held - {next};
      assert reorder[..] == s[i := Empty];
      if next == MAX_SEQ { return -1, c; }
      next := next + 1;
      return 1, c;
    }

    /** The handling of a data cell (src/socks5.c): receive, hand over, drain. */
    method OnCell(from: nat, enc: nat, c: Chunk, now: nat) returns (out: seq<Item>, v: Verdict, ghost dead: set<nat>)
      requires Valid() && enc < Feistel.LIMIT
      modifies reorder, `held, `next
      ensures Valid()
      ensures forall i :: 0 <= i < reorder.Length && old(reorder[i]).Held? ==>
        (old(reorder[i]).q in dead <==> Elapsed(now, old(reorder[i]).at) > timeout)
      ensures v != Full ==>
        (State(), out) == Handle(f, old(State()), reorder.Length, Cell(0, enc, c), Arrival(0, from, legs, dead))
      ensures var rx := Expire(old(State()), dead);
        (forall k :: k in rx.held ==> rx.next <= k < rx.next + reorder.Length) ==> v != Full
    {
      hide Expire, Represents, Drain, Feistel.Dec;
      v, dead := Receive(from, enc, c, now);
      out := [];
      if v == Full { FullMeansStale(State(), reorder.Length, Feistel.Dec(f, enc)); }
      if v != Deliver && v != Buffered { return; }
      if v == Deliver { out := [Item(next - 1, c)]; }
      var more := DrainAll();
      out := out + more;
    }

    /** The drain loop of src/socks5.c. */
    method DrainAll() returns (out: seq<Item>)
      requires Valid()
      modifies reorder, `held, `next
      ensures Valid() && (State(), out) == Drain(old(State()))
    {
      hide Represents, Drain;
      out := [];
      ghost var end := Drain(State());
      ghost var rest := end.1;
      while true
        invariant Valid() && Drain(State()) == (end.0, rest) && out + rest == end.1
        decreases |rest|
      {
        ghost var rx := State();
        var r, d := DeliverNext(CHUNK_MAX + 8);
        if r != 1 {
          DrainEnd(rx);
          assert out + rest == out;
          break;
        }
        DrainOnce(rx);
        out, rest := out + [Item(next - 1, d)], rest[1..];
      }
    }
  }

  lemma DrainEnd(rx: Rx)
    requires rx.next in rx.held ==> rx.next == MAX_SEQ
    ensures Drain(rx) == (if rx.next in rx.held then rx.(held := rx.held - {rx.next}) else rx, [])
  {
  }

  lemma DrainOnce(rx: Rx)
    requires rx.next in rx.held && rx.next < MAX_SEQ
    ensures var (rx', out) := Drain(rx);
            && |out| > 0 && out[0] == Item(rx.next, rx.held[rx.next])
            && Drain(Rx(rx.next + 1, rx.held - {rx.next})) == (rx', out[1..])
  {
  }

  // ---- The sender ----

  /** The cut of a stream of bytes into chunks of at most CHUNK_MAX bytes. */
  function Chunks(stream: nat, data: seq<Byte>): seq<Chunk>
    decreases |data|
  {
    if data == [] then []
    else if |data| <= CHUNK_MAX then [Chunk(stream, data)]
    else [Chunk(stream, data[..CHUNK_MAX])] + Chunks(stream, data[CHUNK_MAX..])
  }

  function Payload(chunks: seq<Chunk>): seq<Byte> {
    if chunks == [] then [] else chunks[0].data + Payload(chunks[1..])
  }

  /** Cutting loses and adds nothing; every chunk fits a cell, and all but the last fill one. */
  lemma {:induction false} ChunksKeepBytes(stream: nat, data: seq<Byte>)
    ensures Payload(Chunks(stream, data)) == data
    ensures forall i :: 0 <= i < |Chunks(stream, data)| ==> 0 < |Chunks(stream, data)[i].data| <= CHUNK_MAX
    ensures forall i :: 0 <= i < |Chunks(stream, data)| ==> Chunks(stream, data)[i].stream == stream
    ensures forall i :: 0 <= i < |Chunks(stream, data)| - 1 ==> |Chunks(stream, data)[i].data| == CHUNK_MAX
    decreases |data|
  {
    if data != [] && |data| > CHUNK_MAX {
      ChunksKeepBytes(stream, data[CHUNK_MAX..]);
      assert Chunks(stream, data)[1..] == Chunks(stream, data[CHUNK_MAX..]);
    } else if data != [] {
      assert Chunks(stream, data)[1..] == [];
    }
  }

  /** moor_conflux_send_data on chunks, from number `next` on: the number it ends with and the cells
      sent. `leg` is the choice made for each number, -1 for none; `link` tells whether the leg takes the
      cell. A refused cell uses up its number. */
  function SendChunks(f: Feistel.RoundFn, next: nat, chunks: seq<Chunk>, leg: nat -> int, link: nat -> bool)
    : (r: (nat, seq<Cell>))
    requires next <= MAX_SEQ
    ensures Encoded(r.1)
    decreases |chunks|
  {
    if chunks == [] || leg(next) < 0 || next == MAX_SEQ then (next, [])
    else if !link(next) then (next + 1, [])
    else
      var (n, more) := SendChunks(f, next + 1, chunks[1..], leg, link);
      (n, [Cell(leg(next), Feistel.Enc(f, next), chunks[0])] + more)
  }

  class Sender {
    const f: Feistel.RoundFn
    var next: nat

    constructor (roundFn: Feistel.RoundFn)
      ensures f == roundFn && next == 0
    {
      f, next := roundFn, 0;
    }

    /** moor_conflux_send_data. */
    method SendData(stream: nat, data: seq<Byte>, leg: nat -> int, link: nat -> bool)
      returns (ok: bool, cells: seq<Cell>)
      requires next <= MAX_SEQ
      modifies this
      ensures next <= MAX_SEQ && |cells| <= |Chunks(stream, data)| && (ok <==> |cells| == |Chunks(stream, data)|)
      ensures (next, cells) == SendChunks(f, old(next), Chunks(stream, data), leg, link)
    {
      hide Chunks, SendChunks, Feistel.Enc;
      cells := [];
      var offset := 0;
      ghost var all := Chunks(stream, data);
      ghost var goal, rest := SendChunks(f, next, all, leg, link), all;
      assert data[0..] == data && [] + goal.1 == goal.1;
      while offset < |data|
        invariant 0 <= offset <= |data| && next <= MAX_SEQ && |cells| + |rest| == |all|
        invariant rest == Chunks(stream, data[offset..])
        invariant var (n, more) := SendChunks(f, next, rest, leg, link); goal == (n, cells + more)
      {
        FirstChunk(stream, data, offset);
        SendFirst(f, next, rest, leg, link, cells);
        var l := leg(next);
        if l < 0 { return false, cells; }
        var chunk := |data| - offset;
        if chunk > CHUNK_MAX { chunk := CHUNK_MAX; }
        if next == MAX_SEQ { return false, cells; }
        var q := next;
        next := next + 1;
        var enc := Feistel.Encrypt(f, q);
        if !link(q) { return false, cells; }
        cells := cells + [Cell(l, enc, Chunk(stream, data[offset..offset + chunk]))];
        rest := rest[1..];
        offset := offset + chunk;
      }
      NoChunks(stream, data[offset..]);
      SendNone(f, next, leg, link);
      assert cells + [] == cells;
      return true, cells;
    }
  }

  lemma NoChunks(stream: nat, data: seq<Byte>)
    requires data == []
    ensures Chunks(stream, data) == []
  {
  }

  lemma FirstChunk(stream: nat, data: seq<Byte>, offset: nat)
    requires offset < |data|
    ensures var n := if |data| - offset > CHUNK_MAX then CHUNK_MAX else |data| - offset;
            Chunks(stream, data[offset..]) == [Chunk(stream, data[offset..offset + n])]
              + Chunks(stream, data[offset + n..])
  {
    var rest := data[offset..];
    var n := if |rest| > CHUNK_MAX then CHUNK_MAX else |rest|;
    assert rest[..n] == data[offset..offset + n] && rest[n..] == data[offset + n..];
    if |rest| <= CHUNK_MAX {
      assert rest[..n] == rest && Chunks(stream, data[offset + n..]) == [];
      assert Chunks(stream, rest) == [Chunk(stream, rest)] + [];
    }
  }

  lemma SendNone(f: Feistel.RoundFn, next: nat, leg: nat -> int, link: nat -> bool)
    requires next <= MAX_SEQ
    ensures SendChunks(f, next, [], leg, link) == (next, [])
  {
  }

  lemma SendFirst(f: Feistel.RoundFn, next: nat, chunks: seq<Chunk>, leg: nat -> int, link: nat -> bool,
          done: seq<Cell>)
    requires next <= MAX_SEQ && chunks != []
    ensures var (n, more) := SendChunks(f, next, chunks, leg, link);
            if leg(next) < 0 || next == MAX_SEQ then (n, done + more) == (next, done)
            else if !link(next) then (n, done + more) == (next + 1, done)
            else var (m, rest) := SendChunks(f, next + 1, chunks[1..], leg, link);
                 (n, done + more) == (m, done + [Cell(leg(next), Feistel.Enc(f, next), chunks[0])] + rest)
  {
    hide Feistel.Enc;
    assert done + [] == done;
    if leg(next) >= 0 && next < MAX_SEQ && link(next) {
      var cell := Cell(leg(next), Feistel.Enc(f, next), chunks[0]);
      var rest := SendChunks(f, next + 1, chunks[1..], leg, link).1;
      assert done + ([cell] + rest) == done + [cell] + rest;
    }
  }

  // ---- From end to end ----

  datatype Call = Call(stream: nat, data: seq<Byte>, leg: nat -> int, link: nat -> bool)

  /** The calls to moor_conflux_send_data on one sender: the number it ends with and the cells sent. */
  function Sends(f: Feistel.RoundFn, calls: seq<Call>): (r: (nat, seq<Cell>))
    ensures r.0 <= MAX_SEQ && Encoded(r.1)
  {
    if calls == [] then (0, [])
    else
      var (next, cells) := Sends(f, calls[..|calls| - 1]);
      var call := calls[|calls| - 1];
      var (n, more) := SendChunks(f, next, Chunks(call.stream, call.data), call.leg, call.link);
      SendUp(f, next, Chunks(call.stream, call.data), call.leg, call.link);
      (n, cells + more)
  }

  lemma {:induction false} SendUp(f: Feistel.RoundFn, next: nat, chunks: seq<Chunk>, leg: nat -> int, link: nat -> bool)
    requires next <= MAX_SEQ
    ensures next <= SendChunks(f, next, chunks, leg, link).0 <= MAX_SEQ
    decreases |chunks|
  {
    if chunks != [] && next < MAX_SEQ { SendUp(f, next + 1, chunks[1..], leg, link); }
  }

  /** The chunk that each number was sent with. */
  function SentBy(f: Feistel.RoundFn, cells: seq<Cell>): map<nat, Chunk>
    requires Encoded(cells)
  {
    if cells == [] then map[]
    else
      var last := cells[|cells| - 1];
      SentBy(f, cells[..|cells| - 1])[Feistel.Dec(f, last.enc) := last.c]
  }

  /** The cells carry increasing numbers from `lo` to `hi`, and chunks that fit. */
  ghost predicate Wired(f: Feistel.RoundFn, cells: seq<Cell>, lo: nat, hi: nat) {
    && Encoded(cells) && hi <= MAX_SEQ
    && (forall i :: 0 <= i < |cells| ==> lo <= Feistel.Dec(f, cells[i].enc) < hi && |cells[i].c.data| <= CHUNK_MAX)
    && (forall i, j :: 0 <= i < j < |cells| ==> Feistel.Dec(f, cells[i].enc) < Feistel.Dec(f, cells[j].enc))
  }

  lemma {:induction false} ChunksWired(f: Feistel.RoundFn, next: nat, chunks: seq<Chunk>, leg: nat -> int,
          link: nat -> bool)
    requires next <= MAX_SEQ && forall i :: 0 <= i < |chunks| ==> |chunks[i].data| <= CHUNK_MAX
    ensures var (n, cells) := SendChunks(f, next, chunks, leg, link);
            next <= n && Wired(f, cells, next, n)
    decreases |chunks|
  {
    hide Feistel.Enc, Feistel.Dec;
    if chunks != [] && leg(next) >= 0 && next < MAX_SEQ && link(next) {
      ChunksWired(f, next + 1, chunks[1..], leg, link);
      Feistel.Inverse(f, next);
      WiredJoins(f, [Cell(leg(next), Feistel.Enc(f, next), chunks[0])], next, next + 1,
                 SendChunks(f, next + 1, chunks[1..], leg, link).1, SendChunks(f, next, chunks, leg, link).0);
    }
  }

  lemma WiredJoins(f: Feistel.RoundFn, a: seq<Cell>, lo: nat, mid: nat, b: seq<Cell>, hi: nat)
    requires Wired(f, a, lo, mid) && Wired(f, b, mid, hi) && lo <= mid <= hi
    ensures Wired(f, a + b, lo, hi)
  {
    hide Feistel.Dec;
  }

  lemma {:induction false} SendsWired(f: Feistel.RoundFn, calls: seq<Call>)
    ensures Wired(f, Sends(f, calls).1, 0, Sends(f, calls).0)
  {
    hide Wired, SendChunks, Chunks;
    if calls == [] {
      WiredNone(f);
    } else {
      var (next, cells) := Sends(f, calls[..|calls| - 1]);
      var call := calls[|calls| - 1];
      var chunks := Chunks(call.stream, call.data);
      SendsWired(f, calls[..|calls| - 1]);
      ChunksKeepBytes(call.stream, call.data);
      ChunksWired(f, next, chunks, call.leg, call.link);
      var (n, more) := SendChunks(f, next, chunks, call.leg, call.link);
      WiredJoins(f, cells, 0, next, more, n);
    }
  }

  lemma WiredNone(f: Feistel.RoundFn)
    ensures Wired(f, [], 0, 0)
  {
  }

  lemma {:induction false} WiredCarries(f: Feistel.RoundFn, cells: seq<Cell>, hi: nat)
    requires Wired(f, cells, 0, hi)
    ensures Carries(f, cells, SentBy(f, cells)) && forall k :: k in SentBy(f, cells) ==> k < hi
    decreases |cells|
  {
    hide Feistel.Dec;
    if cells != [] {
      var n := |cells| - 1;
      var q := Feistel.Dec(f, cells[n].enc);
      WiredCarries(f, cells[..n], q);
      forall i | 0 <= i < |cells| ensures Carried(f, cells[i], SentBy(f, cells)) {
        if i < n { assert Carried(f, cells[..n][i], SentBy(f, cells[..n])); }
      }
    }
  }

  /** The receiver has a free slot for every number it would buffer. */
  ghost predicate NeverFull(rx: Rx, window: nat) {
    forall q :: rx.next < q < rx.next + window && q !in rx.held ==> |rx.held| < window
  }

  lemma SafeNeverFull(rx: Rx, window: nat, sent: map<nat, Chunk>)
    requires Safe(rx, window, sent)
    ensures NeverFull(rx, window)
  {
    forall q | rx.next < q < rx.next + window && q !in rx.held ensures |rx.held| < window {
      if |rx.held| >= window { FullMeansStale(rx, window, q); }
    }
  }

  /** For all calls on one sender and all arrivals of its cells, repeated, reordered, lost, from any
      circuit, at a receiver with the same round function, without timeouts: what is handed over is a
      prefix of what was sent, by number; the buffer is never full; and nothing beyond the number of a
      refused cell is ever handed over. */
  lemma EndToEnd(f: Feistel.RoundFn, calls: seq<Call>, window: nat, arrived: seq<Arrival>)
    requires Drawn(arrived, |Sends(f, calls).1|) && Untimed(arrived)
    ensures var (next, cells) := Sends(f, calls);
            var sent := SentBy(f, cells);
            var (rx, out) := Run(f, window, cells, arrived);
            && Carries(f, cells, sent) && Numbered(out, sent, 0, rx.next) && rx.next <= next && NeverFull(rx, window)
            && forall q :: 0 <= q < next && q !in sent ==> rx.next <= q
  {
    hide Run, Sends, SentBy;
    var (next, cells) := Sends(f, calls);
    var sent := SentBy(f, cells);
    SendsWired(f, calls);
    WiredCarries(f, cells, next);
    DeliversPrefix(f, window, cells, sent, arrived);
    var rx := Run(f, window, cells, arrived).0;
    SafeNeverFull(rx, window, sent);
    assert rx.next > next ==> next in sent;
  }

  // ---- The bytes ----

  function AllChunks(calls: seq<Call>): seq<Chunk> {
    if calls == [] then []
    else AllChunks(calls[..|calls| - 1]) + Chunks(calls[|calls| - 1].stream, calls[|calls| - 1].data)
  }

  function AllData(calls: seq<Call>): seq<Byte> {
    if calls == [] then [] else AllData(calls[..|calls| - 1]) + calls[|calls| - 1].data
  }

  function Contents(out: seq<Item>): (r: seq<Chunk>)
    ensures |r| == |out| && forall i :: 0 <= i < |out| ==> r[i] == out[i].c
  {
    seq(|out|, i requires 0 <= i < |out| => out[i].c)
  }

  lemma {:induction false} PayloadJoins(a: seq<Chunk>, b: seq<Chunk>)
    ensures Payload(a + b) == Payload(a) + Payload(b)
  {
    if a == [] {
      assert a + b == b;
    } else {
      assert (a + b)[1..] == a[1..] + b;
      PayloadJoins(a[1..], b);
    }
  }

  lemma {:induction false} AllBytes(calls: seq<Call>)
    ensures Payload(AllChunks(calls)) == AllData(calls)
  {
    if calls != [] {
      var init, call := calls[..|calls| - 1], calls[|calls| - 1];
      AllBytes(init);
      PayloadJoins(AllChunks(init), Chunks(call.stream, call.data));
      ChunksKeepBytes(call.stream, call.data);
    }
  }

  /** The cells carry `chunks` under the numbers from `lo` on. */
  ghost predicate Aligned(f: Feistel.RoundFn, cells: seq<Cell>, chunks: seq<Chunk>, lo: nat) {
    && |cells| == |chunks| && Encoded(cells)
    && forall i :: 0 <= i < |cells| ==> Feistel.Dec(f, cells[i].enc) == lo + i && cells[i].c == chunks[i]
  }

  lemma {:induction false} ChunksAligned(f: Feistel.RoundFn, next: nat, chunks: seq<Chunk>, leg: nat -> int,
          link: nat -> bool)
    requires next <= MAX_SEQ
    ensures var (n, cells) := SendChunks(f, next, chunks, leg, link);
            |cells| <= |chunks| && (|cells| == |chunks| ==> n == next + |cells| && Aligned(f, cells, chunks, next))
    decreases |chunks|
  {
    hide Feistel.Enc, Feistel.Dec;
    if chunks != [] && leg(next) >= 0 && next < MAX_SEQ && link(next) {
      ChunksAligned(f, next + 1, chunks[1..], leg, link);
      Feistel.Inverse(f, next);
    }
  }

  /** If every call sends all its chunks, the numbers are those of the chunks in the stream. */
  lemma {:induction false} SendsAligned(f: Feistel.RoundFn, calls: seq<Call>)
    ensures var (next, cells) := Sends(f, calls);
            && |cells| <= |AllChunks(calls)|
            && (|cells| == |AllChunks(calls)| ==> next == |cells| && Aligned(f, cells, AllChunks(calls), 0))
  {
    hide SendChunks, Chunks, Feistel.Dec;
    if calls != [] {
      var (next, cells) := Sends(f, calls[..|calls| - 1]);
      var call := calls[|calls| - 1];
      SendsAligned(f, calls[..|calls| - 1]);
      ChunksAligned(f, next, Chunks(call.stream, call.data), call.leg, call.link);
    }
  }

  lemma HandedOver(f: Feistel.RoundFn, cells: seq<Cell>, chunks: seq<Chunk>, sent: map<nat, Chunk>, out: seq<Item>,
          n: nat)
    requires Aligned(f, cells, chunks, 0) && Carries(f, cells, sent) && Numbered(out, sent, 0, n) && n <= |cells|
    ensures Contents(out) == chunks[..n]
  {
    hide Feistel.Dec;
    forall i | 0 <= i < n ensures out[i].c == chunks[i] {
      assert Carried(f, cells[i], sent);
    }
  }

  /** The bytes handed over are a prefix of the bytes given to the sender if every call succeeds, and all
      of them once the last number was handed over. */
  lemma BytesEndToEnd(f: Feistel.RoundFn, calls: seq<Call>, window: nat, arrived: seq<Arrival>)
    requires Drawn(arrived, |Sends(f, calls).1|) && Untimed(arrived)
    requires |Sends(f, calls).1| == |AllChunks(calls)|
    ensures var (next, cells) := Sends(f, calls);
            var (rx, out) := Run(f, window, cells, arrived);
            Payload(Contents(out)) <= AllData(calls) && (rx.next == next ==> Payload(Contents(out)) == AllData(calls))
  {
    hide Run, Sends, SentBy, Payload, NeverFull, AllData, AllChunks;
    var (next, cells) := Sends(f, calls);
    var all, sent := AllChunks(calls), SentBy(f, cells);
    var (rx, out) := Run(f, window, cells, arrived);
    EndToEnd(f, calls, window, arrived);
    SendsAligned(f, calls);
    HandedOver(f, cells, all, sent, out, rx.next);
    AllBytes(calls);
    PayloadJoins(all[..rx.next], all[rx.next..]);
    assert all[..rx.next] + all[rx.next..] == all;
    assert rx.next == next ==> all[..rx.next] == all;
  }

  /** Every cell went over the leg chosen for its number, and that leg took it. */
  ghost predicate OnChosenLegs(f: Feistel.RoundFn, cells: seq<Cell>, leg: nat -> int, link: nat -> bool)
    requires Encoded(cells)
  {
    forall i :: 0 <= i < |cells| ==>
      cells[i].leg == leg(Feistel.Dec(f, cells[i].enc)) && link(Feistel.Dec(f, cells[i].enc))
  }

  lemma {:induction false} LegsChosen(f: Feistel.RoundFn, next: nat, chunks: seq<Chunk>, leg: nat -> int,
          link: nat -> bool)
    requires next <= MAX_SEQ
    ensures OnChosenLegs(f, SendChunks(f, next, chunks, leg, link).1, leg, link)
    decreases |chunks|
  {
    hide Feistel.Enc, Feistel.Dec;
    if chunks != [] && leg(next) >= 0 && next < MAX_SEQ && link(next) {
      LegsChosen(f, next + 1, chunks[1..], leg, link);
      Feistel.Inverse(f, next);
      OneMoreCell(f, Cell(leg(next), Feistel.Enc(f, next), chunks[0]),
                  SendChunks(f, next + 1, chunks[1..], leg, link).1, leg, link);
    }
  }

  lemma OneMoreCell(f: Feistel.RoundFn, cell: Cell, cells: seq<Cell>, leg: nat -> int, link: nat -> bool)
    requires Encoded([cell] + cells) && Encoded(cells) && OnChosenLegs(f, cells, leg, link) && cell.enc < Feistel.LIMIT
    requires cell.leg == leg(Feistel.Dec(f, cell.enc)) && link(Feistel.Dec(f, cell.enc))
    ensures OnChosenLegs(f, [cell] + cells, leg, link)
  {
    hide Feistel.Dec;
  }
}
