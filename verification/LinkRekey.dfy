/** The implicit key ratchet of a link in src/connection.c. Keys are derived by an arbitrary function
    of chain key and epoch; sealing is ideal: a record opens under its own key and nonce only. */
module LinkRekey {
  import opened Bytes
  import opened Options

  const RECORDS := 0x8000_0000
  const INTERVAL := 1800000
  const MAX_NONCE := 0xFFFF_FFFF_FFFF_FFFF

  type Key = seq<Byte>
  type Text = seq<Byte>
  type Kdf = (Key, nat) -> Key

  datatype Record = Sealed(key: Key, nonce: nat, text: Text)

  /** One direction of a link at one end. */
  datatype Side = Side(key: Key, chain: Key, prev: Option<Key>, clock: Clock, nonce: nat)

  /** What decides when to rotate. */
  datatype Clock = Clock(epoch: nat, records: nat, start: nat)

  // ---- The ratchet ----

  /** The key of an epoch: a function of its number alone. */
  function KeyOf(kdf: Kdf, first: Key, epoch: nat): Key {
    if epoch == 0 then first else kdf(KeyOf(kdf, first, epoch - 1), epoch)
  }

  /** The epoch number goes into the derivation of every key but the first. */
  lemma KeyUsesEpoch(kdf: Kdf, first: Key, epoch: nat, tag: nat -> Key)
    requires (forall k, e :: kdf(k, e) == tag(e)) && epoch > 0
    ensures KeyOf(kdf, first, epoch) == tag(epoch)
  {
  }

  /** The derivation of the key after epoch `e` does not collide. */
  predicate StepApart(kdf: Kdf, first: Key, first': Key, e: nat) {
    var k, l := KeyOf(kdf, first, e), KeyOf(kdf, first', e);
    kdf(k, e + 1) == kdf(l, e + 1) ==> k == l
  }

  /** So does the key before it: two chains meet only in a collision. */
  lemma {:induction false} KeyUsesChain(kdf: Kdf, first: Key, first': Key, epoch: nat)
    requires forall e :: 0 <= e < epoch ==> StepApart(kdf, first, first', e)
    requires KeyOf(kdf, first, epoch) == KeyOf(kdf, first', epoch)
    ensures first == first'
  {
    if epoch > 0 {
      assert StepApart(kdf, first, first', epoch - 1);
      KeyUsesChain(kdf, first, first', epoch - 1);
    }
  }

  function Elapsed(now: nat, start: nat): nat {
    if now >= start then now - start else 0
  }

  predicate Due(c: Clock, now: nat) {
    c.records >= RECORDS || Elapsed(now, c.start) >= INTERVAL
  }

  /** A clock set back does not rotate a key early, and a full count rotates it whatever the clock says. */
  lemma DueIff(c: Clock, now: nat)
    ensures now < c.start + INTERVAL && c.records < RECORDS ==> !Due(c, now)
    ensures now >= c.start + INTERVAL || c.records >= RECORDS ==> Due(c, now)
  {
  }

  function Tick(c: Clock, now: nat): Clock {
    if Due(c, now) then Clock(c.epoch + 1, 0, now) else c
  }

  /** A new key serves a full count of records, or a full interval from the moment it was made. */
  lemma TickRests(c: Clock, now: nat, later: nat, n: nat)
    requires Due(c, now) && now <= later
    ensures var t := Tick(c, now);
            && t.epoch == c.epoch + 1
            && (Due(t.(records := t.records + n), later) <==> n >= RECORDS || later >= now + INTERVAL)
  {
  }

  function Counted(c: Clock): Clock {
    c.(records := c.records + 1)
  }

  function Rotated(kdf: Kdf, s: Side, now: nat): Side {
    if Due(s.clock, now) then
      var k := kdf(s.chain, s.clock.epoch + 1);
      Side(k, k, Some(s.key), Tick(s.clock, now), s.nonce)
    else s
  }

  function Fresh(first: Key, now: nat, nonce: nat): Side {
    Side(first, first, None, Clock(0, 0, now), nonce)
  }

  /** All keys held are those of the epoch, whenever the rotations happened. */
  ghost predicate Ratcheted(kdf: Kdf, first: Key, s: Side) {
    && s.key == s.chain == KeyOf(kdf, first, s.clock.epoch)
    && s.prev == if s.clock.epoch == 0 then None else Some(KeyOf(kdf, first, s.clock.epoch - 1))
  }

  // ---- One record ----

  function Sent(kdf: Kdf, s: Side, now: nat, text: Text): (Side, Record) {
    var r := Rotated(kdf, s, now);
    (r.(nonce := r.nonce + 1, clock := Counted(r.clock)), Sealed(r.key, r.nonce, text))
  }

  predicate Opens(key: Key, nonce: nat, rec: Record) {
    rec.key == key && rec.nonce == nonce
  }

  function Got(kdf: Kdf, s: Side, now: nat, rec: Record): (Side, Option<Text>) {
    var r := Rotated(kdf, s, now);
    if Opens(r.key, r.nonce, rec) || (r.prev.Some? && Opens(r.prev.value, r.nonce, rec)) then
      (r.(nonce := r.nonce + 1, clock := Counted(r.clock)), Some(rec.text))
    else (r, None)
  }

  /** No two epochs up to `top` share a key. */
  ghost predicate Unlike(kdf: Kdf, first: Key, top: nat) {
    forall a: nat, b: nat :: a <= top && b <= top && KeyOf(kdf, first, a) == KeyOf(kdf, first, b) ==> a == b
  }

  /** With the nonces in step, the receiver accepts a record if and only if, after its own rotation,
      its epoch is the record's or exactly one ahead. A receiver that is behind refuses. */
  lemma AcceptsIff(kdf: Kdf, first: Key, s: Side, now: nat, epoch: nat, text: Text, top: nat)
    requires Unlike(kdf, first, top) && epoch <= top && Tick(s.clock, now).epoch <= top && Ratcheted(kdf, first, s)
    ensures var r := Got(kdf, s, now, Sealed(KeyOf(kdf, first, epoch), s.nonce, text)).1;
            var e := Tick(s.clock, now).epoch;
            && (r == Some(text) <==> e == epoch || e == epoch + 1) && (r == None <==> !(e == epoch || e == epoch + 1))
  {
    var e := Tick(s.clock, now).epoch;
    assert KeyOf(kdf, first, e) == KeyOf(kdf, first, epoch) ==> e == epoch;
    if e > 0 { assert KeyOf(kdf, first, e - 1) == KeyOf(kdf, first, epoch) ==> e - 1 == epoch; }
  }

  /** An accepted record advances nonce and clock; a refused one only the clock, by its rotation. */
  lemma GotKeeps(kdf: Kdf, first: Key, s: Side, now: nat, rec: Record)
    requires Ratcheted(kdf, first, s)
    ensures var (s', r) := Got(kdf, s, now, rec);
            && Ratcheted(kdf, first, s')
            && (r.Some? ==> s'.nonce == s.nonce + 1 && s'.clock == Counted(Tick(s.clock, now)))
            && (r.None? ==> s'.nonce == s.nonce) && (rec.nonce != s.nonce ==> r.None?)
  {
    hide KeyOf;
    RotatedKeeps(kdf, first, s, now);
  }

  lemma SentKeeps(kdf: Kdf, first: Key, s: Side, now: nat, text: Text)
    requires Ratcheted(kdf, first, s)
    ensures var (s', rec) := Sent(kdf, s, now, text);
            && Ratcheted(kdf, first, s') && s'.nonce == s.nonce + 1 && s'.clock == Counted(Tick(s.clock, now))
            && rec == Sealed(KeyOf(kdf, first, Tick(s.clock, now).epoch), s.nonce, text)
  {
    hide KeyOf;
    RotatedKeeps(kdf, first, s, now);
  }

  lemma RotatedKeeps(kdf: Kdf, first: Key, s: Side, now: nat)
    requires Ratcheted(kdf, first, s)
    ensures Ratcheted(kdf, first, Rotated(kdf, s, now)) && Rotated(kdf, s, now).clock == Tick(s.clock, now)
  {
  }

  class Connection {
    const kdf: Kdf
    var sendKey: Key
    var sendChain: Key
    var sendPrev: Option<Key>
    var sendEpoch: nat
    var sendRecords: nat
    var sendStart: nat
    var sendNonce: nat
    var recvKey: Key
    var recvChain: Key
    var recvPrev: Option<Key>
    var recvEpoch: nat
    var recvRecords: nat
    var recvStart: nat
    var recvNonce: nat
    var open: bool
    ghost const firstSend: Key
    ghost const firstRecv: Key

    ghost function Sending(): Side
      reads this
    {
      Side(sendKey, sendChain, sendPrev, Clock(sendEpoch, sendRecords, sendStart), sendNonce)
    }

    ghost function Receiving(): Side
      reads this
    {
      Side(recvKey, recvChain, recvPrev, Clock(recvEpoch, recvRecords, recvStart), recvNonce)
    }

    ghost predicate Valid()
      reads this
    {
      Ratcheted(kdf, firstSend, Sending()) && Ratcheted(kdf, firstRecv, Receiving())
    }

    /** moor_link_rekey_init, on the keys and nonces the handshake left. */
    constructor (derive: Kdf, send: Key, recv: Key, nonceOut: nat, nonceIn: nat, now: nat)
      ensures Valid() && open && kdf == derive && firstSend == send && firstRecv == recv
      ensures Sending() == Fresh(send, now, nonceOut) && Receiving() == Fresh(recv, now, nonceIn)
    {
      kdf, firstSend, firstRecv, open := derive, send, recv, true;
      sendKey, sendChain, sendPrev, sendNonce := send, send, None, nonceOut;
      sendEpoch, sendRecords, sendStart := 0, 0, now;
      recvKey, recvChain, recvPrev, recvNonce := recv, recv, None, nonceIn;
      recvEpoch, recvRecords, recvStart := 0, 0, now;
    }

    /** link_rekey_send_maybe_rotate. */
    method RotateSend(now: nat)
      requires Valid()
      modifies this
      ensures Valid() && Sending() == Rotated(kdf, old(Sending()), now) && Receiving() == old(Receiving()) &&
        open == old(open)
    {
      hide Ratcheted;
      RotatedKeeps(kdf, firstSend, Sending(), now);
      var elapsed := if now >= sendStart then now - sendStart else 0;
      if sendRecords < RECORDS && elapsed < INTERVAL { return; }
      var next := kdf(sendChain, sendEpoch + 1);
      sendPrev := Some(sendKey);
      sendKey, sendChain := next, next;
      sendEpoch, sendRecords, sendStart := sendEpoch + 1, 0, now;
    }

    /** link_rekey_recv_maybe_rotate. */
    method RotateRecv(now: nat)
      requires Valid()
      modifies this
      ensures Valid() && Receiving() == Rotated(kdf, old(Receiving()), now) && Sending() == old(Sending()) &&
        open == old(open)
    {
      hide Ratcheted;
      RotatedKeeps(kdf, firstRecv, Receiving(), now);
      var elapsed := if now >= recvStart then now - recvStart else 0;
      if recvRecords < RECORDS && elapsed < INTERVAL { return; }
      var next := kdf(recvChain, recvEpoch + 1);
      recvPrev := Some(recvKey);
      recvKey, recvChain := next, next;
      recvEpoch, recvRecords, recvStart := recvEpoch + 1, 0, now;
    }

    /** moor_connection_send_cell up to the sealed record. */
    method SendCell(text: Text, now: nat) returns (r: Option<Record>)
      requires Valid()
      modifies this
      ensures Valid() && Receiving() == old(Receiving())
      ensures r.Some? <==> old(open) && old(sendNonce) != MAX_NONCE
      ensures r.Some? ==> (Sending(), r.value) == Sent(kdf, old(Sending()), now, text) && open
      ensures r.None? ==> Sending() == old(Sending()) && !open
    {
      if !open { return None; }
      if sendNonce == MAX_NONCE {
        open := false;
        return None;
      }
      hide Ratcheted, Rotated;
      RotateSend(now);
      SentKeeps(kdf, firstSend, old(Sending()), now, text);
      r := Some(Sealed(sendKey, sendNonce, text));
      sendRecords := sendRecords + 1;
      sendNonce := sendNonce + 1;
    }

    /** The decrypt path of moor_connection_recv_cell on one complete record. */
    method RecvCell(rec: Record, now: nat) returns (r: Option<Text>)
      requires Valid()
      modifies this
      ensures Valid() && Sending() == old(Sending())
      ensures if old(open) && old(recvNonce) != MAX_NONCE then
                (Receiving(), r) == Got(kdf, old(Receiving()), now, rec) && open
              else r == None && Receiving() == old(Receiving()) && !open
    {
      if !open { return None; }
      if recvNonce == MAX_NONCE {
        open := false;
        return None;
      }
      hide Ratcheted, Rotated;
      RotateRecv(now);
      GotKeeps(kdf, firstRecv, old(Receiving()), now, rec);
      if !(rec.key == recvKey && rec.nonce == recvNonce) {
        var recovered := recvPrev.Some? && rec.key == recvPrev.value && rec.nonce == recvNonce;
        if !recovered { return None; }
      }
      recvNonce := recvNonce + 1;
      recvRecords := recvRecords + 1;
      return Some(rec.text);
    }
  }

  // ---- Whole runs, in order ----

  /** The records sent at the times `ts`, and the sender after them. */
  function SendRun(kdf: Kdf, s: Side, ts: seq<nat>, texts: seq<Text>): (Side, seq<Record>)
    requires |texts| == |ts|
  {
    if ts == [] then (s, [])
    else
      var n := |ts| - 1;
      var (s', recs) := SendRun(kdf, s, ts[..n], texts[..n]);
      var (s'', rec) := Sent(kdf, s', ts[n], texts[n]);
      (s'', recs + [rec])
  }

  /** What the receiver makes of the records `recs`, received at the times `ts`. */
  function RecvRun(kdf: Kdf, s: Side, ts: seq<nat>, recs: seq<Record>): (Side, seq<Option<Text>>)
    requires |recs| == |ts|
  {
    if ts == [] then (s, [])
    else
      var n := |ts| - 1;
      var (s', out) := RecvRun(kdf, s, ts[..n], recs[..n]);
      var (s'', r) := Got(kdf, s', ts[n], recs[n]);
      (s'', out + [r])
  }

  /** The clock after records handled at the times `ts`, all of them with success. */
  function ClockRun(c: Clock, ts: seq<nat>): Clock {
    if ts == [] then c else Counted(Tick(ClockRun(c, ts[..|ts| - 1]), ts[|ts| - 1]))
  }

  /** The epoch used for record `i`. */
  function EpochAt(c: Clock, ts: seq<nat>, i: nat): nat
    requires i < |ts|
  {
    Tick(ClockRun(c, ts[..i]), ts[i]).epoch
  }

  /** Every record advances the epoch by at most one. */
  lemma {:induction false} EpochsBelow(c: Clock, ts: seq<nat>, i: nat)
    requires i < |ts|
    ensures ClockRun(c, ts[..i]).epoch <= c.epoch + i && EpochAt(c, ts, i) <= c.epoch + i + 1
  {
    if i > 0 {
      EpochsBelow(c, ts, i - 1);
      assert ts[..i][..i - 1] == ts[..i - 1];
    }
  }

  /** Every record is sealed with the key of its epoch under a nonce of its own. */
  lemma {:induction false} SendsInEpoch(kdf: Kdf, first: Key, s: Side, ts: seq<nat>, texts: seq<Text>)
    requires |texts| == |ts| && Ratcheted(kdf, first, s)
    ensures var (s', recs) := SendRun(kdf, s, ts, texts);
            && Ratcheted(kdf, first, s') && s'.clock == ClockRun(s.clock, ts) && s'.nonce == s.nonce + |ts| &&
              |recs| == |ts|
            && forall i :: 0 <= i < |recs| ==>
                 recs[i] == Sealed(KeyOf(kdf, first, EpochAt(s.clock, ts, i)), s.nonce + i, texts[i])
  {
    hide Ratcheted, Sent, KeyOf, Tick;
    if ts != [] {
      var n := |ts| - 1;
      var init := ts[..n];
      SendsInEpoch(kdf, first, s, init, texts[..n]);
      SentKeeps(kdf, first, SendRun(kdf, s, init, texts[..n]).0, ts[n], texts[n]);
      forall i | 0 <= i < n ensures EpochAt(s.clock, ts, i) == EpochAt(s.clock, init, i) {
        assert init[..i] == ts[..i];
      }
    }
  }

  /** Record `i` is accepted, given that those before it were. */
  predicate InReach(send: Clock, recv: Clock, ts: seq<nat>, tr: seq<nat>, i: nat)
    requires i < |ts| && i < |tr|
  {
    0 <= EpochAt(recv, tr, i) - EpochAt(send, ts, i) <= 1
  }

  /** A link whose ends start in step; record `i` goes out at `ts[i]` and comes in at `tr[i]`. */
  datatype Link = Link(kdf: Kdf, first: Key, send: Side, recv: Side, ts: seq<nat>, tr: seq<nat>, texts: seq<Text>)

  /** No epoch of the run is beyond this one. */
  function Top(l: Link): nat {
    (if l.send.clock.epoch > l.recv.clock.epoch then l.send.clock.epoch else l.recv.clock.epoch) + |l.ts|
  }

  ghost predicate InStep(l: Link) {
    && Unlike(l.kdf, l.first, Top(l)) && Ratcheted(l.kdf, l.first, l.send) && Ratcheted(l.kdf, l.first, l.recv)
    && l.send.nonce == l.recv.nonce && |l.ts| == |l.tr| == |l.texts|
  }

  function Records(l: Link): (r: seq<Record>)
    requires |l.ts| == |l.texts|
  {
    SendRun(l.kdf, l.send, l.ts, l.texts).1
  }

  /** The receiver after the first `n` records, and what it made of them. */
  ghost function After(l: Link, n: nat): (Side, seq<Option<Text>>)
    requires InStep(l) && n <= |l.ts| && |Records(l)| == |l.ts|
  {
    RecvRun(l.kdf, l.recv, l.tr[..n], Records(l)[..n])
  }

  lemma AfterNext(l: Link, n: nat)
    requires InStep(l) && n < |l.ts| && |Records(l)| == |l.ts|
    ensures var (s, out) := After(l, n); var (s', r) := Got(l.kdf, s, l.tr[n], Records(l)[n]);
            After(l, n + 1) == (s', out + [r])
  {
    assert l.tr[..n + 1][..n] == l.tr[..n] && Records(l)[..n + 1][..n] == Records(l)[..n];
  }

  lemma AfterNone(l: Link)
    requires InStep(l) && |Records(l)| == |l.ts|
    ensures After(l, 0) == (l.recv, []) && l.tr[..0] == []
  {
  }

  /** Everything so far was accepted. */
  ghost predicate Accepted(l: Link, s: Side, out: seq<Option<Text>>, n: nat)
    requires InStep(l) && n <= |l.ts|
  {
    && Ratcheted(l.kdf, l.first, s) && s.nonce == l.recv.nonce + n && s.clock == ClockRun(l.recv.clock, l.tr[..n])
    && |out| == n && forall i :: 0 <= i < n ==> out[i] == Some(l.texts[i])
  }

  lemma {:induction false} AcceptsWhileInReach(l: Link, n: nat)
    requires InStep(l) && n <= |l.ts| && forall i :: 0 <= i < n ==> InReach(l.send.clock, l.recv.clock, l.ts, l.tr, i)
    ensures |Records(l)| == |l.ts| && var (s, out) := After(l, n); Accepted(l, s, out, n)
    decreases n
  {
    hide Ratcheted, Got, Tick, KeyOf, After, SendRun;
    SendsInEpoch(l.kdf, l.first, l.send, l.ts, l.texts);
    if n == 0 {
      AfterNone(l);
    } else {
      AcceptsWhileInReach(l, n - 1);
      AfterNext(l, n - 1);
      GotKeeps(l.kdf, l.first, After(l, n - 1).0, l.tr[n - 1], Records(l)[n - 1]);
      assert InReach(l.send.clock, l.recv.clock, l.ts, l.tr, n - 1);
      var s := After(l, n - 1).0;
      EpochsBelow(l.send.clock, l.ts, n - 1);
      EpochsBelow(l.recv.clock, l.tr, n - 1);
      AcceptsIff(l.kdf, l.first, s, l.tr[n - 1], EpochAt(l.send.clock, l.ts, n - 1), l.texts[n - 1], Top(l));
      assert l.tr[..n][..n - 1] == l.tr[..n - 1];
    }
  }

  /** The first record out of reach is refused, and with it every later one: the receiver's nonce
      stays behind for good. */
  lemma {:induction false} RefusedForGood(l: Link, n: nat, m: nat)
    requires InStep(l) && n < m <= |l.ts| && forall i :: 0 <= i < n ==>
      InReach(l.send.clock, l.recv.clock, l.ts, l.tr, i)
    requires !InReach(l.send.clock, l.recv.clock, l.ts, l.tr, n)
    ensures |Records(l)| == |l.ts| && var (s, out) := After(l, m);
            && Ratcheted(l.kdf, l.first, s) && s.nonce == l.recv.nonce + n
            && |out| == m && forall i :: n <= i < m ==> out[i] == None
    decreases m
  {
    hide Ratcheted, Got, Tick, KeyOf, After, SendRun;
    SendsInEpoch(l.kdf, l.first, l.send, l.ts, l.texts);
    AfterNext(l, m - 1);
    if m == n + 1 {
      AcceptsWhileInReach(l, n);
      GotKeeps(l.kdf, l.first, After(l, n).0, l.tr[n], Records(l)[n]);
      EpochsBelow(l.send.clock, l.ts, n);
      EpochsBelow(l.recv.clock, l.tr, n);
      AcceptsIff(l.kdf, l.first, After(l, n).0, l.tr[n], EpochAt(l.send.clock, l.ts, n), l.texts[n], Top(l));
    } else {
      RefusedForGood(l, n, m - 1);
      GotKeeps(l.kdf, l.first, After(l, m - 1).0, l.tr[m - 1], Records(l)[m - 1]);
    }
  }

  /** Over a whole run, every record is accepted unaltered if and only if at every record the receiver
      has rotated as often as the sender, or once more. */
  lemma AllAcceptedIff(l: Link)
    requires InStep(l)
    ensures |Records(l)| == |l.ts|
    ensures var out := After(l, |l.ts|).1;
            && |out| == |l.ts|
            && ((forall i :: 0 <= i < |out| ==> out[i] == Some(l.texts[i])) <==>
                forall i :: 0 <= i < |l.ts| ==> InReach(l.send.clock, l.recv.clock, l.ts, l.tr, i))
  {
    var n := |l.ts|;
    if forall i :: 0 <= i < n ==> InReach(l.send.clock, l.recv.clock, l.ts, l.tr, i) {
      AcceptsWhileInReach(l, n);
    } else {
      var k := FirstOut(l);
      RefusedForGood(l, k, n);
    }
  }

  lemma FirstOut(l: Link) returns (k: nat)
    requires InStep(l) && !forall i :: 0 <= i < |l.ts| ==> InReach(l.send.clock, l.recv.clock, l.ts, l.tr, i)
    ensures k < |l.ts| && !InReach(l.send.clock, l.recv.clock, l.ts, l.tr, k)
    ensures forall i :: 0 <= i < k ==> InReach(l.send.clock, l.recv.clock, l.ts, l.tr, i)
  {
    k := 0;
    while InReach(l.send.clock, l.recv.clock, l.ts, l.tr, k)
      invariant k < |l.ts| && forall i :: 0 <= i < k ==> InReach(l.send.clock, l.recv.clock, l.ts, l.tr, i)
      decreases |l.ts| - k
    {
      if k + 1 == |l.ts| { assert false; }
      k := k + 1;
    }
  }

  // ---- Rotation by count ----

  ghost predicate NoTimer(c: Clock, ts: seq<nat>) {
    forall i :: 0 <= i < |ts| ==> Elapsed(ts[i], ClockRun(c, ts[..i]).start) < INTERVAL
  }

  /** If the timer never fires, record `i` uses epoch `i / RECORDS`. */
  lemma {:induction false} EpochByCount(c: Clock, ts: seq<nat>, n: nat)
    requires c.epoch == c.records == 0 && NoTimer(c, ts) && n <= |ts|
    ensures n > 0 ==>
      ClockRun(c, ts[..n]).epoch == (n - 1) / RECORDS && ClockRun(c, ts[..n]).records == (n - 1) % RECORDS + 1
    ensures n < |ts| ==> EpochAt(c, ts, n) == n / RECORDS
  {
    if n > 0 {
      EpochByCount(c, ts, n - 1);
      assert ts[..n][..n - 1] == ts[..n - 1];
      NextByCount(n - 1);
    }
    if n < |ts| { assert Elapsed(ts[n], ClockRun(c, ts[..n]).start) < INTERVAL; }
  }

  lemma NextByCount(n: nat)
    ensures n > 0 ==> n / RECORDS == (n - 1) / RECORDS + (if (n - 1) % RECORDS + 1 == RECORDS then 1 else 0)
    ensures n > 0 ==> n % RECORDS == if (n - 1) % RECORDS + 1 == RECORDS then 0 else (n - 1) % RECORDS + 1
  {
  }

  /** Then both ends agree on every epoch and everything is accepted. */
  lemma CountAgrees(l: Link)
    requires InStep(l) && NoTimer(l.send.clock, l.ts) && NoTimer(l.recv.clock, l.tr)
    requires l.send.clock.epoch == l.send.clock.records == 0 && l.recv.clock.epoch == l.recv.clock.records == 0
    ensures |Records(l)| == |l.ts| && |After(l, |l.ts|).1| == |l.ts|
    ensures forall i :: 0 <= i < |l.ts| ==>
      Records(l)[i].key == KeyOf(l.kdf, l.first, i / RECORDS) && After(l, |l.ts|).1[i] == Some(l.texts[i])
  {
    SendsInEpoch(l.kdf, l.first, l.send, l.ts, l.texts);
    forall i | 0 <= i < |l.ts|
      ensures EpochAt(l.send.clock, l.ts, i) == i / RECORDS && InReach(l.send.clock, l.recv.clock, l.ts, l.tr, i)
    {
      EpochByCount(l.send.clock, l.ts, i);
      EpochByCount(l.recv.clock, l.tr, i);
    }
    AllAcceptedIff(l);
  }

  /** Time can break the link: a sender whose interval has passed rotates, a receiver whose interval has
      not refuses, although its last key is only one epoch old. */
  lemma SenderFirst(l: Link, text: Text)
    requires InStep(l) && l.send == l.recv == Fresh(l.first, 0, 0)
    requires l.ts == [INTERVAL] && l.tr == [INTERVAL - 1] && l.texts == [text]
    ensures |Records(l)| == 1 && After(l, 1).1 == [None]
  {
    assert l.ts[..0] == [] && l.tr[..0] == [];
    assert !InReach(l.send.clock, l.recv.clock, l.ts, l.tr, 0);
    RefusedForGood(l, 0, 1);
    var out := After(l, 1).1;
    assert out == [out[0]];
  }
}
