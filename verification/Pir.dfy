/** Two-server private lookup in the descriptor store of src/dht.c: what a replica answers, how the
    answer travels in several cells, and how the client combines two answers. */
module Pir {
  import opened Bytes
  import Dpf

  const SLOTS := 256

  /** `h0` and `h1` are the first two bytes of the address hash. */
  datatype Entry = Entry(h0: Byte, h1: Byte, data: seq<Byte>, storedAt: nat)

  function SlotOf(h0: Byte, h1: Byte): (slot: nat)
    ensures slot < SLOTS
  {
    (h0 ^ h1) as nat
  }

  /** Two addresses share a slot exactly if their hashes differ alike in both bytes. */
  lemma SameSlotIff(h0: Byte, h1: Byte, g0: Byte, g1: Byte)
    ensures SlotOf(h0, h1) == SlotOf(g0, g1) <==> h0 ^ h1 == g0 ^ g1
    ensures h0 ^ h1 == g0 ^ g1 <==> h0 ^ g0 == h1 ^ g1
  {
    var x, y := h0 ^ h1, g0 ^ g1;
    assert x as nat == y as nat <==> x == y;
  }

  /** A descriptor cut or zero-padded to the fixed response size. */
  function Padded(data: seq<Byte>, max: nat): (r: seq<Byte>)
    ensures |r| == max && forall i :: 0 <= i < max ==> r[i] == if i < |data| then data[i] else 0
  {
    if |data| > max then data[..max] else data + Zeros(max - |data|)
  }

  function Slot(e: Entry): nat { SlotOf(e.h0, e.h1) }

  /** Index of the entry that represents slot `j` among the first `n`, -1 if the slot is empty. */
  function Latest(store: seq<Entry>, n: nat, j: nat): (k: int)
    requires n <= |store|
    ensures -1 <= k < n
  {
    if n == 0 then -1
    else
      var k := Latest(store, n - 1, j);
      if Slot(store[n - 1]) == j && (k < 0 || store[n - 1].storedAt >= store[k].storedAt) then n - 1 else k
  }

  /** It is the entry stored last, the highest index on equal times. */
  lemma {:induction false} LatestIsLatest(store: seq<Entry>, n: nat, j: nat)
    requires n <= |store|
    ensures var k := Latest(store, n, j);
            if k < 0 then forall i :: 0 <= i < n ==> Slot(store[i]) != j
            else Slot(store[k]) == j && forall i :: 0 <= i < n && Slot(store[i]) == j ==>
              store[i].storedAt <= store[k].storedAt && (i > k ==> store[i].storedAt < store[k].storedAt)
  {
    if n > 0 { LatestIsLatest(store, n - 1, j); }
  }

  /** The bytes a slot stands for: its latest descriptor, padded; zeros if it is empty. */
  function SlotData(store: seq<Entry>, max: nat, j: nat): (r: seq<Byte>)
    ensures |r| == max
  {
    DataOf(store, Latest(store, |store|, j), max)
  }

  function DataOf(store: seq<Entry>, k: int, max: nat): (r: seq<Byte>)
    requires -1 <= k < |store|
    ensures |r| == max
  {
    if k < 0 then Zeros(max) else Padded(store[k].data, max)
  }

  /** One element of the flat slot array: padded data, its length before padding, storage time. */
  datatype Flat = Flat(data: seq<Byte>, len: nat, time: nat)

  ghost predicate Stands(f: Flat, store: seq<Entry>, k: int, max: nat)
    requires -1 <= k < |store|
  {
    && f.data == DataOf(store, k, max) && f.time == (if k < 0 then 0 else store[k].storedAt)
    && (f.len == 0 ==> f.data == Zeros(max))
  }

  function Table(store: seq<Entry>, max: nat): (r: seq<seq<Byte>>)
    ensures |r| == SLOTS && forall j :: 0 <= j < SLOTS ==> r[j] == SlotData(store, max, j)
  {
    seq(SLOTS, j requires 0 <= j => SlotData(store, max, j))
  }

  /** XOR of the selected ones among the first `n` slots. */
  function Selected(table: seq<seq<Byte>>, sel: seq<bool>, n: nat, max: nat): (r: seq<Byte>)
    requires n <= |table| && n <= |sel| && forall j :: 0 <= j < |table| ==> |table[j]| == max
    ensures |r| == max
  {
    if n == 0 then Zeros(max)
    else if sel[n - 1] then Xor(Selected(table, sel, n - 1, max), table[n - 1])
    else Selected(table, sel, n - 1, max)
  }

  // ---- The replica ----

  /** The slot array that both query handlers build from the store. */
  method Flatten(store: seq<Entry>, max: nat) returns (flat: seq<seq<Byte>>, lens: seq<nat>)
    ensures flat == Table(store, max) && |lens| == SLOTS
    ensures forall j :: 0 <= j < SLOTS && lens[j] == 0 ==> flat[j] == Zeros(max)
  {
    hide SlotOf;
    var a := new Flat[SLOTS](_ => Flat(Zeros(max), 0, 0));
    for i := 0 to |store|
      invariant forall j :: 0 <= j < SLOTS ==> Stands(a[j], store, Latest(store, i, j), max)
    {
      var e := store[i];
      var slot := Slot(e);
      if e.storedAt >= a[slot].time {
        a[slot] := Flat(Padded(e.data, max), if |e.data| > max then max else |e.data|, e.storedAt);
      }
    }
    flat := seq(SLOTS, j requires 0 <= j < SLOTS reads a => a[j].data);
    lens := seq(SLOTS, j requires 0 <= j < SLOTS reads a => a[j].len);
  }

  /** The answer to a query that selects the slots `sel`. */
  method Answer(store: seq<Entry>, sel: seq<bool>, max: nat) returns (result: seq<Byte>)
    requires |sel| == SLOTS
    ensures result == Selected(Table(store, max), sel, SLOTS, max)
  {
    var flat, lens := Flatten(store, max);
    var r := new Byte[max](_ => 0);
    assert r[..] == Zeros(max);
    for j := 0 to SLOTS
      invariant r[..] == Selected(flat, sel, j, max)
    {
      ghost var before := r[..];
      XorCancels(before, before);
      if !sel[j] { continue; }
      if lens[j] == 0 { continue; }
      for b := 0 to max
        invariant forall c :: 0 <= c < max ==> r[c] == if c < b then before[c] ^ flat[j][c] else before[c]
      {
        r[b] := r[b] ^ flat[j][b];
      }
      assert r[..] == Xor(before, flat[j]);
    }
    result := r[..];
  }

  // ---- Combining two answers ----

  lemma XorRegroup(a: seq<Byte>, b: seq<Byte>, c: seq<Byte>)
    requires |a| == |b| == |c|
    ensures Xor(Xor(a, c), Xor(b, c)) == Xor(a, b)
    ensures Xor(Xor(a, c), b) == Xor(Xor(a, b), c) == Xor(a, Xor(b, c))
  {
    forall i | 0 <= i < |a|
      ensures (a[i] ^ c[i]) ^ (b[i] ^ c[i]) == a[i] ^ b[i]
      ensures (a[i] ^ c[i]) ^ b[i] == (a[i] ^ b[i]) ^ c[i] == a[i] ^ (b[i] ^ c[i])
    {
      ByteRegroup(a[i], b[i], c[i]);
    }
  }

  lemma ByteRegroup(x: Byte, y: Byte, z: Byte)
    ensures (x ^ z) ^ (y ^ z) == x ^ y && (x ^ z) ^ y == (x ^ y) ^ z == x ^ (y ^ z)
  {
  }

  /** Two selections that differ exactly at `slot` have answers that differ by that slot. */
  lemma {:induction false} AnswersDiffer(table: seq<seq<Byte>>, p: seq<bool>, q: seq<bool>, slot: nat, n: nat, max: nat)
    requires n <= |table| == |p| == |q| && forall j :: 0 <= j < |table| ==> |table[j]| == max
    requires forall j :: 0 <= j < n ==> (p[j] != q[j] <==> j == slot)
    ensures Xor(Selected(table, p, n, max), Selected(table, q, n, max)) == if slot < n then table[slot] else Zeros(max)
  {
    if n == 0 {
      XorCancels(Zeros(max), Zeros(max));
    } else {
      AnswersDiffer(table, p, q, slot, n - 1, max);
      var a, b, c := Selected(table, p, n - 1, max), Selected(table, q, n - 1, max), table[n - 1];
      XorRegroup(a, b, c);
      XorCancels(c, c);
    }
  }

  // ---- Bitmask queries ----

  function OneBit(k: nat): Byte
    requires k < 8
  {
    if k == 0 then 0x01 else if k == 1 then 0x02 else if k == 2 then 0x04 else if k == 3 then 0x08
    else if k == 4 then 0x10 else if k == 5 then 0x20 else if k == 6 then 0x40 else 0x80
  }

  predicate Has(mask: seq<Byte>, j: nat)
    requires j / 8 < |mask|
  {
    mask[j / 8] & OneBit(j % 8) != 0
  }

  function Selection(mask: seq<Byte>): (r: seq<bool>)
    requires |mask| == 32
    ensures |r| == SLOTS && forall j :: 0 <= j < SLOTS ==> r[j] == Has(mask, j)
  {
    seq(SLOTS, j requires 0 <= j < SLOTS => Has(mask, j))
  }

  function Flip(mask: seq<Byte>, j: nat): (r: seq<Byte>)
    requires j / 8 < |mask|
    ensures |r| == |mask|
  {
    mask[j / 8 := mask[j / 8] ^ OneBit(j % 8)]
  }

  lemma BitFlips(x: Byte, a: nat, b: nat)
    requires a < 8 && b < 8
    ensures ((x ^ OneBit(a)) & OneBit(b) != 0) == (x & OneBit(b) != 0) <==> a != b
  {
  }

  lemma FlipDiffers(mask: seq<Byte>, slot: nat, j: nat)
    requires |mask| == 32 && slot < SLOTS && j < SLOTS
    ensures Has(Flip(mask, slot), j) != Has(mask, j) <==> j == slot
  {
    BitFlips(mask[j / 8], slot % 8, j % 8);
  }

  /** What the client recovers with the masks `s1` and `s1` flipped at the wanted slot. */
  lemma MaskLookup(store: seq<Entry>, max: nat, mask: seq<Byte>, slot: nat)
    requires |mask| == 32 && slot < SLOTS
    ensures var t := Table(store, max);
            Xor(Selected(t, Selection(mask), SLOTS, max), Selected(t, Selection(Flip(mask, slot)), SLOTS, max))
            == SlotData(store, max, slot)
  {
    forall j | 0 <= j < SLOTS ensures Selection(mask)[j] != Selection(Flip(mask, slot))[j] <==> j == slot {
      FlipDiffers(mask, slot, j);
    }
    AnswersDiffer(Table(store, max), Selection(mask), Selection(Flip(mask, slot)), slot, SLOTS, max);
  }

  // ---- Fragmentation and reassembly of an answer ----

  const CHUNK := 490
  const MAX_CELLS := 96

  /** One response cell: query id, total length, offset and data. */
  datatype Cell = Cell(qid: seq<Byte>, total: nat, off: nat, data: seq<Byte>)

  ghost function Fragments(qid: seq<Byte>, r: seq<Byte>, off: nat): seq<Cell>
    requires off <= |r|
    decreases |r| - off
  {
    if off == |r| then []
    else
      var chunk := if |r| - off > CHUNK then CHUNK else |r| - off;
      [Cell(qid, |r|, off, r[off..off + chunk])] + Fragments(qid, r, off + chunk)
  }

  /** The send loop of both query handlers. */
  method Send(qid: seq<Byte>, result: seq<Byte>) returns (cells: seq<Cell>)
    ensures cells == Fragments(qid, result, 0)
  {
    cells := [];
    var total, off := |result|, 0;
    while off < total
      invariant off <= total && cells + Fragments(qid, result, off) == Fragments(qid, result, 0)
    {
      var chunk := total - off;
      if chunk > CHUNK { chunk := CHUNK; }
      cells := cells + [Cell(qid, total, off, result[off..off + chunk])];
      off := off + chunk;
    }
  }

  datatype Received = Complete(data: seq<Byte>) | Failed

  function Splice(out: seq<Byte>, off: nat, data: seq<Byte>): (r: seq<Byte>)
    requires off + |data| <= |out|
    ensures |r| == |out|
  {
    out[..off] + data + out[off + |data|..]
  }

  /** dht_recv_pir_response_ex: `cells` are the response cells in order of arrival, after which the
      receive times out. */
  method Receive(cells: seq<Cell>, qid: seq<Byte>, max: nat) returns (r: Received)
    ensures r.Complete? ==> |r.data| == max
    ensures forall sent :: 0 < |sent| <= max && |sent| <= MAX_CELLS * CHUNK && cells == Fragments(qid, sent, 0)
              ==> r == Complete(Padded(sent, max))
  {
    r := Collect(cells, qid, max);
    forall sent | 0 < |sent| <= max && |sent| <= MAX_CELLS * CHUNK && cells == Fragments(qid, sent, 0)
      ensures r == Complete(Padded(sent, max))
    {
      Reassembles(qid, sent, 0, max, MAX_CELLS, Zeros(max));
    }
  }

  method Collect(cells: seq<Cell>, qid: seq<Byte>, max: nat) returns (r: Received)
    ensures r == Assembled(cells, qid, max, MAX_CELLS, Zeros(max), -1)
  {
    var out, total, n := Zeros(max), -1, 0;
    while n < MAX_CELLS
      invariant 0 <= n <= |cells| && n <= MAX_CELLS && |out| == max && total <= max
      invariant Assembled(cells, qid, max, MAX_CELLS, Zeros(max), -1)
             == Assembled(cells[n..], qid, max, MAX_CELLS - n, out, total)
    {
      if n == |cells| { return Failed; }
      var c := cells[n];
      if c.qid != qid { return Failed; }
      if total < 0 {
        total := c.total;
        if total > max { return Failed; }
      } else if c.total != total {
        return Failed;
      }
      if c.off + |c.data| > total { return Failed; }
      out := Splice(out, c.off, c.data);
      if c.off + |c.data| >= total { return Complete(out); }
      assert cells[n..][1..] == cells[n + 1..];
      n := n + 1;
    }
    return Failed;
  }

  /** The outcome of the receive loop with room for `n` more cells, `out` filled so far and `total`
      fixed by the first cell (negative before it). */
  function Assembled(cells: seq<Cell>, qid: seq<Byte>, max: nat, n: nat, out: seq<Byte>, total: int): (r: Received)
    requires |out| == max && total <= max
    ensures r.Complete? ==> |r.data| == max
    decreases n
  {
    if n == 0 || cells == [] then Failed
    else
      var c := cells[0];
      if c.qid != qid || (if total < 0 then c.total > max else c.total != total) ||
        c.off + |c.data| > c.total then Failed
      else if c.off + |c.data| == c.total then Complete(Splice(out, c.off, c.data))
      else Assembled(cells[1..], qid, max, n - 1, Splice(out, c.off, c.data), c.total)
  }

  /** Everything that a complete answer is made of: cells of this query that agree on the total, which fits, and
      stay within it, up to the one that reaches it. */
  lemma {:induction false} CompleteFrom(cells: seq<Cell>, qid: seq<Byte>, max: nat, n: nat, out: seq<Byte>, total: int)
      returns (k: nat)
    requires |out| == max && total <= max && Assembled(cells, qid, max, n, out, total).Complete?
    ensures k < |cells| && k < n && cells[k].off + |cells[k].data| == cells[k].total <= max
    ensures total >= 0 ==> cells[k].total == total
    ensures forall i :: 0 <= i <= k ==>
      cells[i].qid == qid && cells[i].total == cells[k].total && cells[i].off + |cells[i].data| <= cells[k].total
    decreases n
  {
    var c := cells[0];
    if c.off + |c.data| == c.total {
      k := 0;
    } else {
      var j := CompleteFrom(cells[1..], qid, max, n - 1, Splice(out, c.off, c.data), c.total);
      k := j + 1;
      assert cells[k] == cells[1..][j];
      forall i | 0 < i <= k ensures cells[i].qid == qid && cells[i].total == cells[k].total &&
                                    cells[i].off + |cells[i].data| <= cells[k].total {
        assert cells[i] == cells[1..][i - 1];
      }
    }
  }

  lemma {:induction false} Reassembles(qid: seq<Byte>, sent: seq<Byte>, off: nat, max: nat, n: nat, out: seq<Byte>)
    requires off < |sent| <= max && |sent| - off <= n * CHUNK && |out| == max
    requires out == sent[..off] + Zeros(max - off)
    ensures Assembled(Fragments(qid, sent, off), qid, max, n, out, if off == 0 then -1 else |sent|)
      == Complete(Padded(sent, max))
    decreases |sent| - off
  {
    var chunk := if |sent| - off > CHUNK then CHUNK else |sent| - off;
    var cells := Fragments(qid, sent, off);
    var out' := Splice(out, off, sent[off..off + chunk]);
    assert cells[1..] == Fragments(qid, sent, off + chunk);
    assert out' == sent[..off + chunk] + Zeros(max - off - chunk);
    if off + chunk == |sent| {
      assert sent[..|sent|] == sent;
    } else {
      Reassembles(qid, sent, off + chunk, max, n - 1, out');
    }
  }

  // ---- The whole lookup ----

  method Combine(r1: seq<Byte>, r2: seq<Byte>) returns (r: Received)
    requires |r1| == |r2|
    ensures r == if Xor(r1, r2) == Zeros(|r1|) then Failed else Complete(Xor(r1, r2))
  {
    var result := Xor(r1, r2);
    for i := 0 to |result|
      invariant forall j :: 0 <= j < i ==> result[j] == 0
    {
      if result[i] != 0 { return Complete(result); }
    }
    assert result == Zeros(|r1|);
    return Failed;
  }

  predicate Shares(e: Entry, h0: Byte, h1: Byte) {
    e.h0 ^ e.h1 == h0 ^ h1
  }

  /** Entry `k` is the latest stored of those whose hash bytes have the same XOR as `h0` and `h1`, the highest
      index on equal times. */
  ghost predicate Newest(store: seq<Entry>, h0: Byte, h1: Byte, k: nat) {
    && k < |store| && Shares(store[k], h0, h1)
    && forall i :: 0 <= i < |store| && Shares(store[i], h0, h1) ==>
         store[i].storedAt <= store[k].storedAt && (i > k ==> store[i].storedAt < store[k].storedAt)
  }

  predicate AllZero(d: seq<Byte>) {
    forall i :: 0 <= i < |d| ==> d[i] == 0
  }

  /** What a lookup of the address with hash bytes `h0` and `h1` should give: the latest descriptor of those
      that share its slot, padded, unless it reads as zeros; a failure if there is none. */
  ghost predicate Answers(r: Received, store: seq<Entry>, max: nat, h0: Byte, h1: Byte) {
    && ((forall i :: 0 <= i < |store| ==> !Shares(store[i], h0, h1)) ==> r == Failed)
    && (forall k: nat :: Newest(store, h0, h1, k) ==>
          var d := Padded(store[k].data, max);
          r == if AllZero(d) then Failed else Complete(d))
  }

  /** One result answers, the content of the slot of the address. */
  lemma AnswersIff(r: Received, store: seq<Entry>, max: nat, h0: Byte, h1: Byte)
    ensures Answers(r, store, max, h0, h1) <==> r == Wanted(store, max, SlotOf(h0, h1))
  {
    hide SlotOf, Padded, Newest, Shares, Slot, Latest;
    var j := SlotOf(h0, h1);
    LatestIsNewest(store, h0, h1);
    ZeroIff(SlotData(store, max, j));
    assert Zeros(max) == Zeros(|SlotData(store, max, j)|);
  }

  lemma LatestIsNewest(store: seq<Entry>, h0: Byte, h1: Byte)
    ensures var k := Latest(store, |store|, SlotOf(h0, h1));
            && (k < 0 ==> forall i :: 0 <= i < |store| ==> !Shares(store[i], h0, h1))
            && (k >= 0 ==> Newest(store, h0, h1, k) && Shares(store[k], h0, h1))
            && forall i: nat :: Newest(store, h0, h1, i) ==> i == k
  {
    hide SlotOf, Shares, Slot;
    LatestIsLatest(store, |store|, SlotOf(h0, h1));
    forall i | 0 <= i < |store| ensures Slot(store[i]) == SlotOf(h0, h1) <==> Shares(store[i], h0, h1) {
      SharesIff(store[i], h0, h1);
    }
  }

  lemma SharesIff(e: Entry, h0: Byte, h1: Byte)
    ensures Slot(e) == SlotOf(h0, h1) <==> Shares(e, h0, h1)
  {
    SameSlotIff(e.h0, e.h1, h0, h1);
  }

  lemma ZeroIff(d: seq<Byte>)
    ensures d == Zeros(|d|) <==> AllZero(d)
  {
  }

  /** What a lookup of `slot` should give: its latest descriptor, or a failure if it reads as zeros. */
  ghost function Wanted(store: seq<Entry>, max: nat, slot: nat): Received {
    if SlotData(store, max, slot) == Zeros(max) then Failed else Complete(SlotData(store, max, slot))
  }

  /** dht_fetch_pir against two replicas with the same store: the exchange through response cells
      included, the client gets the latest descriptor of the slot of its address. */
  method FetchPir(store: seq<Entry>, max: nat, h0: Byte, h1: Byte, mask: seq<Byte>, qid1: seq<Byte>, qid2: seq<Byte>)
    returns (r: Received)
    requires 0 < max <= MAX_CELLS * CHUNK && |mask| == 32
    ensures Answers(r, store, max, h0, h1)
  {
    hide SlotOf, Answers, Wanted;
    var slot := SlotOf(h0, h1);
    var mask2 := Flip(mask, slot);
    MaskLookup(store, max, mask, slot);
    var r1 := Ask(store, Selection(mask), max, qid1);
    var r2 := Ask(store, Selection(mask2), max, qid2);
    r := Combine(r1, r2);
    WantedIs(store, max, slot, r);
    AnswersIff(r, store, max, h0, h1);
  }

  lemma WantedIs(store: seq<Entry>, max: nat, slot: nat, r: Received)
    requires var d := SlotData(store, max, slot); r == if d == Zeros(max) then Failed else Complete(d)
    ensures r == Wanted(store, max, slot)
  {
  }

  /** One query: the replica answers in cells, the client reassembles them. */
  method Ask(store: seq<Entry>, sel: seq<bool>, max: nat, qid: seq<Byte>) returns (data: seq<Byte>)
    requires |sel| == SLOTS && 0 < max <= MAX_CELLS * CHUNK
    ensures data == Selected(Table(store, max), sel, SLOTS, max)
  {
    var result := Answer(store, sel, max);
    var cells := Send(qid, result);
    var got := Receive(cells, qid, max);
    assert Padded(result, max) == result;
    data := got.data;
  }

  /** dht_fetch_dpf against two replicas with the same store, keys travelling in wire format. */
  method FetchDpf(store: seq<Entry>, max: nat, h0: Byte, h1: Byte, prg: Dpf.Prg, seedA: Dpf.Seed, seedB: Dpf.Seed,
                  qid1: seq<Byte>, qid2: seq<Byte>)
    returns (r: Received)
    requires 0 < max <= MAX_CELLS * CHUNK
    ensures Answers(r, store, max, h0, h1)
  {
    hide SlotOf, Answers, Wanted;
    var slot := SlotOf(h0, h1);
    var a, b := Dpf.Gen(prg, seedA, seedB, slot);
    var wireA := Dpf.Serialize(a);
    var wireB := Dpf.Serialize(b);
    var selA := Evaluate(prg, a, wireA);
    var selB := Evaluate(prg, b, wireB);
    forall j | 0 <= j < SLOTS ensures selA[j] != selB[j] <==> j == slot {
      Dpf.PointFunction(prg, a, b, slot, j);
      BitsDiffer(Dpf.Output(prg, a, j), Dpf.Output(prg, b, j));
    }
    AnswersDiffer(Table(store, max), selA, selB, slot, SLOTS, max);
    var r1 := Ask(store, selA, max, qid1);
    var r2 := Ask(store, selB, max, qid2);
    r := Combine(r1, r2);
    WantedIs(store, max, slot, r);
    AnswersIff(r, store, max, h0, h1);
  }

  lemma BitsDiffer(x: Byte, y: Byte)
    ensures (x != 0) != (y != 0) ==> x ^ y != 0
    ensures x ^ y == 1 && (x == 0 || x == 1) && (y == 0 || y == 1) ==> (x != 0) != (y != 0)
  {
  }

  /** The replica's side of a DPF query: read the key, evaluate it at every slot. */
  method Evaluate(prg: Dpf.Prg, ghost key: Dpf.Key, wire: seq<Byte>) returns (sel: seq<bool>)
    requires |key.cw| == Dpf.LEVELS && wire == Dpf.Wire(key)
    ensures |sel| == SLOTS && forall j :: 0 <= j < SLOTS ==> sel[j] == (Dpf.Output(prg, key, j) != 0)
    ensures forall j :: 0 <= j < SLOTS ==> Dpf.Output(prg, key, j) == 0 || Dpf.Output(prg, key, j) == 1
  {
    Dpf.RoundTrip(key, []);
    assert wire + [] == wire;
    var k := Dpf.Deserialize(wire);
    var bits := Dpf.EvalFull(prg, k.key, Dpf.DOMAIN);
    sel := seq(SLOTS, j requires 0 <= j < |bits| => bits[j] != 0);
    forall j | 0 <= j < SLOTS ensures Dpf.Output(prg, key, j) == 0 || Dpf.Output(prg, key, j) == 1 {
      var n := Dpf.NodeAt(prg, key.Root(), key.cw, j);
      LowBit((if n.t then Xor(n.seed, key.leaf) else n.seed)[0]);
    }
  }

  lemma LowBit(x: Byte)
    ensures x & 1 == 0 || x & 1 == 1
  {
  }
}
