/** The signed body of a consensus in src/directory.c: registration, import, eviction of stale relays,
    sorting and serialisation, and exactly when two authorities sign the same bytes. */
module ConsensusBody {
  import Counting
  import opened Octets
  import opened Options

  const INTERVAL := 3600
  const GRACE := 3
  const MAX_RELAYS := 8192
  const FIRST_SLOTS := 256
  const U64 := 0x1_0000_0000_0000_0000

  type Id = s: Octets | |s| == 32 witness seq(32, _ => 0)

  datatype Address = Address(host: string, port: nat)

  /** The last two fields are the authority's own. */
  datatype Relay = Relay(id: Id, at: Address, bandwidth: nat, published: nat, firstSeen: nat, lastRegistered: nat)

  /** What the body says about a relay. */
  datatype Entry = Entry(id: Id, bandwidth: nat)

  datatype Times = Times(validAfter: nat, freshUntil: nat, validUntil: nat)

  // ---- Timestamps ----

  function TimesOf(epoch: nat): Times {
    Times(epoch, epoch + INTERVAL, epoch + 3 * INTERVAL)
  }

  function EpochOf(now: nat): nat {
    var epoch := now / INTERVAL * INTERVAL;
    if epoch + INTERVAL - now <= GRACE then epoch + INTERVAL else epoch
  }

  /** Two authorities use the same timestamps if and only if their clocks, three seconds on, are in the
      same hour. */
  lemma SameEpoch(a: nat, b: nat)
    ensures EpochOf(a) == EpochOf(b) <==> (a + GRACE) / INTERVAL == (b + GRACE) / INTERVAL
  {
    Rounded(a);
    Rounded(b);
  }

  /** The consensus of one epoch is fresh until the next one starts and valid for three of them; a clock less than
      three seconds ahead of its hour already uses it. */
  lemma TimesAbut(now: nat)
    ensures var t := TimesOf(EpochOf(now));
            && t.freshUntil == TimesOf(EpochOf(now + INTERVAL)).validAfter
            && t.validUntil == TimesOf(EpochOf(now + 3 * INTERVAL)).validAfter
            && t.validAfter <= now + GRACE < t.freshUntil
  {
    Rounded(now);
    Rounded(now + INTERVAL);
    Rounded(now + 3 * INTERVAL);
    var q, r := (now + GRACE) / INTERVAL, (now + GRACE) % INTERVAL;
    assert now + INTERVAL + GRACE == (q + 1) * INTERVAL + r && now + 3 * INTERVAL + GRACE == (q + 3) * INTERVAL + r;
    assert (now + INTERVAL + GRACE) / INTERVAL == q + 1 && (now + 3 * INTERVAL + GRACE) / INTERVAL == q + 3;
  }

  lemma Rounded(now: nat)
    ensures EpochOf(now) == (now + GRACE) / INTERVAL * INTERVAL
  {
    var q, r := now / INTERVAL, now % INTERVAL;
    assert now == q * INTERVAL + r;
    if r + GRACE >= INTERVAL {
      assert now + GRACE == (q + 1) * INTERVAL + (r + GRACE - INTERVAL);
    }
  }

  // ---- Order of identities ----

  ghost predicate DistinctIds(es: seq<Entry>) {
    forall i, j :: 0 <= i < j < |es| ==> es[i].id != es[j].id
  }

  ghost predicate Ordered(es: seq<Entry>) {
    forall i, j :: 0 <= i < j < |es| ==> !Before(es[j].id, es[i].id)
  }

  ghost predicate SameEntries(xs: seq<Entry>, ys: seq<Entry>) {
    forall e :: e in xs <==> e in ys
  }

  /** No identity is listed with two bandwidths. */
  ghost predicate Consistent(es: seq<Entry>) {
    forall i, j :: 0 <= i < j < |es| && es[i].id == es[j].id ==> es[i] == es[j]
  }

  lemma FirstLeast(xs: seq<Entry>, e: Entry)
    requires Ordered(xs) && e in xs
    ensures e == xs[0] || !Before(e.id, xs[0].id)
  {
  }

  lemma SameMembers(xs: seq<Entry>, ys: seq<Entry>, e: Entry)
    requires multiset(xs) == multiset(ys) && e in xs
    ensures e in ys
  {
    assert e in multiset(xs);
  }

  lemma OneEach(xs: seq<Entry>, d: Entry, e: Entry)
    requires Consistent(xs) && d in xs && e in xs && d.id == e.id
    ensures d == e
  {
    var i :| 0 <= i < |xs| && xs[i] == d;
    var j :| 0 <= j < |xs| && xs[j] == e;
  }

  /** The first entries agree, since both are least, and so do the rest. */
  lemma SameFirst(xs: seq<Entry>, ys: seq<Entry>)
    requires xs != [] && ys != [] && multiset(xs) == multiset(ys) && Consistent(xs) && Ordered(xs) && Ordered(ys)
    ensures xs[0] == ys[0] && multiset(xs[1..]) == multiset(ys[1..])
  {
    hide Ordered, Consistent;
    SameMembers(xs, ys, xs[0]);
    SameMembers(ys, xs, ys[0]);
    FirstLeast(xs, ys[0]);
    FirstLeast(ys, xs[0]);
    Trichotomy(xs[0].id, ys[0].id);
    OneEach(xs, xs[0], ys[0]);
    Counting.Tails(xs, ys);
  }

  lemma RestOrdered(xs: seq<Entry>)
    requires xs != [] && Ordered(xs)
    ensures Ordered(xs[1..]) && (Consistent(xs) ==> Consistent(xs[1..]))
  {
  }

  /** There is only one order of the same entries. */
  lemma {:induction false} OneOrder(xs: seq<Entry>, ys: seq<Entry>)
    requires multiset(xs) == multiset(ys) && Consistent(xs) && Ordered(xs) && Ordered(ys)
    ensures xs == ys
    decreases |xs|
  {
    hide Ordered, Consistent;
    assert |multiset(xs)| == |xs| && |multiset(ys)| == |ys|;
    if xs != [] {
      SameFirst(xs, ys);
      RestOrdered(xs);
      RestOrdered(ys);
      OneOrder(xs[1..], ys[1..]);
      assert xs == [xs[0]] + xs[1..] && ys == [ys[0]] + ys[1..];
    }
  }

  /** Where identities are distinct, the same entries are listed equally often. */
  lemma SameOnce(xs: seq<Entry>, ys: seq<Entry>)
    requires SameEntries(xs, ys) && DistinctIds(xs) && DistinctIds(ys)
    ensures multiset(xs) == multiset(ys) && Consistent(xs)
  {
    forall e ensures multiset(xs)[e] == multiset(ys)[e] {
      ListedOnce(xs, e);
      ListedOnce(ys, e);
    }
  }

  lemma {:induction false} ListedOnce(xs: seq<Entry>, e: Entry)
    requires DistinctIds(xs)
    ensures multiset(xs)[e] == if e in xs then 1 else 0
    decreases |xs|
  {
    if |xs| > 0 {
      var n := |xs| - 1;
      assert xs == xs[..n] + [xs[n]];
      ListedOnce(xs[..n], e);
    }
  }

  function EntryOf(d: Relay): Entry {
    Entry(d.id, d.bandwidth)
  }

  function Entries(rs: seq<Relay>): (es: seq<Entry>)
    ensures |es| == |rs| && forall i :: 0 <= i < |rs| ==> es[i] == EntryOf(rs[i])
  {
    seq(|rs|, i requires 0 <= i < |rs| => EntryOf(rs[i]))
  }

  /** What qsort with relay_sort_by_pk does. */
  ghost predicate Sorts(sort: seq<Relay> -> seq<Relay>) {
    forall rs :: multiset(sort(rs)) == multiset(rs) && Ordered(Entries(sort(rs)))
  }

  /** The same relays in another order have the same entries in another order. */
  lemma {:induction false} PermutedEntries(rs: seq<Relay>, qs: seq<Relay>)
    requires multiset(rs) == multiset(qs)
    ensures multiset(Entries(rs)) == multiset(Entries(qs))
    decreases |rs|
  {
    hide Entries;
    if rs == [] {
      assert |multiset(qs)| == |qs|;
    } else {
      var rest := TakeEntry(rs, qs);
      PermutedEntries(rs[1..], rest);
      FirstEntry(rs);
    }
  }

  lemma TakeEntry(rs: seq<Relay>, qs: seq<Relay>) returns (rest: seq<Relay>)
    requires rs != [] && multiset(rs) == multiset(qs)
    ensures multiset(rs[1..]) == multiset(rest)
    ensures multiset(Entries(qs)) == multiset(Entries(rest)) + multiset{EntryOf(rs[0])}
  {
    hide Entries;
    var k := Counting.TakeOut(rs, qs);
    EntriesWithout(qs, k);
    rest := qs[..k] + qs[k + 1..];
  }

  lemma FirstEntry(rs: seq<Relay>)
    requires rs != []
    ensures multiset(Entries(rs)) == multiset(Entries(rs[1..])) + multiset{EntryOf(rs[0])}
  {
    EntriesWithout(rs, 0);
    assert rs[..0] + rs[0 + 1..] == rs[1..];
  }

  lemma EntriesWithout(rs: seq<Relay>, k: nat)
    requires k < |rs|
    ensures multiset(Entries(rs)) == multiset(Entries(rs[..k] + rs[k + 1..])) + multiset{EntryOf(rs[k])}
  {
    var es := Entries(rs);
    assert Entries(rs[..k] + rs[k + 1..]) == es[..k] + es[k + 1..];
    Counting.Without(es, k);
  }

  lemma OneWithId(all: seq<Relay>, r: Relay, q: Relay)
    requires DistinctIds(Entries(all)) && r in all && q in all && r.id == q.id
    ensures r == q
  {
    var a :| 0 <= a < |all| && all[a] == r;
    var b :| 0 <= b < |all| && all[b] == q;
    assert Entries(all)[a].id == Entries(all)[b].id;
  }

  // ---- Serialisation ----

  /** `x >> 8 * i`. */
  function Shift(x: nat, i: nat): nat {
    if i == 0 then x else Shift(x, i - 1) / 256
  }

  /** The `k` low bytes of `x`, most significant first. */
  function BigEndian(x: nat, k: nat): (r: Octets)
    ensures |r| == k
  {
    if k == 0 then [] else BigEndian(x / 256, k - 1) + [x % 256]
  }

  function Pow256(k: nat): nat {
    if k == 0 then 1 else 256 * Pow256(k - 1)
  }

  lemma {:induction false} BigEndianInjective(x: nat, y: nat, k: nat)
    requires x < Pow256(k) && y < Pow256(k) && BigEndian(x, k) == BigEndian(y, k)
    ensures x == y
  {
    if k > 0 {
      var a, b := BigEndian(x, k), BigEndian(y, k);
      assert a[k - 1] == x % 256 && b[k - 1] == y % 256;
      assert a[..k - 1] == BigEndian(x / 256, k - 1) && b[..k - 1] == BigEndian(y / 256, k - 1);
      BigEndianInjective(x / 256, y / 256, k - 1);
    }
  }

  /** The number that bytes stand for, most significant first. */
  function ValueOf(b: Octets): nat {
    if b == [] then 0 else ValueOf(b[..|b| - 1]) * 256 + b[|b| - 1]
  }

  lemma {:induction false} BigEndianReads(x: nat, k: nat)
    requires x < Pow256(k)
    ensures ValueOf(BigEndian(x, k)) == x
  {
    if k > 0 {
      BigEndianReads(x / 256, k - 1);
      assert BigEndian(x, k)[..k - 1] == BigEndian(x / 256, k - 1);
    }
  }

  function Lines(es: seq<Entry>): (r: Octets)
    ensures |r| == 40 * |es|
  {
    if es == [] then [] else Lines(es[..|es| - 1]) + es[|es| - 1].id + BigEndian(es[|es| - 1].bandwidth, 8)
  }

  function Header(t: Times, n: nat): (r: Octets)
    ensures |r| == 28
  {
    BigEndian(t.validAfter, 8) + BigEndian(t.freshUntil, 8) + BigEndian(t.validUntil, 8) + BigEndian(n, 4)
  }

  function Body(t: Times, es: seq<Entry>): Octets {
    Header(t, |es|) + Lines(es)
  }

  ghost predicate Fits(t: Times, es: seq<Entry>) {
    t.validAfter < U64 && t.freshUntil < U64 && t.validUntil < U64 && forall i :: 0 <= i < |es| ==>
      es[i].bandwidth < U64
  }

  lemma Pow256Values()
    ensures Pow256(4) == 0x1_0000_0000 && Pow256(8) == U64
  {
    assert Pow256(2) == 0x1_0000 && Pow256(4) == 256 * Pow256(3) && Pow256(6) == 256 * Pow256(5);
    assert Pow256(8) == 256 * Pow256(7);
  }

  /** Where everything stands in the body: three times of eight bytes, the number of relays in four, then per
      relay its identity in 32 bytes and its bandwidth in eight. */
  lemma BodyReads(t: Times, es: seq<Entry>, i: nat)
    requires Fits(t, es) && i < |es| < 0x1_0000_0000
    ensures var b := Body(t, es);
            && |b| == 28 + 40 * |es|
            && ValueOf(b[..8]) == t.validAfter && ValueOf(b[8..16]) == t.freshUntil
            && ValueOf(b[16..24]) == t.validUntil && ValueOf(b[24..28]) == |es|
            && b[28 + 40 * i..60 + 40 * i] == es[i].id && ValueOf(b[60 + 40 * i..68 + 40 * i]) == es[i].bandwidth
  {
    hide BigEndian, Lines, ValueOf;
    var b := Body(t, es);
    Pow256Values();
    var h := Header(t, |es|);
    assert b[..8] == h[..8] == BigEndian(t.validAfter, 8) && b[8..16] == h[8..16] == BigEndian(t.freshUntil, 8);
    assert b[16..24] == h[16..24] == BigEndian(t.validUntil, 8) && b[24..28] == h[24..28] == BigEndian(|es|, 4);
    BigEndianReads(t.validAfter, 8);
    BigEndianReads(t.freshUntil, 8);
    BigEndianReads(t.validUntil, 8);
    BigEndianReads(|es|, 4);
    LineAt(es, i);
    var l := Lines(es);
    assert b[28 + 40 * i..60 + 40 * i] == l[40 * i..40 * i + 32];
    assert b[60 + 40 * i..68 + 40 * i] == l[40 * i + 32..40 * i + 40];
    BigEndianReads(es[i].bandwidth, 8);
  }

  lemma {:induction false} LineAt(es: seq<Entry>, i: nat)
    requires i < |es|
    ensures Lines(es)[40 * i..40 * i + 32] == es[i].id
    ensures Lines(es)[40 * i + 32..40 * i + 40] == BigEndian(es[i].bandwidth, 8)
  {
    hide BigEndian;
    var n := |es| - 1;
    var l, init := Lines(es), Lines(es[..n]);
    if i < n {
      LineAt(es[..n], i);
      assert l[40 * i..40 * i + 32] == init[40 * i..40 * i + 32];
      assert l[40 * i + 32..40 * i + 40] == init[40 * i + 32..40 * i + 40];
    }
  }

  /** Equal bodies say the same: same timestamps, same ordered list of identities and bandwidths. */
  lemma BodyInjective(t: Times, xs: seq<Entry>, u: Times, ys: seq<Entry>)
    requires Fits(t, xs) && Fits(u, ys) && Body(t, xs) == Body(u, ys)
    ensures t == u && xs == ys
  {
    hide BigEndian, Lines;
    var a, b := Body(t, xs), Body(u, ys);
    assert |a| == 28 + 40 * |xs| && |b| == 28 + 40 * |ys|;
    assert a[..28] == Header(t, |xs|) && b[..28] == Header(u, |ys|);
    HeaderInjective(t, u, |xs|);
    assert a[28..] == Lines(xs) && b[28..] == Lines(ys);
    LinesInjective(xs, ys);
  }

  lemma HeaderInjective(t: Times, u: Times, n: nat)
    requires Header(t, n) == Header(u, n) && Fits(t, []) && Fits(u, [])
    ensures t == u
  {
    hide BigEndian;
    var a, b := Header(t, n), Header(u, n);
    assert a[..8] == BigEndian(t.validAfter, 8) && b[..8] == BigEndian(u.validAfter, 8);
    assert a[8..16] == BigEndian(t.freshUntil, 8) && b[8..16] == BigEndian(u.freshUntil, 8);
    assert a[16..24] == BigEndian(t.validUntil, 8) && b[16..24] == BigEndian(u.validUntil, 8);
    BigEndianInjective(t.validAfter, u.validAfter, 8);
    BigEndianInjective(t.freshUntil, u.freshUntil, 8);
    BigEndianInjective(t.validUntil, u.validUntil, 8);
  }

  lemma {:induction false} LinesInjective(xs: seq<Entry>, ys: seq<Entry>)
    requires |xs| == |ys| && Lines(xs) == Lines(ys)
    requires forall i :: 0 <= i < |xs| ==> xs[i].bandwidth < U64 && ys[i].bandwidth < U64
    ensures xs == ys
    decreases |xs|
  {
    if |xs| > 0 {
      var n := |xs| - 1;
      var a, b := Lines(xs), Lines(ys);
      assert a[..40 * n] == Lines(xs[..n]) && b[..40 * n] == Lines(ys[..n]);
      assert a[40 * n..40 * n + 32] == xs[n].id && b[40 * n..40 * n + 32] == ys[n].id;
      assert a[40 * n + 32..] == BigEndian(xs[n].bandwidth, 8) && b[40 * n + 32..] == BigEndian(ys[n].bandwidth, 8);
      BigEndianInjective(xs[n].bandwidth, ys[n].bandwidth, 8);
      LinesInjective(xs[..n], ys[..n]);
      assert xs == xs[..n] + [xs[n]] && ys == ys[..n] + [ys[n]];
    }
  }

  // ---- The authority ----

  /** Not heard of for more than three intervals. */
  predicate Stale(r: Relay, now: nat) {
    var seen := if r.lastRegistered == 0 then r.published else r.lastRegistered;
    now > seen && now - seen > 3 * INTERVAL
  }

  /** Exactly the relays last heard of more than three hours ago are stale; those that never registered here count
      from their publication. */
  lemma StaleIff(r: Relay, now: nat)
    ensures r.lastRegistered > 0 ==> (Stale(r, now) <==> now > r.lastRegistered + 10800)
    ensures r.lastRegistered == 0 ==> (Stale(r, now) <==> now > r.published + 10800)
  {
  }

  ghost function Ids(rs: seq<Relay>): set<Id> {
    set r | r in rs :: r.id
  }

  /** Relays with distinct identities are no more than the identities. */
  lemma FewIds(rs: seq<Relay>, all: set<Id>)
    requires DistinctIds(Entries(rs)) && Ids(rs) <= all
    ensures |rs| <= |all|
  {
    var ids := seq(|rs|, i requires 0 <= i < |rs| => rs[i].id);
    forall i, j | 0 <= i < j < |rs| ensures ids[i] != ids[j] {
      assert Entries(rs)[i].id != Entries(rs)[j].id;
    }
    Counting.Pigeonhole(ids, all);
  }

  /** A relay not listed yet leaves room for itself. */
  lemma RoomForNew(rs: seq<Relay>, d: Relay, all: set<Id>)
    requires DistinctIds(Entries(rs)) && Ids(rs) <= all && d.id in all && d.id !in Ids(rs)
    ensures |rs| < |all|
  {
    assert Ids(rs) <= all - {d.id};
    FewIds(rs, all - {d.id});
    assert |all - {d.id}| == |all| - 1;
  }

  lemma {:induction false} IdsFew(rs: seq<Relay>)
    ensures |Ids(rs)| <= |rs|
  {
    if rs != [] {
      var init, r := rs[..|rs| - 1], rs[|rs| - 1];
      IdsFew(init);
      IdsMore(init, r);
      assert rs == init + [r];
    }
  }

  lemma IdsMore(rs: seq<Relay>, r: Relay)
    ensures Ids(rs + [r]) == Ids(rs) + {r.id}
  {
    assert forall q :: q in rs + [r] <==> q in rs || q == r;
  }

  // ---- Bootstrap import ----

  function HasId(id: Id): Relay -> bool {
    (r: Relay) => r.id == id
  }

  /** The relays after importing a descriptor into an array of `slots` slots: a newer one replaces the old,
      a new relay goes to the next slot. None if that slot is beyond the array: only the largest number
      of relays is tested, not the size of the array. */
  function Imported(rs: seq<Relay>, slots: nat, d: Relay): Option<seq<Relay>> {
    var k := Counting.First(rs, HasId(d.id));
    if k < |rs| then Some(if d.published > rs[k].published then rs[k := d] else rs)
    else if |rs| >= MAX_RELAYS then Some(rs)
    else if |rs| < slots then Some(rs + [d])
    else None
  }

  /** A listed relay is replaced by a later descriptor only; a relay that is new is appended. */
  lemma ImportedIs(rs: seq<Relay>, slots: nat, d: Relay, k: nat)
    requires DistinctIds(Entries(rs))
    ensures k < |rs| && rs[k].id == d.id ==>
      Imported(rs, slots, d) == Some(if d.published <= rs[k].published then rs else rs[k := d])
    ensures d.id !in Ids(rs) && |rs| < slots <= MAX_RELAYS ==> Imported(rs, slots, d) == Some(rs + [d])
  {
    var i := Counting.First(rs, HasId(d.id));
    assert i < |rs| ==> HasId(d.id)(rs[i]);
    assert k < i ==> !HasId(d.id)(rs[k]);
    assert Entries(rs)[..] == Entries(rs);
  }

  /** The relays after importing the descriptors `ds`, None if one of them is written beyond the array. */
  function Imports(rs: seq<Relay>, slots: nat, ds: seq<Relay>): Option<seq<Relay>> {
    if ds == [] then Some(rs)
    else
      var r := Imports(rs, slots, ds[..|ds| - 1]);
      if r.None? then None else Imported(r.value, slots, ds[|ds| - 1])
  }

  /** One import stays inside the array exactly if the relay is listed, or there is a slot left, or the
      table is at its limit, which refuses the relay. */
  lemma InsideIff(rs: seq<Relay>, slots: nat, d: Relay)
    requires |rs| <= slots <= MAX_RELAYS
    ensures Imported(rs, slots, d).Some? <==> d.id in Ids(rs) || |rs| < slots || |rs| == MAX_RELAYS
  {
    var k := Counting.First(rs, HasId(d.id));
    assert forall i :: 0 <= i < k ==> !HasId(d.id)(rs[i]);
    assert k < |rs| ==> HasId(d.id)(rs[k]);
  }

  /** What imports leave lists the relays there were and those imported, each once. */
  lemma {:induction false} ImportsIds(rs: seq<Relay>, slots: nat, ds: seq<Relay>)
    requires DistinctIds(Entries(rs)) && |rs| <= slots <= MAX_RELAYS
    ensures match Imports(rs, slots, ds)
            case Some(qs) =>
              && DistinctIds(Entries(qs)) && |qs| <= slots
              && (slots < MAX_RELAYS ==> Ids(qs) == Ids(rs) + Ids(ds))
            case None => slots < MAX_RELAYS && |Ids(rs) + Ids(ds)| > slots
  {
    hide Imported, Ids, DistinctIds;
    if ds == [] {
      assert Ids([]) == {} by { IdsNone(); }
    } else {
      var init, d := ds[..|ds| - 1], ds[|ds| - 1];
      ImportsIds(rs, slots, init);
      IdsMore(init, d);
      assert ds == init + [d];
      var r := Imports(rs, slots, init);
      if r.None? {
        Counting.Subset(Ids(rs) + Ids(init), Ids(rs) + Ids(ds));
      } else {
        ImportedIds(r.value, slots, d);
        assert slots < MAX_RELAYS ==> Ids(rs) + Ids(ds) == Ids(r.value) + {d.id};
        FewIds(r.value, Ids(r.value));
      }
    }
  }

  lemma IdsNone()
    ensures Ids([]) == {}
  {
  }

  lemma ImportedIds(rs: seq<Relay>, slots: nat, d: Relay)
    requires DistinctIds(Entries(rs)) && |rs| <= slots <= MAX_RELAYS
    ensures match Imported(rs, slots, d)
            case Some(qs) =>
              && DistinctIds(Entries(qs)) && |qs| <= slots
              && (slots < MAX_RELAYS ==> Ids(qs) == Ids(rs) + {d.id})
            case None => |rs| == slots < MAX_RELAYS && d.id !in Ids(rs)
  {
    InsideIff(rs, slots, d);
    if Imported(rs, slots, d).Some? { ImportedDistinct(rs, slots, d); }
    var k := Counting.First(rs, HasId(d.id));
    assert k < |rs| ==> HasId(d.id)(rs[k]);
    if k < |rs| {
      SameIds(rs, k, d);
    } else if |rs| < slots {
      IdsMore(rs, d);
    }
  }

  lemma ImportedDistinct(rs: seq<Relay>, slots: nat, d: Relay)
    requires DistinctIds(Entries(rs)) && Imported(rs, slots, d).Some?
    ensures DistinctIds(Entries(Imported(rs, slots, d).value))
  {
    var k := Counting.First(rs, HasId(d.id));
    assert forall i :: 0 <= i < k ==> !HasId(d.id)(rs[i]);
    assert k < |rs| ==> HasId(d.id)(rs[k]);
    forall i, j | 0 <= i < j < |rs| ensures rs[i].id != rs[j].id {
      assert Entries(rs)[i].id != Entries(rs)[j].id;
    }
  }

  lemma SameIds(rs: seq<Relay>, k: nat, d: Relay)
    requires k < |rs| && rs[k].id == d.id
    ensures d.id in Ids(rs) && Ids(rs[k := d]) == Ids(rs)
  {
    assert rs[k] in rs;
    forall id | id in Ids(rs) ensures id in Ids(rs[k := d]) {
      var i :| 0 <= i < |rs| && rs[i].id == id;
      assert rs[k := d][i].id == id && rs[k := d][i] in rs[k := d];
    }
  }

  /** A run of imports stays inside the array exactly if the relays, listed and imported, are no more than
      its slots, or it has all the slots there can be. */
  lemma ImportsInsideIff(rs: seq<Relay>, slots: nat, ds: seq<Relay>)
    requires DistinctIds(Entries(rs)) && |rs| <= slots <= MAX_RELAYS
    ensures Imports(rs, slots, ds).Some? <==> |Ids(rs) + Ids(ds)| <= slots || slots == MAX_RELAYS
  {
    ImportsIds(rs, slots, ds);
    var r := Imports(rs, slots, ds);
    if r.Some? { IdsFew(r.value); }
  }

  /** No relay has published two descriptors at the same time. */
  ghost predicate Unambiguous(ds: seq<Relay>) {
    forall q, r :: q in ds && r in ds && q.id == r.id && q.published == r.published ==> q == r
  }

  ghost predicate Latest(r: Relay, ds: seq<Relay>) {
    r in ds && forall q :: q in ds && q.id == r.id ==> q.published <= r.published
  }

  /** What a run of imports leaves is the latest descriptor of every relay, if they stay inside. */
  lemma {:induction false} ImportsLatest(slots: nat, ds: seq<Relay>)
    requires Unambiguous(ds) && |Ids(ds)| <= slots <= MAX_RELAYS
    ensures var r := Imports([], slots, ds);
            r.Some? && DistinctIds(Entries(r.value)) && forall q :: q in r.value <==> Latest(q, ds)
  {
    hide Imported, DistinctIds;
    assert Ids([]) + Ids(ds) == Ids(ds);
    NoneDistinct();
    ImportsInsideIff([], slots, ds);
    ImportsIds([], slots, ds);
    if ds != [] {
      var init, d := ds[..|ds| - 1], ds[|ds| - 1];
      assert ds == init + [d];
      Counting.Subset(Ids(init), Ids(ds));
      ImportsLatest(slots, init);
      forall r ensures r in Imports([], slots, ds).value <==> Latest(r, ds) { ImportedLatest(slots, init, d, r); }
    }
  }

  lemma NoneDistinct()
    ensures DistinctIds(Entries([]))
  {
  }

  lemma ImportedLatest(slots: nat, init: seq<Relay>, d: Relay, r: Relay)
    requires Unambiguous(init + [d]) && |Ids(init + [d])| <= slots <= MAX_RELAYS
    requires Imports([], slots, init).Some? && DistinctIds(Entries(Imports([], slots, init).value))
    requires forall q :: q in Imports([], slots, init).value <==> Latest(q, init)
    ensures var after := Imported(Imports([], slots, init).value, slots, d);
            after.Some? && (r in after.value <==> Latest(r, init + [d]))
  {
    hide Imports, Unambiguous, DistinctIds;
    var rs := Imports([], slots, init).value;
    var k := Counting.First(rs, HasId(d.id));
    LatestGrows(init, d, r);
    if k < |rs| {
      var c := rs[k];
      assert c in rs && Latest(c, init);
      if r in rs && r.id == d.id { OneWithId(rs, r, c); }
      SamePublished(init, d, c);
      if d.published > c.published { InUpdate(rs, k, d, r); }
    } else {
      NoLatest(init, d.id);
      assert forall q :: q in rs ==> q.id != d.id;
      RoomForNew(rs, d, Ids(init + [d]));
    }
  }

  lemma LatestGrows(init: seq<Relay>, d: Relay, r: Relay)
    ensures Latest(r, init + [d]) <==>
      || (r == d && forall q :: q in init && q.id == d.id ==> q.published <= d.published)
      || (Latest(r, init) && (r.id == d.id ==> d.published <= r.published))
  {
    assert forall q :: q in init + [d] <==> q in init || q == d;
  }

  lemma SamePublished(init: seq<Relay>, d: Relay, c: Relay)
    requires Unambiguous(init + [d]) && c in init && c.id == d.id
    ensures c.published == d.published ==> c == d
  {
    assert c in init + [d] && d in init + [d];
  }

  lemma InUpdate(rs: seq<Relay>, k: nat, d: Relay, r: Relay)
    requires k < |rs| && DistinctIds(Entries(rs)) && rs[k].id == d.id
    ensures r in rs[k := d] <==> r == d || (r in rs && r.id != d.id)
  {
    if r in rs && r.id != d.id {
      var i :| 0 <= i < |rs| && rs[i] == r;
      assert rs[k := d][i] == r;
    }
    if r in rs[k := d] && r != d {
      var i :| 0 <= i < |rs| && rs[k := d][i] == r;
      assert Entries(rs)[i].id != Entries(rs)[k].id;
    }
    assert rs[k := d][k] == d;
  }

  /** An identity without a latest descriptor has none. */
  lemma {:induction false} NoLatest(ds: seq<Relay>, id: Id)
    ensures (exists q :: q in ds && q.id == id) ==> exists q :: Latest(q, ds) && q.id == id
  {
    if ds != [] {
      var init, d := ds[..|ds| - 1], ds[|ds| - 1];
      assert ds == init + [d];
      NoLatest(init, id);
      if exists q :: Latest(q, init) && q.id == id {
        var q :| Latest(q, init) && q.id == id;
        var best := if d.id == id && d.published > q.published then d else q;
        assert Latest(best, ds);
      } else if d.id == id {
        assert Latest(d, ds);
      }
    }
  }

  /** The same descriptors, imported in any order, end in the same entries, if they stay inside. */
  lemma ImportOrder(slots: nat, ds: seq<Relay>, es: seq<Relay>)
    requires Unambiguous(ds) && |Ids(ds)| <= slots <= MAX_RELAYS && forall r :: r in ds <==> r in es
    ensures var a, b := Imports([], slots, ds), Imports([], slots, es);
            && a.Some? && b.Some? && DistinctIds(Entries(a.value)) && DistinctIds(Entries(b.value))
            && SameEntries(Entries(a.value), Entries(b.value))
  {
    assert Ids(ds) == Ids(es);
    hide Imports;
    ImportsLatest(slots, ds);
    ImportsLatest(slots, es);
    var a, b := Imports([], slots, ds).value, Imports([], slots, es).value;
    forall r ensures r in a <==> r in b { assert Latest(r, ds) <==> Latest(r, es); }
    SameRelays(a, b);
    SameRelays(b, a);
  }

  lemma SameRelays(rs: seq<Relay>, qs: seq<Relay>)
    requires forall r :: r in rs ==> r in qs
    ensures forall e :: e in Entries(rs) ==> e in Entries(qs)
  {
    forall e | e in Entries(rs) ensures e in Entries(qs) {
      var i :| 0 <= i < |rs| && Entries(rs)[i] == e;
      assert rs[i] in qs;
      var k :| 0 <= k < |qs| && qs[k] == rs[i];
      assert Entries(qs)[k] == e;
    }
  }

  // ---- Registration ----

  /** The first listed relay with the identity of `d`, or with its address and port, gives way to it. */
  function ClashesWith(d: Relay): Relay -> bool {
    (r: Relay) => Clash(r, d)
  }

  predicate Clash(r: Relay, d: Relay) {
    r.id == d.id || r.at == d.at
  }

  /** The relays after the registration of `d` at time `now`. */
  function Registered(rs: seq<Relay>, d: Relay, now: nat): seq<Relay> {
    var k := Counting.First(rs, ClashesWith(d));
    if k < |rs| then
      rs[k := d.(firstSeen := if rs[k].id == d.id then rs[k].firstSeen else now, lastRegistered := now)]
    else if |rs| < MAX_RELAYS then rs + [d.(firstSeen := now, lastRegistered := now)]
    else rs
  }

  /** `d` takes over the place of another relay at its address, ahead of its own old place. */
  ghost predicate Displaces(rs: seq<Relay>, d: Relay) {
    exists i, j :: 0 <= i < j < |rs| && rs[i].at == d.at && rs[j].id == d.id
  }

  /** A registration keeps identities distinct exactly if its relay displaces no other. */
  lemma KeepsDistinctIff(rs: seq<Relay>, d: Relay, now: nat)
    requires DistinctIds(Entries(rs))
    ensures DistinctIds(Entries(Registered(rs, d, now))) <==> !Displaces(rs, d)
  {
    var qs := Registered(rs, d, now);
    var k := Counting.First(rs, ClashesWith(d));
    assert forall i :: 0 <= i < k ==> !ClashesWith(d)(rs[i]);
    forall i, j | 0 <= i < j < |rs| ensures rs[i].id != rs[j].id {
      assert Entries(rs)[i].id != Entries(rs)[j].id;
    }
    if Displaces(rs, d) {
      var i, j :| 0 <= i < j < |rs| && rs[i].at == d.at && rs[j].id == d.id;
      assert ClashesWith(d)(rs[i]);
      assert Entries(qs)[k].id == Entries(qs)[j].id;
    } else if k < |rs| {
      assert Clash(rs[k], d) && forall j :: k < j < |rs| && rs[k].at == d.at ==> rs[j].id != d.id;
    }
  }

  /** A relay that registers again keeps its place and the time it was first seen; one that is new, or takes an
      address over, was first seen now. All other relays stay as they were. */
  lemma FirstSeenKept(rs: seq<Relay>, d: Relay, now: nat, k: nat)
    requires k < |rs| && Clash(rs[k], d) && forall i :: 0 <= i < k ==> !Clash(rs[i], d)
    ensures var qs := Registered(rs, d, now);
            && |qs| == |rs| && (forall i :: 0 <= i < |rs| && i != k ==> qs[i] == rs[i])
            && qs[k] == Relay(d.id, d.at, d.bandwidth, d.published, qs[k].firstSeen, now)
            && qs[k].firstSeen == (if rs[k].id == d.id then rs[k].firstSeen else now)
  {
    var j := Counting.First(rs, ClashesWith(d));
    assert ClashesWith(d)(rs[k]) && forall i :: 0 <= i < k ==> !ClashesWith(d)(rs[i]);
    assert j == k;
  }

  /** A relay that comes back at another relay's address is then listed twice. */
  lemma ListedTwice(a: Relay, b: Relay, c: Relay, now: nat)
    requires !Clash(b, a) && c.id == b.id && c.at == a.at
    ensures var rs := Registrations([(a, now), (b, now), (c, now)]);
            |rs| == 2 && rs[0].id == rs[1].id == b.id && !DistinctIds(Entries(rs))
  {
    var all := [(a, now), (b, now), (c, now)];
    var one := Registrations([(a, now)]);
    var a' := a.(firstSeen := now, lastRegistered := now);
    assert Registrations([]) == [] && [(a, now)][..0] == [];
    assert one == [a'];
    assert all[..2] == [(a, now), (b, now)] && [(a, now), (b, now)][..1] == [(a, now)];
    var two := Registrations(all[..2]);
    assert !ClashesWith(b)(one[0]);
    assert |two| == 2 && two[0] == a' && two[1].id == b.id;
    assert ClashesWith(c)(two[0]);
    var rs := Registrations(all);
    assert Entries(rs)[0].id == Entries(rs)[1].id;
  }

  /** The relays after the registrations `ds`, each with its time. */
  function Registrations(ds: seq<(Relay, nat)>): seq<Relay> {
    if ds == [] then []
    else Registered(Registrations(ds[..|ds| - 1]), ds[|ds| - 1].0, ds[|ds| - 1].1)
  }

  /** Descriptors of `pool` that clash say the same. */
  ghost predicate Harmonious(pool: set<Relay>) {
    forall d, e :: d in pool && e in pool && Clash(d, e) ==> EntryOf(d) == EntryOf(e)
  }

  ghost predicate Drawn(ds: seq<(Relay, nat)>, pool: set<Relay>) {
    forall i :: 0 <= i < |ds| ==> ds[i].0 in pool
  }

  ghost predicate From(r: Relay, pool: set<Relay>) {
    exists d :: d in pool && EntryOf(r) == EntryOf(d) && r.at == d.at
  }

  ghost predicate AllFrom(rs: seq<Relay>, pool: set<Relay>) {
    forall i :: 0 <= i < |rs| ==> From(rs[i], pool)
  }

  ghost function PoolIds(pool: set<Relay>): set<Id> {
    set d | d in pool :: d.id
  }

  lemma RegisteredHarmonious(rs: seq<Relay>, d: Relay, now: nat, pool: set<Relay>)
    requires Harmonious(pool) && |PoolIds(pool)| <= MAX_RELAYS && d in pool
    requires AllFrom(rs, pool) && DistinctIds(Entries(rs))
    ensures var qs := Registered(rs, d, now);
            && AllFrom(qs, pool) && DistinctIds(Entries(qs))
            && forall e :: e in Entries(qs) <==> e in Entries(rs) || e == EntryOf(d)
  {
    var k := Counting.First(rs, ClashesWith(d));
    var qs := Registered(rs, d, now);
    if k < |rs| {
      assert ClashesWith(d)(rs[k]) && From(rs[k], pool);
      assert From(qs[k], pool);
      assert Entries(qs) == Entries(rs);
      assert Entries(rs)[k] == EntryOf(d);
    } else {
      assert forall i :: 0 <= i < |rs| ==> !ClashesWith(d)(rs[i]);
      forall i | 0 <= i < |rs| ensures rs[i].id in PoolIds(pool) { assert From(rs[i], pool); }
      RoomForNew(rs, d, PoolIds(pool));
      assert From(qs[|rs|], pool);
      assert Entries(qs) == Entries(rs) + [EntryOf(d)];
    }
  }

  /** Without disharmony, every relay is listed once, as its descriptors say. */
  lemma {:induction false} RegisteredOnce(ds: seq<(Relay, nat)>, pool: set<Relay>)
    requires Harmonious(pool) && |PoolIds(pool)| <= MAX_RELAYS && Drawn(ds, pool)
    ensures AllFrom(Registrations(ds), pool) && DistinctIds(Entries(Registrations(ds)))
    ensures forall e :: e in Entries(Registrations(ds)) <==> exists i :: 0 <= i < |ds| && EntryOf(ds[i].0) == e
  {
    hide Harmonious, From, Registered;
    if ds != [] {
      var init, last := ds[..|ds| - 1], ds[|ds| - 1];
      RegisteredOnce(init, pool);
      RegisteredHarmonious(Registrations(init), last.0, last.1, pool);
      forall e ensures e in Entries(Registrations(ds)) <==> exists i :: 0 <= i < |ds| && EntryOf(ds[i].0) == e {
        if e in Entries(Registrations(init)) {
          var i :| 0 <= i < |init| && EntryOf(init[i].0) == e;
          assert EntryOf(ds[i].0) == e;
        }
        if i :| 0 <= i < |ds| && EntryOf(ds[i].0) == e {
          if i < |init| { assert EntryOf(init[i].0) == e; }
        }
      }
    }
  }

  ghost function Descriptors(ds: seq<(Relay, nat)>): set<Relay> {
    set i | 0 <= i < |ds| :: ds[i].0
  }

  /** Any two runs of the same descriptors from `pool` end in the same entries. */
  ghost predicate OrderFree(pool: set<Relay>) {
    forall ds, es :: Drawn(ds, pool) && Drawn(es, pool) && Descriptors(ds) == Descriptors(es) ==>
      SameEntries(Entries(Registrations(ds)), Entries(Registrations(es)))
  }

  /** The order of arrival does not matter exactly if descriptors that share an identity or an address
      say the same. */
  lemma OrderFreeIff(pool: set<Relay>)
    requires |PoolIds(pool)| <= MAX_RELAYS
    ensures OrderFree(pool) <==> Harmonious(pool)
  {
    hide Registrations, Entries, SameEntries;
    if Harmonious(pool) {
      forall ds, es | Drawn(ds, pool) && Drawn(es, pool) && Descriptors(ds) == Descriptors(es)
        ensures SameEntries(Entries(Registrations(ds)), Entries(Registrations(es)))
      {
        HarmoniousOrderFree(ds, es, pool);
      }
    } else {
      var d, e :| d in pool && e in pool && Clash(d, e) && EntryOf(d) != EntryOf(e);
      OrderMatters(d, e, pool);
    }
  }

  lemma HarmoniousOrderFree(ds: seq<(Relay, nat)>, es: seq<(Relay, nat)>, pool: set<Relay>)
    requires Harmonious(pool) && |PoolIds(pool)| <= MAX_RELAYS
    requires Drawn(ds, pool) && Drawn(es, pool) && Descriptors(ds) == Descriptors(es)
    ensures SameEntries(Entries(Registrations(ds)), Entries(Registrations(es)))
  {
    hide Harmonious, Registrations, Entries, Descriptors;
    OrderFreeHalf(ds, es, pool);
    OrderFreeHalf(es, ds, pool);
  }

  /** Of two descriptors that clash the last to arrive stays. */
  lemma OrderMatters(d: Relay, e: Relay, pool: set<Relay>)
    requires d in pool && e in pool && Clash(d, e) && EntryOf(d) != EntryOf(e)
    ensures !OrderFree(pool)
  {
    hide Registrations, Entries, Descriptors;
    var ds, es := [(d, 0), (e, 0)], [(e, 0), (d, 0)];
    LastWins(d, e);
    LastWins(e, d);
    TwoDescriptors(d, e);
    TwoDescriptors(e, d);
    assert Drawn(ds, pool) && Drawn(es, pool);
    assert EntryOf(e) in Entries(Registrations(ds));
    assert !SameEntries(Entries(Registrations(ds)), Entries(Registrations(es)));
  }

  lemma OrderFreeHalf(ds: seq<(Relay, nat)>, es: seq<(Relay, nat)>, pool: set<Relay>)
    requires Harmonious(pool) && |PoolIds(pool)| <= MAX_RELAYS
    requires Drawn(ds, pool) && Drawn(es, pool) && Descriptors(ds) == Descriptors(es)
    ensures forall e :: e in Entries(Registrations(ds)) ==> e in Entries(Registrations(es))
  {
    hide Harmonious, Registrations;
    RegisteredOnce(ds, pool);
    RegisteredOnce(es, pool);
    forall e | e in Entries(Registrations(ds)) ensures e in Entries(Registrations(es)) {
      var i :| 0 <= i < |ds| && EntryOf(ds[i].0) == e;
      assert ds[i].0 in Descriptors(es);
      var j :| 0 <= j < |es| && es[j].0 == ds[i].0;
      assert EntryOf(es[j].0) == e;
    }
  }

  lemma TwoDescriptors(d: Relay, e: Relay)
    ensures Descriptors([(d, 0), (e, 0)]) == {d, e}
  {
    var ds := [(d, 0), (e, 0)];
    assert ds[0].0 in Descriptors(ds) && ds[1].0 in Descriptors(ds);
  }

  lemma LastWins(d: Relay, e: Relay)
    requires Clash(d, e)
    ensures Entries(Registrations([(d, 0), (e, 0)])) == [EntryOf(e)]
  {
    var both := [(d, 0), (e, 0)];
    assert both[..1] == [(d, 0)] && [(d, 0)][..0] == [] && Registrations([]) == [];
    var one := Registrations(both[..1]);
    assert one == Registered([], d, 0);
    assert |one| == 1 && EntryOf(one[0]) == EntryOf(d) && one[0].at == d.at;
    assert ClashesWith(e)(one[0]);
  }

  // ---- Eviction ----

  ghost predicate Kept(rs: seq<Relay>, before: seq<Relay>, now: nat) {
    forall r :: multiset(rs)[r] == if Stale(r, now) then 0 else multiset(before)[r]
  }

  /** The relays that are not stale are the same. */
  ghost predicate FreshAlike(rs: seq<Relay>, before: seq<Relay>, now: nat) {
    forall r :: !Stale(r, now) ==> multiset(rs)[r] == multiset(before)[r]
  }

  const BLANK := Relay(seq(32, _ => 0), Address("", 0), 0, 0, 0, 0)

  lemma AllAlike(rs: seq<Relay>, now: nat)
    ensures FreshAlike(rs, rs, now)
  {
  }

  lemma Shrinks(s: seq<Relay>, before: seq<Relay>, i: nat, now: nat)
    requires i < |s| && Stale(s[i], now) && FreshAlike(s, before, now)
    ensures FreshAlike(s[i := s[|s| - 1]][..|s| - 1], before, now)
  {
    Counting.RemoveAt(s, i);
  }

  /** An import stores or keeps a descriptor, finds the table at its limit, or writes beyond the array. */
  datatype ImportResult = Stored | Refused | Outside

  class Directory {
    var relays: array<Relay>
    var num: nat
    var times: Times

    ghost predicate Valid()
      reads `num, `relays
    {
      num <= relays.Length <= MAX_RELAYS
    }

    /** moor_da_init. */
    constructor ()
      ensures Valid() && fresh(relays) && num == 0 && relays.Length == FIRST_SLOTS
    {
      relays := new Relay[FIRST_SLOTS](_ => BLANK);
      num, times := 0, Times(0, 0, 0);
    }

    /** The insertion part of moor_da_add_relay_trusted. What follows a write beyond the array is not
        modelled: the directory is left as it was. */
    method Import(d: Relay) returns (r: ImportResult)
      requires Valid()
      modifies `num, relays
      ensures Valid() && (r == Outside <==> Imported(old(relays[..num]), relays.Length, d).None?)
      ensures Some(relays[..num]) == if r == Outside then Some(old(relays[..num]))
        else Imported(old(relays[..num]), relays.Length, d)
      ensures r == Refused <==> old(num) == MAX_RELAYS && d.id !in Ids(old(relays[..num]))
    {
      ghost var before := relays[..num];
      InsideIff(before, relays.Length, d);
      var k := Find(d.id);
      if k < num {
        assert HasId(d.id)(before[k]) && before[k] in before;
        if d.published > relays[k].published {
          relays[k] := d;
          assert relays[..num] == before[k := d];
        }
        return Stored;
      }
      assert forall i :: 0 <= i < num ==> !HasId(d.id)(before[i]);
      if num >= MAX_RELAYS { return Refused; }
      if num >= relays.Length { return Outside; }
      relays[num] := d;
      num := num + 1;
      assert relays[..num] == before + [d];
      return Stored;
    }

    /** The registration loop and insertion of da_add_relay_unlocked, for a descriptor that passed its
        checks. */
    method Register(d: Relay, now: nat) returns (ok: bool)
      requires Valid()
      modifies `num, `relays, relays
      ensures Valid() && relays[..num] == Registered(old(relays[..num]), d, now)
      ensures (relays == old(relays) || fresh(relays)) && old(relays.Length) <= relays.Length
      ensures ok <==> old(num) < MAX_RELAYS || exists i :: 0 <= i < old(num) && Clash(old(relays[i]), d)
    {
      ghost var before := relays[..num];
      ghost var k := Counting.First(before, ClashesWith(d));
      for i := 0 to num
        invariant i <= k && unchanged(this, relays)
      {
        assert ClashesWith(d)(before[i]) <==> Clash(relays[i], d);
        if relays[i].id == d.id {
          var firstSeen := relays[i].firstSeen;
          relays[i] := d.(firstSeen := firstSeen, lastRegistered := now);
          assert relays[..num] == before[i := relays[i]];
          return true;
        }
        if relays[i].at == d.at {
          relays[i] := d.(firstSeen := now, lastRegistered := now);
          assert relays[..num] == before[i := relays[i]];
          return true;
        }
      }
      assert forall i :: 0 <= i < num ==> !ClashesWith(d)(before[i]);
      if num >= MAX_RELAYS { return false; }
      if num >= relays.Length { Grow(); }
      relays[num] := d.(firstSeen := now, lastRegistered := now);
      num := num + 1;
      assert relays[..num] == before + [relays[num - 1]];
      return true;
    }

    /** The growth of a full array: twice the slots, at least 256, at most the limit. */
    method Grow()
      requires Valid() && num == relays.Length < MAX_RELAYS
      modifies `relays
      ensures Valid() && num < relays.Length && fresh(relays) && relays[..num] == old(relays[..num])
    {
      var slots := relays.Length * 2;
      if slots > MAX_RELAYS { slots := MAX_RELAYS; }
      if slots < FIRST_SLOTS { slots := FIRST_SLOTS; }
      var grown := new Relay[slots](_ => BLANK);
      for i := 0 to num
        invariant relays == old(relays) && grown[..i] == relays[..i]
      {
        grown[i] := relays[i];
      }
      relays := grown;
    }

    method Find(id: Id) returns (k: nat)
      requires Valid()
      ensures k == Counting.First(relays[..num], HasId(id))
    {
      k := 0;
      while k < num && relays[k].id != id
        invariant k <= num && forall i :: 0 <= i < k ==> relays[i].id != id
      {
        k := k + 1;
      }
    }

    /** The eviction loop: swap with the last and shrink, look at the same place again. */
    method Evict(now: nat)
      requires Valid()
      modifies `num, relays
      ensures num <= old(num) && Kept(relays[..num], old(relays[..num]), now)
    {
      hide Stale, FreshAlike;
      ghost var before := relays[..num];
      AllAlike(before, now);
      var i := 0;
      while i < num
        invariant i <= num <= old(num)
        invariant forall k :: 0 <= k < i ==> !Stale(relays[k], now)
        invariant FreshAlike(relays[..num], before, now)
        decreases num - i
      {
        if Stale(relays[i], now) {
          ghost var s := relays[..num];
          Shrinks(s, before, i, now);
          relays[i] := relays[num - 1];
          num := num - 1;
          assert relays[..num] == s[i := s[|s| - 1]][..|s| - 1];
        } else {
          i := i + 1;
        }
      }
      AllFresh(relays[..num], before, now);
    }

    /** The qsort call. */
    method Sort(sort: seq<Relay> -> seq<Relay>)
      requires Valid() && Sorts(sort)
      modifies relays
      ensures multiset(relays[..num]) == multiset(old(relays[..num])) && Ordered(Entries(relays[..num]))
    {
      if num <= 1 { return; }
      var s := sort(relays[..num]);
      assert |s| == |multiset(s)| == |multiset(relays[..num])| == num;
      for i := 0 to num
        invariant relays[..i] == s[..i]
      {
        relays[i] := s[i];
      }
      assert relays[..num] == s;
    }

    /** The first part of da_build_consensus_unlocked: timestamps, eviction, order. */
    method Build(now: nat, sort: seq<Relay> -> seq<Relay>)
      requires Valid() && Sorts(sort)
      modifies this, relays
      ensures Valid() && times == TimesOf(EpochOf(now))
      ensures Kept(relays[..num], old(relays[..num]), now) && Ordered(Entries(relays[..num]))
    {
      hide Sorts, Stale, Ordered;
      var epoch := now / INTERVAL * INTERVAL;
      var next := epoch + INTERVAL;
      if next - now <= GRACE { epoch := next; }
      times := Times(epoch, epoch + INTERVAL, epoch + INTERVAL * 3);
      Evict(now);
      Sort(sort);
    }

    /** The bytes the authority then signs. */
    method BuildSigned(now: nat, sort: seq<Relay> -> seq<Relay>) returns (body: Octets)
      requires Valid() && Sorts(sort)
      modifies this, relays
      ensures Valid() && Signs(body, old(relays[..num]), now)
    {
      hide Sorts, Kept, Ordered, Body;
      Build(now, sort);
      body := BuildBody(times, relays[..num]);
    }
  }

  lemma AllFresh(rs: seq<Relay>, before: seq<Relay>, now: nat)
    requires (forall k :: 0 <= k < |rs| ==> !Stale(rs[k], now)) && FreshAlike(rs, before, now)
    ensures Kept(rs, before, now)
  {
    forall r | Stale(r, now) ensures multiset(rs)[r] == 0 { assert r !in rs; }
  }

  /** 257 relays imported into a new directory: the last one is written beyond the array. */
  method ImportsTooMany(ds: seq<Relay>) returns (dir: Directory, r: ImportResult)
    requires |ds| == FIRST_SLOTS + 1 && DistinctIds(Entries(ds))
    ensures fresh(dir) && r == Outside && dir.num == FIRST_SLOTS
  {
    dir := new Directory();
    var i := 0;
    r := Stored;
    while i < |ds|
      invariant 0 <= i <= |ds| && dir.Valid() && dir.relays.Length == FIRST_SLOTS && fresh(dir) && fresh(dir.relays)
      invariant if i < |ds| then dir.relays[..dir.num] == ds[..i] else r == Outside && dir.num == FIRST_SLOTS
    {
      assert ds[..i + 1] == ds[..i] + [ds[i]];
      NotYetListed(ds, i);
      InsideIff(ds[..i], FIRST_SLOTS, ds[i]);
      r := dir.Import(ds[i]);
      i := i + 1;
    }
  }

  lemma NotYetListed(ds: seq<Relay>, i: nat)
    requires i < |ds| && DistinctIds(Entries(ds))
    ensures ds[i].id !in Ids(ds[..i]) && Counting.First(ds[..i], HasId(ds[i].id)) == i
  {
    forall j | 0 <= j < i ensures ds[j].id != ds[i].id { assert Entries(ds)[j].id != Entries(ds)[i].id; }
    assert forall j :: 0 <= j < i ==> !HasId(ds[i].id)(ds[..i][j]);
  }

  // ---- Two authorities ----

  /** `body` is what an authority with the relays `rs` signs at time `now`, for some order of equal
      identities. */
  ghost predicate Signs(body: Octets, rs: seq<Relay>, now: nat) {
    exists kept :: Kept(kept, rs, now) && Ordered(Entries(kept)) && body == Body(TimesOf(EpochOf(now)), Entries(kept))
  }

  /** The relays that are not stale. */
  function Unstale(rs: seq<Relay>, now: nat): seq<Relay> {
    if rs == [] then []
    else
      var init, r := Unstale(rs[..|rs| - 1], now), rs[|rs| - 1];
      if Stale(r, now) then init else init + [r]
  }

  lemma {:induction false} UnstaleKept(rs: seq<Relay>, now: nat)
    ensures Kept(Unstale(rs, now), rs, now)
  {
    hide Stale;
    if rs != [] {
      var init, r := rs[..|rs| - 1], rs[|rs| - 1];
      assert rs == init + [r];
      UnstaleKept(init, now);
    }
  }

  lemma KeptOnce(kept: seq<Relay>, rs: seq<Relay>, now: nat)
    requires Kept(kept, rs, now)
    ensures multiset(kept) == multiset(Unstale(rs, now))
  {
    UnstaleKept(rs, now);
  }

  /** Two authorities sign the same bytes exactly if their clocks, three seconds on, are in the same hour
      and they list the same identities and bandwidths among the relays that are not stale, whatever the
      order and whatever else each knows of them. */
  lemma SameBodyIff(x: Octets, rs: seq<Relay>, a: nat, y: Octets, qs: seq<Relay>, b: nat)
    requires Signs(x, rs, a) && Fits(TimesOf(EpochOf(a)), Entries(rs)) && Consistent(Entries(Unstale(rs, a)))
    requires Signs(y, qs, b) && Fits(TimesOf(EpochOf(b)), Entries(qs))
    ensures x == y <==>
            ((a + GRACE) / INTERVAL == (b + GRACE) / INTERVAL &&
             multiset(Entries(Unstale(rs, a))) == multiset(Entries(Unstale(qs, b))))
  {
    hide Body, Ordered, Consistent, Kept, Fits;
    var t, u := TimesOf(EpochOf(a)), TimesOf(EpochOf(b));
    var k :| Kept(k, rs, a) && Ordered(Entries(k)) && x == Body(t, Entries(k));
    var l :| Kept(l, qs, b) && Ordered(Entries(l)) && y == Body(u, Entries(l));
    SameEpoch(a, b);
    KeptEntries(k, rs, a);
    KeptEntries(l, qs, b);
    KeptFits(t, k, rs, a);
    KeptFits(u, l, qs, b);
    ConsistentPermuted(Entries(Unstale(rs, a)), Entries(k));
    if x == y {
      BodyInjective(t, Entries(k), u, Entries(l));
    } else if EpochOf(a) == EpochOf(b) && multiset(Entries(k)) == multiset(Entries(l)) {
      OneOrder(Entries(k), Entries(l));
      assert false;
    }
  }

  lemma KeptEntries(kept: seq<Relay>, rs: seq<Relay>, now: nat)
    requires Kept(kept, rs, now)
    ensures multiset(Entries(kept)) == multiset(Entries(Unstale(rs, now)))
  {
    KeptOnce(kept, rs, now);
    PermutedEntries(kept, Unstale(rs, now));
  }

  lemma ConsistentPermuted(xs: seq<Entry>, ys: seq<Entry>)
    requires multiset(xs) == multiset(ys) && Consistent(xs)
    ensures Consistent(ys)
  {
    forall i, j | 0 <= i < j < |ys| && ys[i].id == ys[j].id ensures ys[i] == ys[j] {
      SameMembers(ys, xs, ys[i]);
      SameMembers(ys, xs, ys[j]);
      OneEach(xs, ys[i], ys[j]);
    }
  }

  ghost predicate SignsOnly(x: Octets, rs: seq<Relay>, now: nat) {
    forall y :: Signs(y, rs, now) ==> y == x
  }

  /** Relays and clock determine the bytes signed exactly if no identity is listed with two bandwidths:
      the sort leaves the order of equal identities open. */
  lemma OneBodyIff(x: Octets, rs: seq<Relay>, now: nat)
    requires Signs(x, rs, now) && Fits(TimesOf(EpochOf(now)), Entries(rs))
    ensures SignsOnly(x, rs, now) <==> Consistent(Entries(Unstale(rs, now)))
  {
    hide Signs, Consistent, Fits;
    if Consistent(Entries(Unstale(rs, now))) {
      forall y | Signs(y, rs, now) ensures y == x { SameBodyIff(x, rs, now, y, rs, now); }
    } else {
      var y := OtherBody(x, rs, now);
    }
  }

  lemma OtherBody(x: Octets, rs: seq<Relay>, now: nat) returns (y: Octets)
    requires Signs(x, rs, now) && Fits(TimesOf(EpochOf(now)), Entries(rs)) && !Consistent(Entries(Unstale(rs, now)))
    ensures Signs(y, rs, now) && y != x
  {
    hide Body, Fits, Kept, Ordered;
    var t := TimesOf(EpochOf(now));
    var k :| Kept(k, rs, now) && Ordered(Entries(k)) && x == Body(t, Entries(k));
    KeptEntries(k, rs, now);
    if Consistent(Entries(k)) { ConsistentPermuted(Entries(k), Entries(Unstale(rs, now))); }
    var i, j :| 0 <= i < j < |k| && Entries(k)[i].id == Entries(k)[j].id && Entries(k)[i] != Entries(k)[j];
    y := SwapBody(t, k, rs, now, i, j);
  }

  lemma SwapBody(t: Times, k: seq<Relay>, rs: seq<Relay>, now: nat, i: nat, j: nat) returns (y: Octets)
    requires t == TimesOf(EpochOf(now)) && Fits(t, Entries(rs)) && Kept(k, rs, now) && Ordered(Entries(k))
    requires i < j < |k| && k[i].id == k[j].id && EntryOf(k[i]) != EntryOf(k[j])
    ensures Signs(y, rs, now) && y != Body(t, Entries(k))
  {
    hide Body, Fits, Kept, Ordered;
    var l := k[i := k[j]][j := k[i]];
    Swapped(k, rs, now, i, j);
    KeptFits(t, k, rs, now);
    KeptFits(t, l, rs, now);
    y := Body(t, Entries(l));
    assert Entries(k)[i] != Entries(l)[i];
    if Body(t, Entries(k)) == y { BodyInjective(t, Entries(k), t, Entries(l)); }
  }

  lemma Swapped(k: seq<Relay>, rs: seq<Relay>, now: nat, i: nat, j: nat)
    requires Kept(k, rs, now) && Ordered(Entries(k)) && i < j < |k| && k[i].id == k[j].id
    ensures var l := k[i := k[j]][j := k[i]]; Kept(l, rs, now) && Ordered(Entries(l))
  {
    var l := k[i := k[j]][j := k[i]];
    assert multiset(l) == multiset(k);
    forall a, b | 0 <= a < b < |l| ensures !Before(l[b].id, l[a].id) {
      assert !Before(Entries(k)[b].id, Entries(k)[a].id);
    }
  }

  lemma KeptFits(t: Times, kept: seq<Relay>, rs: seq<Relay>, now: nat)
    requires Kept(kept, rs, now) && Fits(t, Entries(rs))
    ensures Fits(t, Entries(kept))
  {
    forall i | 0 <= i < |kept| ensures kept[i].bandwidth < U64 {
      assert kept[i] in multiset(kept);
      assert multiset(rs)[kept[i]] > 0;
      assert kept[i] in rs;
      var j :| 0 <= j < |rs| && rs[j] == kept[i];
      assert Entries(rs)[j].bandwidth < U64;
    }
  }

  // ---- Building the body ----

  /** A number in big-endian form, most significant byte first. */
  method Put(buf: array<Octet>, off: nat, x: nat, k: nat)
    requires off + k <= buf.Length
    modifies buf
    ensures buf[..off + k] == old(buf[..off]) + BigEndian(x, k)
  {
    assert BigEndian(Shift(x, k), 0) == [];
    for i := k downto 0
      invariant buf[..off + k - i] == old(buf[..off]) + BigEndian(Shift(x, i), k - i)
    {
      ghost var done := buf[..off + k - i - 1];
      buf[off + k - i - 1] := Shift(x, i) % 256;
      assert buf[..off + k - i] == done + [Shift(x, i) % 256];
    }
  }

  /** consensus_body_build: the buffer of 48 bytes per relay and 64 more is never too small. */
  method BuildBody(t: Times, rs: seq<Relay>) returns (body: Octets)
    ensures body == Body(t, Entries(rs))
  {
    hide BigEndian, Header;
    var buf := new Octet[|rs| * 48 + 64](_ => 0);
    PutHeader(buf, t, |rs|);
    ghost var es := Entries(rs);
    var off := 28;
    for i := 0 to |rs|
      invariant off == 28 + 40 * i
      invariant buf[..off] == Header(t, |rs|) + Lines(es[..i])
    {
      ghost var before := buf[..off];
      PutId(buf, off, rs[i].id);
      Put(buf, off + 32, rs[i].bandwidth, 8);
      LinesGrow(Header(t, |rs|), es, i);
      off := off + 40;
    }
    assert es[..|rs|] == es;
    body := buf[..off];
  }

  method PutHeader(buf: array<Octet>, t: Times, n: nat)
    requires buf.Length >= 28
    modifies buf
    ensures buf[..28] == Header(t, n)
  {
    hide BigEndian;
    Put(buf, 0, t.validAfter, 8);
    Put(buf, 8, t.freshUntil, 8);
    Put(buf, 16, t.validUntil, 8);
    Put(buf, 24, n, 4);
    assert old(buf[..0]) == [];
  }

  lemma LinesGrow(head: Octets, es: seq<Entry>, i: nat)
    requires i < |es|
    ensures head + Lines(es[..i]) + es[i].id + BigEndian(es[i].bandwidth, 8) == head + Lines(es[..i + 1])
  {
    hide BigEndian;
    assert es[..i + 1][..i] == es[..i];
  }

  method PutId(buf: array<Octet>, off: nat, id: Id)
    requires off + 32 <= buf.Length
    modifies buf
    ensures buf[..off + 32] == old(buf[..off]) + id
  {
    for i := 0 to 32
      invariant buf[..off + i] == old(buf[..off]) + id[..i]
    {
      ghost var done := buf[..off + i];
      buf[off + i] := id[i];
      assert buf[..off + i + 1] == done + [id[i]];
      assert id[..i + 1] == id[..i] + [id[i]];
    }
  }
}
