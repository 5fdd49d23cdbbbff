/** The per-channel circuit multiplexer of src/channel.c: a min-heap of the active circuits on
    their decayed cell counts, with back-pointers from entries to heap positions.
    Cell counts are reals. */
module Circuitmux {
  import Counting

  /** circ == 0 is the NULL circuit. */
  datatype Entry = Entry(circ: nat, count: real, lastTick: nat, queued: nat)

  function Parent(p: int): int {
    (p - 1) / 2
  }

  function Power(scale: real, n: nat): real {
    if n == 0 then 1.0 else Power(scale, n - 1) * scale
  }

  /** The count carried over to `tick`: one factor `scale` per elapsed tick, at most 100 of them. */
  function Decayed(e: Entry, tick: nat, scale: real): Entry {
    if e.lastTick < tick then
      var elapsed := tick - e.lastTick;
      e.(count := e.count * Power(scale, if elapsed < 100 then elapsed else 100), lastTick := tick)
    else e
  }

  lemma {:induction false} PowerAdds(scale: real, a: nat, b: nat)
    ensures Power(scale, a + b) == Power(scale, a) * Power(scale, b)
  {
    if b > 0 {
      PowerAdds(scale, a, b - 1);
      assert Power(scale, a + b) == Power(scale, a + (b - 1)) * scale;
    }
  }

  /** One tick costs one factor. */
  lemma OneTick(e: Entry, scale: real)
    ensures Decayed(e, e.lastTick + 1, scale).count == e.count * scale
  {
    assert Power(scale, 1) == Power(scale, 0) * scale;
  }

  /** Decaying to `t` and then to `u` is decaying to `u`, up to a hundred ticks. */
  lemma DecayComposes(e: Entry, t: nat, u: nat, scale: real)
    requires e.lastTick <= t <= u <= e.lastTick + 100
    ensures Decayed(Decayed(e, t, scale), u, scale) == Decayed(e, u, scale)
  {
    hide Power, Decayed;
    var a, b := t - e.lastTick, u - t;
    assert u - e.lastTick == a + b;
    PowerAdds(scale, a, b);
    Associates(e.count, Power(scale, a), Power(scale, b));
    DecayIs(e, t, scale);
    var d := Decayed(e, t, scale);
    DecayIs(d, u, scale);
    DecayIs(e, u, scale);
    assert d.count * Power(scale, b) == e.count * Power(scale, a + b);
  }

  lemma DecayIs(e: Entry, t: nat, scale: real)
    requires e.lastTick <= t <= e.lastTick + 100
    ensures Decayed(e, t, scale) == e.(count := e.count * Power(scale, t - e.lastTick), lastTick := t)
  {
  }

  /** Longer absence costs no more than a hundred factors. */
  lemma DecayCapped(e: Entry, u: nat, scale: real)
    requires u >= e.lastTick + 100
    ensures Decayed(e, u, scale).count == Decayed(e, e.lastTick + 100, scale).count
  {
  }

  lemma Associates(x: real, y: real, z: real)
    ensures x * y * z == x * (y * z)
  {
  }

  /** What moor_circuitmux_notify_cells makes of an entry. */
  function Queued(e: Entry, delta: int): Entry {
    e.(queued := if e.queued + delta < 0 then 0 else e.queued + delta)
  }

  /** What moor_circuitmux_notify_xmit makes of an entry. */
  function Charged(e: Entry, n: nat, tick: nat, scale: real): Entry {
    var d := Decayed(e, tick, scale);
    d.(count := d.count + n as real, queued := if d.queued >= n then d.queued - n else 0)
  }

  /** Cells sent in two lots within a tick are charged like cells sent in one. */
  lemma ChargeComposes(e: Entry, m: nat, n: nat, tick: nat, scale: real)
    ensures Charged(Charged(e, m, tick, scale), n, tick, scale) == Charged(e, m + n, tick, scale)
    ensures Charged(e, n, tick, scale).count == Decayed(e, tick, scale).count + n as real
    ensures n <= e.queued ==> Charged(e, n, tick, scale).queued + n == e.queued
  {
  }

  /** Cells queued in two lots are counted like cells queued in one, and what is queued and then sent is gone. */
  lemma QueueComposes(e: Entry, m: int, n: int)
    requires e.queued + m >= 0
    ensures Queued(Queued(e, m), n) == Queued(e, m + n)
    ensures Queued(e, m).queued == e.queued + m && (e.queued + n <= 0 ==> Queued(e, n).queued == 0)
  {
  }

  /** Index of the first entry of `circ`, `|es|` if there is none. */
  function Find(es: seq<Entry>, circ: nat): (i: nat)
    ensures i <= |es| && (i < |es| ==> es[i].circ == circ)
    ensures forall j :: 0 <= j < i ==> es[j].circ != circ
  {
    if es == [] || es[0].circ == circ then 0 else Find(es[1..], circ) + 1
  }

  /** Both back-pointer arrays mark the same entries as active. */
  ghost predicate SameActive(a: seq<int>, b: seq<int>) {
    |a| == |b| && forall e :: 0 <= e < |a| ==> (a[e] >= 0 <==> b[e] >= 0)
  }

  /** The counts of the entries `h`. */
  ghost function KeysOf(es: seq<Entry>, h: seq<int>): (ks: seq<real>)
    requires forall p :: 0 <= p < |h| ==> 0 <= h[p] < |es|
    ensures |ks| == |h| && forall p :: 0 <= p < |h| ==> ks[p] == es[h[p]].count
  {
    seq(|h|, p requires 0 <= p < |h| => es[h[p]].count)
  }

  // ---- Heap order on the sequence of keys, by heap position ----

  ghost predicate Heap(ks: seq<real>) {
    forall p {:trigger Parent(p)} :: 0 < p < |ks| ==> ks[Parent(p)] <= ks[p]
  }

  /** Heap order except that position `i` may be smaller than its parent. */
  ghost predicate Rising(ks: seq<real>, i: int)
    requires 0 <= i < |ks|
  {
    && (forall p {:trigger Parent(p)} :: 0 < p < |ks| && p != i ==> ks[Parent(p)] <= ks[p])
    && (forall p {:trigger Parent(p)} :: 0 < p < |ks| && Parent(p) == i && i > 0 ==> ks[Parent(i)] <= ks[p])
  }

  /** Order among the pairs whose parent is at least `lo`, except the pair above `start` and the
      pairs below `i`. */
  ghost predicate Sinking(ks: seq<real>, lo: nat, start: nat, i: int)
    requires 0 <= i < |ks|
  {
    && (forall p {:trigger Parent(p)} :: 0 < p < |ks| && Parent(p) >= lo && Parent(p) != i && p != start ==>
      ks[Parent(p)] <= ks[p])
    && (forall p {:trigger Parent(p)} :: 0 < p < |ks| && Parent(p) == i && i > 0 && Parent(i) >= lo ==>
      ks[Parent(i)] <= ks[p])
  }

  /** Order among the pairs whose parent is at least `lo`, except the pair above `start`. */
  ghost predicate Sunk(ks: seq<real>, lo: nat, start: nat) {
    forall p {:trigger Parent(p)} :: 0 < p < |ks| && Parent(p) >= lo && p != start ==> ks[Parent(p)] <= ks[p]
  }

  /** The pair above `start` is in order, or is not to be looked at. */
  ghost predicate TopOk(ks: seq<real>, lo: nat, start: nat)
    requires start < |ks|
  {
    start > 0 && Parent(start) >= lo ==> ks[Parent(start)] <= ks[start]
  }

  function Swapped<T>(s: seq<T>, a: int, b: int): (r: seq<T>)
    requires 0 <= a < |s| && 0 <= b < |s|
    ensures |r| == |s|
  {
    s[a := s[b]][b := s[a]]
  }

  /** The position of the smallest among `i` and its children, as heap_sift_down picks it. */
  function Smallest(ks: seq<real>, i: int): (r: int)
    requires 0 <= i < |ks|
    ensures i <= r < |ks| && (r == i || (Parent(r) == i && ks[r] < ks[i]))
    ensures 2 * i + 1 < |ks| ==> ks[r] <= ks[2 * i + 1]
    ensures 2 * i + 2 < |ks| ==> ks[r] <= ks[2 * i + 2]
  {
    var l := if 2 * i + 1 < |ks| && ks[2 * i + 1] < ks[i] then 2 * i + 1 else i;
    if 2 * i + 2 < |ks| && ks[2 * i + 2] < ks[l] then 2 * i + 2 else l
  }

  function SiftedUp(ks: seq<real>, i: int): (r: seq<real>)
    requires 0 <= i < |ks|
    ensures |r| == |ks|
    decreases i
  {
    if i > 0 && ks[i] < ks[Parent(i)] then SiftedUp(Swapped(ks, i, Parent(i)), Parent(i)) else ks
  }

  function SiftedDown(ks: seq<real>, i: int): (r: seq<real>)
    requires 0 <= i < |ks|
    ensures |r| == |ks|
    decreases |ks| - i
  {
    var c := Smallest(ks, i);
    if c == i then ks else SiftedDown(Swapped(ks, i, c), c)
  }

  lemma RiseStep(ks: seq<real>, i: int)
    requires 0 < i < |ks| && Rising(ks, i) && ks[i] < ks[Parent(i)]
    ensures Rising(Swapped(ks, i, Parent(i)), Parent(i))
  {
  }

  lemma {:induction false} RisenIsHeap(ks: seq<real>, i: int)
    requires 0 <= i < |ks| && Rising(ks, i)
    ensures Heap(SiftedUp(ks, i))
    decreases i
  {
    if i > 0 && ks[i] < ks[Parent(i)] {
      RiseStep(ks, i);
      RisenIsHeap(Swapped(ks, i, Parent(i)), Parent(i));
    }
  }

  lemma AppendedIsHeap(ks: seq<real>, x: real)
    requires Heap(ks)
    ensures Heap(SiftedUp(ks + [x], |ks|))
  {
    RisenIsHeap(ks + [x], |ks|);
  }

  lemma SinkDone(ks: seq<real>, lo: nat, start: nat, i: int)
    requires lo <= start <= i < |ks| && Sinking(ks, lo, start, i) && Smallest(ks, i) == i
    ensures Sunk(ks, lo, start)
  {
    assert forall p :: 0 < p < |ks| && Parent(p) == i ==> p == 2 * i + 1 || p == 2 * i + 2;
  }

  lemma SinkStep(ks: seq<real>, lo: nat, start: nat, i: int, c: int)
    requires lo <= start <= i < c < |ks| && Sinking(ks, lo, start, i)
    requires i > start ==> TopOk(ks, lo, start)
    requires Parent(c) == i && ks[c] < ks[i] && forall p :: 0 < p < |ks| && Parent(p) == i ==> ks[c] <= ks[p]
    ensures Sinking(Swapped(ks, i, c), lo, start, c) && TopOk(Swapped(ks, i, c), lo, start)
  {
  }

  /** Sifting down repairs the order below `start`; the pair above `start` is then in order too,
      unless the key at `start` stayed put. */
  lemma {:induction false} SunkIsOrdered(ks: seq<real>, lo: nat, start: nat, i: int)
    requires lo <= start <= i < |ks| && Sinking(ks, lo, start, i)
    requires i > start ==> TopOk(ks, lo, start)
    ensures Sunk(SiftedDown(ks, i), lo, start)
    ensures TopOk(SiftedDown(ks, i), lo, start) || (i == start && SiftedDown(ks, i) == ks)
    decreases |ks| - i
  {
    var c := Smallest(ks, i);
    if c == i {
      SinkDone(ks, lo, start, i);
    } else {
      assert forall p :: 0 < p < |ks| && Parent(p) == i ==> p == 2 * i + 1 || p == 2 * i + 2;
      SinkStep(ks, lo, start, i, c);
      SunkIsOrdered(Swapped(ks, i, c), lo, start, c);
    }
  }

  /** Sifting down from `i` touches no position before `i`. */
  lemma {:induction false} SiftedDownFrame(ks: seq<real>, i: int)
    requires 0 <= i < |ks|
    ensures forall p :: 0 <= p < i ==> SiftedDown(ks, i)[p] == ks[p]
    decreases |ks| - i
  {
    if Smallest(ks, i) != i { SiftedDownFrame(Swapped(ks, i, Smallest(ks, i)), Smallest(ks, i)); }
  }

  /** In an ordered heap the root is minimal. */
  lemma {:induction false} RootIsLeast(ks: seq<real>, p: nat)
    requires Heap(ks) && p < |ks|
    ensures ks[0] <= ks[p]
  {
    if p > 0 { RootIsLeast(ks, Parent(p)); }
  }

  /** The last key takes the place of the key at `pos`. */
  function Removed(ks: seq<real>, pos: int): (r: seq<real>)
    requires 0 <= pos < |ks|
    ensures |r| == |ks| - 1
  {
    var n := |ks| - 1;
    if pos < n then ks[..n][pos := ks[n]] else ks[..n]
  }

  lemma RemovedIsRepaired(ks: seq<real>, pos: int, x: real)
    requires 0 <= pos < |ks| && Heap(ks[pos := x])
    ensures var r := Removed(ks, pos);
            if pos < |r| then Heap(SiftedUp(SiftedDown(r, pos), pos)) else Heap(r)
  {
    var r := Removed(ks, pos);
    if pos < |r| {
      var h := ks[pos := x][..|r|];
      assert h[pos := ks[|r|]] == r;
      Replaced(h, pos, ks[|r|]);
      RisenIsHeap(SiftedDown(r, pos), pos);
    }
  }

  /** Replacing one key of a heap and sifting down leaves at most the pair above that key wrong. */
  lemma Replaced(ks: seq<real>, pos: int, x: real)
    requires 0 <= pos < |ks| && Heap(ks)
    ensures var r := SiftedDown(ks[pos := x], pos);
            && Rising(r, pos)
            && (Heap(r) <==> pos == 0 || ks[Parent(pos)] <= x)
  {
    var s := ks[pos := x];
    assert Sinking(s, 0, pos, pos);
    SunkIsOrdered(s, 0, pos, pos);
    SiftedDownFrame(s, pos);
  }

  class Mux {
    const entries: array<Entry>
    const heap: array<int>
    const index: array<int>
    const scale: real
    var active: nat
    var recalibrated: nat

    ghost predicate Shaped()
      reads `active
    {
      entries.Length == heap.Length == index.Length && heap != index && active <= heap.Length
    }

    /** Heap positions and back-pointers are mutually inverse on the active prefix. */
    ghost predicate Linked()
      reads `active, heap, index
    {
      && Shaped()
      && (forall p :: 0 <= p < active ==> 0 <= heap[p] < index.Length && index[heap[p]] == p)
      && (forall e :: 0 <= e < index.Length ==> Placed(e))
    }

    ghost predicate Placed(e: int)
      reads `active, heap, index
      requires Shaped() && 0 <= e < index.Length
    {
      index[e] >= 0 ==> index[e] < active && heap[index[e]] == e
    }

    /** An entry is in the heap if and only if it has queued cells; empty slots have none. */
    ghost predicate Valid()
      reads `active, entries, heap, index
    {
      && Linked()
      && (forall e :: 0 <= e < index.Length ==> (index[e] >= 0 <==> entries[e].queued > 0))
      && (forall e :: 0 <= e < entries.Length && entries[e].circ == 0 ==> entries[e].queued == 0)
    }

    ghost function Keys(): (ks: seq<real>)
      reads `active, entries, heap, index
      requires Linked()
      ensures |ks| == active
    {
      KeysOf(entries[..], heap[..active])
    }

    ghost predicate Ordered()
      reads `active, entries, heap, index
      requires Linked()
    {
      Heap(Keys())
    }

    constructor (max: nat, scaleFactor: real)
      ensures Valid() && fresh(entries) && fresh(heap) && fresh(index)
      ensures entries.Length == max && active == recalibrated == 0 && scale == scaleFactor
      ensures forall i :: 0 <= i < max ==> entries[i] == Entry(0, 0.0, 0, 0)
    {
      entries := new Entry[max](_ => Entry(0, 0.0, 0, 0));
      heap := new int[max](_ => 0);
      index := new int[max](_ => -1);
      scale := scaleFactor;
      active, recalibrated := 0, 0;
    }

    /** heap_swap. */
    method Swap(a: int, b: int)
      requires Linked() && 0 <= a < active && 0 <= b < active
      modifies heap, index
      ensures Linked() && Keys() == Swapped(old(Keys()), a, b)
      ensures heap[..] == Swapped(old(heap[..]), a, b)
      ensures SameActive(old(index[..]), index[..])
    {
      heap[a], heap[b] := heap[b], heap[a];
      index[heap[a]] := a;
      index[heap[b]] := b;
      forall e | 0 <= e < index.Length ensures Placed(e) {
        assert old(Placed(e));
      }
    }

    /** heap_sift_up. */
    method SiftUp(start: nat)
      requires Linked() && start < active
      modifies heap, index
      ensures Linked() && SameActive(old(index[..]), index[..])
      ensures Keys() == SiftedUp(old(Keys()), start)
    {
      var idx: int := start;
      ghost var goal := SiftedUp(Keys(), start);
      while idx > 0
        invariant 0 <= idx < active && Linked() && SameActive(old(index[..]), index[..])
        invariant SiftedUp(Keys(), idx) == goal
      {
        var parent := Parent(idx);
        if entries[heap[idx]].count >= entries[heap[parent]].count { break; }
        Swap(idx, parent);
        idx := parent;
      }
    }

    function SmallestOf(idx: int): (smallest: int)
      reads `active, entries, heap, index
      requires Linked() && 0 <= idx < active
      ensures smallest == Smallest(Keys(), idx)
    {
      var left, right := 2 * idx + 1, 2 * idx + 2;
      var s := if left < active && entries[heap[left]].count < entries[heap[idx]].count then left else idx;
      if right < active && entries[heap[right]].count < entries[heap[s]].count then right else s
    }

    /** heap_sift_down. */
    method SiftDown(start: nat)
      requires Linked() && start < active
      modifies heap, index
      ensures Linked() && SameActive(old(index[..]), index[..])
      ensures Keys() == SiftedDown(old(Keys()), start)
    {
      var idx: int := start;
      ghost var ks, goal := Keys(), SiftedDown(Keys(), start);
      var smallest := SmallestOf(idx);
      while smallest != idx
        invariant 0 <= idx < active && Linked() && SameActive(old(index[..]), index[..])
        invariant Keys() == ks && smallest == Smallest(ks, idx) && SiftedDown(ks, idx) == goal
        decreases active - idx
      {
        Swap(idx, smallest);
        ks, idx := Swapped(ks, idx, smallest), smallest;
        smallest := SmallestOf(idx);
      }
    }

    lemma RoomFor(e: int)
      requires Linked() && 0 <= e < index.Length && index[e] < 0
      ensures active < heap.Length
    {
      var s := heap[..active];
      assert Counting.Distinct(s) by {
        forall p, q | 0 <= p < q < |s| ensures s[p] != s[q] {
          assert index[heap[p]] == p && index[heap[q]] == q;
        }
      }
      Counting.Pigeonhole(s, Counting.Between(0, heap.Length) - {e});
    }

    /** The first half of heap_insert: append at the end. */
    method Append(e: int)
      requires Linked() && 0 <= e < index.Length && index[e] < 0 && active < heap.Length
      modifies `active, heap, index
      ensures Linked() && active == old(active) + 1 && Keys() == old(Keys()) + [entries[e].count]
      ensures forall x :: 0 <= x < index.Length ==> (index[x] >= 0 <==> old(index[x]) >= 0 || x == e)
    {
      heap[active] := e;
      index[e] := active;
      active := active + 1;
      forall x | 0 <= x < index.Length ensures Placed(x) { assert old(Placed(x)); }
    }

    /** heap_insert. The capacity guard never fires. */
    method HeapInsert(e: int)
      requires Linked() && 0 <= e < index.Length && index[e] < 0
      modifies `active, heap, index
      ensures Linked() && active == old(active) + 1
      ensures forall x :: 0 <= x < index.Length ==> (index[x] >= 0 <==> old(index[x]) >= 0 || x == e)
      ensures old(Ordered()) ==> Ordered()
    {
      hide Heap, SiftedUp, SiftedDown, Removed;
      RoomFor(e);
      if active >= heap.Length { assert false; }
      ghost var ks := Keys();
      Append(e);
      if Heap(ks) { AppendedIsHeap(ks, entries[e].count); }
      SiftUp(active - 1);
    }

    /** The first half of heap_remove: the last heap position moves into the freed one. The
        back-pointer of the removed entry is reset here, before the sifting, which does not look at it. */
    method Unlink(e: int) returns (pos: nat)
      requires Linked() && 0 <= e < index.Length && index[e] >= 0
      modifies `active, heap, index
      ensures Linked() && active == old(active) - 1 && pos == old(index[e]) < old(active)
      ensures Keys() == Removed(old(Keys()), pos)
      ensures forall x :: 0 <= x < index.Length ==> (index[x] >= 0 <==> old(index[x]) >= 0 && x != e)
    {
      assert Placed(e);
      pos := index[e];
      active := active - 1;
      index[e] := -1;
      if pos < active {
        heap[pos] := heap[active];
        index[heap[pos]] := pos;
      }
      forall x | 0 <= x < index.Length ensures Placed(x) { assert old(Placed(x)); }
    }

    /** heap_remove. The key of the removed entry does not matter: order holds afterwards if it held
        before with any key `x` in its place. */
    method HeapRemove(e: int, ghost x: real)
      requires Linked() && 0 <= e < index.Length && index[e] >= 0
      modifies `active, heap, index
      ensures Linked() && active == old(active) - 1
      ensures forall y :: 0 <= y < index.Length ==> (index[y] >= 0 <==> old(index[y]) >= 0 && y != e)
      ensures old(index[e]) < old(active) && (Heap(old(Keys())[old(index[e]) := x]) ==> Ordered())
      ensures old(Ordered()) ==> Ordered()
    {
      hide Heap, SiftedUp, SiftedDown, Removed;
      ghost var ks := Keys();
      var pos := Unlink(e);
      if Heap(ks[pos := x]) { RemovedIsRepaired(ks, pos, x); }
      if Heap(ks) {
        assert ks[pos := ks[pos]] == ks;
        RemovedIsRepaired(ks, pos, ks[pos]);
      }
      if pos < active {
        SiftDown(pos);
        SiftUp(pos);
      }
    }

    /** Rewriting one entry changes at most its own key. */
    method Store(i: int, e: Entry)
      requires Linked() && 0 <= i < entries.Length
      modifies entries
      ensures Linked() && entries[..] == old(entries[..])[i := e] && index[i] < active
      ensures Keys() == if index[i] >= 0 then old(Keys())[index[i] := e.count] else old(Keys())
      ensures index[i] >= 0 ==> old(Keys())[index[i]] == old(entries[i].count)
    {
      assert Placed(i);
      entries[i] := e;
    }

    /** ewma_scale_entry. */
    method Scaled(e: Entry, tick: nat) returns (d: Entry)
      ensures d == Decayed(e, tick, scale)
    {
      d := e;
      if e.lastTick < tick {
        var elapsed := tick - e.lastTick;
        var factor, t := 1.0, 0;
        while t < elapsed && t < 100
          invariant 0 <= t <= elapsed && t <= 100 && factor == Power(scale, t)
        {
          factor := factor * scale;
          t := t + 1;
        }
        d := e.(count := e.count * factor, lastTick := tick);
      }
    }

    /** The entry after `n` cells of it were sent. */
    method Transmitted(e: Entry, n: nat, tick: nat) returns (c: Entry)
      ensures c == Charged(e, n, tick, scale) && c.circ == e.circ && (e.queued == 0 ==> c.queued == 0)
    {
      c := Scaled(e, tick);
      c := c.(count := c.count + n as real, queued := if c.queued >= n then c.queued - n else 0);
    }

    /** The scan for the entry of `circ` that every mux operation starts with. */
    method IndexOf(circ: nat) returns (i: nat)
      ensures i == Find(entries[..], circ)
    {
      i := 0;
      ghost var es := entries[..];
      while i < entries.Length && entries[i].circ != circ
        invariant i <= Find(es, circ) && i <= entries.Length
      {
        assert es[i] == entries[i];
        i := i + 1;
      }
    }

    /** moor_circuitmux_attach: takes the first empty slot, at the current tick. */
    method Attach(circ: nat, tick: nat) returns (ok: bool)
      requires Valid()
      modifies entries, index
      ensures Valid() && (old(Ordered()) ==> Ordered())
      ensures var i := Find(old(entries[..]), 0);
              ok == (circ != 0 && i < entries.Length)
              && entries[..] == if ok then old(entries[..])[i := Entry(circ, 0.0, tick, 0)] else old(entries[..])
    {
      hide Heap;
      if circ == 0 { return false; }
      var i := IndexOf(0);
      if i == entries.Length { return false; }
      ghost var ks := Keys();
      entries[i] := Entry(circ, 0.0, tick, 0);
      index[i] := -1;
      forall x | 0 <= x < index.Length ensures Placed(x) { assert old(Placed(x)); }
      assert Keys() == ks;
      return true;
    }

    /** moor_circuitmux_detach: the entry leaves the heap and its slot becomes empty. */
    method Detach(circ: nat)
      requires Valid()
      modifies `active, entries, heap, index
      ensures Valid() && (old(Ordered()) ==> Ordered())
      ensures var es, i := old(entries[..]), Find(old(entries[..]), circ);
              entries[..] == if circ != 0 && i < |es| then es[i := Entry(0, 0.0, 0, 0)] else es
    {
      if circ == 0 { return; }
      var i := IndexOf(circ);
      if i < entries.Length { DetachAt(i); }
    }

    method DetachAt(i: nat)
      requires Valid() && i < entries.Length
      modifies `active, entries, heap, index
      ensures Valid() && (old(Ordered()) ==> Ordered())
      ensures entries[..] == old(entries[..])[i := Entry(0, 0.0, 0, 0)]
    {
      hide Heap, KeysOf;
      if index[i] >= 0 { HeapRemove(i, 0.0); }
      Store(i, Entry(0, 0.0, 0, 0));
    }

    /** moor_circuitmux_notify_cells: `delta` cells were queued, or drained if negative. */
    method NotifyCells(circ: nat, delta: int)
      requires Valid()
      modifies `active, entries, heap, index
      ensures Valid() && (old(Ordered()) ==> Ordered())
      ensures var es, i := old(entries[..]), Find(old(entries[..]), circ);
              entries[..] == if circ != 0 && i < |es| then es[i := Queued(es[i], delta)] else es
    {
      if circ == 0 { return; }
      var i := IndexOf(circ);
      if i < entries.Length { NotifyCellsAt(i, delta); }
    }

    method NotifyCellsAt(i: nat, delta: int)
      requires Valid() && i < entries.Length && entries[i].circ != 0
      modifies `active, entries, heap, index
      ensures Valid() && (old(Ordered()) ==> Ordered())
      ensures entries[..] == old(entries[..])[i := Queued(old(entries[i]), delta)]
    {
      hide Heap, KeysOf;
      ghost var ks := Keys();
      var newCount := entries[i].queued + delta;
      if newCount < 0 { newCount := 0; }
      Store(i, entries[i].(queued := newCount));
      assert Keys() == ks;
      if newCount > 0 && index[i] < 0 {
        HeapInsert(i);
      } else if newCount == 0 && index[i] >= 0 {
        HeapRemove(i, 0.0);
      }
    }

    /** moor_circuitmux_notify_xmit: `n` cells were sent. The entry is only ever sifted down, so an
        ordered heap stays ordered if and only if the entry went inactive or its new count is still
        no smaller than the count of the entry above it. */
    method NotifyXmit(circ: nat, n: int, tick: nat)
      requires Valid()
      modifies `active, entries, heap, index
      ensures Valid()
      ensures var es, i := old(entries[..]), Find(old(entries[..]), circ);
              entries[..] == if circ != 0 && n > 0 && i < |es| then es[i := Charged(es[i], n, tick, scale)] else es
      ensures old(Ordered()) ==>
        var i := Find(old(entries[..]), circ);
        (Ordered() <==>
          (circ != 0 && n > 0 && i < entries.Length && entries[i].queued > 0 && 0 < old(index[i]) < old(active) ==>
             old(Keys())[Parent(old(index[i]))] <= entries[i].count))
    {
      hide Heap, Linked, Charged;
      if circ == 0 || n <= 0 { return; }
      var i := IndexOf(circ);
      if i < entries.Length {
        var e := Transmitted(entries[i], n, tick);
        Rekey(i, e);
      }
    }

    /** The rest of moor_circuitmux_notify_xmit, once the entry has become `e`. */
    method Rekey(i: nat, e: Entry)
      requires Valid() && i < entries.Length && entries[i].circ != 0 && e.circ == entries[i].circ
      requires entries[i].queued == 0 ==> e.queued == 0
      modifies `active, entries, heap, index
      ensures Valid() && entries[..] == old(entries[..])[i := e]
      ensures old(Ordered()) ==>
        (Ordered() <==> (e.queued > 0 && 0 < old(index[i]) < old(active) ==>
                           old(Keys())[Parent(old(index[i]))] <= e.count))
    {
      hide Heap, SiftedDown, Rising;
      ghost var ks, pos, was := Keys(), index[i], entries[i].count;
      assert Placed(i);
      Store(i, e);
      if index[i] >= 0 {
        if e.queued == 0 {
          assert Keys()[pos := was] == ks;
          HeapRemove(i, was);
        } else {
          if Heap(ks) { Replaced(ks, pos, e.count); }
          SiftDown(index[i]);
        }
      }
    }

    /** The first loop of a recalibration: every active entry is decayed to `tick`. */
    method Rescale(tick: nat)
      requires Valid()
      modifies entries
      ensures Valid() && forall x :: 0 <= x < entries.Length ==>
        entries[x] == if index[x] >= 0 then Decayed(old(entries[x]), tick, scale) else old(entries[x])
    {
      for i := 0 to active
        invariant Valid()
        invariant forall x :: 0 <= x < entries.Length ==>
          entries[x] == if 0 <= index[x] < i then Decayed(old(entries[x]), tick, scale) else old(entries[x])
      {
        forall x | 0 <= x < index.Length && index[x] == i ensures x == heap[i] { assert Placed(x); }
        var d := Scaled(entries[heap[i]], tick);
        entries[heap[i]] := d;
      }
      forall x | 0 <= x < entries.Length && index[x] >= 0 ensures index[x] < active { assert Placed(x); }
    }

    /** The second loop of a recalibration: the heap is rebuilt from any order. */
    method Rebuild()
      requires Linked()
      modifies heap, index
      ensures Linked() && Ordered() && SameActive(old(index[..]), index[..])
    {
      hide SiftedDown;
      var i := active / 2 - 1;
      while i >= 0
        invariant -1 <= i < active && Linked() && SameActive(old(index[..]), index[..])
        invariant Sunk(Keys(), i + 1, i + 1)
      {
        assert Sinking(Keys(), i, i, i);
        SunkIsOrdered(Keys(), i, i, i);
        SiftDown(i);
        i := i - 1;
      }
    }

    lemma RootIsPick()
      requires Linked() && Ordered() && active > 0
      ensures forall x :: 0 <= x < entries.Length && index[x] >= 0 ==> entries[heap[0]].count <= entries[x].count
    {
      ghost var ks := Keys();
      forall x | 0 <= x < entries.Length && index[x] >= 0 ensures entries[heap[0]].count <= entries[x].count {
        assert Placed(x);
        RootIsLeast(ks, index[x]);
        assert ks[0] == entries[heap[0]].count && ks[index[x]] == entries[x].count;
      }
    }

    /** moor_circuitmux_pick. `e` is the entry picked; it has a minimal count whenever the tick has
        advanced, whatever order the heap held, and whenever the heap was ordered. */
    method Pick(tick: nat) returns (circ: nat, ghost e: int)
      requires Valid()
      modifies `recalibrated, entries, heap, index
      ensures Valid() && SameActive(old(index[..]), index[..])
      ensures recalibrated == if active > 0 then tick else old(recalibrated)
      ensures forall x :: 0 <= x < entries.Length ==>
        entries[x] == if tick != old(recalibrated) && index[x] >= 0 then Decayed(old(entries[x]), tick, scale)
                      else old(entries[x])
      ensures active == 0 ==> circ == 0
      ensures active > 0 ==> 0 <= e < entries.Length && index[e] >= 0 && circ == entries[e].circ && e == heap[0]
      ensures tick == old(recalibrated) ==> heap[..] == old(heap[..]) && index[..] == old(index[..])
      ensures active > 0 && (tick != old(recalibrated) || old(Ordered())) ==>
        Ordered() && forall x :: 0 <= x < entries.Length && index[x] >= 0 ==> entries[e].count <= entries[x].count
    {
      hide Heap;
      if active == 0 {
        forall x | 0 <= x < index.Length ensures index[x] < 0 { assert Placed(x); }
        return 0, -1;
      }
      if tick != recalibrated {
        Rescale(tick);
        recalibrated := tick;
        Rebuild();
      }
      e := heap[0];
      if Ordered() { RootIsPick(); }
      return entries[heap[0]].circ, heap[0];
    }
  }

  /** Heap order can be lost between two ticks: decay may bring an entry below its parent. */
  lemma XmitCanBreakOrder()
    ensures exists ks: seq<real>, e: Entry, tick ::
      && Heap(ks) && |ks| == 2 && ks[1] == e.count && Charged(e, 1, tick, 0.1).queued > 0
      && !Heap(SiftedDown(ks[1 := Charged(e, 1, tick, 0.1).count], 1))
  {
    var e := Entry(1, 10.0, 0, 5);
    var ks := [5.0, 10.0];
    assert Power(0.1, 1) == Power(0.1, 0) * 0.1 == 0.1;
    assert Charged(e, 1, 1, 0.1).count == 2.0;
    Replaced(ks, 1, 2.0);
    assert ks[1 := 2.0] == ks[1 := Charged(e, 1, 1, 0.1).count];
    assert Heap(ks) && !Heap(SiftedDown(ks[1 := Charged(e, 1, 1, 0.1).count], 1));
  }

  /** The first two entries are `a` and `b`, the others are empty. */
  ghost predicate Pair(mux: Mux, a: Entry, b: Entry)
    reads mux, mux.entries, mux.heap, mux.index
  {
    && mux.Valid() && mux.entries.Length >= 2 && mux.entries[0] == a && mux.entries[1] == b
    && forall i :: 2 <= i < mux.entries.Length ==> mux.entries[i] == Entry(0, 0.0, 0, 0)
  }

  /** Two active entries have the first two heap places. */
  lemma TwoPlaces(mux: Mux, a: Entry, b: Entry)
    requires Pair(mux, a, b) && a.queued > 0 && b.queued > 0
    ensures mux.Linked() && mux.active == 2 && mux.heap.Length == mux.index.Length >= 2
    ensures mux.index[0] == 1 - mux.index[1] && 0 <= mux.index[1] <= 1
    ensures mux.heap[0] == mux.index[0]
    ensures mux.Keys() == if mux.index[0] == 0 then [a.count, b.count] else [b.count, a.count]
  {
    assert mux.Placed(0) && mux.Placed(1);
    var s := mux.heap[..mux.active];
    forall p, q | 0 <= p < q < |s| ensures s[p] != s[q] {
      assert mux.index[mux.heap[p]] == p && mux.index[mux.heap[q]] == q;
    }
    forall p | 0 <= p < |s| ensures s[p] in Counting.Between(0, 2) {
      assert mux.index[mux.heap[p]] == p;
    }
    Counting.Pigeonhole(s, Counting.Between(0, 2));
  }

  lemma HeapOfTwo(x: real, y: real)
    ensures Heap([x, y]) <==> x <= y
  {
    assert Parent(1) == 0;
  }

  lemma FirstTwo(es: seq<Entry>)
    requires |es| >= 2 && es[0].circ == 1 && es[1].circ == 2
    ensures Find(es, 1) == 0 && Find(es, 2) == 1
  {
  }

  /** From an empty mux: a circuit that was idle while the tick advanced becomes active with its old count,
      and its next transmission brings it below the root, which stays. The pick is then not the least. */
  method WrongPick(max: nat) returns (mux: Mux, circ: nat)
    requires max >= 2
    ensures fresh(mux) && Pair(mux, Entry(1, 5.0, 1, 15), Entry(2, 2.0, 1, 4)) && !mux.Ordered() && circ == 1
  {
    hide Pair;
    mux := new Mux(max, 0.1);
    AttachTwo(mux);
    Idle(mux);
    circ := FirstPick(mux);
    circ := Overtake(mux);
  }

  method AttachTwo(mux: Mux)
    requires mux.Valid() && mux.entries.Length >= 2
    requires forall i :: 0 <= i < mux.entries.Length ==> mux.entries[i] == Entry(0, 0.0, 0, 0)
    modifies mux.entries, mux.index
    ensures Pair(mux, Entry(1, 0.0, 0, 0), Entry(2, 0.0, 0, 0))
  {
    hide Heap, Mux.Linked;
    var ok := mux.Attach(1, 0);
    ok := mux.Attach(2, 0);
  }

  /** The second circuit sends ten cells and falls idle. */
  method Idle(mux: Mux)
    requires Pair(mux, Entry(1, 0.0, 0, 0), Entry(2, 0.0, 0, 0))
    modifies mux`active, mux.entries, mux.heap, mux.index
    ensures Pair(mux, Entry(1, 0.0, 0, 0), Entry(2, 10.0, 0, 0))
  {
    hide Heap, Mux.Linked;
    FirstTwo(mux.entries[..]);
    mux.NotifyCells(2, 10);
    FirstTwo(mux.entries[..]);
    mux.NotifyXmit(2, 10, 0);
  }

  /** The first circuit sends five cells in the next tick, and is picked. */
  method FirstPick(mux: Mux) returns (circ: nat)
    requires Pair(mux, Entry(1, 0.0, 0, 0), Entry(2, 10.0, 0, 0)) && mux.recalibrated == 0 && mux.scale == 0.1
    modifies mux, mux.entries, mux.heap, mux.index
    ensures Pair(mux, Entry(1, 5.0, 1, 15), Entry(2, 10.0, 0, 0)) && mux.Ordered() && mux.recalibrated == 1
  {
    hide Heap;
    FirstTwo(mux.entries[..]);
    mux.NotifyCells(1, 20);
    FirstTwo(mux.entries[..]);
    assert Power(0.1, 1) == Power(0.1, 0) * 0.1 == 0.1;
    mux.NotifyXmit(1, 5, 1);
    assert Pair(mux, Entry(1, 5.0, 1, 15), Entry(2, 10.0, 0, 0));
    assert mux.Placed(0);
    ghost var e;
    circ, e := mux.Pick(1);
  }

  /** The second circuit wakes up with its old count and sends one cell, in the same tick. */
  method Overtake(mux: Mux) returns (circ: nat)
    requires Pair(mux, Entry(1, 5.0, 1, 15), Entry(2, 10.0, 0, 0)) && mux.Ordered()
    requires mux.recalibrated == 1 && mux.scale == 0.1
    modifies mux, mux.entries, mux.heap, mux.index
    ensures Pair(mux, Entry(1, 5.0, 1, 15), Entry(2, 2.0, 1, 4)) && !mux.Ordered() && circ == 1
  {
    hide Heap, Mux.Linked;
    FirstTwo(mux.entries[..]);
    mux.NotifyCells(2, 5);
    SendOne(mux);
    ghost var e;
    ghost var a, b := Entry(1, 5.0, 1, 15), Entry(2, 2.0, 1, 4);
    TwoPlaces(mux, a, b);
    HeapOfTwo(b.count, a.count);
    HeapOfTwo(a.count, b.count);
    ghost var at := mux.index[..];
    circ, e := mux.Pick(1);
    TwoPlaces(mux, a, b);
    assert mux.index[..][0] == at[0];
  }

  method SendOne(mux: Mux)
    requires Pair(mux, Entry(1, 5.0, 1, 15), Entry(2, 10.0, 0, 5)) && mux.Ordered() && mux.scale == 0.1
    modifies mux`active, mux.entries, mux.heap, mux.index
    ensures Pair(mux, Entry(1, 5.0, 1, 15), Entry(2, 2.0, 1, 4)) && !mux.Ordered()
  {
    hide Heap, Mux.Linked;
    FirstTwo(mux.entries[..]);
    TwoPlaces(mux, Entry(1, 5.0, 1, 15), Entry(2, 10.0, 0, 5));
    HeapOfTwo(10.0, 5.0);
    assert Power(0.1, 1) == Power(0.1, 0) * 0.1 == 0.1 && Parent(1) == 0;
    mux.NotifyXmit(2, 1, 1);
  }
}
