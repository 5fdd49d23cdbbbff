/** The circuit index of src/circuit.c: an open-addressing table from
    (connection, circuit id) to circuit, with linear probing and deletion by
    re-inserting the cluster that follows the freed slot.
    The table size and the hash function are arbitrary. */
module CircuitTable {

  /** conn == 0 is the NULL connection. */
  datatype Key = Key(conn: nat, cid: nat)

  /** A NULL connection or a zero id names nothing. */
  function Live(k: Key): set<Key> {
    if k.conn == 0 || k.cid == 0 then {} else {k}
  }

  datatype Slot<+Circ> = Free | Used(key: Key, circ: Circ)

  ghost predicate Homes(home: Key -> nat, n: nat) {
    n > 0 && forall k :: home(k) < n
  }

  /** `x & CIRC_HT_MASK` for the sums that probing forms. */
  function Wrap(x: nat, n: nat): (r: nat)
    requires x < 2 * n
    ensures r < n
  {
    if x < n then x else x - n
  }

  /** Number of forward steps from slot `a` to slot `b`. */
  function Dist(a: nat, b: nat, n: nat): (d: nat)
    requires a < n && b < n
    ensures d < n && Wrap(a + d, n) == b
  {
    if a <= b then b - a else b + n - a
  }

  /** Slot `q` is visited before slot `b` when probing from `a`. */
  predicate OnPath(q: nat, a: nat, b: nat, n: nat)
    requires q < n && a < n && b < n
  {
    Dist(a, q, n) < Dist(a, b, n)
  }

  /** Every entry is reachable from its home slot through used slots only,
      except that slot `hole` may be free (no slot when `hole < 0`). */
  ghost predicate Probed<Circ>(s: seq<Slot<Circ>>, home: Key -> nat, hole: int)
    requires Homes(home, |s|)
  {
    forall i, q :: 0 <= i < |s| && s[i].Used? && 0 <= q < |s| && OnPath(q, home(s[i].key), i, |s|)
      ==> s[q].Used? || q == hole
  }

  /** No NULL connection or zero id is stored, and no key is stored twice. */
  ghost predicate Unique<Circ>(s: seq<Slot<Circ>>) {
    && (forall i :: 0 <= i < |s| && s[i].Used? ==> s[i].key.conn != 0 && s[i].key.cid != 0)
    && (forall i, j :: 0 <= i < |s| && 0 <= j < |s| && s[i].Used? && s[j].Used? && s[i].key == s[j].key ==> i == j)
  }

  ghost predicate Inv<Circ>(s: seq<Slot<Circ>>, home: Key -> nat) {
    Homes(home, |s|) && Probed(s, home, -1) && Unique(s)
  }

  ghost predicate Stored<Circ>(s: seq<Slot<Circ>>, k: Key, c: Circ) {
    exists i :: 0 <= i < |s| && s[i] == Used(k, c)
  }

  /** The table holds exactly the bindings of the finite map `m`. */
  ghost predicate Represents<Circ>(s: seq<Slot<Circ>>, m: map<Key, Circ>) {
    && (forall i :: 0 <= i < |s| && s[i].Used? ==> s[i].key in m && m[s[i].key] == s[i].circ)
    && (forall k :: k in m ==> Stored(s, k, m[k]))
  }

  /** Probing for `k` from `h` passes `d` slots that are used by other keys. */
  ghost predicate Passes<Circ>(s: seq<Slot<Circ>>, h: nat, k: Key, d: nat)
    requires h < |s|
  {
    d <= |s| && forall q :: 0 <= q < |s| && Dist(h, q, |s|) < d ==> s[q].Used? && s[q].key != k
  }

  /** ... and then meets a free slot or the entry of `k`. */
  ghost predicate StopsAt<Circ>(s: seq<Slot<Circ>>, h: nat, k: Key, p: nat)
    requires h < |s| && p < |s|
  {
    Passes(s, h, k, Dist(h, p, |s|)) && (s[p].Used? ==> s[p].key == k)
  }

  /** A probe that stops at a free slot, or nowhere, has ruled the key out. */
  lemma ProbeMisses<Circ>(s: seq<Slot<Circ>>, home: Key -> nat, m: map<Key, Circ>, k: Key, d: nat)
    requires Inv(s, home) && Represents(s, m) && Passes(s, home(k), k, d)
    requires d < |s| ==> s[Wrap(home(k) + d, |s|)].Free?
    ensures k !in m
  {
    forall i | 0 <= i < |s| && s[i].Used? ensures s[i].key != k {
      assert d < Dist(home(k), i, |s|) ==> OnPath(Wrap(home(k) + d, |s|), home(k), i, |s|);
    }
    assert k in m ==> Stored(s, k, m[k]);
  }

  /** Storing a new key in the first free slot of its probe path. */
  lemma StoreRefines<Circ>(s: seq<Slot<Circ>>, home: Key -> nat, m: map<Key, Circ>, k: Key, c: Circ, p: nat)
    requires Inv(s, home) && Represents(s, m) && k.conn != 0 && k.cid != 0
    requires p < |s| && StopsAt(s, home(k), k, p) && s[p].Free?
    ensures k !in m && Inv(s[p := Used(k, c)], home) && Represents(s[p := Used(k, c)], m[k := c])
  {
    ProbeMisses(s, home, m, k, Dist(home(k), p, |s|));
    StoreKeepsMap(s, m, k, c, p);
  }

  lemma StoreKeepsMap<Circ>(s: seq<Slot<Circ>>, m: map<Key, Circ>, k: Key, c: Circ, p: nat)
    requires p < |s| && s[p].Free? && Represents(s, m) && k !in m
    ensures Represents(s[p := Used(k, c)], m[k := c])
  {
    var s' := s[p := Used(k, c)];
    assert Stored(s', k, c) by { assert s'[p] == Used(k, c); }
    forall k' | k' in m ensures Stored(s', k', m[k']) {
      assert Stored(s, k', m[k']);
      var i :| 0 <= i < |s| && s[i] == Used(k', m[k']);
      assert s'[i] == s[i];
    }
  }

  lemma ClearRefines<Circ>(s: seq<Slot<Circ>>, m: map<Key, Circ>, p: nat)
    requires p < |s| && s[p].Used? && Unique(s) && Represents(s, m)
    ensures Represents(s[p := Free], m - {s[p].key})
  {
    var s' := s[p := Free];
    forall k | k in m && k != s[p].key ensures Stored(s', k, m[k]) {
      assert Stored(s, k, m[k]);
      var i :| 0 <= i < |s| && s[i] == Used(k, m[k]);
      assert s'[i] == s[i];
    }
  }

  /** The keys stored in the first `i` slots. */
  ghost function Keys<Circ>(s: seq<Slot<Circ>>, i: nat): set<Key>
    requires i <= |s|
  {
    if i == 0 then {} else Keys(s, i - 1) + (if s[i - 1].Used? then {s[i - 1].key} else {})
  }

  lemma {:induction false} KeysHas<Circ>(s: seq<Slot<Circ>>, i: nat, k: Key)
    requires i <= |s|
    ensures k in Keys(s, i) <==> exists j :: 0 <= j < i && s[j].Used? && s[j].key == k
  {
    if i > 0 { KeysHas(s, i - 1, k); }
  }

  lemma {:induction false} KeyCount<Circ>(s: seq<Slot<Circ>>, i: nat)
    requires Unique(s) && i <= |s|
    ensures |Keys(s, i)| <= i
    ensures |Keys(s, i)| == i <==> forall j :: 0 <= j < i ==> s[j].Used?
  {
    if i > 0 {
      KeyCount(s, i - 1);
      if s[i - 1].Used? { KeysHas(s, i - 1, s[i - 1].key); }
    }
  }

  /** A free slot is left exactly when the map holds fewer bindings than the table has slots. */
  lemma RoomIffFree<Circ>(s: seq<Slot<Circ>>, m: map<Key, Circ>)
    requires Unique(s) && Represents(s, m)
    ensures |m| < |s| <==> exists i :: 0 <= i < |s| && s[i].Free?
  {
    forall k ensures k in m <==> k in Keys(s, |s|) {
      KeysHas(s, |s|, k);
      assert k in m ==> Stored(s, k, m[k]);
    }
    assert m.Keys == Keys(s, |s|);
    KeyCount(s, |s|);
  }

  lemma ProbeHits<Circ>(s: seq<Slot<Circ>>, m: map<Key, Circ>, i: nat)
    requires Represents(s, m) && i < |s| && s[i].Used?
    ensures s[i].key in m && m[s[i].key] == s[i].circ
  {
  }

  /** Sum of the probe displacements of the entries in the first `m` slots. */
  ghost function Displacement<Circ>(s: seq<Slot<Circ>>, home: Key -> nat, m: nat): nat
    requires Homes(home, |s|) && m <= |s|
  {
    if m == 0 then 0
    else Displacement(s, home, m - 1) + SlotDisplacement(s[m - 1], home, m - 1, |s|)
  }

  ghost function SlotDisplacement<Circ>(x: Slot<Circ>, home: Key -> nat, i: nat, n: nat): nat
    requires Homes(home, n) && i < n
  {
    if x.Free? then 0 else Dist(home(x.key), i, n)
  }

  lemma {:induction false} DisplacementOfUpdate<Circ>(s: seq<Slot<Circ>>, home: Key -> nat, m: nat, p: nat,
          x: Slot<Circ>)
    requires Homes(home, |s|) && m <= |s| && p < |s|
    ensures Displacement(s[p := x], home, m)
         == Displacement(s, home, m)
          + (if p < m then SlotDisplacement(x, home, p, |s|) - SlotDisplacement(s[p], home, p, |s|) else 0)
  {
    if m > 0 { DisplacementOfUpdate(s, home, m - 1, p, x); }
  }

  // ---- Re-insertion of the cluster behind a freed slot ----

  /** `hole` is free and every probe path is intact except possibly at `hole`; the slots strictly
      between `hole` and `j` are used and their entries do not probe through `hole`. */
  ghost predicate Repairing<Circ>(s: seq<Slot<Circ>>, home: Key -> nat, hole: nat, j: nat)
    requires Homes(home, |s|) && hole < |s| && j < |s|
  {
    && s[hole].Free? && Unique(s) && Probed(s, home, hole)
    && forall i :: 0 <= i < |s| && Before(i, hole, j, |s|)
         ==> s[i].Used? && !OnPath(hole, home(s[i].key), i, |s|)
  }

  /** `i` lies strictly between `hole` and `j`, going forward; all slots but `hole` do when `j == hole`. */
  predicate Before(i: nat, hole: nat, j: nat, n: nat)
    requires i < n && hole < n && j < n
  {
    0 < Dist(hole, i, n) && (j == hole || Dist(hole, i, n) < Dist(hole, j, n))
  }

  /** A path through `hole` to a slot at or beyond `j` also leads through `j`. */
  lemma PathGoesOn(h: nat, hole: nat, j: nat, i: nat, n: nat)
    requires h < n && hole < n && j < n && i < n && i != j && hole != j && hole != i
    ensures OnPath(hole, h, i, n) && !Before(i, hole, j, n) ==> OnPath(j, h, i, n)
  {
  }

  lemma RepairDone<Circ>(s: seq<Slot<Circ>>, home: Key -> nat, hole: nat, j: nat)
    requires Homes(home, |s|) && hole < |s| && j < |s|
    requires Repairing(s, home, hole, j) && s[j].Free?
    ensures Inv(s, home)
  {
    forall i | 0 <= i < |s| && s[i].Used? ensures !OnPath(hole, home(s[i].key), i, |s|) {
      if hole != j { PathGoesOn(home(s[i].key), hole, j, i, |s|); }
      assert Before(i, hole, j, |s|) ==> !OnPath(hole, home(s[i].key), i, |s|);
    }
  }

  /** What one round of the loop does to the entry of slot `j`, once taken out: probing leads it into
      the hole when the hole is on its path, and back to `j` otherwise. */
  lemma RepairStep<Circ>(s: seq<Slot<Circ>>, home: Key -> nat, hole: nat, j: nat, p: nat)
    requires Homes(home, |s|) && hole < |s| && j < |s|
    requires Repairing(s, home, hole, j) && s[j].Used?
    requires if p < |s| then StopsAt(s[j := Free], home(s[j].key), s[j].key, p)
             else Passes(s[j := Free], home(s[j].key), s[j].key, |s|)
    ensures p == (if OnPath(hole, home(s[j].key), j, |s|) then hole else j) && s[j := Free][p].Free?
  {
    var s0, h := s[j := Free], home(s[j].key);
    var r := if OnPath(hole, h, j, |s|) then hole else j;
    assert s0[r].Free? && Dist(h, r, |s|) < |s|;
    forall q | 0 <= q < |s| && OnPath(q, h, r, |s|) ensures s0[q].Used? {
      assert OnPath(q, h, j, |s|);
    }
  }

  lemma RepairKeyLive<Circ>(s: seq<Slot<Circ>>, home: Key -> nat, hole: nat, j: nat)
    requires Homes(home, |s|) && hole < |s| && j < |s| && Repairing(s, home, hole, j) && s[j].Used?
    ensures s[j].key.conn != 0 && s[j].key.cid != 0
  {
  }

  lemma RepairMoved<Circ>(s: seq<Slot<Circ>>, home: Key -> nat, m: map<Key, Circ>, hole: nat, j: nat)
    requires Homes(home, |s|) && hole < |s| && j < |s|
    requires Repairing(s, home, hole, j) && s[j].Used? && OnPath(hole, home(s[j].key), j, |s|)
    ensures var s' := s[j := Free][hole := s[j]];
            && Repairing(s', home, j, Wrap(j + 1, |s|))
            && (Represents(s, m) ==> Represents(s', m))
            && Displacement(s', home, |s|) < Displacement(s, home, |s|)
  {
    MovedIntoHole(s, home, hole, j);
    if Represents(s, m) { MovedKeepsMap(s, m, hole, j); }
    DisplacementOfUpdate(s, home, |s|, j, Free);
    DisplacementOfUpdate(s[j := Free], home, |s|, hole, s[j]);
  }

  lemma MovedKeepsMap<Circ>(s: seq<Slot<Circ>>, m: map<Key, Circ>, hole: nat, j: nat)
    requires hole < |s| && j < |s| && s[hole].Free? && s[j].Used? && Represents(s, m)
    ensures Represents(s[j := Free][hole := s[j]], m)
  {
    var s' := s[j := Free][hole := s[j]];
    forall k | k in m ensures Stored(s', k, m[k]) {
      assert Stored(s, k, m[k]);
      var i :| 0 <= i < |s| && s[i] == Used(k, m[k]);
      assert s'[if i == j then hole else i] == s[i];
    }
  }

  lemma MovedIntoHole<Circ>(s: seq<Slot<Circ>>, home: Key -> nat, hole: nat, j: nat)
    requires Homes(home, |s|) && hole < |s| && j < |s|
    requires Repairing(s, home, hole, j) && s[j].Used? && OnPath(hole, home(s[j].key), j, |s|)
    ensures Repairing(s[j := Free][hole := s[j]], home, j, Wrap(j + 1, |s|))
  {
    var n, h, s' := |s|, home(s[j].key), s[j := Free][hole := s[j]];
    forall i, q | 0 <= i < n && s'[i].Used? && 0 <= q < n && OnPath(q, home(s'[i].key), i, n)
      ensures s'[q].Used? || q == j
    {
      if i == hole {
        assert OnPath(q, h, j, n);
      } else {
        assert s'[i] == s[i];
      }
    }
  }

  lemma RepairKept<Circ>(s: seq<Slot<Circ>>, home: Key -> nat, hole: nat, j: nat)
    requires Homes(home, |s|) && hole < |s| && j < |s|
    requires Repairing(s, home, hole, j) && s[j].Used? && !OnPath(hole, home(s[j].key), j, |s|)
    ensures Repairing(s, home, hole, Wrap(j + 1, |s|))
    ensures Dist(Wrap(j + 1, |s|), hole, |s|) < Dist(j, hole, |s|)
  {
  }

  lemma RepairStarts<Circ>(s: seq<Slot<Circ>>, home: Key -> nat, p: nat)
    requires Inv(s, home) && p < |s| && s[p].Used?
    ensures Repairing(s[p := Free], home, p, Wrap(p + 1, |s|))
  {
  }

  class Table<Circ(==)> {
    const home: Key -> nat
    const slots: array<Slot<Circ>>
    ghost var contents: map<Key, Circ>

    ghost predicate Valid()
      reads this, slots
    {
      Inv(slots[..], home) && Represents(slots[..], contents)
    }

    /** The zeroed table of moor_circuit_init_pool. */
    constructor (size: nat, hash: Key -> nat)
      requires Homes(hash, size)
      ensures Valid() && fresh(slots) && slots.Length == size && home == hash && contents == map[]
    {
      home := hash;
      slots := new Slot<Circ>[size](_ => Free);
      contents := map[];
    }

    /** circ_ht_insert. `at` is the slot where probing stopped, `slots.Length` if it ran through the
        whole table. The first two clauses are what the deletion loop relies on while the table is
        under repair; on a valid table the call inserts into the map. */
    method Insert(conn: nat, cid: nat, circ: Circ) returns (ok: bool, ghost at: nat)
      requires Homes(home, slots.Length)
      modifies slots, `contents
      ensures var k, s := Key(conn, cid), old(slots[..]);
              conn != 0 && cid != 0 ==> if at < |s| then StopsAt(s, home(k), k, at) else Passes(s, home(k), k, |s|)
      ensures var s := old(slots[..]);
              slots[..] == if at < |s| && s[at].Free? then s[at := Used(Key(conn, cid), circ)] else s
      ensures old(Valid()) ==>
        var k, m := Key(conn, cid), old(contents);
        Valid() &&
        if conn == 0 || cid == 0 then !ok && contents == m
        else if k in m then ok == (m[k] == circ) && contents == m
        else if |m| < slots.Length then ok && contents == m[k := circ]
        else !ok && contents == m
    {
      ghost var s, m, valid := slots[..], contents, Valid();
      hide Probed, Unique, Represents;
      var k, n := Key(conn, cid), slots.Length;
      if conn == 0 || cid == 0 { return false, n; }
      var idx := home(k);
      for i := 0 to n
        invariant slots[..] == s && contents == m
        invariant Passes(s, idx, k, i)
      {
        var slot := Wrap(idx + i, n);
        assert Dist(idx, slot, n) == i && s[slot] == slots[slot];
        if slots[slot].Free? {
          if valid {
            RoomIffFree(s, m);
            StoreRefines(s, home, m, k, circ, slot);
            contents := m[k := circ];
          }
          slots[slot] := Used(k, circ);
          assert slots[..] == s[slot := Used(k, circ)];
          return true, slot;
        }
        if slots[slot].key == k {
          if valid { ProbeHits(s, m, slot); }
          return slots[slot].circ == circ, slot;
        }
      }
      if valid {
        ProbeMisses(s, home, m, k, n);
        RoomIffFree(s, m);
      }
      assert forall j :: 0 <= j < n ==> Dist(idx, j, n) < n;
      return false, n;
    }

    /** circ_ht_lookup. */
    method Lookup(conn: nat, cid: nat) returns (r: Slot<Circ>)
      requires Valid()
      ensures var k := Key(conn, cid);
              r == if conn != 0 && cid != 0 && k in contents then Used(k, contents[k]) else Free
    {
      hide Probed, Unique, Represents;
      if conn == 0 || cid == 0 { return Free; }
      ghost var s := slots[..];
      var k, n := Key(conn, cid), slots.Length;
      var idx := home(k);
      for i := 0 to n
        invariant Passes(s, idx, k, i)
      {
        var slot := Wrap(idx + i, n);
        assert Dist(idx, slot, n) == i && s[slot] == slots[slot];
        if slots[slot].Free? {
          ProbeMisses(s, home, contents, k, i);
          return Free;
        }
        if slots[slot].key == k {
          ProbeHits(s, contents, slot);
          return slots[slot];
        }
      }
      ProbeMisses(s, home, contents, k, n);
      return Free;
    }

    /** circ_ht_remove. */
    method Remove(conn: nat, cid: nat)
      requires Valid()
      modifies slots, `contents
      ensures Valid()
      ensures contents == old(contents) - Live(Key(conn, cid))
    {
      hide Probed, Unique, Represents, Repairing;
      assert contents - {} == contents;
      if conn == 0 || cid == 0 { return; }
      ghost var s, m := slots[..], contents;
      var k, n := Key(conn, cid), slots.Length;
      var idx := home(k);
      for i := 0 to n
        invariant slots[..] == s && contents == m
        invariant Passes(s, idx, k, i)
      {
        var slot := Wrap(idx + i, n);
        assert Dist(idx, slot, n) == i && s[slot] == slots[slot];
        if slots[slot].Free? {
          ProbeMisses(s, home, m, k, i);
          return;
        }
        if slots[slot].key == k {
          RepairStarts(s, home, slot);
          ClearRefines(s, m, slot);
          slots[slot] := Free;
          contents := m - {k};
          assert slots[..] == s[slot := Free];
          Reinsert(slot);
          return;
        }
      }
      ProbeMisses(s, home, m, k, n);
    }

    /** The loop of circ_ht_remove that re-inserts the cluster after the freed slot. It terminates on
        every table, a completely full one included: either the total displacement drops, or the scan
        comes closer to the hole. */
    method Reinsert(slot: nat)
      requires Homes(home, slots.Length) && slot < slots.Length
      requires Repairing(slots[..], home, slot, Wrap(slot + 1, slots.Length))
      requires Represents(slots[..], contents)
      modifies slots, `contents
      ensures Valid() && contents == old(contents)
    {
      hide Repairing, Represents, StopsAt, Passes, Displacement;
      var n := slots.Length;
      var j: nat := Wrap(slot + 1, n);
      ghost var hole: nat, m := slot, contents;
      while slots[j].Used?
        invariant j < n && hole < n && Repairing(slots[..], home, hole, j)
        invariant contents == m && Represents(slots[..], m)
        decreases Displacement(slots[..], home, n), Dist(j, hole, n)
      {
        ghost var s := slots[..];
        RepairKeyLive(s, home, hole, j);
        var tmp := slots[j];
        slots[j] := Free;
        assert slots[..] == s[j := Free];
        var _, at := Insert(tmp.key.conn, tmp.key.cid, tmp.circ);
        contents := m;
        RepairStep(s, home, hole, j, at);
        if OnPath(hole, home(tmp.key), j, n) {
          RepairMoved(s, home, m, hole, j);
          hole := j;
        } else {
          RepairKept(s, home, hole, j);
          assert slots[..] == s;
        }
        j := Wrap(j + 1, n);
      }
      RepairDone(slots[..], home, hole, j);
    }

    /** circ_unregister_unlocked. */
    method Unregister(e: Endpoints)
      requires Valid()
      modifies slots, `contents
      ensures Valid()
      ensures contents == if e.own.cid == 0 then old(contents) else old(contents) - e.Keys()
    {
      hide Inv, Represents;
      if e.own.cid == 0 { return; }
      ghost var m := contents;
      if e.own.conn != 0 { Remove(e.own.conn, e.own.cid); }
      if e.prev.conn != 0 { Remove(e.prev.conn, e.prev.cid); }
      if e.next.conn != 0 { Remove(e.next.conn, e.next.cid); }
      DropAll(m, e);
    }
  }

  lemma DropAll<Circ>(m: map<Key, Circ>, e: Endpoints)
    ensures m - Live(e.own) - Live(e.prev) - Live(e.next) == m - e.Keys()
  {
  }

  /** The (connection, circuit id) pairs of one circuit. */
  datatype Endpoints = Endpoints(own: Key, prev: Key, next: Key) {
    function Keys(): set<Key> {
      Live(own) + Live(prev) + Live(next)
    }
  }

  /** Unregistering circuit `c` spares the bindings of all other circuits if and only if none of its
      own pairs is bound to another circuit, which happens after a refused (colliding) registration:
      removal does not compare the stored circuit. */
  lemma UnregisterSparesOthers<Circ>(m: map<Key, Circ>, c: Circ, e: Endpoints)
    ensures (forall k :: k in m && m[k] != c ==> k in m - e.Keys())
       <==> (forall k :: k in e.Keys() && k in m ==> m[k] == c)
  {
    forall k | k in e.Keys() && k in m && m[k] != c
      ensures !(forall k :: k in m && m[k] != c ==> k in m - e.Keys())
    {
      assert k !in m - e.Keys();
    }
  }
}
