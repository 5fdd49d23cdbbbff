/** The life of circuits in src/circuit.c: allocation, joining at a rendezvous point, marking for
    close, and the deferred close that releases them. Addresses are never reused, 0 is NULL; an
    access to a released circuit would be an access outside `mem`. */
module CircuitPool {
  import opened CircuitTable
  import Counting

  /** `ends.own.cid` is the circuit id, 0 for a circuit not yet set up or already cleaned up. */
  datatype Circ = Circ(ends: Endpoints, marked: bool, partner: nat) {
    function Id(): nat { ends.own.cid }
  }

  const BLANK := Circ(Endpoints(Key(0, 0), Key(0, 0), Key(0, 0)), false, 0)

  /** Slots of the circuit index. */
  const INDEX_SIZE := 4096

  type Memory = map<nat, Circ>

  /** Partners are live, unmarked, and partners of each other. */
  ghost predicate Paired(mem: Memory) {
    forall p :: p in mem && mem[p].partner != 0 ==>
      mem[p].partner in mem && mem[mem[p].partner].partner == p && !mem[p].marked
  }

  /** Exactly the marked circuits wait for their close, each listed once; they all have an id. */
  ghost predicate Waiting(mem: Memory, waiting: multiset<nat>) {
    && (forall p :: waiting[p] == if p in mem && mem[p].marked then 1 else 0)
    && (forall p :: p in mem && mem[p].marked ==> mem[p].Id() != 0)
  }

  /** The circuit index holds live circuits only, under their own endpoints. */
  ghost predicate Indexed(mem: Memory, table: map<Key, nat>) {
    forall k :: k in table ==> table[k] in mem && mem[table[k]].Id() != 0 && k in mem[table[k]].ends.Keys()
  }

  /** Every allocated circuit is tracked once; released ones were released once and are gone. */
  ghost predicate Tracked(mem: Memory, tracked: multiset<nat>, released: multiset<nat>, next: nat) {
    && (forall p :: tracked[p] == if p in mem then 1 else 0)
    && (forall p :: released[p] <= 1 && (p in released ==> p !in mem && 0 < p < next))
    && (forall p :: p in mem ==> 0 < p < next)
  }

  /** What one step of the pool keeps, with `waiting` the circuits to be closed. */
  ghost predicate Sound(mem: Memory, waiting: multiset<nat>, table: map<Key, nat>) {
    Paired(mem) && Waiting(mem, waiting) && Indexed(mem, table)
  }

  // ---- Marking, as a function of the memory ----

  /** `p` marked and unlinked from its partner. */
  function MarkOne(mem: Memory, p: nat): (r: Memory)
    requires p in mem
    ensures r.Keys == mem.Keys
    ensures forall x :: x in mem ==>
      r[x] == if x == p then mem[x].(marked := true, partner := 0)
              else if mem[p].partner != 0 && x == mem[p].partner then mem[x].(partner := 0)
              else mem[x]
  {
    var q := mem[p].partner;
    var m := mem[p := mem[p].(marked := true, partner := 0)];
    if q == 0 || q == p || q !in mem then m else m[q := mem[q].(partner := 0)]
  }

  predicate Markable(mem: Memory, p: nat) {
    p in mem && mem[p].Id() != 0 && !mem[p].marked
  }

  /** The partner that is marked along with `p`, 0 if there is none. */
  function Companion(mem: Memory, p: nat): (q: nat)
    ensures q != 0 ==> q in mem && q != p
  {
    if Markable(mem, p) && mem[p].partner != 0 && mem[p].partner != p && Markable(mem, mem[p].partner)
    then mem[p].partner else 0
  }

  lemma MarkOneKeeps(mem: Memory, waiting: multiset<nat>, table: map<Key, nat>, p: nat)
    requires Sound(mem, waiting, table) && Markable(mem, p)
    ensures Sound(MarkOne(mem, p), waiting + multiset{p}, table)
  {
    hide Paired, Waiting, Indexed;
    MarkPaired(mem, p);
    MarkWaiting(mem, waiting, p);
    SameEnds(mem, MarkOne(mem, p), table);
  }

  lemma MarkPaired(mem: Memory, p: nat)
    requires Paired(mem) && p in mem
    ensures Paired(MarkOne(mem, p))
  {
  }

  lemma MarkWaiting(mem: Memory, waiting: multiset<nat>, p: nat)
    requires Waiting(mem, waiting) && Markable(mem, p)
    ensures Waiting(MarkOne(mem, p), waiting + multiset{p})
  {
  }

  lemma SameEnds(mem: Memory, m: Memory, table: map<Key, nat>)
    requires Indexed(mem, table) && mem.Keys <= m.Keys && forall x :: x in mem ==> m[x].ends == mem[x].ends
    ensures Indexed(m, table)
  {
  }

  // ---- Joining and cleaning up, as functions of the memory ----

  function JoinMem(mem: Memory, a: nat, b: nat): Memory
    requires a in mem && b in mem
  {
    var m := mem[a := mem[a].(partner := b)];
    m[b := m[b].(partner := a)]
  }

  /** Neither circuit has a third one as partner. */
  predicate Apart(mem: Memory, a: nat, b: nat)
    requires a in mem && b in mem
  {
    mem[a].partner in {0, a, b} && mem[b].partner in {0, a, b}
  }

  /** Joining two live circuits keeps partners mutual if and only if neither was joined to a third
      circuit: the join site does not look. */
  lemma JoinKeepsPairs(mem: Memory, a: nat, b: nat)
    requires Paired(mem) && 0 !in mem && a in mem && b in mem && !mem[a].marked && !mem[b].marked
    ensures Paired(JoinMem(mem, a, b)) <==> Apart(mem, a, b)
  {
    var m := JoinMem(mem, a, b);
    var x, y := mem[a].partner, mem[b].partner;
    assert x !in {0, a, b} ==> m[x] == mem[x] && m[x].partner == a;
    assert y !in {0, a, b} ==> m[y] == mem[y] && m[y].partner == b;
  }

  /** Same ids and marks, so the same circuits wait. */
  lemma SameMarks(mem: Memory, m: Memory, waiting: multiset<nat>)
    requires Waiting(mem, waiting) && mem.Keys == m.Keys
    requires forall x :: x in mem ==> m[x].marked == mem[x].marked && m[x].Id() == mem[x].Id()
    ensures Waiting(m, waiting)
  {
  }

  lemma JoinSound(mem: Memory, waiting: multiset<nat>, table: map<Key, nat>, a: nat, b: nat)
    requires Sound(mem, waiting, table) && 0 !in mem && a in mem && b in mem && !mem[a].marked && !mem[b].marked
    ensures Sound(JoinMem(mem, a, b), waiting, table) <==> Apart(mem, a, b)
  {
    hide Paired, Waiting, Indexed;
    JoinKeepsPairs(mem, a, b);
    SameEnds(mem, JoinMem(mem, a, b), table);
    SameMarks(mem, JoinMem(mem, a, b), waiting);
  }

  /** No circuit has a released one as partner. */
  ghost predicate NoneStale(mem: Memory) {
    forall p :: p in mem && mem[p].partner != 0 ==> mem[p].partner in mem
  }

  /** Releasing a joined circuit leaves a stale partner pointer behind exactly if the circuit was joined
      to a third one before. */
  lemma ReleaseStaleIff(mem: Memory, a: nat, b: nat)
    requires Paired(mem) && 0 !in mem && a in mem && b in mem && !mem[a].marked && !mem[b].marked
    ensures NoneStale(CleanMem(JoinMem(mem, a, b), a) - {a}) <==> mem[a].partner in {0, a, b}
  {
    var j := JoinMem(mem, a, b);
    var m := CleanMem(j, a) - {a};
    var x := mem[a].partner;
    if x !in {0, a, b} {
      assert x in m && m[x].partner == a;
    } else {
      forall p | p in m && m[p].partner != 0 ensures m[p].partner in m {
        assert m[p] == mem[p] || p == b;
      }
    }
  }

  function CleanMem(mem: Memory, p: nat): (r: Memory)
    requires p in mem
    ensures r.Keys == mem.Keys
    ensures forall x :: x in mem ==>
      r[x] == if x == p then Circ(mem[x].ends.(own := Key(mem[x].ends.own.conn, 0)), false, 0)
              else if mem[p].partner != 0 && x == mem[p].partner then mem[x].(partner := 0)
              else mem[x]
  {
    var q := mem[p].partner;
    var m := mem[p := Circ(mem[p].ends.(own := Key(mem[p].ends.own.conn, 0)), false, 0)];
    if q == 0 || q == p || q !in mem then m else m[q := mem[q].(partner := 0)]
  }

  /** The index without the pairs of the circuit, whoever they are bound to. */
  function Unbound(table: map<Key, nat>, c: Circ): map<Key, nat> {
    if c.Id() == 0 then table else table - c.ends.Keys()
  }

  lemma CleanKeeps(mem: Memory, waiting: multiset<nat>, table: map<Key, nat>, p: nat)
    requires Sound(mem, waiting, table) && p in mem
    ensures Sound(CleanMem(mem, p), waiting - multiset{p}, Unbound(table, mem[p]))
  {
    hide Paired, Waiting, Indexed;
    CleanPaired(mem, p);
    CleanWaiting(mem, waiting, p);
    CleanIndexed(mem, table, p);
  }

  lemma CleanPaired(mem: Memory, p: nat)
    requires Paired(mem) && p in mem
    ensures Paired(CleanMem(mem, p))
  {
  }

  lemma CleanWaiting(mem: Memory, waiting: multiset<nat>, p: nat)
    requires Waiting(mem, waiting) && p in mem
    ensures Waiting(CleanMem(mem, p), waiting - multiset{p})
  {
  }

  lemma CleanIndexed(mem: Memory, table: map<Key, nat>, p: nat)
    requires Indexed(mem, table) && p in mem
    ensures Indexed(CleanMem(mem, p), Unbound(table, mem[p]))
  {
  }

  /** A blank circuit at an unused address, and the removal of one. */
  lemma BlankKeeps(mem: Memory, waiting: multiset<nat>, table: map<Key, nat>, p: nat)
    requires Sound(mem, waiting, table) && p !in mem && 0 !in mem
    ensures Sound(mem[p := BLANK], waiting, table)
  {
    assert forall x :: x in mem && mem[x].partner != 0 ==> mem[x].partner != p;
  }

  lemma DeadKeeps(mem: Memory, waiting: multiset<nat>, table: map<Key, nat>, p: nat)
    requires Sound(mem, waiting, table) && Dead(mem, p) && 0 !in mem
    ensures Sound(mem - {p}, waiting, table)
  {
  }

  lemma TrackedGrows(mem: Memory, tracked: seq<nat>, released: multiset<nat>, p: nat)
    requires p > 0 && Tracked(mem, multiset(tracked), released, p)
    ensures p !in mem && p !in released && Tracked(mem[p := BLANK], multiset(tracked + [p]), released, p + 1)
  {
  }

  lemma TrackedByKeys(mem: Memory, mem': Memory, tracked: multiset<nat>, released: multiset<nat>, next: nat)
    requires Tracked(mem, tracked, released, next) && mem'.Keys == mem.Keys
    ensures Tracked(mem', tracked, released, next)
  {
  }

  lemma TrackedShrinks(mem: Memory, tracked: multiset<nat>, released: seq<nat>, next: nat, p: nat)
    requires p in mem && Tracked(mem, tracked, multiset(released), next)
    ensures Tracked(mem - {p}, tracked - multiset{p}, multiset(released + [p]), next)
  {
  }

  /** Cleaned up but not released yet. */
  predicate Dead(mem: Memory, p: nat) {
    p in mem && mem[p].Id() == 0 && !mem[p].marked && mem[p].partner == 0
  }

  ghost predicate AllDead(mem: Memory, ps: seq<nat>) {
    forall j :: 0 <= j < |ps| ==> Dead(mem, ps[j])
  }

  /** The index with `k` bound to `p`, unless it is bound already or there is no room. */
  function Bound(table: map<Key, nat>, k: Key, p: nat): (r: map<Key, nat>)
    ensures forall x :: x in table ==> x in r && r[x] == table[x]
    ensures forall x :: x in r && x !in table ==> x == k && x in Live(k) && r[x] == p
  {
    if k in Live(k) && k !in table && |table| < INDEX_SIZE then table[k := p] else table
  }

  function Registration(table: map<Key, nat>, e: Endpoints, p: nat): map<Key, nat> {
    Bound(Bound(Bound(table, e.own, p), e.prev, p), e.next, p)
  }

  lemma Unbindable(table: map<Key, nat>, k: Key, p: nat)
    requires k.conn == 0
    ensures Bound(table, k, p) == table
  {
  }

  lemma BoundKeeps(mem: Memory, table: map<Key, nat>, k: Key, p: nat)
    requires Indexed(mem, table) && p in mem && mem[p].Id() != 0
    requires k == mem[p].ends.own || k == mem[p].ends.prev || k == mem[p].ends.next
    ensures Indexed(mem, Bound(table, k, p))
  {
  }

  lemma RegistrationKeeps(mem: Memory, table: map<Key, nat>, p: nat)
    requires Indexed(mem, table) && p in mem && mem[p].Id() != 0
    ensures Indexed(mem, Registration(table, mem[p].ends, p))
  {
    hide Indexed, Bound;
    var e := mem[p].ends;
    BoundKeeps(mem, table, e.own, p);
    BoundKeeps(mem, Bound(table, e.own, p), e.prev, p);
    BoundKeeps(mem, Bound(Bound(table, e.own, p), e.prev, p), e.next, p);
  }

  // ---- Gaining a next hop, losing a connection ----

  function Extended(c: Circ, k: Key): Circ {
    c.(ends := c.ends.(next := k))
  }

  /** The pair of an earlier next hop is bound to `p` and is none of its pairs any more. */
  ghost predicate Abandons(table: map<Key, nat>, c: Circ, p: nat, k: Key) {
    exists x :: x in table && table[x] == p && x in Live(c.ends.next) && x !in Extended(c, k).ends.Keys()
  }

  /** Extending keeps the index sound exactly if no pair of an earlier next hop stays behind. */
  lemma ExtendIndexed(mem: Memory, table: map<Key, nat>, p: nat, k: Key)
    requires Indexed(mem, table) && p in mem
    ensures var m := mem[p := Extended(mem[p], k)];
            Indexed(m, if m[p].Id() == 0 then table else Registration(table, m[p].ends, p)) <==>
              !Abandons(table, mem[p], p, k)
  {
    hide Bound;
    var m := mem[p := Extended(mem[p], k)];
    assert Indexed(m, table) <==> !Abandons(table, mem[p], p, k);
    if m[p].Id() != 0 {
      if Indexed(m, table) { RegistrationKeeps(m, table, p); }
      var r := Registration(table, m[p].ends, p);
      assert forall x :: x in table ==> x in r && r[x] == table[x];
    }
  }

  lemma ExtendSound(mem: Memory, waiting: multiset<nat>, table: map<Key, nat>, p: nat, k: Key)
    requires Sound(mem, waiting, table) && p in mem
    ensures var m := mem[p := Extended(mem[p], k)];
            Sound(m, waiting, if m[p].Id() == 0 then table else Registration(table, m[p].ends, p)) <==>
              !Abandons(table, mem[p], p, k)
  {
    hide Indexed, Paired, Waiting, Abandons, Registration;
    var m := mem[p := Extended(mem[p], k)];
    ExtendIndexed(mem, table, p, k);
    SameMarks(mem, m, waiting);
    SamePartners(mem, m);
  }

  lemma SamePartners(mem: Memory, m: Memory)
    requires Paired(mem) && mem.Keys == m.Keys
    requires forall x :: x in mem ==> m[x].marked == mem[x].marked && m[x].partner == mem[x].partner
    ensures Paired(m)
  {
  }

  predicate Touches(c: Circ, conn: nat) {
    c.ends.own.conn == conn || c.ends.prev.conn == conn || c.ends.next.conn == conn
  }

  function CutKey(k: Key, conn: nat): Key {
    if k.conn == conn then Key(0, k.cid) else k
  }

  /** The circuit without its pointers to `conn`. */
  function Cut(c: Circ, conn: nat): Circ {
    if c.Id() == 0 then c
    else c.(ends := Endpoints(CutKey(c.ends.own, conn), CutKey(c.ends.prev, conn), CutKey(c.ends.next, conn)))
  }

  /** The pairs on `conn` of a circuit. */
  function On(c: Circ, conn: nat): set<Key> {
    if c.Id() == 0 then {} else set k | k in [c.ends.own, c.ends.prev, c.ends.next] && k.conn == conn
  }

  lemma CutKeeps(mem: Memory, waiting: multiset<nat>, table: map<Key, nat>, p: nat, conn: nat)
    requires Sound(mem, waiting, table) && p in mem && conn != 0
    ensures Sound(mem[p := Cut(mem[p], conn)], waiting, table - On(mem[p], conn))
  {
    hide Paired, Waiting;
    var m, t := mem[p := Cut(mem[p], conn)], table - On(mem[p], conn);
    SameMarks(mem, m, waiting);
    SamePartners(mem, m);
    forall k | k in t ensures t[k] in m && m[t[k]].Id() != 0 && k in m[t[k]].ends.Keys() {
      assert k in table && k !in On(mem[p], conn);
    }
  }

  /** The index without the bindings on `conn`. */
  ghost function Off(table: map<Key, nat>, conn: nat): map<Key, nat> {
    map k | k in table && k.conn != conn :: table[k]
  }

  lemma AllCut(mem: Memory, table: map<Key, nat>, before: map<Key, nat>, conn: nat)
    requires conn != 0 && Indexed(mem, table) && (forall x :: x in mem && mem[x].Id() != 0 ==> !Touches(mem[x], conn))
    requires Off(table, conn) == Off(before, conn) && forall k :: k in table ==> k in before && table[k] == before[k]
    ensures table == Off(before, conn)
  {
    forall k | k in table ensures k.conn != conn {
      assert k in mem[table[k]].ends.Keys();
    }
    assert Off(table, conn) == table;
  }

  /** A circuit that a lookup for this connection and id may return. */
  predicate Matches(c: Circ, conn: nat, cid: nat) {
    || (c.Id() == cid && (c.ends.own.conn == conn || c.ends.prev.conn == conn || c.ends.next.conn == conn))
    || c.ends.prev == Key(conn, cid) || c.ends.next == Key(conn, cid)
  }

  /** A lookup matches all pairs of a live circuit and none without an endpoint on the connection. */
  lemma MatchesIff(c: Circ, k: Key)
    ensures c.Id() != 0 && k in c.ends.Keys() ==> Matches(c, k.conn, k.cid)
    ensures Matches(c, k.conn, k.cid) ==> Touches(c, k.conn) && k.cid in {c.Id(), c.ends.prev.cid, c.ends.next.cid}
    ensures Matches(c, k.conn, k.cid) && k !in {c.ends.prev, c.ends.next} ==> k.cid == c.Id()
  {
  }

  /** Open to a lookup for this connection and id. */
  function OpenFor(mem: Memory, conn: nat, cid: nat): nat -> bool {
    (p: nat) => p in mem && !mem[p].marked && Matches(mem[p], conn, cid)
  }

  /** The index binds the pair to an unmarked circuit. */
  predicate BoundOpen(mem: Memory, table: map<Key, nat>, k: Key) {
    k in Live(k) && k in table && table[k] in mem && !mem[table[k]].marked
  }

  /** What a lookup returns: the circuit bound to the pair, else the first tracked one that is open, else 0. */
  function Found(mem: Memory, tracked: seq<nat>, table: map<Key, nat>, conn: nat, cid: nat): nat {
    if BoundOpen(mem, table, Key(conn, cid)) then table[Key(conn, cid)]
    else
      var k := Counting.First(tracked, OpenFor(mem, conn, cid));
      if k < |tracked| then tracked[k] else 0
  }

  /** A lookup for an id returns a circuit that was cleaned up exactly if no open circuit is bound to the
      pair and the first open one on the list has no id and the pair as previous or next hop. */
  lemma FindsCleanedIff(mem: Memory, tracked: seq<nat>, table: map<Key, nat>, conn: nat, cid: nat)
    requires Indexed(mem, table) && 0 !in mem && cid != 0
    ensures var r, k := Found(mem, tracked, table, conn, cid), Counting.First(tracked, OpenFor(mem, conn, cid));
            r in mem && mem[r].Id() == 0 <==>
              (!BoundOpen(mem, table, Key(conn, cid)) && k < |tracked| && tracked[k] in mem && mem[tracked[k]].Id() == 0
               && Key(conn, cid) in {mem[tracked[k]].ends.prev, mem[tracked[k]].ends.next})
  {
    var k := Counting.First(tracked, OpenFor(mem, conn, cid));
    assert k < |tracked| ==> OpenFor(mem, conn, cid)(tracked[k]);
  }

  class Pool {
    var mem: Memory
    var tracked: seq<nat>
    var pending: seq<nat>
    var table: map<Key, nat>
    var next: nat
    ghost var released: seq<nat>

    /** Every circuit is tracked. */
    ghost predicate Listed()
      reads `mem, `tracked, `next, `released
    {
      next > 0 && Tracked(mem, multiset(tracked), multiset(released), next)
    }

    /** The invariant while the circuits in `batch` are being closed. */
    ghost predicate Ok(batch: multiset<nat>)
      reads this
    {
      Listed() && Sound(mem, multiset(pending) + batch, table)
    }

    ghost predicate Valid()
      reads this
    {
      Ok(multiset{})
    }

    constructor ()
      ensures Valid() && mem == map[] && table == map[] && pending == released == []
    {
      mem, tracked, pending, table, next := map[], [], [], map[], 1;
      released := [];
    }

    lemma NoNull()
      requires Valid()
      ensures 0 !in mem
    {
    }

    /** moor_circuit_alloc. */
    method Alloc() returns (p: nat)
      requires Valid()
      modifies this
      ensures Valid() && p !in old(mem) && p !in released && mem == old(mem)[p := BLANK]
      ensures pending == old(pending) && released == old(released) && table == old(table)
    {
      hide Sound, Tracked;
      p := next;
      TrackedGrows(mem, tracked, multiset(released), p);
      assert 0 !in mem by { NoNull(); }
      BlankKeeps(mem, multiset(pending) + multiset{}, table, p);
      next := next + 1;
      mem := mem[p := BLANK];
      tracked := tracked + [p];
    }

    /** moor_circuit_mark_for_close_. A rendezvous partner is unlinked and marked along. */
    method Mark(p: nat, ghost batch: multiset<nat>)
      requires Ok(batch) && p in mem
      modifies `mem, `pending
      ensures Ok(batch) && mem.Keys == old(mem.Keys)
      ensures var m, q := old(mem), Companion(old(mem), p);
              if !Markable(m, p) then mem == m && pending == old(pending)
              else if q == 0 then mem == MarkOne(m, p) && pending == old(pending) + [p]
              else mem == MarkOne(MarkOne(m, p), q) && pending == old(pending) + [q] + [p]
      decreases p in mem && mem[p].partner != 0
    {
      hide Tracked, Waiting, Indexed, MarkOne;
      if mem[p].Id() == 0 { return; }
      if mem[p].marked { return; }
      var partner := Unlink(p, batch);
      if partner != 0 && mem[partner].Id() != 0 && !mem[partner].marked {
        Mark(partner, batch + multiset{p});
      }
      Enqueue(p, batch);
    }

    /** pending_close_add. */
    method Enqueue(p: nat, ghost batch: multiset<nat>)
      requires Ok(batch + multiset{p})
      modifies `pending
      ensures Ok(batch) && pending == old(pending) + [p]
    {
      assert multiset(pending + [p]) + batch == multiset(pending) + (batch + multiset{p});
      pending := pending + [p];
    }

    /** The first part of marking: set the mark, cut the link to the partner on both sides. */
    method Unlink(p: nat, ghost batch: multiset<nat>) returns (partner: nat)
      requires Ok(batch) && Markable(mem, p)
      modifies `mem
      ensures Ok(batch + multiset{p}) && mem == MarkOne(old(mem), p) && partner == old(mem)[p].partner
    {
      hide Tracked, Waiting, Indexed, MarkOne;
      TrackedByKeys(mem, MarkOne(mem, p), multiset(tracked), multiset(released), next);
      MarkOneKeeps(mem, multiset(pending) + batch, table, p);
      ghost var goal := MarkOne(mem, p);
      mem := mem[p := mem[p].(marked := true)];
      partner := mem[p].partner;
      if partner != 0 {
        mem := mem[partner := mem[partner].(partner := 0)];
        mem := mem[p := mem[p].(partner := 0)];
      }
      assert mem == goal;
      assert multiset(pending) + (batch + multiset{p}) == multiset(pending) + batch + multiset{p};
    }

    /** A new circuit gets its id and endpoints. */
    method SetUp(p: nat, ends: Endpoints)
      requires Valid() && p in mem && mem[p].Id() == 0
      modifies `mem
      ensures Valid() && mem == old(mem)[p := old(mem)[p].(ends := ends)]
    {
      mem := mem[p := mem[p].(ends := ends)];
    }

    /** circ_register_unlocked: bound pairs stay with their circuits. */
    method Register(p: nat)
      requires p in mem
      modifies `table
      ensures table == if mem[p].Id() == 0 then old(table) else Registration(old(table), mem[p].ends, p)
      ensures old(Valid()) ==> Valid()
    {
      hide Indexed, Paired, Waiting, Tracked, Bound;
      if mem[p].Id() == 0 { return; }
      var e := mem[p].ends;
      if Indexed(mem, table) { RegistrationKeeps(mem, table, p); }
      if e.own.conn != 0 { Insert(e.own, p); } else { Unbindable(table, e.own, p); }
      if e.prev.conn != 0 { Insert(e.prev, p); } else { Unbindable(table, e.prev, p); }
      if e.next.conn != 0 { Insert(e.next, p); } else { Unbindable(table, e.next, p); }
    }

    /** A circuit gets its next hop, then registers again (src/relay.c). */
    method Extend(p: nat, k: Key)
      requires Valid() && p in mem
      modifies `mem, `table
      ensures mem == old(mem)[p := Extended(old(mem)[p], k)]
      ensures table == if mem[p].Id() == 0 then old(table) else Registration(old(table), mem[p].ends, p)
      ensures Valid() <==> !Abandons(old(table), old(mem)[p], p, k)
    {
      hide Sound, Tracked, Abandons, Registration;
      ExtendSound(mem, multiset(pending) + multiset{}, table, p, k);
      TrackedByKeys(mem, mem[p := Extended(mem[p], k)], multiset(tracked), multiset(released), next);
      mem := mem[p := mem[p].(ends := mem[p].ends.(next := k))];
      Register(p);
    }

    /** circ_ht_insert, as CircuitTable.Table.Insert refines it. */
    method Insert(k: Key, p: nat)
      modifies `table
      ensures table == Bound(old(table), k, p)
    {
      if k.conn != 0 && k.cid != 0 && k !in table && |table| < INDEX_SIZE { table := table[k := p]; }
    }

    /** The join of two circuits at a rendezvous point (src/relay.c). */
    method Join(a: nat, b: nat)
      requires Valid() && a in mem && b in mem && !mem[a].marked && !mem[b].marked
      modifies `mem
      ensures mem == JoinMem(old(mem), a, b)
      ensures Listed() && (Valid() <==> Apart(old(mem), a, b))
    {
      hide Tracked, Sound;
      assert 0 !in mem by { NoNull(); }
      JoinSound(mem, multiset(pending) + multiset{}, table, a, b);
      TrackedByKeys(mem, JoinMem(mem, a, b), multiset(tracked), multiset(released), next);
      mem := JoinMem(mem, a, b);
    }

    /** circ_cleanup_unlocked. */
    method Cleanup(p: nat, ghost batch: multiset<nat>)
      requires Listed() && p in mem && (mem[p].partner != 0 ==> mem[p].partner in mem)
      modifies `mem, `table
      ensures Listed() && mem == CleanMem(old(mem), p) && table == Unbound(old(table), old(mem)[p])
      ensures old(Ok(batch) && (mem[p].marked ==> p in batch)) ==> Ok(batch - multiset{p})
    {
      hide Tracked, Paired, Indexed;
      if Sound(mem, multiset(pending) + batch, table) {
        CleanKeeps(mem, multiset(pending) + batch, table, p);
      }
      TrackedByKeys(mem, CleanMem(mem, p), multiset(tracked), multiset(released), next);
      assert p in batch || p !in multiset(pending) ==>
        multiset(pending) + batch - multiset{p} == multiset(pending) + (batch - multiset{p});
      if mem[p].Id() != 0 { table := table - mem[p].ends.Keys(); }
      mem := CleanMem(mem, p);
    }

    /** What holds once circuit `p` is taken out. */
    lemma Dropped(p: nat, batch: multiset<nat>)
      requires Listed() && p in mem
      ensures p != 0 && p in tracked
      ensures Ok(batch) && Dead(mem, p) ==> Sound(mem - {p}, multiset(pending) + batch, table)
      ensures Tracked(mem - {p}, multiset(tracked) - multiset{p}, multiset(released + [p]), next)
    {
      hide Sound;
      TrackedShrinks(mem, multiset(tracked), released, next, p);
      assert p in multiset(tracked);
      if Ok(batch) && Dead(mem, p) { DeadKeeps(mem, multiset(pending) + batch, table, p); }
    }

    /** circ_release_unlocked: the circuit is gone for good. */
    method Release(p: nat, ghost batch: multiset<nat>)
      requires Listed() && p in mem
      modifies `mem, `tracked, `released
      ensures Listed() && mem == old(mem) - {p} && released == old(released) + [p]
      ensures old(Ok(batch) && Dead(mem, p)) ==> Ok(batch)
    {
      hide Sound, Tracked, Dead;
      Dropped(p, batch);
      var i := 0;
      while tracked[i] != p
        invariant 0 <= i < |tracked| && p in tracked[i..]
        decreases |tracked| - i
      {
        i := i + 1;
      }
      Counting.RemoveAt(tracked, i);
      tracked := tracked[i := tracked[|tracked| - 1]][..|tracked| - 1];
      mem := mem - {p};
      released := released + [p];
    }

    /** moor_circuit_free: a marked circuit is left to the deferred close. */
    method Free(p: nat)
      requires Listed() && p in mem && (mem[p].partner != 0 ==> mem[p].partner in mem)
      modifies this
      ensures Listed() && (old(Valid()) ==> Valid()) && pending == old(pending)
      ensures if old(mem)[p].marked then mem == old(mem) && released == old(released) && table == old(table)
              else mem == CleanMem(old(mem), p) - {p} && released == old(released) + [p]
                   && table == Unbound(old(table), old(mem)[p])
    {
      hide Sound, Tracked;
      if mem[p].marked { return; }
      Cleanup(p, multiset{});
      assert multiset{} - multiset{p} == multiset{};
      Release(p, multiset{});
    }

    /** moor_circuit_find. */
    method Find(conn: nat, cid: nat, ghost batch: multiset<nat>) returns (r: nat)
      requires Ok(batch)
      ensures r == Found(mem, tracked, table, conn, cid)
      ensures r != 0 ==> r in mem && !mem[r].marked && Matches(mem[r], conn, cid)
      ensures r == 0 ==> forall p :: p in mem && !mem[p].marked ==> !Matches(mem[p], conn, cid)
    {
      hide Sound, Tracked;
      AllTracked();
      assert Indexed(mem, table) by { SoundIndexed(mem, multiset(pending) + batch, table); }
      if conn != 0 && cid != 0 && Key(conn, cid) in table {
        r := table[Key(conn, cid)];
        if !mem[r].marked { return; }
      }
      ghost var open := OpenFor(mem, conn, cid);
      for i := 0 to |tracked|
        invariant forall j :: 0 <= j < i ==> !open(tracked[j])
      {
        r := tracked[i];
        assert open(r) <==> !mem[r].marked && Matches(mem[r], conn, cid);
        if !mem[r].marked && Matches(mem[r], conn, cid) { return; }
      }
      forall p | p in mem && !mem[p].marked ensures !Matches(mem[p], conn, cid) { assert !open(p); }
      r := 0;
    }

    /** moor_circuit_mark_all_for_conn. */
    method MarkAll(conn: nat)
      requires Valid()
      modifies `mem, `pending
      ensures Valid() && mem.Keys == old(mem.Keys)
      ensures forall x :: x in mem ==> Marking(old(mem)[x], mem[x])
      ensures forall x :: x in mem && mem[x].Id() != 0 && Touches(mem[x], conn) ==> mem[x].marked
    {
      hide Tracked, Sound, MarkOne, Touches;
      for i := 0 to |tracked|
        invariant Valid() && mem.Keys == old(mem.Keys)
        invariant forall x :: x in mem ==> Marking(old(mem)[x], mem[x])
        invariant forall j :: 0 <= j < i ==> tracked[j] in mem && Done(mem[tracked[j]], conn)
      {
        AllTracked();
        var c := tracked[i];
        ghost var m := mem;
        if mem[c].Id() != 0 && !mem[c].marked && Touches(mem[c], conn) {
          Mark(c, multiset{});
          MarkGrows(m, mem, c);
        }
      }
      AllTracked();
      forall x | x in mem ensures Done(mem[x], conn) { assert x in tracked; }
    }

    lemma AllTracked()
      requires Listed()
      ensures 0 !in mem && forall p :: p in mem <==> p in tracked
    {
      forall p ensures p in mem <==> p in tracked { assert p in multiset(tracked) <==> p in tracked; }
    }

    /** circ_nullify_conn_unlocked. */
    method Nullify(conn: nat)
      requires Valid() && conn != 0
      modifies `mem, `table
      ensures Valid() && mem.Keys == old(mem.Keys) && (forall x :: x in mem ==> mem[x] == Cut(old(mem)[x], conn))
      ensures table == Off(old(table), conn)
    {
      hide Tracked, Paired, Waiting, Indexed, Cut, Off;
      ghost var m := mem;
      for i := 0 to |tracked|
        invariant Valid() && mem.Keys == m.Keys
        invariant forall x :: x in mem ==> mem[x] == m[x] || mem[x] == Cut(m[x], conn)
        invariant forall j :: 0 <= j < i ==> tracked[j] in mem && mem[tracked[j]] == Cut(m[tracked[j]], conn)
        invariant Off(table, conn) == Off(old(table), conn)
        invariant forall k :: k in table ==> k in old(table) && table[k] == old(table)[k]
      {
        AllTracked();
        CutOne(tracked[i], conn);
        forall x | x in mem ensures Cut(Cut(m[x], conn), conn) == Cut(m[x], conn) { CutTwice(m[x], conn); }
      }
      AllTracked();
      forall x | x in mem ensures mem[x] == Cut(m[x], conn) { assert x in tracked; }
      forall x | x in mem && mem[x].Id() != 0 ensures !Touches(mem[x], conn) { CutOff(m[x], conn); }
      AllCut(mem, table, old(table), conn);
    }

    /** One circuit loses its pointers to `conn`, the index the pairs. */
    method CutOne(p: nat, conn: nat)
      requires Valid() && p in mem && conn != 0
      modifies `mem, `table
      ensures Valid() && mem == old(mem)[p := Cut(old(mem)[p], conn)] && table == old(table) - On(old(mem)[p], conn)
      ensures Off(table, conn) == Off(old(table), conn)
    {
      hide Tracked, Sound, Off, On;
      ghost var c, t := mem[p], table;
      CutKeeps(mem, multiset(pending) + multiset{}, table, p, conn);
      TrackedByKeys(mem, mem[p := Cut(mem[p], conn)], multiset(tracked), multiset(released), next);
      OffSame(table, c, conn);
      OnSteps(table, c, conn);
      if mem[p].Id() == 0 {
        assert mem[p := mem[p]] == mem;
        return;
      }
      var e := mem[p].ends;
      if e.own.conn == conn {
        table := table - {Key(conn, e.own.cid)};
        e := e.(own := Key(0, e.own.cid));
      }
      if e.next.conn == conn {
        table := table - {Key(conn, e.next.cid)};
        e := e.(next := Key(0, e.next.cid));
      }
      if e.prev.conn == conn {
        table := table - {Key(conn, e.prev.cid)};
        e := e.(prev := Key(0, e.prev.cid));
      }
      mem := mem[p := mem[p].(ends := e)];
    }

    /** moor_circuit_teardown_for_conn: afterwards every circuit that used the connection is marked, and
        neither a live circuit nor the index refers to it. */
    method Teardown(conn: nat)
      requires Valid() && conn != 0
      modifies `mem, `pending, `table
      ensures Valid() && mem.Keys == old(mem.Keys) && table == Off(old(table), conn)
      ensures forall x :: x in mem && mem[x].Id() != 0 ==>
        !Touches(mem[x], conn) && (Touches(old(mem)[x], conn) ==> mem[x].marked)
    {
      hide Tracked, Sound, Off;
      MarkAll(conn);
      ghost var m := mem;
      Nullify(conn);
      forall x | x in mem && mem[x].Id() != 0
        ensures !Touches(mem[x], conn) && (Touches(old(mem)[x], conn) ==> mem[x].marked)
      {
        CutOff(m[x], conn);
      }
    }

    /** A subsystem callback, which may only mark circuits; stale addresses are ignored. */
    method Callback(qs: seq<nat>, ghost batch: multiset<nat>, ghost dead: seq<nat>)
      requires Ok(batch) && AllDead(mem, dead)
      modifies `mem, `pending
      ensures Ok(batch) && mem.Keys == old(mem.Keys) && AllDead(mem, dead)
      ensures old(pending) <= pending
    {
      hide Tracked, Waiting, Indexed, MarkOne, Dead;
      for i := 0 to |qs|
        invariant Ok(batch) && mem.Keys == old(mem.Keys) && AllDead(mem, dead)
        invariant old(pending) <= pending
      {
        if qs[i] in mem {
          ghost var m := mem;
          Mark(qs[i], batch);
          forall j | 0 <= j < |dead| ensures Dead(mem, dead[j]) { MarkSpares(m, mem, qs[i], dead[j]); }
        }
      }
    }

    /** The cleanup of one circuit of the batch; it cannot have been cleaned up before. */
    method CleanOne(p: nat, ghost batch: multiset<nat>, ghost dead: seq<nat>)
      requires Ok(batch) && p in batch && AllDead(mem, dead)
      modifies `mem, `table
      ensures Ok(batch - multiset{p}) && mem == CleanMem(old(mem), p) && AllDead(mem, dead + [p])
    {
      assert (multiset(pending) + batch)[p] > 0;
      var cleaned, unmarked := mem[p].Id() == 0, !mem[p].marked;
      if cleaned && unmarked { assert false; }
      Cleanup(p, batch);
    }

    /** One circuit of the batch, with the callbacks around its cleanup. */
    method CloseOne(p: nat, before: seq<nat>, after: seq<nat>, ghost rest: multiset<nat>, ghost dead: seq<nat>)
      requires Ok(multiset{p} + rest) && AllDead(mem, dead)
      modifies `mem, `table, `pending
      ensures Ok(rest) && mem.Keys == old(mem.Keys) && AllDead(mem, dead + [p])
    {
      hide Sound, Tracked;
      ghost var batch := multiset{p} + rest;
      Callback(before, batch, dead);
      CleanOne(p, batch, dead);
      assert batch - multiset{p} == rest;
      Callback(after, rest, dead + [p]);
    }

    /** The last phase of the deferred close. */
    method ReleaseAll(batch: seq<nat>)
      requires Valid() && Counting.Distinct(batch) && AllDead(mem, batch)
      modifies `mem, `tracked, `released
      ensures Valid() && mem.Keys == old(mem.Keys) - (set p | p in batch) && released == old(released) + batch
    {
      hide Sound, Tracked;
      for i := 0 to |batch|
        invariant Valid() && mem.Keys == old(mem.Keys) - (set p | p in batch[..i])
        invariant released == old(released) + batch[..i]
        invariant forall j :: i <= j < |batch| ==> Dead(mem, batch[j])
      {
        if mem[batch[i]].Id() == 0 { Release(batch[i], multiset{}); }
      }
    }

    /** moor_circuit_close_all_marked: the pending circuits are cleaned up one after the other, with
        callbacks before and after each (`before`, `after`), and only then released, each once and in
        order. Circuits that callbacks mark meanwhile wait for the next call. */
    method CloseAll(before: nat -> seq<nat>, after: nat -> seq<nat>)
      requires Valid()
      modifies this
      ensures Valid() && mem.Keys == old(mem.Keys) - (set p | p in old(pending))
      ensures released == old(released) + old(pending)
    {
      var batch := pending;
      hide Ok, AllDead;
      TakeBatch(batch);
      assert batch[0..] == batch;
      for i := 0 to |batch|
        invariant Ok(multiset(batch[i..])) && mem.Keys == old(mem.Keys)
        invariant released == old(released)
        invariant AllDead(mem, batch[..i])
      {
        assert batch[i..] == [batch[i]] + batch[i + 1..] && batch[..i + 1] == batch[..i] + [batch[i]];
        CloseOne(batch[i], before(i), after(i), multiset(batch[i + 1..]), batch[..i]);
      }
      assert multiset(batch[|batch|..]) == multiset{} && batch[..|batch|] == batch;
      ReleaseAll(batch);
    }

    /** The snapshot that starts the deferred close. */
    method TakeBatch(batch: seq<nat>)
      requires Valid() && batch == pending
      modifies `pending
      ensures Ok(multiset(batch)) && pending == [] && Counting.Distinct(batch) && AllDead(mem, batch[..0])
    {
      assert forall p :: (multiset(pending) + multiset{})[p] == multiset(pending)[p];
      OnceEach(batch);
      assert multiset([]) + multiset(batch) == multiset(pending) + multiset{};
      pending := [];
    }
  }

  /** `d` is `c`, perhaps marked and unlinked meanwhile. */
  predicate Marking(c: Circ, d: Circ) {
    d.ends == c.ends && (c.marked ==> d.marked)
  }

  predicate Done(c: Circ, conn: nat) {
    c.Id() != 0 && Touches(c, conn) ==> c.marked
  }

  lemma MarkGrows(m: Memory, m': Memory, p: nat)
    requires Markable(m, p)
    requires var q := Companion(m, p); if q == 0 then m' == MarkOne(m, p) else m' == MarkOne(MarkOne(m, p), q)
    ensures m'.Keys == m.Keys && m'[p].marked && forall x :: x in m ==> Marking(m[x], m'[x])
  {
  }

  lemma CutTwice(c: Circ, conn: nat)
    requires conn != 0
    ensures Cut(Cut(c, conn), conn) == Cut(c, conn)
  {
  }

  lemma CutOff(c: Circ, conn: nat)
    requires conn != 0
    ensures var d := Cut(c, conn); d.Id() == c.Id() && d.marked == c.marked && (c.Id() != 0 ==> !Touches(d, conn))
  {
  }

  function Without(table: map<Key, nat>, k: Key, conn: nat): map<Key, nat> {
    if k.conn == conn then table - {k} else table
  }

  lemma OnSteps(table: map<Key, nat>, c: Circ, conn: nat)
    ensures table - On(c, conn) == if c.Id() == 0 then table
                                   else Without(Without(Without(table, c.ends.own, conn), c.ends.next, conn),
                                     c.ends.prev, conn)
  {
    var e := c.ends;
    assert c.Id() != 0 ==> On(c, conn) == (set k | k in {e.own, e.prev, e.next} && k.conn == conn);
  }

  lemma OffSame(table: map<Key, nat>, c: Circ, conn: nat)
    ensures Off(table - On(c, conn), conn) == Off(table, conn)
  {
  }

  lemma SoundIndexed(mem: Memory, waiting: multiset<nat>, table: map<Key, nat>)
    requires Sound(mem, waiting, table)
    ensures Indexed(mem, table)
  {
  }

  // ---- Runs from an empty pool ----

  /** A circuit joined to a second partner and released leaves its first partner with a pointer to it. */
  method StalePartner() returns (pool: Pool, a: nat, b: nat)
    ensures fresh(pool) && pool.Listed()
    ensures a != 0 && a !in pool.mem && b in pool.mem && !pool.mem[b].marked && pool.mem[b].partner == a
  {
    hide Tracked, Sound;
    var c;
    pool, a, b, c := ThreeCircuits();
    pool.NoNull();
    pool.Join(a, b);
    pool.Join(a, c);
    pool.Free(a);
  }

  method ThreeCircuits() returns (pool: Pool, a: nat, b: nat, c: nat)
    ensures fresh(pool) && pool.Valid() && a != b && b != c && c != a && pool.mem.Keys == {a, b, c}
    ensures forall p :: p in pool.mem ==> !pool.mem[p].marked && pool.mem[p].partner == 0
  {
    hide Tracked, Sound;
    pool := new Pool();
    a := pool.Alloc();
    pool.SetUp(a, Endpoints(Key(0, 1), Key(1, 1), Key(0, 0)));
    b := pool.Alloc();
    pool.SetUp(b, Endpoints(Key(0, 2), Key(2, 1), Key(0, 0)));
    c := pool.Alloc();
    pool.SetUp(c, Endpoints(Key(0, 3), Key(3, 1), Key(0, 0)));
  }

  /** A lookup between the two passes of a close returns a circuit that is cleaned up already. */
  method FindsCleaned(conn: nat, cid: nat) returns (pool: Pool, p: nat, r: nat)
    requires conn != 0 && cid != 0
    ensures fresh(pool) && pool.Valid() && r == p && Dead(pool.mem, p)
  {
    hide Tracked, Sound, CleanMem, AllDead;
    pool, p := OneMarked(conn, cid);
    var batch := pool.pending;
    pool.TakeBatch(batch);
    pool.CleanOne(p, multiset(batch), []);
    assert multiset(batch) - multiset{p} == multiset{};
    pool.AllTracked();
    r := pool.Find(conn, cid, multiset{});
  }

  method OneMarked(conn: nat, cid: nat) returns (pool: Pool, p: nat)
    requires conn != 0 && cid != 0
    ensures fresh(pool) && pool.Valid() && pool.pending == [p]
    ensures pool.mem == map[p := Circ(Endpoints(Key(0, 1), Key(conn, cid), Key(0, 0)), true, 0)]
  {
    hide Tracked, Sound;
    pool := new Pool();
    p := pool.Alloc();
    pool.SetUp(p, Endpoints(Key(0, 1), Key(conn, cid), Key(0, 0)));
    pool.Register(p);
    pool.Mark(p, multiset{});
  }

  lemma OnePair(table: map<Key, nat>, k: Key, p: nat)
    ensures Registration(table, Alone(k), p) == Bound(table, k, p)
  {
  }

  /** Of two circuits set up with the same pair only the first is registered; releasing the second takes
      the first out of the index. */
  method LostBinding(k: Key) returns (pool: Pool, p: nat)
    requires k.conn != 0 && k.cid != 0
    ensures fresh(pool) && pool.Valid() && p in pool.mem && !pool.mem[p].marked
    ensures pool.mem[p].Id() != 0 && k in pool.mem[p].ends.Keys() && k !in pool.table
  {
    hide Tracked, Sound, Registration, CleanMem;
    pool, p := OneBound(k);
    var q := pool.Alloc();
    pool.SetUp(q, Alone(k));
    OnePair(pool.table, k, q);
    pool.Register(q);
    assert pool.table == map[k := p];
    pool.Free(q);
  }

  function Alone(k: Key): Endpoints {
    Endpoints(k, Key(0, 0), Key(0, 0))
  }

  method OneBound(k: Key) returns (pool: Pool, p: nat)
    requires k.conn != 0 && k.cid != 0
    ensures fresh(pool) && pool.Valid() && pool.table == map[k := p] && pool.mem == map[p := Circ(Alone(k), false, 0)]
  {
    hide Tracked, Sound, Registration;
    pool := new Pool();
    p := pool.Alloc();
    pool.SetUp(p, Alone(k));
    OnePair(pool.table, k, p);
    pool.Register(p);
  }

  lemma OnceEach(s: seq<nat>)
    requires forall p :: multiset(s)[p] <= 1
    ensures Counting.Distinct(s)
  {
    forall i, j | 0 <= i < j < |s| ensures s[i] != s[j] {
      assert s == s[..j] + s[j..];
      assert multiset(s)[s[j]] == multiset(s[..j])[s[j]] + multiset(s[j..])[s[j]];
      assert s[j] in multiset(s[j..]) by { assert s[j] == s[j..][0]; }
      assert s[i] in multiset(s[..j]) by { assert s[i] == s[..j][i]; }
    }
  }

  lemma MarkSpares(m: Memory, m': Memory, p: nat, d: nat)
    requires Paired(m) && Dead(m, d) && p in m
    requires var q := Companion(m, p);
             if !Markable(m, p) then m' == m
             else if q == 0 then m' == MarkOne(m, p) else m' == MarkOne(MarkOne(m, p), q)
    ensures Dead(m', d)
  {
  }
}