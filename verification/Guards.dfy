/** The guard sets of src/circuit.c: guards sampled from the consensus, those confirmed by use, and the
    three primary ones, kept as indices into an array that is compacted in place. */
module Guards {
  import Counting
  import opened Options

  const SAMPLED_MAX := 32
  const PRIMARY_MAX := 3
  const CONFIRMED_MAX := 8
  const MAX_AGE := 120 * 24 * 3600
  const U64 := 0x1_0000_0000_0000_0000
  const MIN_CIRCS := 20
  const SCALE_AT := 300

  datatype Guard = Guard(
    id: nat, addedAt: nat, confirmedAt: nat, lastTried: nat, unreachableSince: nat, reachable: bool,
    attempts: nat, success: nat, useAttempts: nat, useSuccess: nat, suspect: bool, disabled: bool)

  const BLANK := Guard(0, 0, 0, 0, 0, false, 0, 0, 0, 0, false, false)

  // ---- Preference ----

  /** Position of `g` in the confirmed list, -1 if it is not there. */
  function PlaceOf(confirmed: seq<int>, g: int): (p: int)
    ensures -1 <= p < |confirmed| && (p >= 0 ==> confirmed[p] == g) && (p < 0 ==> g !in confirmed)
  {
    if confirmed == [] then -1
    else
      var n := |confirmed| - 1;
      var p := PlaceOf(confirmed[..n], g);
      if p >= 0 then p else if confirmed[n] == g then n else -1
  }

  /** Rank of a guard: reachable confirmed ones first, then the other confirmed ones, both in the order of
      confirmation, then the rest in the order of sampling. */
  function Rank(gs: seq<Guard>, confirmed: seq<int>, g: int): nat
    requires 0 <= g < |gs| && |confirmed| <= CONFIRMED_MAX
  {
    var p := PlaceOf(confirmed, g);
    if p < 0 then 2 * CONFIRMED_MAX + g else if gs[g].reachable then p else CONFIRMED_MAX + p
  }

  ghost predicate DistinctIndices(xs: seq<int>, n: int) {
    && (forall i :: 0 <= i < |xs| ==> 0 <= xs[i] < n)
    && (forall i, j :: 0 <= i < j < |xs| ==> xs[i] != xs[j])
  }

  /** `primary` are the best of the enabled guards ranked below `t`, best first. */
  ghost predicate Best(gs: seq<Guard>, confirmed: seq<int>, primary: seq<int>, t: nat)
    requires |confirmed| <= CONFIRMED_MAX
  {
    && |primary| <= PRIMARY_MAX && DistinctIndices(primary, |gs|)
    && (forall i :: 0 <= i < |primary| ==> !gs[primary[i]].disabled && Rank(gs, confirmed, primary[i]) < t)
    && (forall i, j :: 0 <= i < j < |primary| ==> Rank(gs, confirmed, primary[i]) < Rank(gs, confirmed, primary[j]))
    && (forall g :: 0 <= g < |gs| && !gs[g].disabled && g !in primary && Rank(gs, confirmed, g) < t ==>
         |primary| == PRIMARY_MAX && Rank(gs, confirmed, primary[PRIMARY_MAX - 1]) < Rank(gs, confirmed, g))
  }

  const TOP := 2 * CONFIRMED_MAX + SAMPLED_MAX

  lemma RankAt(gs: seq<Guard>, confirmed: seq<int>, p: nat)
    requires |confirmed| <= CONFIRMED_MAX && DistinctIndices(confirmed, |gs|) && p < |confirmed|
    ensures Rank(gs, confirmed, confirmed[p]) == if gs[confirmed[p]].reachable then p else CONFIRMED_MAX + p
  {
    var q := PlaceOf(confirmed, confirmed[p]);
    assert confirmed[q] == confirmed[p];
  }

  lemma RankUnique(gs: seq<Guard>, confirmed: seq<int>, g: int, h: int)
    requires |confirmed| <= CONFIRMED_MAX && 0 <= g < |gs| && 0 <= h < |gs| &&
      Rank(gs, confirmed, g) == Rank(gs, confirmed, h)
    ensures g == h
  {
  }

  /** A guard of rank `t` that is enabled goes to the end, if there is room. */
  lemma Appends(gs: seq<Guard>, confirmed: seq<int>, primary: seq<int>, t: nat, g: int)
    requires |confirmed| <= CONFIRMED_MAX && Best(gs, confirmed, primary, t) && |primary| < PRIMARY_MAX
    requires 0 <= g < |gs| && !gs[g].disabled && Rank(gs, confirmed, g) == t
    ensures Best(gs, confirmed, primary + [g], t + 1)
  {
    hide Rank;
    forall h | 0 <= h < |gs| && Rank(gs, confirmed, h) == t ensures h == g { RankUnique(gs, confirmed, g, h); }
  }

  /** Nothing happens at a rank that no enabled guard has. */
  lemma Passes(gs: seq<Guard>, confirmed: seq<int>, primary: seq<int>, t: nat)
    requires |confirmed| <= CONFIRMED_MAX && Best(gs, confirmed, primary, t)
    requires forall g :: 0 <= g < |gs| && Rank(gs, confirmed, g) == t ==> gs[g].disabled
    ensures Best(gs, confirmed, primary, t + 1)
  {
    hide Rank;
  }

  /** A full list stays the best. */
  lemma Full(gs: seq<Guard>, confirmed: seq<int>, primary: seq<int>, t: nat, u: nat)
    requires |confirmed| <= CONFIRMED_MAX && Best(gs, confirmed, primary, t) && |primary| == PRIMARY_MAX && t <= u
    ensures Best(gs, confirmed, primary, u)
  {
    hide Rank;
  }

  /** No guard has a rank between those of two passes. */
  lemma Gap(gs: seq<Guard>, confirmed: seq<int>, primary: seq<int>, t: nat, u: nat)
    requires |confirmed| <= CONFIRMED_MAX && Best(gs, confirmed, primary, t) && t <= u
    requires forall g :: 0 <= g < |gs| ==> !(t <= Rank(gs, confirmed, g) < u)
    ensures Best(gs, confirmed, primary, u)
  {
    hide Rank;
  }

  /** Who has which rank. */
  lemma Ranked(gs: seq<Guard>, confirmed: seq<int>, g: int)
    requires |confirmed| <= CONFIRMED_MAX && 0 <= g < |gs|
    ensures var r := Rank(gs, confirmed, g);
            if r < CONFIRMED_MAX then r < |confirmed| && confirmed[r] == g && gs[g].reachable
            else if r < 2 * CONFIRMED_MAX then
              r - CONFIRMED_MAX < |confirmed| && confirmed[r - CONFIRMED_MAX] == g && !gs[g].reachable
            else r == 2 * CONFIRMED_MAX + g && g !in confirmed
  {
  }

  /** `g` was confirmed before `h`. */
  ghost predicate Earlier(confirmed: seq<int>, g: int, h: int) {
    exists p, q :: 0 <= p < q < |confirmed| && confirmed[p] == g && confirmed[q] == h
  }

  /** `g` is preferred to `h`: confirmed guards to others; of two confirmed ones a reachable one to one that is
      not, else the one confirmed earlier; of two others the one sampled earlier. */
  ghost predicate Preferred(gs: seq<Guard>, confirmed: seq<int>, g: int, h: int)
    requires 0 <= g < |gs| && 0 <= h < |gs|
  {
    if g in confirmed && h in confirmed then
      if gs[g].reachable == gs[h].reachable then Earlier(confirmed, g, h) else gs[g].reachable
    else g in confirmed || (h !in confirmed && g < h)
  }

  lemma RankPrefers(gs: seq<Guard>, confirmed: seq<int>, g: int, h: int)
    requires |confirmed| <= CONFIRMED_MAX && DistinctIndices(confirmed, |gs|) && 0 <= g < |gs| && 0 <= h < |gs|
    ensures Rank(gs, confirmed, g) < Rank(gs, confirmed, h) <==> Preferred(gs, confirmed, g, h)
  {
    var p, q := PlaceOf(confirmed, g), PlaceOf(confirmed, h);
    if p >= 0 && q >= 0 {
      assert p < q ==> Earlier(confirmed, g, h);
      assert Earlier(confirmed, g, h) ==> p < q;
    }
  }

  lemma Nothing(gs: seq<Guard>, confirmed: seq<int>)
    requires |confirmed| <= CONFIRMED_MAX
    ensures Best(gs, confirmed, [], 0)
  {
  }

  lemma FirstPass(gs: seq<Guard>, confirmed: seq<int>, primary: seq<int>, i: nat)
    requires |confirmed| <= CONFIRMED_MAX && DistinctIndices(confirmed, |gs|) && i < |confirmed|
    requires Best(gs, confirmed, primary, i) && |primary| < PRIMARY_MAX
    ensures var g := confirmed[i];
            Best(gs, confirmed, if gs[g].reachable && !gs[g].disabled then primary + [g] else primary, i + 1)
  {
    hide Rank, Best;
    var g := confirmed[i];
    RankAt(gs, confirmed, i);
    if gs[g].reachable && !gs[g].disabled {
      Appends(gs, confirmed, primary, i, g);
    } else {
      forall h | 0 <= h < |gs| && Rank(gs, confirmed, h) == i ensures gs[h].disabled { Ranked(gs, confirmed, h); }
      Passes(gs, confirmed, primary, i);
    }
  }

  lemma SecondPass(gs: seq<Guard>, confirmed: seq<int>, primary: seq<int>, i: nat)
    requires |confirmed| <= CONFIRMED_MAX && DistinctIndices(confirmed, |gs|) && i < |confirmed|
    requires Best(gs, confirmed, primary, CONFIRMED_MAX + i) && |primary| < PRIMARY_MAX
    ensures var g := confirmed[i];
            Best(gs, confirmed, if !gs[g].disabled && g !in primary then primary + [g] else primary,
              CONFIRMED_MAX + i + 1)
  {
    hide Rank;
    var g := confirmed[i];
    RankAt(gs, confirmed, i);
    if !gs[g].disabled && g !in primary {
      Appends(gs, confirmed, primary, CONFIRMED_MAX + i, g);
    } else {
      forall h | 0 <= h < |gs| && Rank(gs, confirmed, h) == CONFIRMED_MAX + i
        ensures gs[h].disabled { Ranked(gs, confirmed, h); }
      Passes(gs, confirmed, primary, CONFIRMED_MAX + i);
    }
  }

  lemma ThirdPass(gs: seq<Guard>, confirmed: seq<int>, primary: seq<int>, i: nat)
    requires |confirmed| <= CONFIRMED_MAX && i < |gs|
    requires Best(gs, confirmed, primary, 2 * CONFIRMED_MAX + i) && |primary| < PRIMARY_MAX
    ensures Best(gs, confirmed, if !gs[i].disabled && i !in primary then primary + [i] else primary,
      2 * CONFIRMED_MAX + i + 1)
  {
    hide Rank;
    Ranked(gs, confirmed, i);
    if !gs[i].disabled && i !in primary {
      Appends(gs, confirmed, primary, 2 * CONFIRMED_MAX + i, i);
    } else {
      forall h | 0 <= h < |gs| && Rank(gs, confirmed, h) == 2 * CONFIRMED_MAX + i
        ensures gs[h].disabled { Ranked(gs, confirmed, h); }
      Passes(gs, confirmed, primary, 2 * CONFIRMED_MAX + i);
    }
  }

  /** The end of a pass over `n` places from rank `base`. */
  lemma PassEnds(gs: seq<Guard>, confirmed: seq<int>, primary: seq<int>, base: nat, i: nat, n: nat, next: nat)
    requires |confirmed| <= CONFIRMED_MAX && Best(gs, confirmed, primary, base + i) && i <= n && base + n <= next
    requires i == n || |primary| == PRIMARY_MAX
    requires (base, n, next) in
      {(0, |confirmed|, CONFIRMED_MAX), (CONFIRMED_MAX, |confirmed|, 2 * CONFIRMED_MAX), (2 * CONFIRMED_MAX, |gs|, TOP)}
    ensures Best(gs, confirmed, primary, next)
  {
    hide Rank, Best;
    if |primary| == PRIMARY_MAX {
      Full(gs, confirmed, primary, base + i, next);
    } else {
      forall g | 0 <= g < |gs| ensures !(base + i <= Rank(gs, confirmed, g) < next) { Ranked(gs, confirmed, g); }
      Gap(gs, confirmed, primary, base + i, next);
    }
  }

  /** The best list is determined. */
  lemma {:induction false} BestUnique(gs: seq<Guard>, confirmed: seq<int>, a: seq<int>, b: seq<int>, t: nat, k: nat)
    requires |confirmed| <= CONFIRMED_MAX && Best(gs, confirmed, a, t) && Best(gs, confirmed, b, t) && k <= |a| &&
      k <= |b|
    ensures a[..k] == b[..k]
  {
    hide Rank;
    if k > 0 {
      BestUnique(gs, confirmed, a, b, t, k - 1);
      assert a[..k] == a[..k - 1] + [a[k - 1]] && b[..k] == b[..k - 1] + [b[k - 1]];
    }
  }

  lemma OnlyBest(gs: seq<Guard>, confirmed: seq<int>, a: seq<int>, b: seq<int>, t: nat)
    requires |confirmed| <= CONFIRMED_MAX && Best(gs, confirmed, a, t) && Best(gs, confirmed, b, t) && |a| <= |b|
    ensures a == b
  {
    hide Rank;
    BestUnique(gs, confirmed, a, b, t, |a|);
    if |a| < PRIMARY_MAX { Counting.Pigeonhole(b, SetOf(a)); }
    assert a[..|a|] == a && b[..|b|] == b;
  }

  ghost function SetOf(a: seq<int>): (s: set<int>)
    ensures |s| <= |a| && forall x :: x in s <==> x in a
  {
    if a == [] then {} else SetOf(a[..|a| - 1]) + {a[|a| - 1]}
  }

  // ---- Expiry ----

  /** `now - at` in 64-bit arithmetic. */
  function Age(now: nat, at: nat): int {
    if now >= at then now - at else now - at + U64
  }

  /** It is the difference modulo the size of the clock, also when the clock went back. */
  lemma AgeIs(now: nat, at: nat)
    requires now < U64 && at < U64
    ensures 0 <= Age(now, at) < U64 && (at + Age(now, at)) % U64 == now
  {
    if now < at { assert at + Age(now, at) == now + U64; }
  }

  predicate Expired(g: Guard, now: nat) {
    Age(now, g.addedAt) >= MAX_AGE
  }

  /** The guards that have not expired, in order. */
  function Kept(gs: seq<Guard>, now: nat): (r: seq<Guard>)
    ensures |r| <= |gs|
  {
    if gs == [] then []
    else
      var n := |gs| - 1;
      var r := Kept(gs[..n], now);
      if Expired(gs[n], now) then r else r + [gs[n]]
  }

  lemma {:induction false} KeptPrefix(gs: seq<Guard>, now: nat, i: nat)
    requires i < |gs| && !Expired(gs[i], now)
    ensures |Kept(gs[..i], now)| < |Kept(gs, now)| && Kept(gs, now)[|Kept(gs[..i], now)|] == gs[i]
  {
    var n := |gs| - 1;
    if i < n {
      KeptPrefix(gs[..n], now, i);
      assert gs[..n][..i] == gs[..i];
    }
  }

  /** Where the kept ones among the guards named by `xs` are now. */
  function Moved(gs: seq<Guard>, now: nat, xs: seq<int>): (r: seq<int>)
    requires forall i :: 0 <= i < |xs| ==> 0 <= xs[i] < |gs|
    ensures |r| <= |xs|
  {
    if xs == [] then []
    else
      var n := |xs| - 1;
      var r := Moved(gs, now, xs[..n]);
      if Expired(gs[xs[n]], now) then r else r + [|Kept(gs[..xs[n]], now)|]
  }

  /** The guards that the indices `xs` name. */
  function Named(gs: seq<Guard>, xs: seq<int>): (r: seq<Guard>)
    requires forall i :: 0 <= i < |xs| ==> 0 <= xs[i] < |gs|
    ensures |r| == |xs|
  {
    seq(|xs|, i requires 0 <= i < |xs| => gs[xs[i]])
  }

  /** After expiry the moved indices name exactly the unexpired guards named before, in the same order. */
  lemma {:induction false} MovedNames(gs: seq<Guard>, now: nat, xs: seq<int>)
    requires forall i :: 0 <= i < |xs| ==> 0 <= xs[i] < |gs|
    ensures var r := Moved(gs, now, xs); var kept := Kept(gs, now);
            (forall i :: 0 <= i < |r| ==> 0 <= r[i] < |kept|) && Named(kept, r) == Kept(Named(gs, xs), now)
  {
    if xs != [] {
      var n := |xs| - 1;
      MovedNames(gs, now, xs[..n]);
      assert Named(gs, xs)[..n] == Named(gs, xs[..n]);
      if !Expired(gs[xs[n]], now) {
        KeptPrefix(gs, now, xs[n]);
        var r, kept := Moved(gs, now, xs), Kept(gs, now);
        assert Named(kept, r) == Named(kept, r[..|r| - 1]) + [gs[xs[n]]];
        assert r[..|r| - 1] == Moved(gs, now, xs[..n]);
      }
    }
  }

  lemma {:induction false} KeptDistinct(gs: seq<Guard>, now: nat)
    requires DistinctIds(gs)
    ensures DistinctIds(Kept(gs, now)) && forall g :: g in Kept(gs, now) ==> g in gs
  {
    if gs != [] {
      var n := |gs| - 1;
      KeptDistinct(gs[..n], now);
      var r := Kept(gs[..n], now);
      forall i | 0 <= i < |r| ensures r[i].id != gs[n].id {
        assert r[i] in gs[..n];
        var k :| 0 <= k < n && gs[k] == r[i];
      }
    }
  }

  ghost predicate DistinctIds(gs: seq<Guard>) {
    forall i, j :: 0 <= i < j < |gs| ==> gs[i].id != gs[j].id
  }

  /** Indices that name guards of distinct identity are distinct. */
  lemma MovedDistinct(gs: seq<Guard>, now: nat, xs: seq<int>)
    requires DistinctIds(gs) && DistinctIndices(xs, |gs|)
    ensures DistinctIndices(Moved(gs, now, xs), |Kept(gs, now)|)
  {
    MovedNames(gs, now, xs);
    var r, kept, named := Moved(gs, now, xs), Kept(gs, now), Named(gs, xs);
    forall i, j | 0 <= i < j < |named| ensures named[i].id != named[j].id {
      assert xs[i] != xs[j];
      assert named[i] == gs[xs[i]] && named[j] == gs[xs[j]];
    }
    KeptDistinct(named, now);
    forall i, j | 0 <= i < j < |r| ensures r[i] != r[j] {
      assert Named(kept, r)[i] == kept[r[i]] && Named(kept, r)[j] == kept[r[j]];
    }
  }

  // ---- Path bias ----

  /** What moor_pathbias_check_all makes of one guard. */
  function Judged(g: Guard): Guard {
    if g.disabled || g.attempts < MIN_CIRCS then g
    else
      var rate := g.success as real / g.attempts as real;
      var g1 := if rate < 0.30 then g.(disabled := true, suspect := true, reachable := false)
                else if rate < 0.50 then g.(suspect := true) else g;
      if g.useAttempts >= MIN_CIRCS && g.useSuccess as real / g.useAttempts as real < 0.50
      then g1.(disabled := true, suspect := true, reachable := false) else g1
  }

  predicate BuildsTooFew(g: Guard) {
    10 * g.success < 3 * g.attempts
  }

  predicate ServesTooFew(g: Guard) {
    g.useAttempts >= MIN_CIRCS && 2 * g.useSuccess < g.useAttempts
  }

  /** A guard is disabled once at least 20 circuits were tried and fewer than three in ten were built, or
      at least 20 were used and fewer than half served; it is then no longer reachable. */
  lemma DisabledIff(g: Guard)
    ensures Judged(g).disabled <==> (g.disabled || (g.attempts >= MIN_CIRCS && (BuildsTooFew(g) || ServesTooFew(g))))
    ensures Judged(g).disabled && !g.disabled ==> !Judged(g).reachable && Judged(g).suspect
  {
    if g.attempts > 0 { Ratio(g.success, g.attempts, 3); }
    if g.useAttempts > 0 { Ratio(g.useSuccess, g.useAttempts, 5); }
  }

  /** A guard becomes suspect once at least 20 circuits were tried and fewer than half were built, or when it is
      disabled; nothing else changes unless it is. */
  lemma SuspectIff(g: Guard)
    requires !g.disabled
    ensures Judged(g).suspect <==>
      (g.suspect || (g.attempts >= MIN_CIRCS && (2 * g.success < g.attempts || ServesTooFew(g))))
    ensures !Judged(g).disabled ==> Judged(g) == g.(suspect := Judged(g).suspect)
  {
    if g.attempts > 0 {
      Ratio(g.success, g.attempts, 3);
      Ratio(g.success, g.attempts, 5);
    }
    if g.useAttempts > 0 { Ratio(g.useSuccess, g.useAttempts, 5); }
  }

  /** Counting keeps records below the threshold and successes no more than attempts, and a halved record says
      the same up to rounding. */
  lemma AttemptedKeeps(g: Guard)
    requires g.attempts < SCALE_AT && g.success <= g.attempts && g.useSuccess <= g.useAttempts
    ensures var h := Attempted(g);
            && h.attempts < SCALE_AT && h.success <= h.attempts && h.useSuccess <= h.useAttempts
            && (if g.attempts + 1 < SCALE_AT then h == g.(attempts := g.attempts + 1)
                else g.attempts + 1 - 2 * h.attempts in {0, 1} && g.success - 2 * h.success in {0, 1}
                     && g.useAttempts - 2 * h.useAttempts in {0, 1} && g.useSuccess - 2 * h.useSuccess in {0, 1})
  {
  }

  /** The time of the first failure is kept until the guard is reached again. */
  lemma FirstFailureKept(g: Guard, a: nat, b: nat)
    requires a > 0 && g.unreachableSince == 0
    ensures Missed(Missed(g, a), b).unreachableSince == a && Missed(g, a).lastTried == a && !Missed(g, a).reachable
    ensures Reached(Missed(g, a), b).unreachableSince == 0 && Reached(g, a).reachable
    ensures g.confirmedAt == 0 ==> Reached(Reached(g, a), b).confirmedAt == a
  {
  }

  lemma Ratio(x: nat, y: nat, k: nat)
    requires y > 0
    ensures x as real / y as real < k as real / 10.0 <==> 10 * x < k * y
  {
    var q := x as real / y as real;
    assert q * y as real == x as real;
    assert (10 * x) as real == 10.0 * x as real && (k * y) as real == k as real * y as real;
    if q < k as real / 10.0 {
      assert q * y as real < k as real / 10.0 * y as real;
    } else {
      assert q * y as real >= k as real / 10.0 * y as real;
    }
  }

  lemma {:induction false} KeptAt(gs: seq<Guard>, now: nat, k: nat)
    requires k < |Kept(gs, now)|
    ensures Kept(gs, now)[k] in gs
  {
    if gs != [] && k < |Kept(gs[..|gs| - 1], now)| { KeptAt(gs[..|gs| - 1], now, k); }
  }

  // ---- Selection ----

  function Reachable(gs: seq<Guard>): int -> bool {
    (i: int) => 0 <= i < |gs| && gs[i].reachable
  }

  function IsReachable(): Guard -> bool {
    (g: Guard) => g.reachable
  }

  /** The guard that moor_guard_select returns, by its index; `turn` counts the calls that found no
      reachable guard. */
  function Selected(gs: seq<Guard>, primary: seq<int>, turn: nat): Option<int> {
    var i, j := Counting.First(primary, Reachable(gs)), Counting.First(gs, IsReachable());
    if i < |primary| then Some(primary[i])
    else if j < |gs| then Some(j)
    else if |primary| > 0 then Some(primary[turn % |primary|])
    else if |gs| > 0 then Some(0)
    else None
  }

  ghost predicate FirstReachable(gs: seq<Guard>, primary: seq<int>, k: nat)
    requires k < |primary|
  {
    Reachable(gs)(primary[k]) && forall i :: 0 <= i < k ==> !Reachable(gs)(primary[i])
  }

  /** A reachable guard is returned if there is one, the first reachable primary before all others. */
  lemma SelectsReachable(gs: seq<Guard>, primary: seq<int>, turn: nat)
    ensures var r := Selected(gs, primary, turn);
            && ((exists g :: g in gs && g.reachable) ==> r.Some? && 0 <= r.value < |gs| && gs[r.value].reachable)
            && forall k :: 0 <= k < |primary| && FirstReachable(gs, primary, k) ==> r == Some(primary[k])
  {
    var i, j := Counting.First(primary, Reachable(gs)), Counting.First(gs, IsReachable());
    assert i < |primary| ==> Reachable(gs)(primary[i]);
    assert j < |gs| ==> IsReachable()(gs[j]);
    assert forall k :: 0 <= k < i ==> !Reachable(gs)(primary[k]);
    assert forall k :: 0 <= k < j ==> !IsReachable()(gs[k]);
  }

  /** With no guard reachable, the primary guards take turns. */
  lemma TakesTurns(gs: seq<Guard>, primary: seq<int>, round: nat, k: nat)
    requires (forall g :: g in gs ==> !g.reachable) && k < |primary| <= PRIMARY_MAX
    ensures Selected(gs, primary, round * |primary| + k) == Some(primary[k])
  {
    var n := |primary|;
    assert (round * n + k) % n == k by {
      if n == 1 { } else if n == 2 { } else { assert n == 3; }
    }
  }

  /** No primary guard is reachable; the first reachable guard is disabled, or none is reachable and all are
      disabled. */
  ghost predicate OnlyDisabled(gs: seq<Guard>, primary: seq<int>) {
    && (forall i :: 0 <= i < |primary| ==> !Reachable(gs)(primary[i]))
    && gs != []
    && var j := Counting.First(gs, IsReachable());
       if j < |gs| then gs[j].disabled else forall g :: g in gs ==> g.disabled
  }

  /** Exactly when a disabled guard is selected: the fallback to any reachable guard does not look at the
      flag, and the last resort is only reached when all guards are disabled. */
  lemma SelectsDisabledIff(gs: seq<Guard>, confirmed: seq<int>, primary: seq<int>, turn: nat)
    requires |gs| <= SAMPLED_MAX && Sound(gs, confirmed, primary) && Best(gs, confirmed, primary, TOP)
    ensures var r := Selected(gs, primary, turn);
            && (r.Some? <==> gs != []) && (r.Some? ==> 0 <= r.value < |gs|)
            && (r.Some? && gs[r.value].disabled <==> OnlyDisabled(gs, primary))
  {
    hide Rank;
    var i, j := Counting.First(primary, Reachable(gs)), Counting.First(gs, IsReachable());
    assert i < |primary| ==> Reachable(gs)(primary[i]);
    assert forall k :: 0 <= k < i ==> !Reachable(gs)(primary[k]);
    assert j < |gs| ==> IsReachable()(gs[j]);
    if primary == [] {
      forall k | 0 <= k < |gs| ensures gs[k].disabled { RankBelow(gs, confirmed, k); }
    } else {
      assert gs[primary[0]] in gs && !gs[primary[0]].disabled;
    }
  }

  lemma RankBelow(gs: seq<Guard>, confirmed: seq<int>, g: int)
    requires 0 <= g < |gs| <= SAMPLED_MAX && |confirmed| <= CONFIRMED_MAX
    ensures Rank(gs, confirmed, g) < TOP
  {
  }

  // ---- The guard state ----

  /** Guards, confirmed and primary indices as values. */
  ghost predicate Sound(gs: seq<Guard>, confirmed: seq<int>, primary: seq<int>) {
    && DistinctIds(gs) && |confirmed| <= CONFIRMED_MAX && |primary| <= PRIMARY_MAX
    && DistinctIndices(confirmed, |gs|) && (forall i :: 0 <= i < |confirmed| ==> gs[confirmed[i]].confirmedAt != 0)
    && DistinctIndices(primary, |gs|) && (forall i :: 0 <= i < |primary| ==> !gs[primary[i]].disabled)
  }

  class State {
    const sampled: array<Guard>
    const confirmed: array<int>
    const primary: array<int>
    var numSampled: nat
    var numConfirmed: nat
    var numPrimary: nat

    /** The guard that each slot held when it was last in use. */
    ghost var left: map<nat, Guard>

    ghost predicate Shaped()
      reads this
    {
      && sampled.Length == SAMPLED_MAX && confirmed.Length == CONFIRMED_MAX && primary.Length == PRIMARY_MAX &&
        confirmed != primary
      && numSampled <= SAMPLED_MAX && numConfirmed <= CONFIRMED_MAX && numPrimary <= PRIMARY_MAX
    }

    ghost function Sampled(): seq<Guard>
      requires Shaped()
      reads this, sampled
    {
      sampled[..numSampled]
    }

    ghost function Confirmed(): seq<int>
      requires Shaped()
      reads this, confirmed
    {
      confirmed[..numConfirmed]
    }

    ghost function Primary(): seq<int>
      requires Shaped()
      reads this, primary
    {
      primary[..numPrimary]
    }

    /** The slots beyond the sampled guards still hold what was left there, those never used are blank. */
    ghost predicate Remembers()
      reads this, sampled
    {
      forall k :: numSampled <= k < sampled.Length ==> sampled[k] == Last(left, k)
    }

    ghost predicate Valid()
      reads this, sampled, confirmed, primary
    {
      Shaped() && Remembers() && Sound(Sampled(), Confirmed(), Primary())
    }

    /** The primary list is the right one for guards and confirmed list. */
    ghost predicate Current()
      reads this, sampled, confirmed, primary
    {
      Shaped() && Best(Sampled(), Confirmed(), Primary(), TOP)
    }

    constructor ()
      ensures Valid() && Current() && numSampled == numConfirmed == numPrimary == 0 && left == map[]
      ensures fresh(sampled) && fresh(confirmed) && fresh(primary)
    {
      sampled := new Guard[SAMPLED_MAX](_ => BLANK);
      confirmed := new int[CONFIRMED_MAX](_ => 0);
      primary := new int[PRIMARY_MAX](_ => 0);
      numSampled, numConfirmed, numPrimary := 0, 0, 0;
      left := map[];
    }

    /** Whether `g` is already primary. */
    method Already(g: int) returns (yes: bool)
      requires Shaped()
      ensures yes <==> g in Primary()
    {
      yes := false;
      for j := 0 to numPrimary
        invariant yes <==> g in primary[..j]
      {
        if primary[j] == g { yes := true; }
      }
    }

    method Add(g: int)
      requires Shaped() && numPrimary < PRIMARY_MAX
      modifies `numPrimary, primary
      ensures Shaped() && Primary() == old(Primary()) + [g]
    {
      primary[numPrimary] := g;
      numPrimary := numPrimary + 1;
    }

    /** The first pass of moor_guard_update_primary: confirmed and reachable. */
    method AddReachable()
      requires Shaped() && DistinctIndices(Confirmed(), numSampled) && numPrimary == 0
      modifies `numPrimary, primary
      ensures Shaped() && Best(Sampled(), Confirmed(), Primary(), CONFIRMED_MAX)
    {
      hide Best;
      ghost var gs, cs := Sampled(), Confirmed();
      Nothing(gs, cs);
      assert Primary() == [];
      var i := 0;
      while i < numConfirmed && numPrimary < PRIMARY_MAX
        invariant 0 <= i <= numConfirmed && Shaped() && cs == Confirmed() && Best(gs, cs, Primary(), i)
      {
        var g := confirmed[i];
        FirstPass(gs, cs, Primary(), i);
        if 0 <= g < numSampled && sampled[g].reachable && !sampled[g].disabled { Add(g); }
        i := i + 1;
      }
      PassEnds(gs, cs, Primary(), 0, i, |cs|, CONFIRMED_MAX);
    }

    /** The second pass: the other confirmed ones. */
    method AddConfirmed()
      requires Shaped() && DistinctIndices(Confirmed(), numSampled) &&
        Best(Sampled(), Confirmed(), Primary(), CONFIRMED_MAX)
      modifies `numPrimary, primary
      ensures Shaped() && Best(Sampled(), Confirmed(), Primary(), 2 * CONFIRMED_MAX)
    {
      hide Best;
      ghost var gs, cs := Sampled(), Confirmed();
      var i := 0;
      while i < numConfirmed && numPrimary < PRIMARY_MAX
        invariant 0 <= i <= numConfirmed && Shaped() && cs == Confirmed() && Best(gs, cs, Primary(), CONFIRMED_MAX + i)
      {
        var g := confirmed[i];
        SecondPass(gs, cs, Primary(), i);
        if 0 <= g < numSampled && !sampled[g].disabled {
          var already := Already(g);
          if !already { Add(g); }
        }
        i := i + 1;
      }
      PassEnds(gs, cs, Primary(), CONFIRMED_MAX, i, |cs|, 2 * CONFIRMED_MAX);
    }

    /** The third pass: any sampled ones. */
    method AddSampled()
      requires Shaped() && Best(Sampled(), Confirmed(), Primary(), 2 * CONFIRMED_MAX)
      modifies `numPrimary, primary
      ensures Shaped() && Best(Sampled(), Confirmed(), Primary(), TOP)
    {
      hide Best;
      ghost var gs, cs := Sampled(), Confirmed();
      var i := 0;
      while i < numSampled && numPrimary < PRIMARY_MAX
        invariant 0 <= i <= numSampled && Shaped() && cs == Confirmed() &&
          Best(gs, cs, Primary(), 2 * CONFIRMED_MAX + i)
      {
        ThirdPass(gs, cs, Primary(), i);
        if !sampled[i].disabled {
          var already := Already(i);
          if !already { Add(i); }
        }
        i := i + 1;
      }
      PassEnds(gs, cs, Primary(), 2 * CONFIRMED_MAX, i, |gs|, TOP);
    }

    /** moor_guard_update_primary. */
    method UpdatePrimary()
      requires Shaped() && DistinctIndices(Confirmed(), numSampled)
      modifies `numPrimary, primary
      ensures Current()
    {
      hide Best;
      numPrimary := 0;
      AddReachable();
      AddConfirmed();
      AddSampled();
    }

    /** Index of the sampled guard with this identity, `numSampled` if there is none. */
    method Find(id: nat) returns (k: nat)
      requires Shaped()
      ensures k == Counting.First(Sampled(), HasId(id))
    {
      k := 0;
      while k < numSampled && sampled[k].id != id
        invariant k <= numSampled && forall i :: 0 <= i < k ==> sampled[i].id != id
      {
        k := k + 1;
      }
    }

    /** moor_guard_select; `turn` is its static counter. */
    method Select(turn: nat) returns (r: Option<int>)
      requires Valid()
      ensures r == Selected(Sampled(), Primary(), turn)
    {
      hide Sound;
      assert forall i :: 0 <= i < numPrimary ==> 0 <= primary[i] < numSampled by {
        PrimaryInside(Sampled(), Confirmed(), Primary());
        assert forall i :: 0 <= i < numPrimary ==> primary[i] == Primary()[i];
      }
      for i := 0 to numPrimary
        invariant forall k :: 0 <= k < i ==> !Reachable(Sampled())(primary[k])
      {
        var g := primary[i];
        if 0 <= g < numSampled && sampled[g].reachable {
          assert Reachable(Sampled())(Primary()[i]);
          return Some(g);
        }
      }
      for i := 0 to numSampled
        invariant forall k :: 0 <= k < i ==> !IsReachable()(sampled[k])
      {
        if sampled[i].reachable {
          assert IsReachable()(Sampled()[i]);
          return Some(i);
        }
      }
      if numPrimary > 0 {
        var g := primary[turn % numPrimary];
        if 0 <= g < numSampled { return Some(g); }
        assert false;
      }
      if numSampled > 0 { return Some(0); }
      return None;
    }

    /** moor_guard_sample. `select` gives a suitable relay that is not excluded, if there is one. A slot
        keeps the path-bias record of the guard that had it before: the new guard starts enabled exactly
        if that was not disabled. */
    method Sample(select: set<nat> -> Option<nat>, now: nat)
      requires Valid() && forall exc :: select(exc).Some? ==> select(exc).value !in exc
      modifies `numSampled, sampled
      ensures Valid() && old(numSampled) <= numSampled && Sampled()[..old(numSampled)] == old(Sampled())
      ensures forall i :: old(numSampled) <= i < numSampled ==>
        && sampled[i] == Fresh(sampled[i].id, now, Last(left, i))
        && (!sampled[i].disabled <==> !(i in left && left[i].disabled))
      ensures Chosen(select, Sampled(), old(numSampled))
      ensures numSampled < SAMPLED_MAX ==> select(Ids(Sampled())).None?
    {
      hide Sound, Chosen, Ids;
      NoneChosen(select, Sampled());
      while numSampled < SAMPLED_MAX
        invariant Valid() && old(numSampled) <= numSampled && Sampled()[..old(numSampled)] == old(Sampled())
        invariant forall i :: old(numSampled) <= i < numSampled ==>
          sampled[i] == Fresh(sampled[i].id, now, Last(left, i))
        invariant Chosen(select, Sampled(), old(numSampled))
        decreases SAMPLED_MAX - numSampled
      {
        var exc := Excluded();
        var r := select(exc);
        if r.None? { return; }
        ghost var gs := Sampled();
        var e := sampled[numSampled];
        GrowsSound(gs, Confirmed(), Primary(), Fresh(r.value, now, e));
        ChosenMore(select, gs, old(numSampled), Fresh(r.value, now, e));
        sampled[numSampled] := e.(id := r.value, addedAt := now, confirmedAt := 0, lastTried := 0,
                                  unreachableSince := 0, reachable := false);
        numSampled := numSampled + 1;
        assert Sampled() == gs + [Fresh(r.value, now, e)];
      }
    }

    method Excluded() returns (exc: set<nat>)
      requires Shaped()
      ensures exc == Ids(Sampled())
    {
      exc := {};
      for i := 0 to numSampled
        invariant exc == Ids(sampled[..i])
      {
        exc := exc + {sampled[i].id};
        assert sampled[..i + 1] == sampled[..i] + [sampled[i]];
      }
    }

    /** moor_guard_mark_reachable. A guard confirmed at time 0 would still count as unconfirmed. */
    method MarkReachable(id: nat, now: nat)
      requires Valid()
      modifies `numConfirmed, `numPrimary, sampled, confirmed, primary
      ensures Shaped() && Remembers() && numSampled == old(numSampled)
      ensures var gs, k := old(Sampled()), Counting.First(old(Sampled()), HasId(id));
              Valid() <==> now > 0 || k == |gs| || gs[k].confirmedAt != 0 || old(numConfirmed) == CONFIRMED_MAX
      ensures var gs, k := old(Sampled()), Counting.First(old(Sampled()), HasId(id));
              if k == |gs| then Sampled() == gs && Confirmed() == old(Confirmed()) && Primary() == old(Primary())
              else Current() && Sampled() == gs[k := Reached(gs[k], now)] &&
                   Confirmed() == old(Confirmed()) +
                     (if gs[k].confirmedAt == 0 && old(numConfirmed) < CONFIRMED_MAX then [k] else [])
    {
      hide Best, Sound, DistinctIndices;
      ghost var gs, cs := Sampled(), Confirmed();
      var k := Find(id);
      if k == numSampled { return; }
      SoundWithout(gs, cs, Primary());
      ReachedSound(gs, cs, k, now);
      var g := sampled[k];
      ghost var more := if g.confirmedAt == 0 && |cs| < CONFIRMED_MAX then [k] else [];
      sampled[k] := g.(reachable := true, unreachableSince := 0, lastTried := now,
                       confirmedAt := if g.confirmedAt == 0 then now else g.confirmedAt);
      ghost var gs' := gs[k := Reached(g, now)];
      assert Sampled() == gs';
      if g.confirmedAt == 0 && numConfirmed < CONFIRMED_MAX {
        confirmed[numConfirmed] := k;
        numConfirmed := numConfirmed + 1;
      }
      assert Confirmed() == cs + more;
      UpdatePrimary();
      assert Sampled() == gs' && Confirmed() == cs + more;
      BestSoundIff(gs', cs + more, Primary());
    }

    /** moor_guard_expire: guards and confirmed indices are compacted in place. */
    method Expire(now: nat)
      requires Valid()
      modifies this, sampled, confirmed, primary
      ensures Valid() && Current()
      ensures left == Left(old(left), old(Sampled()), numSampled)
      ensures Sampled() == Kept(old(Sampled()), now) && Confirmed() == Moved(old(Sampled()), now, old(Confirmed()))
      ensures Named(Sampled(), Confirmed()) == Kept(Named(old(Sampled()), old(Confirmed())), now)
    {
      hide Best, Kept, Moved, Named;
      ghost var gs, cs := Sampled(), Confirmed();
      var map_ := Compact(now);
      left := Left(left, gs, numSampled);
      Remap(map_, gs, now);
      MovedNames(gs, now, cs);
      ExpiredSound(gs, cs, now);
      UpdatePrimary();
      BestSound(Sampled(), Confirmed(), Primary());
    }

    /** The first loop of moor_guard_expire, with the old-to-new index map. */
    method Compact(now: nat) returns (newIndex: seq<int>)
      requires Shaped()
      modifies `numSampled, sampled
      ensures Shaped() && numSampled <= old(numSampled) && Sampled() == Kept(old(Sampled()), now)
      ensures forall k :: numSampled <= k < SAMPLED_MAX ==> sampled[k] == old(sampled[k])
      ensures |newIndex| == old(numSampled) && Maps(newIndex, old(Sampled()), now)
    {
      hide Kept, NewIndex;
      ghost var gs := Sampled();
      var write := 0;
      newIndex := [];
      for i := 0 to numSampled
        invariant Shaped() && numSampled == |gs| && 0 <= write <= i && sampled[..write] == Kept(gs[..i], now)
        invariant forall k :: write <= k < SAMPLED_MAX ==> sampled[k] == old(sampled[k])
        invariant |newIndex| == i && Maps(newIndex, gs, now)
      {
        KeptNext(gs, now, i);
        ghost var done := sampled[..write];
        if Age(now, sampled[i].addedAt) < MAX_AGE {
          newIndex := newIndex + [write];
          if write != i { sampled[write] := sampled[i]; }
          write := write + 1;
          assert sampled[..write] == done + [gs[i]];
        } else {
          newIndex := newIndex + [-1];
        }
      }
      assert gs[..numSampled] == gs;
      numSampled := write;
    }

    /** The second loop: confirmed indices through the map. */
    method Remap(newIndex: seq<int>, ghost gs: seq<Guard>, now: nat)
      requires Shaped() && Maps(newIndex, gs, now) && |newIndex| == |gs| <= SAMPLED_MAX
      requires forall i :: 0 <= i < numConfirmed ==> 0 <= confirmed[i] < |gs|
      modifies `numConfirmed, confirmed
      ensures Shaped() && numConfirmed <= old(numConfirmed)
      ensures forall i :: 0 <= i < |old(Confirmed())| ==> 0 <= old(Confirmed())[i] < |gs|
      ensures Confirmed() == Moved(gs, now, old(Confirmed()))
    {
      hide Moved, NewIndex;
      ghost var cs := Confirmed();
      forall i | 0 <= i < |cs| ensures 0 <= cs[i] < |gs| { assert cs[i] == confirmed[i]; }
      var n := 0;
      for i := 0 to numConfirmed
        invariant Shaped() && numConfirmed == |cs| && 0 <= n <= i && confirmed[..n] == Moved(gs, now, cs[..i])
        invariant forall k :: i <= k < numConfirmed ==> confirmed[k] == cs[k]
      {
        MovedNext(gs, now, cs, i);
        ghost var done := confirmed[..n];
        var g := confirmed[i];
        if 0 <= g < SAMPLED_MAX && newIndex[g] >= 0 {
          confirmed[n] := newIndex[g];
          n := n + 1;
          assert confirmed[..n] == done + [newIndex[g]];
        }
      }
      assert cs[..numConfirmed] == cs;
      numConfirmed := n;
    }

    /** moor_pathbias_check_all: every guard is judged, and the primaries are chosen anew if one of them
        was disabled. */
    method CheckAll()
      requires Valid()
      modifies sampled, `numPrimary, primary
      ensures Valid() && numSampled == old(numSampled) && Confirmed() == old(Confirmed())
      ensures forall i :: 0 <= i < numSampled ==> sampled[i] == Judged(old(Sampled())[i])
      ensures Primary() == old(Primary()) || Current()
    {
      hide Best, Judged;
      ghost var gs, cs, ps := Sampled(), Confirmed(), Primary();
      for i := 0 to numSampled
        invariant Shaped() && Remembers() && numSampled == |gs| && ps == Primary()
        invariant forall k :: 0 <= k < numSampled ==> sampled[k] == if k < i then Judged(gs[k]) else gs[k]
      {
        ghost var before := sampled[..];
        Judge(i);
        assert forall k :: 0 <= k < numSampled ==> sampled[k] == sampled[..][k];
      }
      JudgedSound(gs, Sampled(), cs);
      for i := 0 to numPrimary
        invariant Shaped() && Remembers() && numSampled == |gs| && ps == Primary() && forall k :: 0 <= k < i ==>
          !sampled[ps[k]].disabled
      {
        var g := primary[i];
        assert g == ps[i];
        if 0 <= g < numSampled && sampled[g].disabled {
          UpdatePrimary();
          BestSound(Sampled(), Confirmed(), Primary());
          return;
        }
      }
    }

    /** The body of the loop of moor_pathbias_check_all. */
    method Judge(i: nat)
      requires i < sampled.Length
      modifies sampled
      ensures sampled[..] == old(sampled[..])[i := Judged(old(sampled[i]))]
    {
      var g := sampled[i];
      if g.disabled || g.attempts < MIN_CIRCS { return; }
      var rate := g.success as real / g.attempts as real;
      if rate < 0.30 {
        sampled[i] := sampled[i].(disabled := true, suspect := true, reachable := false);
      } else if rate < 0.50 {
        sampled[i] := sampled[i].(suspect := true);
      }
      if g.useAttempts >= MIN_CIRCS {
        var use := g.useSuccess as real / g.useAttempts as real;
        if use < 0.50 {
          sampled[i] := sampled[i].(disabled := true, suspect := true, reachable := false);
        }
      }
    }

    /** moor_pathbias_count_build_attempt, with the halving of long records. */
    method CountAttempt(id: nat)
      requires Valid()
      modifies sampled
      ensures Valid()
      ensures var gs, k := old(Sampled()), Counting.First(old(Sampled()), HasId(id));
              Sampled() == if k == |gs| then gs else gs[k := Attempted(gs[k])]
    {
      ghost var gs := Sampled();
      var k := Find(id);
      if k == numSampled { return; }
      var g := sampled[k].(attempts := sampled[k].attempts + 1);
      if g.attempts >= SCALE_AT {
        g := g.(attempts := g.attempts / 2, success := g.success / 2, useAttempts := g.useAttempts / 2,
          useSuccess := g.useSuccess / 2);
      }
      sampled[k] := g;
      assert Sampled() == gs[k := Attempted(gs[k])];
    }

    /** moor_guard_mark_unreachable. */
    method MarkUnreachable(id: nat, now: nat)
      requires Valid()
      modifies this, sampled, primary
      ensures Valid() && numSampled == old(numSampled) && Confirmed() == old(Confirmed())
      ensures var gs, k := old(Sampled()), Counting.First(old(Sampled()), HasId(id));
              if k == |gs| then Sampled() == gs && Primary() == old(Primary())
              else Current() && Sampled() == gs[k := Missed(gs[k], now)]
    {
      hide Best;
      ghost var gs, cs, ps := Sampled(), Confirmed(), Primary();
      var k := Find(id);
      if k == numSampled { return; }
      var g := sampled[k];
      sampled[k] := g.(reachable := false, lastTried := now,
                       unreachableSince := if g.unreachableSince == 0 then now else g.unreachableSince);
      assert Sampled() == gs[k := Missed(g, now)];
      UpdatePrimary();
      BestSound(Sampled(), cs, Primary());
    }
  }

  ghost function Ids(gs: seq<Guard>): set<nat> {
    if gs == [] then {} else Ids(gs[..|gs| - 1]) + {gs[|gs| - 1].id}
  }

  /** Each guard from `from` on was selected with those before it excluded. */
  ghost predicate Chosen(select: set<nat> -> Option<nat>, gs: seq<Guard>, from: nat) {
    forall i :: from <= i < |gs| ==> select(Ids(gs[..i])) == Some(gs[i].id)
  }

  lemma NoneChosen(select: set<nat> -> Option<nat>, gs: seq<Guard>)
    ensures Chosen(select, gs, |gs|)
  {
  }

  lemma ChosenMore(select: set<nat> -> Option<nat>, gs: seq<Guard>, from: nat, g: Guard)
    requires Chosen(select, gs, from) && select(Ids(gs)) == Some(g.id)
    ensures Chosen(select, gs + [g], from)
  {
    assert (gs + [g])[..|gs|] == gs;
    forall i | from <= i < |gs| ensures select(Ids((gs + [g])[..i])) == Some(gs[i].id) {
      assert (gs + [g])[..i] == gs[..i];
    }
  }

  function HasId(id: nat): Guard -> bool {
    (g: Guard) => g.id == id
  }

  /** What a slot beyond the sampled guards holds. */
  ghost function Last(left: map<nat, Guard>, k: int): Guard {
    if k in left then left[k] else BLANK
  }

  /** The record of what was left, once only `n` of the guards `gs` remain. */
  ghost function Left(left: map<nat, Guard>, gs: seq<Guard>, n: nat): map<nat, Guard> {
    left + map k: nat | n <= k < |gs| :: gs[k]
  }

  /** A newly sampled guard in a slot that held `was`. */
  function Fresh(id: nat, now: nat, was: Guard): Guard {
    Guard(id, now, 0, 0, 0, false, was.attempts, was.success, was.useAttempts, was.useSuccess, was.suspect,
      was.disabled)
  }

  /** It stays for 120 days. */
  lemma FreshLasts(id: nat, now: nat, was: Guard, t: nat)
    requires now <= t
    ensures Expired(Fresh(id, now, was), t) <==> t >= now + 120 * 24 * 3600
  {
  }

  function Reached(g: Guard, now: nat): Guard {
    g.(reachable := true, unreachableSince := 0, lastTried := now, confirmedAt := if g.confirmedAt == 0 then now
      else g.confirmedAt)
  }

  function Missed(g: Guard, now: nat): Guard {
    g.(reachable := false, lastTried := now, unreachableSince := if g.unreachableSince == 0 then now
      else g.unreachableSince)
  }

  lemma {:induction false} InIds(gs: seq<Guard>, i: nat)
    requires i < |gs|
    ensures gs[i].id in Ids(gs)
  {
    if i < |gs| - 1 { InIds(gs[..|gs| - 1], i); }
  }

  lemma GrowsSound(gs: seq<Guard>, confirmed: seq<int>, primary: seq<int>, g: Guard)
    requires Sound(gs, confirmed, primary) && g.id !in Ids(gs)
    ensures Sound(gs + [g], confirmed, primary)
  {
    forall i | 0 <= i < |gs| ensures gs[i].id != g.id { InIds(gs, i); }
  }

  lemma ReachedSound(gs: seq<Guard>, confirmed: seq<int>, k: nat, now: nat)
    requires Sound(gs, confirmed, []) && k < |gs|
    ensures var cs := confirmed + (if gs[k].confirmedAt == 0 && |confirmed| < CONFIRMED_MAX then [k] else []);
            && |cs| <= CONFIRMED_MAX && DistinctIndices(cs, |gs|)
            && (Sound(gs[k := Reached(gs[k], now)], cs, []) <==>
                now > 0 || gs[k].confirmedAt != 0 || |confirmed| == CONFIRMED_MAX)
  {
    if gs[k].confirmedAt == 0 && |confirmed| < CONFIRMED_MAX {
      assert (confirmed + [k])[|confirmed|] == k;
    }
  }

  /** A new best list in place of the old primaries. */
  lemma BestSound(gs: seq<Guard>, confirmed: seq<int>, primary: seq<int>)
    requires Sound(gs, confirmed, []) && Best(gs, confirmed, primary, TOP)
    ensures Sound(gs, confirmed, primary)
  {
    hide Rank;
  }

  lemma SoundWithout(gs: seq<Guard>, confirmed: seq<int>, primary: seq<int>)
    requires Sound(gs, confirmed, primary)
    ensures Sound(gs, confirmed, [])
  {
  }

  lemma PrimaryInside(gs: seq<Guard>, confirmed: seq<int>, primary: seq<int>)
    requires Sound(gs, confirmed, primary)
    ensures forall i :: 0 <= i < |primary| ==> 0 <= primary[i] < |gs|
  {
  }

  lemma BestSoundIff(gs: seq<Guard>, confirmed: seq<int>, primary: seq<int>)
    requires |confirmed| <= CONFIRMED_MAX && Best(gs, confirmed, primary, TOP)
    ensures Sound(gs, confirmed, primary) <==> Sound(gs, confirmed, [])
  {
    if Sound(gs, confirmed, []) { BestSound(gs, confirmed, primary); }
  }

  /** Index of guard `k` after expiry, -1 if it has expired. */
  function NewIndex(gs: seq<Guard>, now: nat, k: nat): (r: int)
    requires k < |gs|
    ensures r >= 0 <==> !Expired(gs[k], now)
  {
    if Expired(gs[k], now) then -1 else |Kept(gs[..k], now)|
  }

  ghost predicate Maps(newIndex: seq<int>, gs: seq<Guard>, now: nat) {
    |newIndex| <= |gs| && forall k :: 0 <= k < |newIndex| ==> newIndex[k] == NewIndex(gs, now, k)
  }

  lemma KeptNext(gs: seq<Guard>, now: nat, i: nat)
    requires i < |gs|
    ensures Kept(gs[..i + 1], now) == if Expired(gs[i], now) then Kept(gs[..i], now) else Kept(gs[..i], now) + [gs[i]]
    ensures !Expired(gs[i], now) ==> NewIndex(gs, now, i) == |Kept(gs[..i], now)|
    ensures Expired(gs[i], now) ==> NewIndex(gs, now, i) == -1
  {
    assert gs[..i + 1][..i] == gs[..i];
  }

  lemma MovedNext(gs: seq<Guard>, now: nat, xs: seq<int>, i: nat)
    requires i < |xs| && forall k :: 0 <= k < |xs| ==> 0 <= xs[k] < |gs|
    ensures var j := NewIndex(gs, now, xs[i]);
            Moved(gs, now, xs[..i + 1]) == if j < 0 then Moved(gs, now, xs[..i]) else Moved(gs, now, xs[..i]) + [j]
  {
    assert xs[..i + 1][..i] == xs[..i];
  }

  lemma ExpiredSound(gs: seq<Guard>, confirmed: seq<int>, now: nat)
    requires Sound(gs, confirmed, [])
    ensures Sound(Kept(gs, now), Moved(gs, now, confirmed), [])
  {
    var kept, r := Kept(gs, now), Moved(gs, now, confirmed);
    KeptDistinct(gs, now);
    MovedNames(gs, now, confirmed);
    MovedDistinct(gs, now, confirmed);
    forall i | 0 <= i < |r| ensures kept[r[i]].confirmedAt != 0 {
      assert kept[r[i]] == Named(kept, r)[i];
      KeptAt(Named(gs, confirmed), now, i);
    }
  }

  lemma JudgedSound(gs: seq<Guard>, judged: seq<Guard>, confirmed: seq<int>)
    requires Sound(gs, confirmed, []) && |judged| == |gs| && forall i :: 0 <= i < |gs| ==> judged[i] == Judged(gs[i])
    ensures Sound(judged, confirmed, [])
  {
  }

  function Attempted(g: Guard): Guard {
    var n := g.attempts + 1;
    if n < SCALE_AT then g.(attempts := n)
    else g.(attempts := n / 2, success := g.success / 2, useAttempts := g.useAttempts / 2,
      useSuccess := g.useSuccess / 2)
  }

  lemma {:induction false} AllExpired(gs: seq<Guard>, now: nat)
    requires forall i :: 0 <= i < |gs| ==> Expired(gs[i], now)
    ensures Kept(gs, now) == []
  {
    if gs != [] { AllExpired(gs[..|gs| - 1], now); }
  }

  /** A guard is sampled, fails twenty circuits, is disabled and expires; the next one sampled, though
      never tried, is disabled from the start. */
  method DisabledFromStart(first: nat, second: nat) returns (s: State)
    requires first != second
    ensures fresh(s) && s.Valid() && s.numSampled == 1
    ensures s.sampled[0].id == second && s.sampled[0].lastTried == 0 && s.sampled[0].disabled
  {
    hide Sound, Best, Judged, Kept;
    s := new State();
    assert s.Sampled() == [] && Ids([]) == {};
    SampleOne(s, first, 0);
    FailTwenty(s);
    AllExpired(s.Sampled(), MAX_AGE);
    s.Expire(MAX_AGE);
    assert s.Sampled() == [] && Ids([]) == {};
    SampleOne(s, second, MAX_AGE);
  }

  /** The first guard fails twenty circuits and is disabled by the check that follows. */
  method FailTwenty(s: State)
    requires s.Valid() && s.numSampled > 0 && s.sampled[0].attempts == s.sampled[0].success == 0
    requires forall i :: 1 <= i < s.numSampled ==> s.sampled[i].attempts < MIN_CIRCS
    modifies s.sampled, s`numPrimary, s.primary
    ensures s.Valid() && s.numSampled == old(s.numSampled) && s.Confirmed() == old(s.Confirmed())
    ensures s.Sampled() == old(s.Sampled())[0 := s.sampled[0]] && s.sampled[0].disabled
    ensures var g, d := old(s.sampled[0]), s.sampled[0];
            d.id == g.id && d.addedAt == g.addedAt && d.confirmedAt == g.confirmedAt
  {
    hide Sound, Best, Judged, Attempted, HasId;
    ghost var gs, tried := s.Sampled(), s.sampled[0].(attempts := MIN_CIRCS);
    TryTwenty(s);
    assert s.Sampled()[0] == tried;
    DisabledIff(tried);
    JudgedAge(tried);
    s.CheckAll();
    forall i | 1 <= i < |gs| ensures s.sampled[i] == gs[i] { Unjudged(gs[i]); }
  }

  method TryTwenty(s: State)
    requires s.Valid() && s.numSampled > 0 && s.sampled[0].attempts == 0
    modifies s.sampled
    ensures s.Valid() && s.Sampled() == old(s.Sampled())[0 := old(s.sampled[0]).(attempts := MIN_CIRCS)]
  {
    hide Sound, Best;
    ghost var gs, g := s.Sampled(), s.sampled[0];
    for i := 0 to MIN_CIRCS
      invariant s.Valid() && s.Sampled() == gs[0 := g.(attempts := i)]
    {
      ghost var now := s.Sampled();
      assert HasId(g.id)(now[0]);
      s.CountAttempt(s.sampled[0].id);
      assert s.Sampled() == now[0 := Attempted(now[0])];
    }
  }

  lemma JudgedAge(g: Guard)
    ensures Judged(g).addedAt == g.addedAt && Judged(g).id == g.id && Judged(g).confirmedAt == g.confirmedAt
  {
  }

  method SampleOne(s: State, id: nat, now: nat)
    requires s.Valid() && s.numSampled < SAMPLED_MAX && id !in Ids(s.Sampled())
    modifies s`numSampled, s.sampled
    ensures s.Valid() && s.numSampled == old(s.numSampled) + 1 && s.left == old(s.left)
    ensures s.Sampled() == old(s.Sampled()) + [Fresh(id, now, Last(s.left, old(s.numSampled)))]
  {
    hide Sound;
    var select := (exc: set<nat>) => if id in exc then None else Some(id);
    ghost var n, before := s.numSampled, s.Sampled();
    s.Sample(select, now);
    ghost var gs := s.Sampled();
    assert gs[..n] == before;
    assert |gs| == n ==> gs == before;
    assert |gs| > n;
    InIds(gs[..n + 1], n);
    assert gs[n].id == id && select(Ids(gs[..n + 1])) == None;
    assert gs == before + [gs[n]];
  }

  /** Two guards are sampled; the first fails twenty circuits, is disabled, and is then marked reachable: it is
      selected although the other one is enabled. */
  method DisabledSelected(first: nat, second: nat, turn: nat) returns (s: State, r: Option<int>)
    requires first != second
    ensures fresh(s) && s.Valid() && s.Current() && s.numSampled == 2
    ensures r == Some(0) && s.sampled[0].id == first && s.sampled[0].disabled && !s.sampled[1].disabled
  {
    hide Sound, Best, Judged;
    s := TwoGuards(first, second);
    FailTwenty(s);
    ghost var gs := s.Sampled();
    assert HasId(first)(gs[0]);
    s.MarkReachable(first, 1);
    assert s.Sampled() == gs[0 := Reached(gs[0], 1)];
    FallsBack(s.Sampled(), s.Confirmed(), s.Primary(), turn);
    r := s.Select(turn);
  }

  method TwoGuards(first: nat, second: nat) returns (s: State)
    requires first != second
    ensures fresh(s) && s.Valid() && fresh(s.sampled) && fresh(s.confirmed) && fresh(s.primary)
    ensures s.Sampled() == [Fresh(first, 0, BLANK), Fresh(second, 0, BLANK)] && s.Confirmed() == []
  {
    hide Sound, Best;
    s := new State();
    assert s.Sampled() == [] && Ids([]) == {};
    SampleOne(s, first, 0);
    assert Ids(s.Sampled()) == {first} by { assert s.Sampled()[..0] == [] && Ids([]) == {}; }
    SampleOne(s, second, 0);
  }

  lemma Unjudged(g: Guard)
    requires g.attempts < MIN_CIRCS
    ensures Judged(g) == g
  {
  }

  lemma FallsBack(gs: seq<Guard>, confirmed: seq<int>, primary: seq<int>, turn: nat)
    requires Sound(gs, confirmed, primary) && |gs| == 2 && gs[0].reachable && gs[0].disabled && !gs[1].reachable
    ensures Selected(gs, primary, turn) == Some(0)
  {
    assert IsReachable()(gs[0]);
    assert forall i :: 0 <= i < |primary| ==> !Reachable(gs)(primary[i]);
  }
}
