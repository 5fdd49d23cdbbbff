/** The bandwidth weights of a consensus (src/directory.c), computed from the total bandwidth of guards,
    exits, relays that are both, and the rest. */
module BandwidthWeights {
  const SCALE := 10000

  datatype Relay = Relay(bandwidth: nat, guard: bool, exit: bool)

  /** Total bandwidth per class. */
  datatype Sums = Sums(guards: nat, middles: nat, exits: nat, both: nat)

  datatype Weights = Weights(gg: int, gd: int, ee: int, ed: int, mg: int, me: int, mm: int, md: int)

  function Add(s: Sums, r: Relay): Sums {
    if r.guard && r.exit then s.(both := s.both + r.bandwidth)
    else if r.guard then s.(guards := s.guards + r.bandwidth)
    else if r.exit then s.(exits := s.exits + r.bandwidth)
    else s.(middles := s.middles + r.bandwidth)
  }

  function Totals(rs: seq<Relay>): Sums {
    if rs == [] then Sums(0, 0, 0, 0) else Add(Totals(rs[..|rs| - 1]), rs[|rs| - 1])
  }

  function All(s: Sums): nat {
    var t := s.guards + s.middles + s.exits + s.both;
    if t == 0 then 1 else t
  }

  /** Less than a third of the total. */
  predicate Scarce(x: nat, s: Sums) {
    3 * x < All(s)
  }

  /** `SCALE * x / (3 * y)`. */
  function Share(x: nat, y: nat): (w: nat)
    requires 0 < y && x <= 3 * y
    ensures w <= SCALE && w * (3 * y) <= SCALE * x < (w + 1) * (3 * y)
  {
    assert SCALE * x <= SCALE * (3 * y);
    SCALE * x / (3 * y)
  }

  predicate InScale(w: int) {
    0 <= w <= SCALE
  }

  /** The weights before clamping. No division is by zero, every weight is within the scale, the shares
      of a class over its positions add up, and of relays that are both guard and exit at most two
      parts in the scale are lost to rounding. */
  function Computed(s: Sums): (w: Weights)
    ensures InScale(w.gg) && InScale(w.gd) && InScale(w.ee) && InScale(w.ed)
    ensures InScale(w.mg) && InScale(w.me) && InScale(w.mm) && InScale(w.md)
    ensures w.gg + w.mg == SCALE && w.ee + w.me == SCALE && SCALE - 2 <= w.gd + w.ed + w.md <= SCALE
    ensures Scarce(s.exits, s) && !Scarce(s.guards, s) ==> w.ed == SCALE
    ensures Scarce(s.guards, s) && !Scarce(s.exits, s) ==> w.gd == SCALE
  {
    var S := SCALE;
    if !Scarce(s.exits, s) && !Scarce(s.guards, s) then
      var gg, ee := Share(s.exits + s.middles, s.guards), Share(s.exits + s.guards + s.middles, s.exits);
      Weights(gg, S / 3, ee, S / 3, S - gg, S - ee, S, S / 3)
    else if Scarce(s.exits, s) && Scarce(s.guards, s) then
      if s.exits < s.guards then Weights(S, 0, S, S, 0, 0, S, 0) else Weights(S, S, S, 0, 0, 0, S, 0)
    else if Scarce(s.exits, s) then
      var gg := Share(s.middles + s.exits, s.guards);
      Weights(gg, 0, S, S, S - gg, 0, S, 0)
    else
      var ee := Share(s.middles + s.guards, s.exits);
      Weights(S, S, ee, 0, 0, S - ee, S, 0)
  }

  function Clamped(w: int): int {
    if w < 0 then 0 else if w > SCALE then SCALE else w
  }

  /** The class sums. */
  method Sum(rs: seq<Relay>) returns (g: nat, m: nat, e: nat, d: nat)
    ensures Sums(g, m, e, d) == Totals(rs)
  {
    g, m, e, d := 0, 0, 0, 0;
    for i := 0 to |rs|
      invariant Sums(g, m, e, d) == Totals(rs[..i])
    {
      assert rs[..i + 1][..i] == rs[..i];
      var bw := rs[i].bandwidth;
      if rs[i].guard && rs[i].exit { d := d + bw; }
      else if rs[i].guard { g := g + bw; }
      else if rs[i].exit { e := e + bw; }
      else { m := m + bw; }
    }
    assert rs[..|rs|] == rs;
  }

  /** The weight computation of da_build_consensus_unlocked; the clamping at its end changes nothing. */
  method Weigh(rs: seq<Relay>) returns (w: Weights)
    ensures w == Computed(Totals(rs))
  {
    hide Totals;
    var g, m, e, d := Sum(rs);
    var t := g + m + e + d;
    if t == 0 { t := 1; }
    var S := SCALE;
    if 3 * e >= t && 3 * g >= t {
      var gg, ee := S * (e + m) / (3 * g), S * (e + g + m) / (3 * e);
      w := Weights(gg, S / 3, ee, S / 3, S - gg, S - ee, S, S / 3);
    } else if 3 * e < t && 3 * g < t {
      if e < g { w := Weights(S, 0, S, S, 0, 0, S, 0); } else { w := Weights(S, S, S, 0, 0, 0, S, 0); }
    } else if 3 * e < t {
      var gg := S * (m + e) / (3 * g);
      w := Weights(gg, 0, S, S, S - gg, 0, S, 0);
    } else {
      var ee := S * (m + g) / (3 * e);
      w := Weights(S, S, ee, 0, 0, S - ee, S, 0);
    }
    w := Weights(Clamped(w.gg), Clamped(w.gd), Clamped(w.ee), Clamped(w.ed), Clamped(w.mg), Clamped(w.me),
      Clamped(w.mm), Clamped(w.md));
  }

  /** The bandwidth of the relays with property `p`. */
  function SumIf(rs: seq<Relay>, p: Relay -> bool): nat {
    if rs == [] then 0 else SumIf(rs[..|rs| - 1], p) + if p(rs[|rs| - 1]) then rs[|rs| - 1].bandwidth else 0
  }

  /** Each relay counts in one class, by its two flags. */
  lemma {:induction false} TotalsAre(rs: seq<Relay>)
    ensures Totals(rs).guards == SumIf(rs, (r: Relay) => r.guard && !r.exit)
    ensures Totals(rs).exits == SumIf(rs, (r: Relay) => r.exit && !r.guard)
    ensures Totals(rs).both == SumIf(rs, (r: Relay) => r.guard && r.exit)
    ensures Totals(rs).middles == SumIf(rs, (r: Relay) => !r.guard && !r.exit)
  {
    if rs != [] { TotalsAre(rs[..|rs| - 1]); }
  }

  /** Where guards are not scarce, a third of the bandwidth of exits and middles is matched by guards in the guard
      position, up to rounding; exits likewise; a scarce class keeps its position to itself. */
  lemma Balanced(s: Sums)
    ensures var w := Computed(s); !Scarce(s.guards, s) ==>
      w.gg * (3 * s.guards) <= SCALE * (s.exits + s.middles) < (w.gg + 1) * (3 * s.guards)
    ensures var w := Computed(s); !Scarce(s.exits, s) ==>
      var rest := if Scarce(s.guards, s) then s.guards + s.middles else s.exits + s.guards + s.middles;
      w.ee * (3 * s.exits) <= SCALE * rest < (w.ee + 1) * (3 * s.exits)
    ensures var w := Computed(s);
            && (Scarce(s.guards, s) ==> w.gg == SCALE) && (Scarce(s.exits, s) ==> w.ee == SCALE) && w.mm == SCALE
  {
  }

  /** Relays that are both serve where they are needed more: evenly if nothing is scarce, else all of them for the
      scarcer class, exits only if they are fewer. */
  lemma BothServe(s: Sums)
    ensures var w := Computed(s);
            if !Scarce(s.guards, s) && !Scarce(s.exits, s) then w.gd == w.ed == w.md == SCALE / 3
            else
              var forExits := Scarce(s.exits, s) && (!Scarce(s.guards, s) || s.exits < s.guards);
              w.md == 0 && w.ed == (if forExits then SCALE else 0) && w.gd == (if forExits then 0 else SCALE)
  {
  }
}
