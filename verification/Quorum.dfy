/** Verification of a consensus by a majority of trusted authorities (src/directory.c). Signature
    checks over the consensus body are arbitrary predicates. */
module Quorum {
  import Counting

  const MAX_AUTHORITIES := 9

  type Blob = seq<nat>

  datatype Sig = Sig(id: Blob, ed: Blob, hasPq: bool, pq: Blob, pqKey: Blob)
  datatype Trusted = Trusted(id: Blob, hasPq: bool, pqKey: Blob)

  /** Which Ed25519 and ML-DSA signatures hold for the body of this consensus, under which keys. */
  datatype Body = Body(ed: (Blob, Blob) -> bool, pq: (Blob, Blob) -> bool)

  /** A fully valid signature of the authority: a post-quantum one is required where the authority has
      a post-quantum key. */
  predicate Signs(b: Body, s: Sig, t: Trusted) {
    && s.id == t.id && b.ed(s.ed, s.id)
    && (t.hasPq ==> s.hasPq && s.pqKey == t.pqKey && b.pq(s.pq, s.pqKey))
  }

  function Majority(n: nat): nat {
    n / 2 + 1
  }

  /** The least number that is more than half. */
  lemma MajorityLeast(n: nat)
    ensures 2 * Majority(n) > n && forall m: nat :: 2 * m > n ==> Majority(n) <= m
  {
  }

  // ---- What the loops compute, for any trusted list ----

  /** The first entry not yet credited with the given identity, `|trusted|` if there is none. */
  function FirstMatch(trusted: seq<Trusted>, counted: seq<bool>, id: Blob, j: nat): (k: nat)
    requires |counted| == |trusted| && j <= |trusted|
    ensures j <= k <= |trusted| && (k < |trusted| ==> !counted[k] && trusted[k].id == id)
    ensures forall i :: j <= i < k ==> counted[i] || trusted[i].id != id
    decreases |trusted| - j
  {
    if j == |trusted| || (!counted[j] && trusted[j].id == id) then j else FirstMatch(trusted, counted, id, j + 1)
  }

  function Credited(b: Body, s: Sig, trusted: seq<Trusted>, counted: seq<bool>): (r: seq<bool>)
    requires |counted| == |trusted|
    ensures |r| == |trusted|
  {
    var k := FirstMatch(trusted, counted, s.id, 0);
    if k < |trusted| && Signs(b, s, trusted[k]) then counted[k := true] else counted
  }

  function Tally(b: Body, sigs: seq<Sig>, trusted: seq<Trusted>): (r: seq<bool>)
    ensures |r| == |trusted|
  {
    if sigs == [] then seq(|trusted|, _ => false)
    else Credited(b, sigs[|sigs| - 1], trusted, Tally(b, sigs[..|sigs| - 1], trusted))
  }

  ghost function Marked(counted: seq<bool>): set<int> {
    set j | 0 <= j < |counted| && counted[j]
  }

  lemma NoneMarked(counted: seq<bool>)
    requires forall j :: 0 <= j < |counted| ==> !counted[j]
    ensures Marked(counted) == {}
  {
  }

  lemma MarkedGrows(counted: seq<bool>, k: nat)
    requires k < |counted| && !counted[k]
    ensures Marked(counted[k := true]) == Marked(counted) + {k} && |Marked(counted[k := true])| == |Marked(counted)| + 1
  {
    assert Marked(counted[k := true]) == Marked(counted) + {k};
  }

  /** The scan for an authority to credit. */
  method Match(trusted: seq<Trusted>, counted: array<bool>, id: Blob) returns (j: nat)
    requires |trusted| <= counted.Length
    ensures j == FirstMatch(trusted, counted[..|trusted|], id, 0)
  {
    j := 0;
    while j < |trusted| && (counted[j] || id != trusted[j].id)
      invariant 0 <= j <= |trusted|
      invariant FirstMatch(trusted, counted[..|trusted|], id, j) == FirstMatch(trusted, counted[..|trusted|], id, 0)
    {
      j := j + 1;
    }
  }

  /** moor_consensus_verify_hybrid. */
  method Verify(b: Body, sigs: seq<Sig>, trusted: seq<Trusted>) returns (ok: bool)
    requires |trusted| <= MAX_AUTHORITIES
    ensures ok <==> trusted != [] && |Marked(Tally(b, sigs, trusted))| >= Majority(|trusted|)
  {
    hide Marked, FirstMatch;
    if |trusted| == 0 { return false; }
    var verified := 0;
    var counted := new bool[MAX_AUTHORITIES](_ => false);
    var n := |trusted|;
    assert counted[..n] == Tally(b, sigs[..0], trusted);
    NoneMarked(counted[..n]);
    for i := 0 to |sigs|
      invariant counted[..n] == Tally(b, sigs[..i], trusted) && verified == |Marked(counted[..n])|
    {
      ghost var before := counted[..n];
      var s := sigs[i];
      assert sigs[..i + 1][..i] == sigs[..i];
      var j := Match(trusted, counted, s.id);
      if j < n {
        var t := trusted[j];
        var good := b.ed(s.ed, s.id);
        if good && s.hasPq && t.hasPq { good := s.pqKey == t.pqKey && b.pq(s.pq, s.pqKey); }
        if t.hasPq && !s.hasPq { good := false; }
        if good {
          MarkedGrows(before, j);
          counted[j] := true;
          assert counted[..n] == before[j := true];
          verified := verified + 1;
        }
      }
    }
    assert sigs[..|sigs|] == sigs;
    ok := verified >= n / 2 + 1;
  }

  // ---- What that means when the trusted identities are distinct ----

  ghost predicate DistinctIds(trusted: seq<Trusted>) {
    forall i, j :: 0 <= i < j < |trusted| ==> trusted[i].id != trusted[j].id
  }

  /** The authorities with at least one fully valid signature. */
  ghost function Signers(b: Body, sigs: set<Sig>, trusted: seq<Trusted>): set<int> {
    set j | 0 <= j < |trusted| && exists s :: s in sigs && Signs(b, s, trusted[j])
  }

  ghost function Elements<T>(xs: seq<T>): set<T> {
    set x | x in xs
  }

  /** Each authority with some fully valid signature is counted once, whatever the order and repetition
      of signatures, valid or not. */
  lemma {:induction false} CountsSigners(b: Body, sigs: seq<Sig>, trusted: seq<Trusted>)
    requires DistinctIds(trusted)
    ensures Marked(Tally(b, sigs, trusted)) == Signers(b, Elements(sigs), trusted)
  {
    hide Credited, Signs;
    if sigs != [] {
      var init, s := sigs[..|sigs| - 1], sigs[|sigs| - 1];
      var counted := Tally(b, init, trusted);
      CountsSigners(b, init, trusted);
      CreditsSigner(b, s, trusted, counted);
      assert sigs == init + [s];
    }
  }

  /** A signature credits the authority it is valid for, if that has not been done. */
  lemma CreditsSigner(b: Body, s: Sig, trusted: seq<Trusted>, counted: seq<bool>)
    requires DistinctIds(trusted) && |counted| == |trusted|
    ensures forall j :: j in Marked(Credited(b, s, trusted, counted)) <==>
      0 <= j < |trusted| && (j in Marked(counted) || Signs(b, s, trusted[j]))
  {
    var k := FirstMatch(trusted, counted, s.id, 0);
    assert forall j :: 0 <= j < |trusted| && Signs(b, s, trusted[j]) ==> counted[j] || k == j;
  }

  /** So the verdict is exactly that a majority of the trusted authorities signed. */
  lemma VerifiedIff(b: Body, sigs: seq<Sig>, trusted: seq<Trusted>)
    requires DistinctIds(trusted)
    ensures |Marked(Tally(b, sigs, trusted))| >= Majority(|trusted|) <==>
            |Signers(b, Elements(sigs), trusted)| >= Majority(|trusted|)
  {
    CountsSigners(b, sigs, trusted);
  }

  /** Any two consensuses accepted under the same trusted list share an authority that signed both. */
  lemma AcceptedShareSigner(a: Body, b: Body, sigsA: seq<Sig>, sigsB: seq<Sig>, trusted: seq<Trusted>)
    requires DistinctIds(trusted)
    requires |Marked(Tally(a, sigsA, trusted))| >= Majority(|trusted|) &&
      |Marked(Tally(b, sigsB, trusted))| >= Majority(|trusted|)
    ensures exists j, s, t ::
      0 <= j < |trusted| && s in sigsA && t in sigsB && Signs(a, s, trusted[j]) && Signs(b, t, trusted[j])
  {
    CountsSigners(a, sigsA, trusted);
    CountsSigners(b, sigsB, trusted);
    var x, y := Signers(a, Elements(sigsA), trusted), Signers(b, Elements(sigsB), trusted);
    Overlap(x, y, |trusted|);
    var j :| j in x && j in y;
    var s :| s in Elements(sigsA) && Signs(a, s, trusted[j]);
    var t :| t in Elements(sigsB) && Signs(b, t, trusted[j]);
  }

  lemma Overlap(x: set<int>, y: set<int>, n: nat)
    requires (forall j :: j in x + y ==> 0 <= j < n) && |x| + |y| > n
    ensures exists j :: j in x && j in y
  {
    Counting.Subset(x + y, Counting.Between(0, n));
    assert |x + y| == |x| + |y| - |x * y|;
    var j :| j in x * y;
  }

  /** A trusted list that names an authority twice lets its one signature, sent twice, count as two. */
  lemma RepeatedIdCountsTwice(b: Body, s: Sig, t: Trusted)
    requires Signs(b, s, t)
    ensures |Marked(Tally(b, [s, s], [t, t]))| == 2 >= Majority(2)
  {
    var trusted := [t, t];
    var none := seq(|trusted|, _ => false);
    assert [s, s][..1] == [s] && [s][..0] == [];
    assert Tally(b, [], trusted) == none;
    assert Tally(b, [s], trusted) == none[0 := true];
    assert Tally(b, [s, s], trusted) == none[0 := true][1 := true];
    assert Marked(none[0 := true][1 := true]) == {0, 1};
  }

  ghost function Ids(sigs: seq<Sig>): set<Blob> {
    set s | s in sigs :: s.id
  }

  /** Whatever the signatures, no identity that signed is counted more than once. */
  ghost predicate CountsOnce(trusted: seq<Trusted>) {
    forall b, sigs :: |Marked(Tally(b, sigs, trusted))| <= |Ids(sigs)|
  }

  /** No identity is ever counted more than once exactly if the trusted list names none twice. */
  lemma CountsOnceIff(trusted: seq<Trusted>)
    ensures CountsOnce(trusted) <==> DistinctIds(trusted)
  {
    if DistinctIds(trusted) {
      forall b, sigs ensures |Marked(Tally(b, sigs, trusted))| <= |Ids(sigs)| {
        CountsSigners(b, sigs, trusted);
        SignersByIds(Signers(b, Elements(sigs), trusted), trusted, Ids(sigs));
      }
    } else {
      var i, j :| 0 <= i < j < |trusted| && trusted[i].id == trusted[j].id;
      var b, sigs := CountedTwice(trusted, i, j);
    }
  }

  /** Entries with distinct identities are no more than the identities. */
  lemma SignersByIds(x: set<int>, trusted: seq<Trusted>, ids: set<Blob>)
    requires DistinctIds(trusted) && forall j :: j in x ==> 0 <= j < |trusted| && trusted[j].id in ids
    ensures |x| <= |ids|
  {
    Counting.Injects(x, (j: int) => if 0 <= j < |trusted| then trusted[j].id else [], ids);
  }

  /** Two signatures of an identity that the list names twice are both counted. */
  lemma CountedTwice(trusted: seq<Trusted>, i: nat, j: nat) returns (b: Body, sigs: seq<Sig>)
    requires i < j < |trusted| && trusted[i].id == trusted[j].id
    ensures |Marked(Tally(b, sigs, trusted))| == 2 && |Ids(sigs)| == 1
  {
    var id := trusted[i].id;
    var none := seq(|trusted|, _ => false);
    var k := FirstMatch(trusted, none, id, 0);
    var l := FirstMatch(trusted, none[k := true], id, 0);
    var first, second := Sig(id, [], true, [], trusted[k].pqKey), Sig(id, [], true, [], trusted[l].pqKey);
    b, sigs := Body((_, _) => true, (_, _) => true), [first, second];
    assert sigs[..1] == [first] && [first][..0] == [] && Tally(b, [], trusted) == none;
    assert Tally(b, [first], trusted) == none[k := true];
    assert Tally(b, sigs, trusted) == none[k := true][l := true];
    assert Marked(none[k := true][l := true]) == {k, l};
    assert Ids(sigs) == {id} by { assert sigs[0].id == id; }
  }

  /** No downgrade: where every authority has a post-quantum key, nothing is counted without a post-quantum
      signature under that key. */
  lemma {:induction false} NoDowngrade(b: Body, sigs: seq<Sig>, trusted: seq<Trusted>)
    requires forall j :: 0 <= j < |trusted| ==> trusted[j].hasPq
    requires forall i, j :: 0 <= i < |sigs| && 0 <= j < |trusted| ==>
      !sigs[i].hasPq || sigs[i].pqKey != trusted[j].pqKey || !b.pq(sigs[i].pq, sigs[i].pqKey)
    ensures Marked(Tally(b, sigs, trusted)) == {}
  {
    if sigs != [] { NoDowngrade(b, sigs[..|sigs| - 1], trusted); }
  }

  /** An authority without a post-quantum key counts by its Ed25519 signature, whatever else is attached. */
  lemma EdSuffices(b: Body, sigs: seq<Sig>, trusted: seq<Trusted>, i: nat, j: nat)
    requires DistinctIds(trusted) && i < |sigs| && j < |trusted| && !trusted[j].hasPq
    requires sigs[i].id == trusted[j].id && b.ed(sigs[i].ed, sigs[i].id)
    ensures j in Marked(Tally(b, sigs, trusted))
  {
    CountsSigners(b, sigs, trusted);
    assert sigs[i] in Elements(sigs) && Signs(b, sigs[i], trusted[j]);
  }

  /** Nothing counts without an Ed25519 signature that holds. */
  lemma {:induction false} EdRequired(b: Body, sigs: seq<Sig>, trusted: seq<Trusted>)
    requires forall i :: 0 <= i < |sigs| ==> !b.ed(sigs[i].ed, sigs[i].id)
    ensures Marked(Tally(b, sigs, trusted)) == {}
  {
    if sigs != [] { EdRequired(b, sigs[..|sigs| - 1], trusted); }
  }
}
