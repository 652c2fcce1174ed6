/** Which ids are candidates, and why generating one ends. */
module IdGen {
  import opened Layout

  /** The `d`-th id tried when the counter stands at `from`. */
  function Candidate(from: nat, d: nat): nat {
    (from + d) % TWO_64
  }

  predicate Usable<V>(table: map<nat, V>, id: nat) {
    0 < id < TWO_64 && id !in table
  }

  /** How far the counter has to go from `from` to reach `to`. */
  function Distance(from: nat, to: nat): nat
    requires from < TWO_64 && to < TWO_64
  {
    (to - from) % TWO_64
  }

  /** Counting up from `from` passes through the candidates in turn. */
  lemma CandidateStep(from: nat, d: nat)
    ensures Candidate(from, d + 1) == (Candidate(from, d) + 1) % TWO_64
  {
  }

  lemma CandidateStart(from: nat)
    requires from < TWO_64
    ensures Candidate(from, 0) == from
  {
  }

  lemma CandidateDistance(from: nat, to: nat)
    requires from < TWO_64 && to < TWO_64
    ensures Distance(from, to) < TWO_64 && Candidate(from, Distance(from, to)) == to
  {
  }

  lemma DistanceCandidate(from: nat, d: nat)
    requires from < TWO_64 && d < TWO_64
    ensures Distance(from, Candidate(from, d)) == d
  {
  }

  /** The first usable id from the counter on, which may wrap around. */
  ghost predicate FirstUsable<V>(table: map<nat, V>, from: nat, id: nat) {
    && from < TWO_64 && Usable(table, id)
    && forall d: nat :: d < Distance(from, id) ==> !Usable(table, Candidate(from, d))
  }

  /** Which id that is depends on no more than the ids there are. */
  lemma FirstUsableByKeys<V, U>(t: map<nat, V>, u: map<nat, U>, from: nat, id: nat)
    requires t.Keys == u.Keys && FirstUsable(t, from, id)
    ensures FirstUsable(u, from, id)
  {
    hide Candidate, Distance;
    forall x
      ensures Usable(t, x) <==> Usable(u, x)
    {
      assert x in t.Keys <==> x in u.Keys;
    }
  }

  ghost function IdsUpTo(n: nat): (ids: set<nat>)
    ensures |ids| == n && forall i :: i in ids <==> 0 < i <= n
  {
    if n == 0 then {} else IdsUpTo(n - 1) + {n}
  }

  lemma UsableIdUpTo<V>(table: map<nat, V>, n: nat) returns (id: nat)
    requires |table| < n
    ensures 0 < id <= n && id !in table
  {
    assert |table| == |table.Keys|;
    if IdsUpTo(n) <= table.Keys {
      SubsetSize(IdsUpTo(n), table.Keys);
    }
    id :| id in IdsUpTo(n) && id !in table.Keys;
  }

  /** There is a usable id as long as fewer objects are stored than there are nonzero ids. */
  lemma UsableIdExists<V>(table: map<nat, V>)
    requires |table| < TWO_64 - 1
    ensures exists id :: Usable(table, id)
  {
    var id := UsableIdUpTo(table, TWO_64 - 1);
    assert Usable(table, id);
  }

  lemma {:induction false} SubsetSize(a: set<nat>, b: set<nat>)
    requires a <= b
    ensures |a| <= |b|
  {
    if a != {} {
      var x :| x in a;
      SubsetSize(a - {x}, b - {x});
    }
  }
}
