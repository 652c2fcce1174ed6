/** Sequences of keys with values in increasing order, and the maps they stand for. */
module Pairs {
  import opened Wrappers
  type Value = string

  datatype Pair = Pair(key: nat, value: Value)

  /** The keys increase strictly. */
  ghost predicate Sorted(s: seq<Pair>) {
    forall i, j :: 0 <= i < j < |s| ==> s[i].key < s[j].key
  }

  ghost predicate AllBelow(s: seq<Pair>, k: nat) {
    forall i :: 0 <= i < |s| ==> s[i].key < k
  }

  ghost predicate AllAbove(s: seq<Pair>, k: nat) {
    forall i :: 0 <= i < |s| ==> k < s[i].key
  }

  ghost predicate AllFrom(s: seq<Pair>, k: nat) {
    forall i :: 0 <= i < |s| ==> k <= s[i].key
  }

  ghost predicate HasKey(s: seq<Pair>, k: nat) {
    exists i :: 0 <= i < |s| && s[i].key == k
  }

  /** How many pairs have a smaller key. */
  function Rank(s: seq<Pair>, k: nat): (r: nat)
    ensures r <= |s|
    ensures forall i :: 0 <= i < r ==> s[i].key < k
    ensures r < |s| ==> k <= s[r].key
  {
    if s == [] || k <= s[0].key then 0 else 1 + Rank(s[1..], k)
  }

  /** The value at a key. */
  function Lookup(s: seq<Pair>, k: nat): Option<Value> {
    var r := Rank(s, k);
    if r < |s| && s[r].key == k then Some(s[r].value) else None
  }

  /** The sequence with the value at the key replaced, or the pair put where it belongs. */
  function Upsert(s: seq<Pair>, k: nat, v: Value): seq<Pair> {
    var r := Rank(s, k);
    if r < |s| && s[r].key == k then s[r := Pair(k, v)] else s[..r] + [Pair(k, v)] + s[r..]
  }

  /** The pairs with keys from `k` on. */
  function From(s: seq<Pair>, k: nat): seq<Pair> {
    s[Rank(s, k)..]
  }

  /** The first `n` of them, or all if there are fewer. */
  function FirstOf(s: seq<Pair>, n: nat): seq<Pair> {
    if n < |s| then s[..n] else s
  }

  lemma RankIs(s: seq<Pair>, k: nat, r: nat)
    requires Sorted(s) && r <= |s| && (forall i :: 0 <= i < r ==> s[i].key < k) && (r < |s| ==> k <= s[r].key)
    ensures Rank(s, k) == r
  {
  }

  /** Where a new key goes. */
  lemma PlaceIs(s: seq<Pair>, k: nat, v: Value, r: nat)
    requires Sorted(s) && !HasKey(s, k) && r <= |s| && (r > 0 ==> s[r - 1].key <= k)
             && (forall i :: r <= i < |s| ==> k < s[i].key)
    ensures Upsert(s, k, v) == s[..r] + [Pair(k, v)] + s[r..]
  {
    RankIs(s, k, r);
  }

  lemma LookupIs(s: seq<Pair>, k: nat)
    requires Sorted(s)
    ensures Lookup(s, k).Some? <==> HasKey(s, k)
    ensures forall i :: 0 <= i < |s| && s[i].key == k ==> Lookup(s, k) == Some(s[i].value)
  {
    forall i | 0 <= i < |s| && s[i].key == k
      ensures Rank(s, k) == i
    {
      RankIs(s, k, i);
    }
  }

  /** What is at each place after an upsert. */
  lemma UpsertAt(s: seq<Pair>, k: nat, v: Value)
    requires Sorted(s)
    ensures var u, r := Upsert(s, k, v), Rank(s, k);
            && r < |u| && u[r] == Pair(k, v)
            && |u| == (if HasKey(s, k) then |s| else |s| + 1)
            && (forall i :: 0 <= i < r ==> u[i] == s[i])
            && (HasKey(s, k) ==> forall i :: r < i < |s| ==> u[i] == s[i])
            && (!HasKey(s, k) ==> forall i :: r < i < |u| ==> u[i] == s[i - 1])
  {
    LookupIs(s, k);
  }

  lemma RankBounds(s: seq<Pair>, k: nat)
    requires Sorted(s)
    ensures var r := Rank(s, k);
            && (forall i :: 0 <= i < r ==> s[i].key < k) && (forall i :: r <= i < |s| ==> k <= s[i].key)
            && (!HasKey(s, k) ==> forall i :: r <= i < |s| ==> k < s[i].key)
            && (HasKey(s, k) ==> r < |s| && s[r].key == k && forall i :: r < i < |s| ==> k < s[i].key)
  {
    LookupIs(s, k);
  }

  lemma UpsertSorted(s: seq<Pair>, k: nat, v: Value)
    requires Sorted(s)
    ensures Sorted(Upsert(s, k, v))
    ensures |Upsert(s, k, v)| == if HasKey(s, k) then |s| else |s| + 1
  {
    UpsertAt(s, k, v);
    RankBounds(s, k);
    hide Upsert, Rank, HasKey;
  }

  /** The sequence after an upsert is that of the map with one entry changed. */
  lemma UpsertLookup(s: seq<Pair>, k: nat, v: Value, x: nat)
    requires Sorted(s)
    ensures Lookup(Upsert(s, k, v), x) == if x == k then Some(v) else Lookup(s, x)
  {
    hide Upsert, Lookup, Rank;
    var u, r := Upsert(s, k, v), Rank(s, k);
    UpsertSorted(s, k, v);
    UpsertAt(s, k, v);
    LookupIs(u, x);
    LookupIs(s, x);
    if x == k {
      assert u[r] == Pair(k, v);
    } else if HasKey(s, x) {
      var i :| 0 <= i < |s| && s[i].key == x;
      RankBounds(s, k);
      assert u[if |u| == |s| || i < r then i else i + 1] == s[i];
    } else {
      UpsertNoKey(s, k, v, x);
    }
  }

  lemma UpsertNoKey(s: seq<Pair>, k: nat, v: Value, x: nat)
    requires x != k && !HasKey(s, x)
    ensures !HasKey(Upsert(s, k, v), x)
  {
    var u, r := Upsert(s, k, v), Rank(s, k);
    forall i | 0 <= i < |u|
      ensures u[i].key != x
    {
      if |u| == |s| {
        assert u[i] == if i == r then Pair(k, v) else s[i];
      } else {
        assert u[i] == if i < r then s[i] else if i == r then Pair(k, v) else s[i - 1];
      }
    }
  }

  /** Two increasing sequences with the same lookups are the same. */
  lemma {:induction false} LookupsDetermine(s: seq<Pair>, t: seq<Pair>)
    requires Sorted(s) && Sorted(t) && forall k :: Lookup(s, k) == Lookup(t, k)
    ensures s == t
  {
    if s == [] {
      if t != [] {
        LookupIs(t, t[0].key);
        LookupIs(s, t[0].key);
      }
    } else {
      LookupIs(s, s[0].key);
      LookupIs(t, s[0].key);
      LookupIs(t, t[0].key);
      LookupIs(s, t[0].key);
      assert s[0] == t[0];
      forall k
        ensures Lookup(s[1..], k) == Lookup(t[1..], k)
      {
        LookupTail(s, k);
        LookupTail(t, k);
      }
      LookupsDetermine(s[1..], t[1..]);
    }
  }

  lemma LookupTail(s: seq<Pair>, k: nat)
    requires Sorted(s) && s != []
    ensures Lookup(s[1..], k) == if k <= s[0].key then None else Lookup(s, k)
  {
    LookupIs(s[1..], k);
  }

  // ---------- a part of a sequence ----------

  lemma SortedParts(a: seq<Pair>, b: seq<Pair>)
    requires Sorted(a + b)
    ensures Sorted(a) && Sorted(b)
    ensures forall i, j :: 0 <= i < |a| && 0 <= j < |b| ==> a[i].key < b[j].key
  {
    var s := a + b;
    assert forall i :: 0 <= i < |a| ==> s[i] == a[i];
    assert forall j :: 0 <= j < |b| ==> s[|a| + j] == b[j];
  }

  lemma AroundRank(a: seq<Pair>, b: seq<Pair>, c: seq<Pair>, k: nat)
    requires Sorted(a + b + c) && AllBelow(a, k) && AllFrom(c, k)
    ensures Sorted(b) && Rank(a + b + c, k) == |a| + Rank(b, k)
  {
    var s, r := a + b + c, Rank(b, k);
    SortedParts(a + b, c);
    SortedParts(a, b);
    forall i | 0 <= i < |a| + r
      ensures s[i].key < k
    {
      assert s[i] == if i < |a| then a[i] else b[i - |a|];
    }
    if |a| + r < |s| {
      assert s[|a| + r] == if r < |b| then b[r] else c[0];
    }
    RankIs(s, k, |a| + r);
  }

  /** What concerns a key lies in the part between smaller and greater keys. */
  lemma Around(a: seq<Pair>, b: seq<Pair>, c: seq<Pair>, k: nat, v: Value)
    requires Sorted(a + b + c) && AllBelow(a, k) && AllAbove(c, k)
    ensures Lookup(a + b + c, k) == Lookup(b, k)
    ensures HasKey(a + b + c, k) <==> HasKey(b, k)
    ensures Upsert(a + b + c, k, v) == a + Upsert(b, k, v) + c
  {
    AroundLookup(a, b, c, k);
    AroundPlace(a, b, c, k, v);
  }

  lemma AroundLookup(a: seq<Pair>, b: seq<Pair>, c: seq<Pair>, k: nat)
    requires Sorted(a + b + c) && AllBelow(a, k) && AllAbove(c, k)
    ensures Lookup(a + b + c, k) == Lookup(b, k)
    ensures HasKey(a + b + c, k) <==> HasKey(b, k)
    ensures var s, r := a + b + c, Rank(b, k);
            Rank(s, k) == |a| + r && (|a| + r < |s| && s[|a| + r].key == k <==> r < |b| && b[r].key == k)
  {
    hide Rank, Sorted;
    var s, r := a + b + c, Rank(b, k);
    AroundRank(a, b, c, k);
    if r < |b| {
      assert s[|a| + r] == b[r];
    } else if |a| + r < |s| {
      assert s[|a| + r] == c[0];
    }
    LookupIs(s, k);
    LookupIs(b, k);
  }

  lemma AroundPlace(a: seq<Pair>, b: seq<Pair>, c: seq<Pair>, k: nat, v: Value)
    requires Sorted(a + b + c) && AllBelow(a, k) && AllAbove(c, k)
    ensures Upsert(a + b + c, k, v) == a + Upsert(b, k, v) + c
  {
    hide Rank, Sorted, AllBelow, AllAbove, Lookup, HasKey;
    AroundLookup(a, b, c, k);
    AroundUpsert(a, b, c, k, v, Rank(b, k));
  }

  lemma AroundUpsert(a: seq<Pair>, b: seq<Pair>, c: seq<Pair>, k: nat, v: Value, r: nat)
    requires r <= |b|
    ensures r < |b| ==> (a + b + c)[|a| + r := Pair(k, v)] == a + b[r := Pair(k, v)] + c
    ensures (a + b + c)[..|a| + r] + [Pair(k, v)] + (a + b + c)[|a| + r..] == a + (b[..r] + [Pair(k, v)] + b[r..]) + c
  {
    assert (a + b + c)[..|a| + r] == a + b[..r];
    assert (a + b + c)[|a| + r..] == b[r..] + c;
  }
}
