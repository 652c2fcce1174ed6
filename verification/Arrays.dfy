/** The index loops over a node's arrays that both trees share. */
module Arrays {
  import opened Pairs

  /** `n` elements are copied to the beginning of another array. */
  method Copy<T>(src: array<T>, from: nat, dst: array<T>, n: nat)
    requires src != dst && from + n <= src.Length && n <= dst.Length
    modifies dst
    ensures dst[..n] == src[from..from + n]
  {
    var i := 0;
    while i < n
      invariant i <= n && dst[..i] == src[from..from + i]
    {
      dst[i] := src[i + from];
      i := i + 1;
    }
  }

  /** Elements `lo` to `hi` move one place up. */
  method Shift<T>(a: array<T>, lo: nat, hi: nat)
    requires lo <= hi < a.Length
    modifies a
    ensures forall k :: lo < k <= hi ==> a[k] == old(a[k - 1])
    ensures forall k :: 0 <= k <= lo || hi < k < a.Length ==> a[k] == old(a[k])
  {
    var i: int := hi - 1;
    while i >= lo
      invariant lo - 1 <= i < hi
      invariant forall k :: i + 1 < k <= hi ==> a[k] == old(a[k - 1])
      invariant forall k :: 0 <= k <= i + 1 || hi < k < a.Length ==> a[k] == old(a[k])
    {
      a[i + 1] := a[i];
      i := i - 1;
    }
  }

  /** The first of `nk` entries whose key is not smaller. */
  method Position(entries: array<Pair>, nk: nat, key: nat) returns (i: nat)
    requires nk <= entries.Length
    ensures i <= nk && (forall k :: 0 <= k < i ==> entries[k].key < key) && (i < nk ==> key <= entries[i].key)
  {
    i := 0;
    while i < nk && key > entries[i].key
      invariant i <= nk && forall k :: 0 <= k < i ==> entries[k].key < key
    {
      i := i + 1;
    }
  }

  /** The place to the right of the last of `nk` entries whose key is not greater. */
  method PositionFromRight(entries: array<Pair>, nk: nat, key: nat) returns (j: nat)
    requires nk <= entries.Length
    ensures j <= nk && (j > 0 ==> entries[j - 1].key <= key) && (forall k :: j <= k < nk ==> key < entries[k].key)
  {
    var i: int := nk - 1;
    while i >= 0 && entries[i].key > key
      invariant -1 <= i < nk && forall k :: i < k < nk ==> key < entries[k].key
    {
      i := i - 1;
    }
    j := i + 1;
  }

  lemma InsertedIs(es: seq<Pair>, u: seq<Pair>, r: nat, p: Pair)
    requires r <= |es| && |u| == |es| + 1 && u[r] == p
    requires (forall k :: 0 <= k < r ==> u[k] == es[k]) && (forall k :: r < k <= |es| ==> u[k] == es[k - 1])
    ensures u == es[..r] + [p] + es[r..]
  {
  }

  /** Greater entries move up, and a new one takes the place. */
  method Enter(entries: array<Pair>, nk: nat, key: nat, value: Value, ghost es: seq<Pair>)
    requires nk == |es| < entries.Length && entries[..nk] == es && Sorted(es) && !HasKey(es, key)
    modifies entries
    ensures entries[..nk + 1] == Upsert(es, key, value)
  {
    hide Upsert, HasKey, Sorted;
    assert forall k :: 0 <= k < nk ==> entries[k] == entries[..nk][k];
    var i: int := nk - 1;
    while i >= 0 && entries[i].key > key
      invariant -1 <= i < nk
      invariant forall k :: i + 1 < k <= nk ==> entries[k] == es[k - 1]
      invariant forall k :: 0 <= k <= i + 1 && k < nk ==> entries[k] == es[k]
      invariant forall k :: i < k < nk ==> key < es[k].key
    {
      entries[i + 1] := entries[i];
      i := i - 1;
    }
    PlaceIs(es, key, value, i + 1);
    entries[i + 1] := Pair(key, value);
    InsertedIs(es, entries[..nk + 1], i + 1, Pair(key, value));
  }
}
