/** Singly linked lists of segments: each segment holds the offset of the next one, the last holds 0. */
module Links {
  import opened Lists
  import opened Addresses

  /** What the link to element `k` of the list is. */
  function Ref(l: seq<nat>, k: nat): (a: nat) {
    if k < |l| then SegmentAddr(l[k]) else 0
  }

  function LastRef(l: seq<nat>): (a: nat) {
    if l == [] then 0 else SegmentAddr(l[|l| - 1])
  }

  lemma SegmentOfAddr(i: nat)
    ensures SegmentOf(SegmentAddr(i)) == i && SegmentAddr(i) != 0
  {
  }

  /** `first` and `last` are the ends of the list `l`, and the links `nx` lead along it. */
  ghost predicate Linked(nx: seq<nat>, first: nat, last: nat, l: seq<nat>) {
    && first == Ref(l, 0) && last == LastRef(l)
    && forall k :: 0 <= k < |l| ==> l[k] < |nx| && nx[l[k]] == Ref(l, k + 1)
  }

  lemma LinkedSame(nx: seq<nat>, nx': seq<nat>, first: nat, last: nat, l: seq<nat>)
    requires Linked(nx, first, last, l)
    requires forall x :: x in l ==> x < |nx'| && (x < |nx| ==> nx'[x] == nx[x])
    ensures Linked(nx', first, last, l)
  {
  }

  /** A segment linked behind the last one becomes the last one. */
  lemma LinkedPush(nx: seq<nat>, nx': seq<nat>, first: nat, last: nat, l: seq<nat>, x: nat)
    requires Linked(nx, first, last, l) && Distinct(l) && x !in l && x < |nx'| && nx'[x] == 0
    requires forall k :: 0 <= k < |l| ==> l[k] < |nx'| && nx'[l[k]] == if k + 1 < |l| then nx[l[k]] else SegmentAddr(x)
    ensures Linked(nx', if l == [] then SegmentAddr(x) else first, SegmentAddr(x), l + [x])
  {
    var r := l + [x];
    forall k | 0 <= k < |r|
      ensures r[k] < |nx'| && nx'[r[k]] == Ref(r, k + 1)
    {
    }
  }

  lemma LinkedPop(nx: seq<nat>, nx': seq<nat>, first: nat, last: nat, l: seq<nat>)
    requires Linked(nx, first, last, l) && l != []
    requires forall x :: x in l[1..] ==> x < |nx'| && (x < |nx| ==> nx'[x] == nx[x])
    ensures Linked(nx', nx[l[0]], if |l| == 1 then 0 else last, l[1..])
  {
    forall k | 0 <= k < |l| - 1
      ensures l[1..][k] == l[k + 1] && nx'[l[1..][k]] == Ref(l[1..], k + 1)
    {
      assert l[1..][k] in l[1..];
    }
  }

  lemma RemovedAt(l: seq<nat>, i: nat)
    requires Distinct(l) && i < |l|
    ensures IndexOf(l, l[i]) == i && |Remove(l, l[i])| == |l| - 1
    ensures forall k {:trigger Remove(l, l[i])[k]} :: 0 <= k < |l| - 1 ==>
            Remove(l, l[i])[k] == if k < i then l[k] else l[k + 1]
  {
  }

  /** Linking the predecessor to the successor takes a segment out. */
  lemma LinkedRemove(nx: seq<nat>, nx': seq<nat>, first: nat, last: nat, l: seq<nat>, i: nat)
    requires Linked(nx, first, last, l) && Distinct(l) && i < |l|
    requires forall k :: 0 <= k < |l| && k != i ==>
             l[k] < |nx'| && nx'[l[k]] == if k + 1 == i then nx[l[i]] else nx[l[k]]
    ensures IndexOf(l, l[i]) == i
    ensures Linked(nx', if i == 0 then nx[l[0]] else first,
                   if i + 1 < |l| then last else if i == 0 then 0 else SegmentAddr(l[i - 1]), Remove(l, l[i]))
  {
    hide Remove, IndexOf, SegmentAddr, Distinct;
    var r := Remove(l, l[i]);
    RemovedAt(l, i);
    forall k | 0 <= k < |r|
      ensures r[k] < |nx'| && nx'[r[k]] == Ref(r, k + 1)
    {
      var j := if k < i then k else k + 1;
      assert r[k] == l[j];
      assert k + 1 < |r| ==> r[k + 1] == if k + 1 < i then l[k + 1] else l[k + 2];
    }
  }

  ghost predicate Within(nx: seq<nat>, l: seq<nat>) {
    forall k :: 0 <= k < |l| ==> l[k] < |nx|
  }

  /** The links after element `i` of list `a` was linked behind the end of list `b`, and then taken out of `a`. */
  ghost function MovedLinks(nx: seq<nat>, a: seq<nat>, i: nat, b: seq<nat>): (nx': seq<nat>)
    requires i < |a| && Within(nx, a) && Within(nx, b)
    ensures |nx'| == |nx|
  {
    var n1 := if b == [] then nx else nx[b[|b| - 1] := SegmentAddr(a[i])];
    var n2 := if i == 0 then n1 else n1[a[i - 1] := n1[a[i]]];
    n2[a[i] := 0]
  }

  lemma MovedFirst(nx: seq<nat>, a: seq<nat>, b: seq<nat>)
    requires 0 < |a| && Within(nx, a) && Within(nx, b)
    ensures MovedLinks(nx, a, 0, b) == (if b == [] then nx else nx[b[|b| - 1] := SegmentAddr(a[0])])[a[0] := 0]
  {
  }

  /** The three writes, in the order in which the code makes them. */
  lemma MovedWrites(nx: seq<nat>, a: seq<nat>, i: nat, b: seq<nat>)
    requires i < |a| && Within(nx, a) && Within(nx, b) && Apart(a, b) && Distinct(a)
    ensures var n1 := if b == [] then nx else nx[b[|b| - 1] := SegmentAddr(a[i])];
            && n1[a[i]] == nx[a[i]]
            && MovedLinks(nx, a, i, b) == (if i == 0 then n1 else n1[a[i - 1] := nx[a[i]]])[a[i] := 0]
  {
  }

  ghost predicate Apart(a: seq<nat>, b: seq<nat>) {
    forall j, k :: 0 <= j < |a| && 0 <= k < |b| ==> a[j] != b[k]
  }

  lemma MovedElsewhere(nx: seq<nat>, a: seq<nat>, i: nat, b: seq<nat>, x: nat)
    requires i < |a| && Within(nx, a) && Within(nx, b) && x < |nx|
    requires (forall j :: 0 <= j < |a| ==> a[j] != x) && (forall j :: 0 <= j < |b| ==> b[j] != x)
    ensures MovedLinks(nx, a, i, b)[x] == nx[x]
  {
  }

  lemma MovedFrom(nx: seq<nat>, a: seq<nat>, i: nat, b: seq<nat>, k: nat)
    requires i < |a| && Within(nx, a) && Within(nx, b) && Distinct(a) && Apart(a, b) && k < |a| && k != i
    ensures MovedLinks(nx, a, i, b)[a[k]] == if k + 1 == i then nx[a[i]] else nx[a[k]]
  {
  }

  lemma MovedTo(nx: seq<nat>, a: seq<nat>, i: nat, b: seq<nat>, k: nat)
    requires i < |a| && Within(nx, a) && Within(nx, b) && Distinct(b) && Apart(a, b) && k < |b|
    ensures MovedLinks(nx, a, i, b)[b[k]] == if k + 1 < |b| then nx[b[k]] else SegmentAddr(a[i])
  {
  }

  lemma MovedFromLinked(nx: seq<nat>, a0: nat, aN: nat, a: seq<nat>, i: nat, b: seq<nat>)
    requires Linked(nx, a0, aN, a) && Distinct(a) && i < |a| && Within(nx, b) && Apart(a, b) && Within(nx, a)
    ensures Linked(MovedLinks(nx, a, i, b), FirstWithout(nx, a0, a, i), LastWithout(aN, a, i), Remove(a, a[i]))
  {
    var nx' := MovedLinks(nx, a, i, b);
    forall k | 0 <= k < |a| && k != i
      ensures nx'[a[k]] == if k + 1 == i then nx[a[i]] else nx[a[k]]
    {
      MovedFrom(nx, a, i, b, k);
    }
    LinkedRemove(nx, nx', a0, aN, a, i);
  }

  lemma MovedToLinked(nx: seq<nat>, a: seq<nat>, i: nat, b0: nat, bN: nat, b: seq<nat>)
    requires Linked(nx, b0, bN, b) && Distinct(b) && i < |a| && Within(nx, a) && Within(nx, b) && Apart(a, b)
    ensures Linked(MovedLinks(nx, a, i, b), if b == [] then SegmentAddr(a[i]) else b0, SegmentAddr(a[i]), b + [a[i]])
  {
    var nx' := MovedLinks(nx, a, i, b);
    forall k | 0 <= k < |b|
      ensures nx'[b[k]] == if k + 1 < |b| then nx[b[k]] else SegmentAddr(a[i])
    {
      MovedTo(nx, a, i, b, k);
    }
    LinkedPush(nx, nx', b0, bN, b, a[i]);
  }

  /** A third list does not notice. */
  lemma MovedOtherLinked(nx: seq<nat>, a: seq<nat>, i: nat, b: seq<nat>, c0: nat, cN: nat, c: seq<nat>)
    requires Linked(nx, c0, cN, c) && i < |a| && Within(nx, a) && Within(nx, b) && Apart(a, c) && Apart(b, c)
    ensures Linked(MovedLinks(nx, a, i, b), c0, cN, c)
  {
    forall k | 0 <= k < |c|
      ensures MovedLinks(nx, a, i, b)[c[k]] == nx[c[k]]
    {
      MovedElsewhere(nx, a, i, b, c[k]);
    }
  }

  /** The new end fields of a list from which element `i` is taken out. */
  function FirstWithout(nx: seq<nat>, first: nat, l: seq<nat>, i: nat): nat
    requires i < |l| && l[0] < |nx|
  {
    if i == 0 then nx[l[0]] else first
  }

  function LastWithout(last: nat, l: seq<nat>, i: nat): nat
    requires i < |l|
  {
    if i + 1 < |l| then last else if i == 0 then 0 else SegmentAddr(l[i - 1])
  }
}
