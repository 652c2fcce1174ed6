/** The ends of the five lists, and what moving a segment from one list to another does to the links. */
module Chains {
  import opened Wrappers
  import opened Lists
  import opened LogState
  import opened LogInvariant
  import opened Addresses
  import opened Links

  /** The list fields of the log header. */
  datatype Ends = Ends(
    head: nat,
    free: nat, lastFree: nat,
    used: nat, lastUsed: nat,
    cleaner: nat, lastCleaner: nat,
    emergency: nat, lastEmergency: nat)

  /** Following the links from the fields yields the lists of `m`, and the `last` fields are their tails. */
  ghost predicate Chained(nx: seq<nat>, e: Ends, m: State) {
    && Partition(m) && |m.segs| <= |nx|
    && e.head == (if m.head.Some? then SegmentAddr(m.head.value) else 0)
    && (m.head.Some? ==> m.head.value < |nx| && nx[m.head.value] == 0)
    && Linked(nx, e.free, e.lastFree, m.free)
    && Linked(nx, e.used, e.lastUsed, m.used)
    && Linked(nx, e.cleaner, e.lastCleaner, m.cleaner)
    && Linked(nx, e.emergency, e.lastEmergency, m.emergency)
  }

  lemma RemoveFirst(l: seq<nat>)
    requires l != []
    ensures IndexOf(l, l[0]) == 0 && Remove(l, l[0]) == l[1..]
  {
  }

  /** The head goes behind the last used segment. */
  lemma HeadToUsed(nx: seq<nat>, e: Ends, m: State, nx': seq<nat>)
    requires Chained(nx, e, m) && m.head.Some?
    requires nx' == if m.used == [] then nx else nx[m.used[|m.used| - 1] := e.head]
    ensures Chained(nx', e.(head := 0, used := if m.used == [] then e.head else e.used, lastUsed := e.head),
                    m.(head := None, used := m.used + [m.head.value]))
  {
    var h := m.head.value;
    if m.used != [] {
      assert m.used[|m.used| - 1] in m.used;
    }
    LinkedPush(nx, nx', e.used, e.lastUsed, m.used, h);
    LinkedSame(nx, nx', e.free, e.lastFree, m.free);
    LinkedSame(nx, nx', e.cleaner, e.lastCleaner, m.cleaner);
    LinkedSame(nx, nx', e.emergency, e.lastEmergency, m.emergency);
    HeadToUsedPartition(m);
  }

  lemma HeadToUsedPartition(m: State)
    requires Partition(m) && m.head.Some?
    ensures Partition(m.(head := None, used := m.used + [m.head.value]))
  {
    var u := m.used + [m.head.value];
    assert forall x: nat :: x in u <==> x in m.used || x == m.head.value;
  }

  /** The first free segment becomes the head. */
  lemma FreeToHead(nx: seq<nat>, e: Ends, m: State, nx': seq<nat>)
    requires Chained(nx, e, m) && m.head.None? && m.free != [] && m.free[0] < |nx|
    requires nx' == nx[m.free[0] := 0]
    ensures Chained(nx',
            e.(head := e.free, free := nx[m.free[0]], lastFree := if nx[m.free[0]] == 0 then 0 else e.lastFree),
                    m.(head := Some(m.free[0]), free := m.free[1..]))
  {
    var f := m.free[0];
    assert forall x: nat :: x in m.free <==> x == f || x in m.free[1..];
    assert f in m.free;
    assert nx[f] == Ref(m.free, 1);
    LinkedPop(nx, nx', e.free, e.lastFree, m.free);
    LinkedSame(nx, nx', e.used, e.lastUsed, m.used);
    LinkedSame(nx, nx', e.cleaner, e.lastCleaner, m.cleaner);
    LinkedSame(nx, nx', e.emergency, e.lastEmergency, m.emergency);
    assert Partition(m.(head := Some(f), free := m.free[1..]));
  }

  lemma ChainedWithin(nx: seq<nat>, e: Ends, m: State)
    requires Chained(nx, e, m)
    ensures Within(nx, m.free) && Within(nx, m.used) && Within(nx, m.cleaner) && Within(nx, m.emergency)
  {
  }

  lemma IsApart(a: seq<nat>, b: seq<nat>)
    requires forall x: nat :: x in a ==> x !in b
    ensures Apart(a, b) && Apart(b, a)
  {
    forall j, k | 0 <= j < |a| && 0 <= k < |b|
      ensures a[j] != b[k]
    {
      assert a[j] in a && b[k] in b;
    }
  }

  /** Two lists with no segment in common, nor with the others, nor with the head. */
  ghost predicate ListsApart(m: State, a: seq<nat>, b: seq<nat>, c: seq<nat>, d: seq<nat>) {
    && Distinct(a) && Distinct(b)
    && Apart(a, b) && Apart(a, c) && Apart(b, c) && Apart(a, d) && Apart(b, d)
    && (forall k :: 0 <= k < |a| ==> m.head != Some(a[k]))
    && (forall k :: 0 <= k < |b| ==> m.head != Some(b[k]))
  }

  lemma AllApart(m: State)
    requires Partition(m)
    ensures ListsApart(m, m.free, m.cleaner, m.used, m.emergency)
    ensures ListsApart(m, m.emergency, m.cleaner, m.used, m.free)
    ensures ListsApart(m, m.cleaner, m.used, m.free, m.emergency)
    ensures ListsApart(m, m.used, m.free, m.cleaner, m.emergency)
    ensures ListsApart(m, m.used, m.emergency, m.cleaner, m.free)
  {
    IsApart(m.free, m.used);
    IsApart(m.free, m.cleaner);
    IsApart(m.free, m.emergency);
    IsApart(m.used, m.cleaner);
    IsApart(m.used, m.emergency);
    IsApart(m.cleaner, m.emergency);
  }

  /** `x` is taken out of list `a` and appended to list `b`. */
  ghost predicate Moved(a: seq<nat>, a': seq<nat>, b: seq<nat>, b': seq<nat>, x: nat) {
    && x in a && Distinct(a') && |a'| == |a| - 1 && b' == b + [x]
    && forall y: nat :: y in a' <==> y in a && y != x
  }

  lemma MovedIs(a: seq<nat>, b: seq<nat>, i: nat)
    requires Distinct(a) && i < |a|
    ensures Moved(a, Remove(a, a[i]), b, b + [a[i]], a[i])
  {
    RemoveDistinct(a, a[i]);
  }

  lemma MovedPartition(m: State, m': State, a: seq<nat>, a': seq<nat>, b: seq<nat>, b': seq<nat>, x: nat)
    requires Partition(m) && Moved(a, a', b, b', x)
    requires || (a == m.free && b == m.cleaner && m' == m.(free := a', cleaner := b'))
             || (a == m.emergency && b == m.cleaner && m' == m.(emergency := a', cleaner := b'))
             || (a == m.cleaner && b == m.used && m' == m.(cleaner := a', used := b'))
             || (a == m.used && b == m.free && m' == m.(used := a', free := b'))
             || (a == m.used && b == m.emergency && m' == m.(used := a', emergency := b'))
    ensures Partition(m')
  {
    assert forall y: nat :: y in b' <==> y in b || y == x;
  }

  /** What moving element `i` of list `a` to the end of list `b` does, lists `c` and `d` being the others. */
  lemma MoveLinks(nx: seq<nat>, m: State, i: nat, a0: nat, aN: nat, a: seq<nat>, b0: nat, bN: nat, b: seq<nat>,
                  c0: nat, cN: nat, c: seq<nat>, d0: nat, dN: nat, d: seq<nat>)
    requires ListsApart(m, a, b, c, d) && i < |a| && Within(nx, a) && Within(nx, b)
    requires m.head.Some? ==> m.head.value < |nx| && nx[m.head.value] == 0
    requires Linked(nx, a0, aN, a) && Linked(nx, b0, bN, b) && Linked(nx, c0, cN, c) && Linked(nx, d0, dN, d)
    ensures var nx' := MovedLinks(nx, a, i, b);
            && Linked(nx', FirstWithout(nx, a0, a, i), LastWithout(aN, a, i), Remove(a, a[i]))
            && Linked(nx', if b == [] then SegmentAddr(a[i]) else b0, SegmentAddr(a[i]), b + [a[i]])
            && Linked(nx', c0, cN, c) && Linked(nx', d0, dN, d)
            && (m.head.Some? ==> nx'[m.head.value] == 0)
    ensures Moved(a, Remove(a, a[i]), b, b + [a[i]], a[i])
  {
    MovedFromLinked(nx, a0, aN, a, i, b);
    MovedToLinked(nx, a, i, b0, bN, b);
    MovedOtherLinked(nx, a, i, b, c0, cN, c);
    MovedOtherLinked(nx, a, i, b, d0, dN, d);
    if m.head.Some? {
      MovedElsewhere(nx, a, i, b, m.head.value);
    }
    MovedIs(a, b, i);
  }

  /** The first free segment goes to the end of the cleaner list ... */
  lemma FreeToCleaner(nx: seq<nat>, e: Ends, m: State)
    requires Chained(nx, e, m) && m.free != []
    ensures Within(nx, m.free) && Within(nx, m.cleaner) && (m.cleaner != [] ==> m.cleaner[|m.cleaner| - 1] != m.free[0])
    ensures Chained(MovedLinks(nx, m.free, 0, m.cleaner),
                    e.(cleaner := if m.cleaner == [] then e.free else e.cleaner, lastCleaner := e.free,
                       free := nx[m.free[0]], lastFree := if nx[m.free[0]] == 0 then 0 else e.lastFree),
                    m.(free := m.free[1..], cleaner := m.cleaner + [m.free[0]]))
  {
    ChainedWithin(nx, e, m);
    AllApart(m);
    MoveLinks(nx, m, 0, e.free, e.lastFree, m.free, e.cleaner, e.lastCleaner, m.cleaner,
              e.used, e.lastUsed, m.used, e.emergency, e.lastEmergency, m.emergency);
    RemoveFirst(m.free);
    MovedPartition(m, m.(free := m.free[1..], cleaner := m.cleaner + [m.free[0]]), m.free, m.free[1..], m.cleaner,
        m.cleaner + [m.free[0]], m.free[0]);
  }

  /** ... or the first of the reserve does. */
  lemma EmergencyToCleaner(nx: seq<nat>, e: Ends, m: State)
    requires Chained(nx, e, m) && m.emergency != []
    ensures Within(nx, m.emergency) && Within(nx, m.cleaner)
            && (m.cleaner != [] ==> m.cleaner[|m.cleaner| - 1] != m.emergency[0])
    ensures Chained(MovedLinks(nx, m.emergency, 0, m.cleaner),
                    e.(cleaner := if m.cleaner == [] then e.emergency else e.cleaner, lastCleaner := e.emergency,
                       emergency := nx[m.emergency[0]], lastEmergency := if nx[m.emergency[0]] == 0 then 0
                           else e.lastEmergency),
                    m.(emergency := m.emergency[1..], cleaner := m.cleaner + [m.emergency[0]]))
  {
    ChainedWithin(nx, e, m);
    AllApart(m);
    MoveLinks(nx, m, 0, e.emergency, e.lastEmergency, m.emergency, e.cleaner, e.lastCleaner, m.cleaner,
              e.used, e.lastUsed, m.used, e.free, e.lastFree, m.free);
    RemoveFirst(m.emergency);
    MovedPartition(m, m.(emergency := m.emergency[1..], cleaner := m.cleaner + [m.emergency[0]]), m.emergency,
        m.emergency[1..], m.cleaner, m.cleaner + [m.emergency[0]], m.emergency[0]);
  }

  /** Any cleaner segment goes to the end of the used list. */
  lemma CleanerToUsedChained(nx: seq<nat>, e: Ends, m: State, i: nat)
    requires Chained(nx, e, m) && i < |m.cleaner|
    ensures Within(nx, m.cleaner) && Within(nx, m.used)
    ensures Chained(MovedLinks(nx, m.cleaner, i, m.used),
                    e.(used := if m.used == [] then SegmentAddr(m.cleaner[i])
                        else e.used, lastUsed := SegmentAddr(m.cleaner[i]),
                       cleaner := FirstWithout(nx, e.cleaner, m.cleaner, i),
                           lastCleaner := LastWithout(e.lastCleaner, m.cleaner, i)),
                    m.(cleaner := Remove(m.cleaner, m.cleaner[i]), used := m.used + [m.cleaner[i]]))
  {
    ChainedWithin(nx, e, m);
    AllApart(m);
    MoveLinks(nx, m, i, e.cleaner, e.lastCleaner, m.cleaner, e.used, e.lastUsed, m.used,
              e.free, e.lastFree, m.free, e.emergency, e.lastEmergency, m.emergency);
    MovedPartition(m, m.(cleaner := Remove(m.cleaner, m.cleaner[i]), used := m.used + [m.cleaner[i]]), m.cleaner,
        Remove(m.cleaner, m.cleaner[i]), m.used, m.used + [m.cleaner[i]], m.cleaner[i]);
  }

  /** Any used segment goes to the end of the free list ... */
  lemma UsedToFreeChained(nx: seq<nat>, e: Ends, m: State, i: nat)
    requires Chained(nx, e, m) && i < |m.used|
    ensures Within(nx, m.used) && Within(nx, m.free)
    ensures Chained(MovedLinks(nx, m.used, i, m.free),
                    e.(free := if m.free == [] then SegmentAddr(m.used[i])
                        else e.free, lastFree := SegmentAddr(m.used[i]),
                       used := FirstWithout(nx, e.used, m.used, i), lastUsed := LastWithout(e.lastUsed, m.used, i)),
                    m.(used := Remove(m.used, m.used[i]), free := m.free + [m.used[i]]))
  {
    ChainedWithin(nx, e, m);
    AllApart(m);
    MoveLinks(nx, m, i, e.used, e.lastUsed, m.used, e.free, e.lastFree, m.free,
              e.cleaner, e.lastCleaner, m.cleaner, e.emergency, e.lastEmergency, m.emergency);
    MovedPartition(m, m.(used := Remove(m.used, m.used[i]), free := m.free + [m.used[i]]), m.used,
        Remove(m.used, m.used[i]), m.free, m.free + [m.used[i]], m.used[i]);
  }

  /** ... or to the end of the reserve. */
  lemma UsedToEmergencyChained(nx: seq<nat>, e: Ends, m: State, i: nat)
    requires Chained(nx, e, m) && i < |m.used|
    ensures Within(nx, m.used) && Within(nx, m.emergency)
    ensures Chained(MovedLinks(nx, m.used, i, m.emergency),
                    e.(emergency := if m.emergency == [] then SegmentAddr(m.used[i])
                        else e.emergency, lastEmergency := SegmentAddr(m.used[i]),
                       used := FirstWithout(nx, e.used, m.used, i), lastUsed := LastWithout(e.lastUsed, m.used, i)),
                    m.(used := Remove(m.used, m.used[i]), emergency := m.emergency + [m.used[i]]))
  {
    ChainedWithin(nx, e, m);
    AllApart(m);
    MoveLinks(nx, m, i, e.used, e.lastUsed, m.used, e.emergency, e.lastEmergency, m.emergency,
              e.cleaner, e.lastCleaner, m.cleaner, e.free, e.lastFree, m.free);
    MovedPartition(m, m.(used := Remove(m.used, m.used[i]), emergency := m.emergency + [m.used[i]]), m.used,
        Remove(m.used, m.used[i]), m.emergency, m.emergency + [m.used[i]], m.used[i]);
  }

  // ---------- what the fields say ----------

  lemma FirstOf(nx: seq<nat>, first: nat, last: nat, l: seq<nat>)
    requires Linked(nx, first, last, l)
    ensures first == 0 <==> l == []
    ensures l != [] ==> SegmentOf(first) == l[0] < |nx| && first == SegmentAddr(l[0])
    ensures last == 0 <==> l == []
    ensures l != [] ==> SegmentOf(last) == l[|l| - 1] < |nx| && last == SegmentAddr(l[|l| - 1])
  {
    if l != [] {
      SegmentOfAddr(l[0]);
      SegmentOfAddr(l[|l| - 1]);
    }
  }

  /** A field is 0 exactly if its list is empty, and otherwise leads to the first, or last, segment of it. */
  lemma Fields(nx: seq<nat>, e: Ends, m: State)
    requires Chained(nx, e, m)
    ensures e.head == 0 <==> m.head.None?
    ensures m.head.Some? ==> SegmentOf(e.head) == m.head.value < |m.segs| && e.head == SegmentAddr(m.head.value)
    ensures e.free == 0 <==> m.free == []
    ensures m.free != [] ==> SegmentOf(e.free) == m.free[0] < |nx| && e.free == SegmentAddr(m.free[0])
    ensures e.used == 0 <==> m.used == []
    ensures m.used != [] ==> SegmentOf(e.used) == m.used[0] < |nx| && e.used == SegmentAddr(m.used[0])
    ensures e.cleaner == 0 <==> m.cleaner == []
    ensures m.cleaner != [] ==> SegmentOf(e.cleaner) == m.cleaner[0] < |nx| && e.cleaner == SegmentAddr(m.cleaner[0])
    ensures e.emergency == 0 <==> m.emergency == []
    ensures m.emergency != [] ==>
            SegmentOf(e.emergency) == m.emergency[0] < |nx| && e.emergency == SegmentAddr(m.emergency[0])
    ensures e.lastUsed == 0 <==> m.used == []
    ensures m.used != [] ==> SegmentOf(e.lastUsed) == m.used[|m.used| - 1] < |nx|
    ensures e.lastFree == 0 <==> m.free == []
    ensures m.free != [] ==> SegmentOf(e.lastFree) == m.free[|m.free| - 1] < |nx|
    ensures e.lastCleaner == 0 <==> m.cleaner == []
    ensures m.cleaner != [] ==> SegmentOf(e.lastCleaner) == m.cleaner[|m.cleaner| - 1] < |nx|
    ensures e.lastEmergency == 0 <==> m.emergency == []
    ensures m.emergency != [] ==> SegmentOf(e.lastEmergency) == m.emergency[|m.emergency| - 1] < |nx|
  {
    FirstOf(nx, e.free, e.lastFree, m.free);
    FirstOf(nx, e.used, e.lastUsed, m.used);
    FirstOf(nx, e.cleaner, e.lastCleaner, m.cleaner);
    FirstOf(nx, e.emergency, e.lastEmergency, m.emergency);
    if m.head.Some? {
      SegmentOfAddr(m.head.value);
    }
  }

  /** Only the lists of the state and their links matter. */
  lemma ChainedSame(nx: seq<nat>, e: Ends, m: State, m': State)
    requires Chained(nx, e, m) && |m.segs| == |m'.segs| && m.head == m'.head
    requires m.free == m'.free && m.used == m'.used && m.cleaner == m'.cleaner && m.emergency == m'.emergency
    ensures Chained(nx, e, m')
  {
  }

  /** Where a search through a list stands: at element `i`, having passed those before it. */
  ghost predicate SearchAt(l: seq<nat>, i: nat, curr: nat, prev: nat) {
    i < |l| && curr == SegmentAddr(l[i]) && prev == if i == 0 then 0 else SegmentAddr(l[i - 1])
  }

  lemma SearchStarts(nx: seq<nat>, first: nat, last: nat, l: seq<nat>, x: nat)
    requires Linked(nx, first, last, l) && x in l
    ensures SearchAt(l, 0, first, 0)
    ensures IndexOf(l, x) < |l|
  {
  }

  lemma SearchGoesOn(nx: seq<nat>, first: nat, last: nat, l: seq<nat>, i: nat, curr: nat, prev: nat, x: nat)
    requires Linked(nx, first, last, l) && SearchAt(l, i, curr, prev) && x in l && i <= IndexOf(l, x)
    ensures SegmentOf(curr) == l[i] < |nx|
    ensures i == IndexOf(l, x) <==> l[i] == x
    ensures l[i] != x ==> SearchAt(l, i + 1, nx[l[i]], curr) && i + 1 <= IndexOf(l, x)
  {
    SegmentOfAddr(l[i]);
  }

  /** A segment is first, or last, if it is where the first, or last, field leads. */
  lemma SearchEnds(nx: seq<nat>, first: nat, last: nat, l: seq<nat>, i: nat)
    requires Linked(nx, first, last, l) && Distinct(l) && i < |l|
    ensures SegmentOf(first) == l[i] <==> i == 0
    ensures SegmentOf(last) == l[i] <==> i + 1 == |l|
    ensures i > 0 ==> SegmentOf(SegmentAddr(l[i - 1])) == l[i - 1] < |nx|
    ensures l[i] < |nx| && l[0] < |nx| && FirstWithout(nx, first, l, i) == (if i == 0 then nx[l[i]] else first)
    ensures |l| == 1 ==> nx[l[0]] == 0
  {
    SegmentOfAddr(l[0]);
    SegmentOfAddr(l[|l| - 1]);
    if i > 0 {
      SegmentOfAddr(l[i - 1]);
    }
  }

  lemma ChainedLists(nx: seq<nat>, e: Ends, m: State)
    requires Chained(nx, e, m)
    ensures Linked(nx, e.free, e.lastFree, m.free) && Linked(nx, e.used, e.lastUsed, m.used)
    ensures Linked(nx, e.cleaner, e.lastCleaner, m.cleaner) && Linked(nx, e.emergency, e.lastEmergency, m.emergency)
    ensures Distinct(m.used) && Distinct(m.cleaner)
    ensures Apart(m.cleaner, m.used) && Apart(m.used, m.free) && Apart(m.used, m.emergency)
  {
    AllApart(m);
  }

  /** The link of a used segment leads to the one after it. */
  lemma NextUsed(nx: seq<nat>, e: Ends, m: State, c: nat)
    requires Chained(nx, e, m) && c in m.used
    ensures c < |nx| && nx[c] == match After(m.used, c) { case Some(x) => SegmentAddr(x) case None => 0 }
  {
  }
}
