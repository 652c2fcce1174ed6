/** Which segments the cleaner takes: those that count less than half of their size, and no others. */
module Selection {
  import opened Wrappers
  import opened Layout
  import opened Lists
  import opened LogState
  import opened LiveBytes
  import opened LogInvariant
  import opened CleanerSteps
  import opened CleaningPass

  /** At a used segment the cleaner only decides: it passes by what counts at least half of the segment's size, scans
      what counts less, and recycles at once what counts nothing. */
  lemma WalkSelects(s: State, c: nat)
    requires Inv(s) && s.phase == Walk(Some(c))
    ensures Sane(s) && c in s.used && c < |s.segs| && Clean(s).Continue? && Clean(s).s == s.(phase := Clean(s).s.phase)
    ensures var n, p := s.segs[c].used, Clean(s).s.phase;
            && (p == Walk(After(s.used, c)) <==> SEGMENT_SIZE <= 2 * n)
            && (p == Scan(c, 0) <==> 0 < 2 * n < SEGMENT_SIZE)
            && (p == Retire(c, After(s.used, c)) <==> n == 0)
  {
    InvIsSane(s);
    hide Inv;
    WalkIs(s, c);
  }

  lemma WalkIs(s: State, c: nat)
    requires Sane(s) && s.phase == Walk(Some(c))
    ensures c in s.used && c < |s.segs|
    ensures Clean(s) == Continue(s.(phase :=
              if s.segs[c].used >= HALF_SEGMENT then Walk(After(s.used, c))
              else if s.segs[c].used > 0 then Scan(c, 0)
              else Retire(c, After(s.used, c))))
  {
    hide After;
  }

  ghost predicate Dense(s: State, x: nat) {
    x in s.used && x < |s.segs| && SEGMENT_SIZE <= 2 * s.segs[x].used
  }

  /** What a step of the cleaner does to the used list and the segments. */
  ghost predicate ListStep(s: State, t: State) {
    || (t.used == s.used && t.segs == s.segs)
    || (s.phase.Retire? && s.phase.seg in s.used && s.phase.seg < |s.segs| && t.used == Remove(s.used, s.phase.seg)
        && t.segs == s.segs[s.phase.seg := Emptied(s.segs[s.phase.seg])])
    || (s.phase.Scan? && (t.used == s.used || t.used == s.used + [s.target]) && |t.segs| == |s.segs|
        && (forall i: nat :: i < |s.segs| && i in s.used ==> t.segs[i] == s.segs[i]))
  }

  lemma StepsList(s: State)
    requires Inv(s) && TableOk(s) && ScanSafe(s)
    ensures Sane(s) && Clean(s).Continue? && ListStep(s, Clean(s).s)
  {
    InvIsSane(s);
    if s.phase.Scan? && s.phase.k < |Seen(s.segs[s.phase.seg])| {
      EntryList(s, s.phase.seg, s.phase.k);
    } else {
      OtherList(s);
    }
  }

  lemma OtherList(s: State)
    requires Sane(s) && TableOk(s) && ScanSafe(s)
    requires !(s.phase.Scan? && s.phase.k < |Seen(s.segs[s.phase.seg])|)
    ensures Clean(s).Continue? && ListStep(s, Clean(s).s)
  {
    hide Remove, After;
  }

  lemma EntryList(s: State, c: nat, k: nat)
    requires Inv(s) && Sane(s) && TableOk(s) && s.phase == Scan(c, k) && k < |Seen(s.segs[c])| && ScanSafe(s)
    ensures Clean(s).Continue? && ListStep(s, Clean(s).s)
  {
    hide Shape, Provided, Newest, Accounted, Sized, Clean, ScanSafe, TargetRoom;
    if k < |s.segs[c].log| && !s.segs[c].log[k].dead {
      CopiedIsCurrent(s, c, k);
      var e := s.segs[c].log[k];
      if s.table[e.id] == Loc(c, k) {
        var t := TargetForEntry(s, c, k, e);
        var f := CleanCopies(s, c, k, e, t);
        CopyList(s, t, f, e);
      } else {
        var t := PassIs(s, c, k);
      }
    } else {
      var t := PassIs(s, c, k);
    }
  }

  lemma CopyList(s: State, t: State, f: State, e: Entry)
    requires s.phase.Scan? && SameButTarget(s, t) && t.target < |t.segs| && t.target !in t.used
    requires t.used == s.used || t.used == s.used + [s.target]
    requires f.used == t.used && f.segs == WriteEntry(t, t.target, e).segs
    ensures ListStep(s, f)
  {
    assert forall i: nat :: i in s.used ==> i in t.used;
  }

  // ---------- segments that are passed by ----------

  /** Such a segment is not the one being cleaned. */
  lemma DenseElsewhere(s: State, x: nat)
    requires Inv(s) && Dense(s, x)
    ensures !IsCurrent(s.phase, x)
  {
  }

  lemma StepDense(s: State, x: nat)
    requires Inv(s) && Dense(s, x)
    ensures var t := CleanerStepped(s); Dense(t, x) && t.segs[x] == s.segs[x]
  {
    StepIs(s);
    DenseElsewhere(s, x);
    hide Inv, CleanerStepped, Objects, Current;
    ListDense(s, CleanerStepped(s), x);
  }

  /** A step, or none. */
  lemma StepIs(s: State)
    requires Inv(s)
    ensures ListStep(s, CleanerStepped(s)) && Distinct(s.used)
  {
    InvTable(s);
    SteppedIs(s);
    if ScanSafe(s) {
      StepsList(s);
    }
  }

  lemma ListDense(s: State, t: State, x: nat)
    requires ListStep(s, t) && Dense(s, x) && !IsCurrent(s.phase, x) && Distinct(s.used)
    ensures Dense(t, x) && t.segs[x] == s.segs[x]
  {
    if s.phase.Retire? && s.phase.seg in s.used {
      RemoveDistinct(s.used, s.phase.seg);
    }
  }

  /** However long the cleaner goes on without clients, it takes no segment that counts at least half of its size: that
      keeps its entries, and its place among such segments on the used list. */
  lemma {:induction false} DenseStays(s: State, n: nat, x: nat)
    requires Inv(s) && x in s.used && x < |s.segs| && SEGMENT_SIZE <= 2 * s.segs[x].used
    ensures var t := CleanerRun(s, n);
            x in t.used && x < |t.segs| && t.segs[x] == s.segs[x] && !IsCurrent(t.phase, x)
    decreases n
  {
    hide Inv, CleanerStepped, Objects, Current;
    if n == 0 {
      DenseElsewhere(s, x);
    } else {
      StepDense(s, x);
      DenseStays(CleanerStepped(s), n - 1, x);
    }
  }

  lemma {:induction false} DenseOrder(s: State, n: nat, x: nat, y: nat)
    requires Inv(s) && Dense(s, x) && Dense(s, y) && IndexOf(s.used, x) < IndexOf(s.used, y)
    ensures var t := CleanerRun(s, n); x in t.used && y in t.used && IndexOf(t.used, x) < IndexOf(t.used, y)
    decreases n
  {
    hide Inv, CleanerStepped, Objects, Current, IndexOf, ListStep;
    if n > 0 {
      StepDense(s, x);
      StepDense(s, y);
      StepIs(s);
      DenseElsewhere(s, x);
      DenseElsewhere(s, y);
      ListOrder(s, CleanerStepped(s), x, y);
      DenseOrder(CleanerStepped(s), n - 1, x, y);
    }
  }

  lemma ListOrder(s: State, t: State, x: nat, y: nat)
    requires ListStep(s, t) && Distinct(s.used) && x in s.used && y in s.used && x in t.used && y in t.used
    requires !IsCurrent(s.phase, x) && !IsCurrent(s.phase, y) && IndexOf(s.used, x) < IndexOf(s.used, y)
    ensures IndexOf(t.used, x) < IndexOf(t.used, y)
  {
    hide IndexOf;
    if t.used == s.used + [s.target] {
      IndexAppend(s.used, s.target, x);
      IndexAppend(s.used, s.target, y);
    } else if t.used != s.used {
      IndexRemove(s.used, s.phase.seg, x);
      IndexRemove(s.used, s.phase.seg, y);
    }
  }

  lemma {:induction false} IndexAppend(l: seq<nat>, z: nat, x: nat)
    requires x in l
    ensures IndexOf(l + [z], x) == IndexOf(l, x)
  {
    if l[0] != x {
      assert (l + [z])[1..] == l[1..] + [z];
      IndexAppend(l[1..], z, x);
    }
  }

  lemma IndexRemove(l: seq<nat>, c: nat, x: nat)
    requires Distinct(l) && c in l && x in l && x != c
    ensures x in Remove(l, c)
    ensures IndexOf(Remove(l, c), x) == if IndexOf(l, x) < IndexOf(l, c) then IndexOf(l, x) else IndexOf(l, x) - 1
  {
    RemoveDistinct(l, c);
    var i, j := IndexOf(l, c), IndexOf(l, x);
    var r := Remove(l, c);
    var k := if j < i then j else j - 1;
    assert r[k] == x;
    hide IndexOf;
    IndexOfDistinct(r, k);
  }

  // ---------- segments that count nothing ----------

  lemma ScanSafeElsewhere(s: State)
    requires TableOk(s) && !s.phase.Scan?
    ensures ScanSafe(s)
  {
  }

  /** A segment that counts nothing is recycled in two steps, whatever a scan of it would come to. */
  lemma EmptyIsRecycled(s: State, c: nat)
    requires Inv(s) && s.phase == Walk(Some(c)) && c < |s.segs| && s.segs[c].used == 0
    ensures var t := CleanerRun(s, 2);
            && t.phase.Walk? && c !in t.used && (c in t.free || c in t.emergency)
            && |t.segs| == |s.segs| && t.segs == s.segs[c := Emptied(s.segs[c])] && t.table == s.table
  {
    WalkSelects(s, c);
    InvTable(s);
    CleanerRunMore(s, 0);
    var u := CleanerRun(s, 1);
    ScanSafeElsewhere(s);
    assert u == Clean(s).s && u.phase == Retire(c, After(s.used, c));
    InvTable(u);
    ScanSafeElsewhere(u);
    CleanerRunMore(s, 1);
    assert Distinct(s.used);
    hide Inv, ScanSafe, CleanerStepped, CleanerRun, Objects, Current, WorthCleaning;
    RemoveDistinct(s.used, c);
    RecycledIs(u, c);
  }

  lemma RecycledIs(u: State, c: nat)
    requires Sane(u) && u.phase.Retire? && u.phase.seg == c && c in u.used && c < |u.segs|
    ensures Clean(u).Continue?
    ensures var t := Clean(u).s;
            && t.phase.Walk? && t.used == Remove(u.used, c) && (c in t.free || c in t.emergency)
            && t.segs == u.segs[c := Emptied(u.segs[c])] && t.table == u.table
  {
    hide Remove;
  }
}
