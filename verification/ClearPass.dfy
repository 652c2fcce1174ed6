/** When a pass of the cleaner comes to its end: no sparse segment has anything harmful behind its entries, and the
    cleaner's target none of its own bytes dead. */
module ClearPass {
  import opened Wrappers
  import opened Layout
  import opened Lists
  import opened LogState
  import opened LiveBytes
  import opened LogInvariant
  import opened CleanerSteps
  import opened CleaningPass

  /** A scan of the segment passes over all it comes to behind the entries, and ends. */
  ghost predicate SafeBehind(s: State, g: Segment)
    requires TableOk(s)
  {
    EndKnown(g) && forall j :: 0 <= j < |g.behind.es| ==> Harmless(s, g.behind.es[j])
  }

  /** Every segment the cleaner may scan is safe to scan; the target joins them only when it is half live. */
  ghost predicate Clear(s: State) {
    && TableOk(s) && ShortEntries(s) && FullyLiveTarget(s)
    && forall x :: x in s.used ==> x < |s.segs| && (HalfLive(s, x) || SafeBehind(s, s.segs[x]))
  }

  lemma HarmlessSame(s: State, t: State, e: Entry)
    requires TableOk(s) && TableOk(t) && Current(t) == Current(s)
    ensures Harmless(s, e) <==> Harmless(t, e)
  {
    assert e.id in s.table <==> e.id in Current(s);
    assert e.id in t.table <==> e.id in Current(t);
  }

  lemma SafeBehindSame(s: State, t: State, g: Segment)
    requires TableOk(s) && TableOk(t) && Current(t) == Current(s) && SafeBehind(s, g)
    ensures SafeBehind(t, g)
  {
    hide Harmless, EndKnown;
    forall j | 0 <= j < |g.behind.es|
      ensures Harmless(t, g.behind.es[j])
    {
      HarmlessSame(s, t, g.behind.es[j]);
    }
  }

  /** Where the cleaner is, it is safe. */
  lemma ClearIsSafe(s: State)
    requires Inv(s) && Clear(s)
    ensures ScanSafe(s)
  {
    if s.phase.Scan? {
      assert s.phase.seg in s.used && !HalfLive(s, s.phase.seg);
    }
  }

  lemma KeepsClear(s: State, t: State)
    requires Clear(s) && TableOk(t) && Current(t) == Current(s) && ShortEntries(t) && FullyLiveTarget(t)
    requires forall x :: x in t.used ==> x < |t.segs| && ((x in s.used && t.segs[x] == s.segs[x]) || HalfLive(t, x))
    ensures Clear(t)
  {
    hide SafeBehind;
    forall x | x in t.used && !HalfLive(t, x)
      ensures SafeBehind(t, t.segs[x])
    {
      SafeBehindSame(s, t, s.segs[x]);
    }
  }

  lemma MoveClear(s: State, t: State)
    requires Clear(s) && t == s.(phase := t.phase) && !t.phase.Start?
    ensures Clear(t)
  {
    KeepsClear(s, t);
  }

  lemma RecycleClear(s: State, t: State)
    requires Inv(s) && Clear(s) && s.phase.Retire? && Sane(s) && Clean(s) == Continue(t) && TableOk(t)
             && Current(t) == Current(s)
    ensures Clear(t)
  {
    var c := s.phase.seg;
    assert s.target in s.cleaner && s.target != c;
    RemoveDistinct(s.used, c);
    RetiredShort(s, t, c);
    hide Inv, ShortEntries, SafeBehind, Clean;
    KeepsClear(s, t);
  }

  /** An old target is half live; the new one has the entry and nothing else. */
  lemma CopyClear(s: State, t: State, f: State, e: Entry, c: nat, k: nat)
    requires Clear(s) && SameButTarget(s, t) && t.target < |t.segs| && t.target !in t.used && s.phase == Scan(c, k)
    requires t == s || (DATA_SIZE < s.targetPos + Size(e) && t.used == s.used + [s.target] && t.targetPos == 0
             && t.segs[t.target].used == 0)
    requires f == WriteEntry(t, t.target, e).(targetPos := t.targetPos + Size(e), table := f.table,
             phase := Scan(c, k + 1))
    requires 2 * Size(e) + SEGMENT_SIZE <= 2 * DATA_SIZE && TableOk(f) && Current(f) == Current(s)
    ensures Clear(f)
  {
    hide SafeBehind;
    forall x | x in f.used
      ensures x < |f.segs| && ((x in s.used && f.segs[x] == s.segs[x]) || HalfLive(f, x))
    {
      assert x != t.target;
    }
    CopyShort(t, f, t.target, e);
    KeepsClear(s, f);
  }

  lemma CopyShort(t: State, f: State, h: nat, e: Entry)
    requires ShortEntries(t) && h < |t.segs| && f.segs == WriteEntry(t, h, e).segs
             && 2 * Size(e) + SEGMENT_SIZE <= 2 * DATA_SIZE
    ensures ShortEntries(f)
  {
  }

  lemma CopyEntryClear(s: State, c: nat, k: nat, f: State)
    requires Inv(s) && Clear(s) && Sane(s) && s.phase == Scan(c, k) && k < |s.segs[c].log| && !s.segs[c].log[k].dead
    requires s.segs[c].log[k].id in s.table && s.table[s.segs[c].log[k].id] == Loc(c, k)
    requires Clean(s) == Continue(f) && TableOk(f) && Current(f) == Current(s)
    ensures Clear(f)
  {
    var e := s.segs[c].log[k];
    var t := TargetForEntry(s, c, k, e);
    assert 2 * Size(e) + SEGMENT_SIZE <= 2 * DATA_SIZE;
    hide Inv, Clean, TargetRoom, Clear;
    var f' := CleanCopies(s, c, k, e, t);
    CopyClear(s, t, f, e, c, k);
  }

  lemma PassClear(s: State, c: nat, k: nat, f: State)
    requires Clear(s) && TableOk(s) && Sane(s) && s.phase == Scan(c, k) && ScanSafe(s)
    requires k < |s.segs[c].log| ==> Harmless(s, s.segs[c].log[k])
    requires Clean(s) == Continue(f)
    ensures Clear(f)
  {
    hide Clear, Clean, ScanSafe;
    var f' := PassIs(s, c, k);
    MoveClear(s, f);
  }

  lemma ScanClear(s: State, f: State)
    requires Inv(s) && Clear(s) && TableOk(s) && Sane(s) && s.phase.Scan? && ScanSafe(s) && Clean(s) == Continue(f)
             && TableOk(f) && Current(f) == Current(s)
    ensures Clear(f)
  {
    hide Clear, Clean, ScanSafe, Shape, Provided, Newest, Accounted, Sized;
    var c, k := s.phase.seg, s.phase.k;
    if k < |s.segs[c].log| && !s.segs[c].log[k].dead {
      CopiedIsCurrent(s, c, k);
      if s.table[s.segs[c].log[k].id] == Loc(c, k) {
        CopyEntryClear(s, c, k, f);
      } else {
        PassClear(s, c, k, f);
      }
    } else {
      PassClear(s, c, k, f);
    }
  }

  lemma WalkClear(s: State, f: State)
    requires Clear(s) && Sane(s) && s.phase.Walk? && Clean(s) == Continue(f)
    ensures Clear(f)
  {
    hide Clear;
    MoveClear(s, f);
  }

  /** Step by step the way stays clear. */
  lemma StepClear(s: State)
    requires Inv(s) && Clear(s)
    ensures TableOk(s) && ScanSafe(s) && Clear(CleanerStepped(s))
  {
    ClearIsSafe(s);
    SteppedIs(s);
    var f := CleanerStepped(s);
    InvTable(f);
    hide Inv, Clear, Clean, ScanSafe, TableOk, Sane, CleanerStepped, Objects, Current;
    match s.phase
    case Start => assert false by { NotStart(s); }
    case Walk(_) => WalkClear(s, f);
    case Scan(_, _) => ScanClear(s, f);
    case Retire(_, _) => RecycleClear(s, f);
  }

  lemma NotStart(s: State)
    requires Clear(s)
    ensures !s.phase.Start?
  {
  }

  lemma {:induction false} RunClear(s: State, n: nat)
    requires Inv(s) && Clear(s)
    ensures Clear(CleanerRun(s, n)) && TableOk(CleanerRun(s, n)) && ScanSafe(CleanerRun(s, n))
    decreases n
  {
    hide Inv, Clear, ScanSafe, TableOk, CleanerStepped, Objects, Current;
    StepClear(s);
    if n > 0 {
      RunClear(CleanerStepped(s), n - 1);
    }
  }

  /** Then the pass is over after finitely many steps, and leaves every used segment at least half live. */
  lemma ClearPassEnds(s: State) returns (n: nat)
    requires Inv(s) && Clear(s) && s.phase == Walk(None)
    ensures n > 0
    ensures var t := CleanerRun(s, n);
            && t.phase == Walk(None) && Inv(t) && Objects(t) == Objects(s)
            && forall x :: x in t.used ==>
                 x < |t.segs| && SEGMENT_SIZE <= 2 * Live(t, x) && Live(t, x) == t.segs[x].used
  {
    n := PassEnds(s);
    RunClear(s, n);
  }
}
