/** With no client at work, one walk of the cleaner along the used list ends, and leaves every used segment at least
    half live. */
module CleaningPass {
  import opened Wrappers
  import opened Layout
  import opened Lists
  import opened LogState
  import opened LiveBytes
  import opened LogInvariant
  import opened CleanerSteps

  /** No entry is so long that a fully live target would be given up before it is half full. */
  ghost predicate ShortEntries(s: State) {
    forall i, j :: 0 <= i < |s.segs| && 0 <= j < |s.segs[i].log| ==>
      2 * Size(s.segs[i].log[j]) + SEGMENT_SIZE <= 2 * DATA_SIZE
  }

  /** One step of the cleaner, or none if it has come to a harmful old entry. */
  ghost function CleanerStepped(s: State): (t: State)
    requires Inv(s)
    ensures Inv(t) && Objects(t) == Objects(s) && Current(t) == Current(s)
  {
    InvTable(s);
    CleanKeeps(s);
    if ScanSafe(s) then Clean(s).s else s
  }

  lemma SteppedIs(s: State)
    requires Inv(s)
    ensures TableOk(s) && Sane(s) && (ScanSafe(s) ==> Clean(s) == Continue(CleanerStepped(s)))
  {
    InvTable(s);
    CleanKeeps(s);
  }

  /** `n` such steps, one after the other. */
  ghost function CleanerRun(s: State, n: nat): (t: State)
    requires Inv(s)
    ensures Inv(t) && Objects(t) == Objects(s) && Current(t) == Current(s)
    decreases n
  {
    if n == 0 then s else CleanerRun(CleanerStepped(s), n - 1)
  }

  lemma {:induction false} CleanerRunMore(s: State, n: nat)
    requires Inv(s)
    ensures var t := CleanerRun(s, n);
            && CleanerRun(s, n + 1) == CleanerStepped(t)
            && TableOk(t) && Sane(t) && (ScanSafe(t) ==> Clean(t) == Continue(CleanerRun(s, n + 1)))
    decreases n
  {
    hide Inv, Clean, Sane, ScanSafe, TableOk, Objects, Current, CleanerStepped;
    SteppedIs(CleanerRun(s, n));
    if n == 0 {
      assert CleanerRun(s, 1) == CleanerRun(CleanerStepped(s), 0);
    } else {
      CleanerRunMore(CleanerStepped(s), n - 1);
    }
  }

  lemma {:induction false} CleanerRunJoin(s: State, a: nat, b: nat)
    requires Inv(s)
    ensures CleanerRun(CleanerRun(s, a), b) == CleanerRun(s, a + b)
    decreases a
  {
    hide Inv, Objects, Current, CleanerStepped;
    if a > 0 {
      CleanerRunJoin(CleanerStepped(s), a - 1, b);
    }
  }

  ghost predicate HalfLive(s: State, x: nat) {
    x < |s.segs| && SEGMENT_SIZE <= 2 * s.segs[x].used
  }

  /** How many of these segments the walk still has to clean. */
  ghost function Sparse(s: State, l: seq<nat>): nat {
    if l == [] then 0 else (if HalfLive(s, l[0]) then 0 else 1) + Sparse(s, l[1..])
  }

  ghost predicate FullyLiveTarget(s: State) {
    !s.phase.Start? && s.target < |s.segs| && s.segs[s.target].used == s.targetPos
  }

  /** Where in the used list the cleaner is: everything before `i` is half live. */
  ghost predicate Walking(s: State, i: nat) {
    && i <= |s.used| && ShortEntries(s) && !s.phase.Start?
    && (forall j :: 0 <= j < i ==> HalfLive(s, s.used[j]))
    && (match s.phase
        case Start => false
        case Walk(None) => i == |s.used|
        case Walk(Some(c)) => i < |s.used| && s.used[i] == c
        case Scan(c, k) => i < |s.used| && s.used[i] == c
        case Retire(c, next) =>
            i < |s.used| && s.used[i] == c && next == if i + 1 < |s.used| then Some(s.used[i + 1]) else None)
  }

  /** Segments the rest of the walk may clean, counting a target with dead bytes in it as one. */
  ghost function ToClean(s: State, i: nat): nat
    requires i <= |s.used|
  {
    Sparse(s, s.used[i..]) + if FullyLiveTarget(s) then 0 else 1
  }

  ghost function Left(s: State, i: nat): nat
    requires Walking(s, i)
  {
    match s.phase
    case Start => 0
    case Walk(_) => |s.used| - i
    case Scan(c, k) => if c < |s.segs| && k <= |Seen(s.segs[c])| then |Seen(s.segs[c])| - k + 1 else 0
    case Retire(_, _) => 0
  }

  /** A walk of `s` at `i` is one of `t`, which has no more to clean. */
  ghost predicate StillWalking(s: State, i: nat, t: State) {
    Walking(s, i) ==> Walking(t, i) && ToClean(t, i) <= ToClean(s, i)
  }

  lemma {:induction false} SparseSame(s: State, t: State, l: seq<nat>)
    requires forall x :: x in l ==> (HalfLive(s, x) <==> HalfLive(t, x))
    ensures Sparse(s, l) == Sparse(t, l)
  {
    if l != [] {
      SparseSame(s, t, l[1..]);
    }
  }

  lemma {:induction false} SparseAppend(s: State, l: seq<nat>, x: nat)
    ensures Sparse(s, l + [x]) == Sparse(s, l) + if HalfLive(s, x) then 0 else 1
  {
    if l != [] {
      assert (l + [x])[1..] == l[1..] + [x];
      SparseAppend(s, l[1..], x);
    } else {
      assert l + [x] == [x];
    }
  }

  lemma IndexOfDistinct(l: seq<nat>, i: nat)
    requires Distinct(l) && i < |l|
    ensures IndexOf(l, l[i]) == i
  {
  }

  // ---------- single steps ----------

  lemma SkipWalks(s: State, i: nat, t: State)
    requires Inv(s) && Walking(s, i) && s.phase.Walk? && i < |s.used| && !WorthCleaning(s, s.used[i])
    requires Sane(s) && Clean(s) == Continue(t)
    ensures Walking(t, i + 1) && ToClean(t, i + 1) == ToClean(s, i) && Left(t, i + 1) < Left(s, i)
  {
    assert Distinct(s.used) && s.used[i] in s.used;
    IndexOfDistinct(s.used, i);
    assert t == s.(phase := Walk(if i + 1 < |s.used| then Some(s.used[i + 1]) else None));
    hide Inv, Sane, Clean;
    SkippedWalks(s, i, t);
  }

  lemma SkippedWalks(s: State, i: nat, t: State)
    requires Walking(s, i) && s.phase.Walk? && i < |s.used| && HalfLive(s, s.used[i])
    requires t == s.(phase := Walk(if i + 1 < |s.used| then Some(s.used[i + 1]) else None))
    ensures Walking(t, i + 1) && ToClean(t, i + 1) == ToClean(s, i) && Left(t, i + 1) < Left(s, i)
  {
    assert s.used[i..][1..] == s.used[i + 1..];
    SparseSame(s, t, s.used[i + 1..]);
  }

  lemma EnterWalks(s: State, i: nat, t: State)
    requires Inv(s) && Walking(s, i) && i < |s.used| && t == s.(phase := t.phase)
    requires t.phase == Scan(s.used[i], 0) || t.phase == Retire(s.used[i], After(s.used, s.used[i]))
    ensures Walking(t, i) && ToClean(t, i) == ToClean(s, i)
  {
    IndexOfDistinct(s.used, i);
    SparseSame(s, t, s.used[i..]);
  }

  lemma RetireIs(s: State, i: nat, t: State)
    requires Inv(s) && Walking(s, i) && s.phase.Retire? && Sane(s) && Clean(s) == Continue(t)
    ensures Distinct(s.used) && s.used[i] < |s.segs| && !HalfLive(s, s.used[i])
    ensures t.used == s.used[..i] + s.used[i + 1..] && t.segs == s.segs[s.used[i] := Emptied(s.segs[s.used[i]])]
    ensures t.phase == Walk(s.phase.next) && t.target == s.target && t.targetPos == s.targetPos && s.target != s.used[i]
  {
    IndexOfDistinct(s.used, i);
    assert s.target in s.cleaner && s.used[i] in s.used;
  }

  /** The cleaned segment leaves the list, and with it one that was to be cleaned. */
  lemma RetireWalks(s: State, i: nat, t: State)
    requires Walking(s, i) && s.phase.Retire? && Distinct(s.used)
    requires s.used[i] < |s.segs| && !HalfLive(s, s.used[i])
    requires t.used == s.used[..i] + s.used[i + 1..] && t.segs == s.segs[s.used[i] := Emptied(s.segs[s.used[i]])]
    requires t.phase == Walk(s.phase.next) && t.target == s.target && t.targetPos == s.targetPos
             && s.target != s.used[i]
    ensures Walking(t, i) && ToClean(t, i) < ToClean(s, i)
  {
    hide ShortEntries, Sparse, HalfLive, Walking, Distinct;
    WalkingAt(s, i);
    RetiredShort(s, t, s.used[i]);
    forall x | x in t.used
      ensures HalfLive(s, x) <==> HalfLive(t, x)
    {
      RetiredElsewhere(s, i, t, x);
    }
    RetiredWalking(s, i, t);
    RetiredSparse(s, i, t);
  }

  lemma WalkingAt(s: State, i: nat)
    requires Walking(s, i) && s.phase.Retire?
    ensures ShortEntries(s) && i < |s.used|
  {
  }

  lemma RetiredShort(s: State, t: State, c: nat)
    requires ShortEntries(s) && c < |s.segs| && t.segs == s.segs[c := Emptied(s.segs[c])]
    ensures ShortEntries(t)
  {
  }

  /** The other segments on the list are what they were. */
  lemma RetiredElsewhere(s: State, i: nat, t: State, x: nat)
    requires i < |s.used| && Distinct(s.used) && s.used[i] < |s.segs|
    requires t.used == s.used[..i] + s.used[i + 1..] && t.segs == s.segs[s.used[i] := Emptied(s.segs[s.used[i]])]
             && x in t.used
    ensures HalfLive(s, x) <==> HalfLive(t, x)
  {
    var j :| 0 <= j < |t.used| && t.used[j] == x;
    assert x == s.used[if j < i then j else j + 1];
  }

  lemma RetiredWalking(s: State, i: nat, t: State)
    requires Walking(s, i) && s.phase.Retire? && ShortEntries(t)
    requires t.used == s.used[..i] + s.used[i + 1..] && t.phase == Walk(s.phase.next)
    requires forall x :: x in t.used ==> (HalfLive(s, x) <==> HalfLive(t, x))
    ensures Walking(t, i)
  {
    hide HalfLive;
    forall j | 0 <= j < i
      ensures HalfLive(t, t.used[j])
    {
      assert t.used[j] == s.used[j] && t.used[j] in t.used;
    }
  }

  lemma RetiredSparse(s: State, i: nat, t: State)
    requires i < |s.used| && s.used[i] < |s.segs| && !HalfLive(s, s.used[i]) && !s.phase.Start? && !t.phase.Start?
    requires t.used == s.used[..i] + s.used[i + 1..] && t.segs == s.segs[s.used[i] := Emptied(s.segs[s.used[i]])]
    requires t.target == s.target && t.targetPos == s.targetPos && s.target != s.used[i]
    requires forall x :: x in t.used ==> (HalfLive(s, x) <==> HalfLive(t, x))
    ensures ToClean(t, i) < ToClean(s, i)
  {
    hide HalfLive;
    assert t.used[i..] == s.used[i + 1..] == s.used[i..][1..];
    forall x | x in s.used[i + 1..]
      ensures HalfLive(s, x) <==> HalfLive(t, x)
    {
      assert x in t.used;
    }
    SparseSame(s, t, s.used[i + 1..]);
  }

  // ---------- one entry ----------

  /** Skipping an entry only takes the scan on. */
  lemma SkipEntryWalks(s: State, i: nat, t: State)
    requires Walking(s, i) && s.phase.Scan? && t == s.(phase := Scan(s.phase.seg, s.phase.k + 1))
    requires s.phase.seg < |s.segs| && s.phase.k < |Seen(s.segs[s.phase.seg])|
    ensures Walking(t, i) && ToClean(t, i) == ToClean(s, i) && Left(t, i) < Left(s, i)
  {
    SparseSame(s, t, s.used[i..]);
  }

  /** Changing the target adds the old one to the walk: half live if it was fully live. */
  lemma ChangeWalks(s: State, i: nat, t: State, size: nat)
    requires Walking(s, i) && s.phase.Scan? && s.target < |s.segs| && 2 * size + SEGMENT_SIZE <= 2 * DATA_SIZE
    requires SameButTarget(s, t) && t.target < |t.segs|
    requires t == s || (DATA_SIZE < s.targetPos + size && t.used == s.used + [s.target] && t.targetPos == 0
             && t.segs[t.target].used == 0)
    ensures Walking(t, i) && ToClean(t, i) <= ToClean(s, i) && Left(t, i) == Left(s, i)
  {
    if t != s {
      assert t.used[i..] == s.used[i..] + [s.target];
      SparseAppend(s, s.used[i..], s.target);
      SparseSame(s, t, t.used[i..]);
    }
  }

  /** Copying an entry into the target changes no segment on the walk. */
  lemma CopyWalks(t: State, i: nat, f: State, e: Entry)
    requires Walking(t, i) && t.phase.Scan? && t.target < |t.segs| && t.target !in t.used
             && 2 * Size(e) + SEGMENT_SIZE <= 2 * DATA_SIZE
    requires t.phase.seg < |t.segs| && t.phase.k < |t.segs[t.phase.seg].log| && t.phase.seg != t.target
    requires f == WriteEntry(t, t.target, e).(targetPos := t.targetPos + Size(e), table := f.table,
             phase := Scan(t.phase.seg, t.phase.k + 1))
    ensures Walking(f, i) && ToClean(f, i) == ToClean(t, i) && Left(f, i) < Left(t, i)
  {
    forall x | x in t.used
      ensures HalfLive(t, x) <==> HalfLive(f, x)
    {
      assert x != t.target;
    }
    assert forall j :: 0 <= j < i ==> t.used[j] in t.used && HalfLive(t, t.used[j]);
    SparseSame(t, f, t.used[i..]);
  }

  lemma CopyEntryWalks(s: State, i: nat, f: State, c: nat, k: nat)
    requires Inv(s) && Walking(s, i) && s.phase == Scan(c, k) && k < |s.segs[c].log| && !s.segs[c].log[k].dead
    requires s.segs[c].log[k].id in s.table && s.table[s.segs[c].log[k].id] == Loc(c, k)
    requires Sane(s) && Clean(s) == Continue(f)
    ensures f.phase.Scan? && Walking(f, i) && ToClean(f, i) <= ToClean(s, i) && Left(f, i) < Left(s, i)
  {
    var e := s.segs[c].log[k];
    var t := TargetForEntry(s, c, k, e);
    EntryIsShort(s, i, c, k);
    hide Inv, Clean, TargetRoom, Walking, ToClean, Left, Sane;
    CopyEntryWalksOn(s, i, t, f, e, c, k);
  }

  lemma EntryIsShort(s: State, i: nat, c: nat, k: nat)
    requires Walking(s, i) && c < |s.segs| && k < |s.segs[c].log|
    ensures 2 * Size(s.segs[c].log[k]) + SEGMENT_SIZE <= 2 * DATA_SIZE
  {
  }

  /** The target that the entry is copied to: the one there was, or an empty one. */
  lemma TargetForEntry(s: State, c: nat, k: nat, e: Entry) returns (t: State)
    requires Inv(s) && Sane(s) && s.phase == Scan(c, k) && k < |s.segs[c].log| && e == s.segs[c].log[k] && !e.dead
    requires e.id in s.table && s.table[e.id] == Loc(c, k)
    ensures s.target in s.cleaner && TargetRoom(s, Size(e)) == Result(t, true) && SameButTarget(s, t)
    ensures t.target < |t.segs| && t.target !in t.used && t.target != c
    ensures t == s || (DATA_SIZE < s.targetPos + Size(e) && t.used == s.used + [s.target] && t.targetPos == 0
            && t.segs[t.target].used == 0)
  {
    hide Shape, Provided, Newest, Accounted, Sized, TargetRoom;
    var r := TargetRoom(s, Size(e));
    TargetRoomKeeps(s, c, k, r);
    ShapeTarget(r.s, c, k);
    NewTargetEmpty(s, r.s, Size(e));
    t := r.s;
  }

  lemma CopyEntryWalksOn(s: State, i: nat, t: State, f: State, e: Entry, c: nat, k: nat)
    requires Sane(s) && Walking(s, i) && s.phase == Scan(c, k) && k < |s.segs[c].log| && e == s.segs[c].log[k]
             && !e.dead
    requires e.id in s.table && s.table[e.id] == Loc(c, k) && 2 * Size(e) + SEGMENT_SIZE <= 2 * DATA_SIZE
    requires TargetRoom(s, Size(e)) == Result(t, true) && SameButTarget(s, t)
    requires t.target < |t.segs| && t.target !in t.used && t.target != c
    requires t == s || (DATA_SIZE < s.targetPos + Size(e) && t.used == s.used + [s.target] && t.targetPos == 0
             && t.segs[t.target].used == 0)
    requires Clean(s) == Continue(f)
    ensures f.phase.Scan? && Walking(f, i) && ToClean(f, i) <= ToClean(s, i) && Left(f, i) < Left(s, i)
  {
    var f' := CleanCopies(s, c, k, e, t);
    ChangeWalks(s, i, t, Size(e));
    CopyWalks(t, i, f, e);
  }

  lemma NewTargetEmpty(s: State, t: State, size: nat)
    requires Inv(s) && s.phase.Scan? && s.target in s.cleaner && TargetRoom(s, size) == Result(t, true)
             && t.segs == s.segs
    requires Shape(t) && t.phase == s.phase
    ensures t == s || (DATA_SIZE < s.targetPos + size && t.used == s.used + [s.target] && t.targetPos == 0
            && t.segs[t.target].used == 0)
    ensures s.target < |s.segs| && t.target !in t.used
  {
    assert t.target in t.cleaner;
    if t != s {
      if s.free != [] {
        assert t.target in s.free;
      } else {
        assert t.target in s.emergency;
      }
    }
  }

  lemma ScanWalks(s: State, i: nat, t: State)
    requires Inv(s) && Walking(s, i) && s.phase.Scan? && s.phase.k < |Seen(s.segs[s.phase.seg])|
    requires TableOk(s) && ScanSafe(s) && Sane(s) && Clean(s) == Continue(t)
    ensures t.phase.Scan? && Walking(t, i) && ToClean(t, i) <= ToClean(s, i) && Left(t, i) < Left(s, i)
  {
    hide ScanSafe, Clean, Walking, ToClean, Left, Shape, Provided, Newest, Accounted, Sized;
    var c, k := s.phase.seg, s.phase.k;
    if k < |s.segs[c].log| && !s.segs[c].log[k].dead {
      CopiedIsCurrent(s, c, k);
      if s.table[s.segs[c].log[k].id] == Loc(c, k) {
        CopyEntryWalks(s, i, t, c, k);
      } else {
        PassEntryWalks(s, i, t, c, k);
      }
    } else {
      PassEntryWalks(s, i, t, c, k);
    }
  }

  lemma PassEntryWalks(s: State, i: nat, t: State, c: nat, k: nat)
    requires Walking(s, i) && Sane(s) && TableOk(s) && s.phase == Scan(c, k) && k < |Seen(s.segs[c])| && ScanSafe(s)
    requires k < |s.segs[c].log| ==> Harmless(s, s.segs[c].log[k])
    requires Clean(s) == Continue(t)
    ensures t.phase.Scan? && Walking(t, i) && ToClean(t, i) <= ToClean(s, i) && Left(t, i) < Left(s, i)
  {
    hide ScanSafe, Clean, Walking, ToClean, Left;
    var t' := PassIs(s, c, k);
    SkipEntryWalks(s, i, t);
  }

  // ---------- the walk ----------

  /** `t`, with the cleaner at `j`, is nearer to the end of the walk than `s`. */
  ghost predicate Nearer(s: State, i: nat, t: State, j: nat)
    requires Walking(s, i)
  {
    && Walking(t, j)
    && (|| ToClean(t, j) < ToClean(s, i)
        || (ToClean(t, j) == ToClean(s, i) && s.phase.Walk? && !t.phase.Walk?)
        || (ToClean(t, j) <= ToClean(s, i) && s.phase.Walk? == t.phase.Walk? && Left(t, j) < Left(s, i)))
  }

  lemma WalkNearer(s: State, i: nat, t: State) returns (j: nat)
    requires Inv(s) && Walking(s, i) && i < |s.used| && s.phase.Walk? && Sane(s) && Clean(s) == Continue(t)
    ensures Nearer(s, i, t, j)
  {
    if !WorthCleaning(s, s.used[i]) {
      SkipWalks(s, i, t);
      j := i + 1;
    } else {
      EnterWalks(s, i, t);
      j := i;
    }
  }

  lemma EndScanIs(s: State, i: nat, t: State)
    requires Walking(s, i) && s.phase.Scan? && Sane(s) && s.phase.k >= |Seen(s.segs[s.phase.seg])|
             && Clean(s) == Continue(t)
    ensures i < |s.used| && t == s.(phase := t.phase) && t.phase == Retire(s.used[i], After(s.used, s.used[i]))
  {
  }

  lemma ScanNearer(s: State, i: nat, t: State)
    requires Inv(s) && Walking(s, i) && s.phase.Scan? && TableOk(s) && ScanSafe(s) && Sane(s) && Clean(s) == Continue(t)
    ensures Nearer(s, i, t, i)
  {
    SaneScan(s);
    hide Clean, Inv, After, ScanSafe, Sane;
    if s.phase.k < |Seen(s.segs[s.phase.seg])| {
      ScanWalks(s, i, t);
    } else {
      EndScanIs(s, i, t);
      EnterWalks(s, i, t);
    }
  }

  lemma SaneScan(s: State)
    requires Sane(s) && s.phase.Scan?
    ensures s.phase.seg < |s.segs|
  {
  }

  /** Whichever step it is, the walk gets nearer to its end. */
  lemma StepWalks(s: State, i: nat, t: State) returns (j: nat)
    requires Inv(s) && Walking(s, i) && i < |s.used| && TableOk(s) && ScanSafe(s) && Sane(s) && Clean(s) == Continue(t)
    ensures Nearer(s, i, t, j)
  {
    j := i;
    if s.phase.Walk? {
      j := WalkNearer(s, i, t);
    } else if s.phase.Retire? {
      RetireIs(s, i, t);
      RetireWalks(s, i, t);
    } else {
      ScanNearer(s, i, t);
    }
  }

  /** The walk is over, or the cleaner has come to a harmful old entry. */
  ghost predicate Stopped(s: State) {
    TableOk(s) && (WalkOver(s) || !ScanSafe(s))
  }

  lemma StoppedOrNot(s: State, i: nat)
    requires Inv(s) && Walking(s, i)
    ensures TableOk(s) && (Stopped(s) || (i < |s.used| && ScanSafe(s)))
  {
    InvTable(s);
    hide Inv, ScanSafe;
  }

  lemma NextStep(s: State, i: nat) returns (t: State, j: nat)
    requires Inv(s) && Walking(s, i) && i < |s.used| && TableOk(s) && ScanSafe(s)
    ensures t == CleanerStepped(s) && Inv(t) && Nearer(s, i, t, j)
  {
    SteppedIs(s);
    hide Inv, Clean, ScanSafe, TableOk, Sane, Objects, Current, CleanerStepped, Nearer;
    t := CleanerStepped(s);
    j := StepWalks(s, i, t);
  }

  /** The walk goes on to its end, unless it comes to a harmful old entry. */
  lemma {:induction false} WalkEnds(s: State, i: nat) returns (n: nat)
    requires Inv(s) && Walking(s, i)
    ensures Stopped(CleanerRun(s, n))
    decreases ToClean(s, i), if s.phase.Walk? then 1 else 0, Left(s, i)
  {
    hide Inv, Objects, Current, ScanSafe, TableOk, CleanerStepped, ToClean, Left, Stopped;
    StoppedOrNot(s, i);
    n := 0;
    if !Stopped(s) {
      var t, j := NextStep(s, i);
      var n' := WalkEnds(t, j);
      n := n' + 1;
    }
  }

  ghost predicate WalkOver(s: State) {
    s.phase == Walk(None) && Walking(s, |s.used|)
  }

  lemma BeginWalk(s: State, t: State)
    requires s.phase == Walk(None) && ShortEntries(s) && Sane(s) && Clean(s) == Continue(t)
    ensures Walking(t, 0)
  {
  }

  /** The pass that starts at the first used segment is over after finitely many steps, unless a scan comes to a harmful
      old entry; then no used segment is worth cleaning any more, all that they count being live. */
  lemma PassEnds(s: State) returns (n: nat)
    requires Inv(s) && s.phase == Walk(None) && ShortEntries(s)
    ensures n > 0
    ensures var t := CleanerRun(s, n);
            && Inv(t) && TableOk(t) && Objects(t) == Objects(s)
            && (ScanSafe(t) ==>
                  && t.phase == Walk(None)
                  && forall x :: x in t.used ==>
                       x < |t.segs| && SEGMENT_SIZE <= 2 * Live(t, x) && Live(t, x) == t.segs[x].used)
  {
    SteppedIs(s);
    var t := CleanerStepped(s);
    hide Inv, CleanerStepped, Objects, Current;
    BeginWalk(s, t);
    n := WalkEnds(t, 0);
    n := n + 1;
    var u := CleanerRun(s, n);
    if WalkOver(u) {
      WalkedHalfLive(u);
    }
  }

  lemma WalkedHalfLive(u: State)
    requires Inv(u) && WalkOver(u)
    ensures forall x :: x in u.used ==> x < |u.segs| && SEGMENT_SIZE <= 2 * Live(u, x) && Live(u, x) == u.segs[x].used
  {
    forall x | x in u.used
      ensures x < |u.segs| && SEGMENT_SIZE <= 2 * Live(u, x) && Live(u, x) == u.segs[x].used
    {
      var j := IndexOf(u.used, x);
      assert HalfLive(u, u.used[j]);
    }
  }
}
