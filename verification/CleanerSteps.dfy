/** As long as a scan meets nothing harmful behind the entries of a segment, no step of the cleaner is visible to
    clients, none goes through a null pointer, and none has to wait for a segment. */
module CleanerSteps {
  import opened Wrappers
  import opened Layout
  import opened Lists
  import opened LogState
  import opened LiveBytes
  import opened LogInvariant

  // ---------- what a scan may come to behind the entries ----------

  /** An old entry that the cleaner passes over: marked, or older than the object's newest version. */
  ghost predicate Harmless(s: State, e: Entry)
    requires TableOk(s)
  {
    e.dead || (e.id in s.table && e.version < At(s, s.table[e.id]).version)
  }

  /** The cleaner is not about to take an old entry for a live one, nor to read on where nothing is known. */
  ghost predicate ScanSafe(s: State)
    requires TableOk(s)
  {
    s.phase.Scan? && s.phase.seg < |s.segs| ==>
      var g := s.segs[s.phase.seg];
      if s.phase.k < |g.log| then true
      else if s.phase.k < |Seen(g)| then Harmless(s, Seen(g)[s.phase.k])
      else EndKnown(g)
  }

  /** Where a scan reads the segment's own entries only, it is safe to the end. */
  lemma TerminatedIsSafe(s: State)
    requires Inv(s) && (s.phase.Scan? && s.phase.seg < |s.segs| ==> Terminated(s.segs[s.phase.seg]))
    ensures ScanSafe(s)
  {
  }

  // ---------- steps that move the cleaner or lists only ----------

  /** A target is at hand unless both the free list and the reserve are empty. */
  lemma NewTargetKeeps(s: State, r: Result)
    requires Partition(s) && Idle(s) && s.cleaner == [] && s.reserve == |s.emergency|
    requires r == NewTarget(s)
    ensures r.ok <==> s.free != [] || s.emergency != []
    ensures r.ok ==>
      && var t := r.s;
      && t == s.(free := t.free, emergency := t.emergency, reserve := t.reserve, cleaner := t.cleaner,
           target := t.target, targetPos := t.targetPos)
      && Partition(t) && Idle(t) && t.cleaner == [t.target] && t.target < |t.segs| && t.segs[t.target].log == []
           && t.targetPos == 0
      && t.reserve == |t.emergency|
      && t.reserve == if s.free != [] then s.reserve else s.reserve - 1
  {
    if s.free != [] {
      assert forall x: nat :: x in s.free <==> x == s.free[0] || x in s.free[1..];
      assert Partition(r.s);
    } else if s.emergency != [] {
      assert forall x: nat :: x in s.emergency <==> x == s.emergency[0] || x in s.emergency[1..];
      assert Partition(r.s);
    }
  }

  lemma StartKeeps(s: State)
    requires Inv(s) && s.phase.Start?
    ensures Sane(s) && Clean(s).Continue? && Inv(Clean(s).s) && Current(Clean(s).s) == Current(s)
  {
    InvIsSane(s);
    var r := NewTarget(s);
    NewTargetKeeps(s, r);
    var t := Clean(s).s;
    assert Partition(t) && Idle(t) && Positions(t) && OnUsed(t);
    MovedKeeps(s, t);
  }

  /** Nothing but the position of the cleaner changes, and it is not scanning before or after. */
  lemma MovedKeeps(s: State, t: State)
    requires Located(s) && Newest(s) && Accounted(s) && Sized(s)
    requires t.segs == s.segs && t.table == s.table
    requires forall i, j :: Scanned(s.phase, i, j) <==> Scanned(t.phase, i, j)
    requires forall i :: IsCurrent(s.phase, i) ==> IsCurrent(t.phase, i)
    ensures Data(t) && Current(t) == Current(s)
  {
    hide Newest;
    StillNewest(s, t);
  }

  lemma WalkOn(s: State)
    requires Inv(s) && s.phase.Walk?
    requires s.phase.at.Some? ==> !WorthCleaning(s, s.phase.at.value)
    ensures Sane(s) && Clean(s).Continue? && Inv(Clean(s).s) && Current(Clean(s).s) == Current(s)
  {
    InvIsSane(s);
    var t := Clean(s).s;
    if s.phase.at.Some? {
      AfterDistinct(s.used, s.phase.at.value);
    }
    assert Partition(t) && Idle(t) && Positions(t) && OnUsed(t);
    MovedKeeps(s, t);
  }

  lemma BeginScan(s: State)
    requires Inv(s) && s.phase.Walk? && s.phase.at.Some?
    requires WorthCleaning(s, s.phase.at.value) && s.segs[s.phase.at.value].used != 0
    ensures Sane(s) && Clean(s).Continue? && Inv(Clean(s).s) && Current(Clean(s).s) == Current(s)
  {
    InvIsSane(s);
    var t := Clean(s).s;
    assert Partition(t) && Idle(t) && Positions(t) && OnUsed(t);
    MovedKeeps(s, t);
    assert Live(t, s.phase.at.value) == Live(s, s.phase.at.value) <= s.segs[s.phase.at.value].used;
  }

  /** A segment that counts no bytes has nothing to move: the scan can be skipped. */
  lemma SkipScan(s: State)
    requires Inv(s) && s.phase.Walk? && s.phase.at.Some? && s.segs[s.phase.at.value].used == 0
    ensures Sane(s) && Clean(s).Continue? && Inv(Clean(s).s) && Current(Clean(s).s) == Current(s)
  {
    InvIsSane(s);
    var c := s.phase.at.value;
    var t := Clean(s).s;
    AfterDistinct(s.used, c);
    assert Partition(t) && Idle(t) && Positions(t) && OnUsed(t);
    forall id | id in s.table
      ensures s.table[id].seg != c
    {
      if s.table[id].seg == c {
        LiveAtLeast(s.table, c, s.segs[c].log, 0, s.table[id].idx);
      }
    }
    RetiringData(s, t, c);
  }

  lemma EndScan(s: State)
    requires Inv(s) && s.phase.Scan? && s.phase.k == |Seen(s.segs[s.phase.seg])| && EndKnown(s.segs[s.phase.seg])
    ensures Sane(s) && Clean(s).Continue? && Inv(Clean(s).s) && Current(Clean(s).s) == Current(s)
  {
    InvIsSane(s);
    var t := Clean(s).s;
    AfterDistinct(s.used, s.phase.seg);
    assert Partition(t) && Idle(t) && Positions(t) && OnUsed(t);
    RetiringData(s, t, s.phase.seg);
  }

  /** A change of phase that makes no more entries matter keeps the table the newest. */
  lemma StillNewest(s: State, t: State)
    requires TableOk(s) && TableOk(t) && Newest(s) && t.segs == s.segs && t.table == s.table
    requires forall i, j :: Scanned(s.phase, i, j) ==> Scanned(t.phase, i, j)
    ensures Newest(t)
  {
    forall i: nat, j: nat | ValidLoc(t, Loc(i, j)) && !t.segs[i].log[j].dead && !Scanned(t.phase, i, j)
      ensures Known(t, i, j)
    {
      assert ValidLoc(s, Loc(i, j)) && Known(s, i, j);
    }
  }

  lemma RetiringData(s: State, t: State, c: nat)
    requires Data(s) && t.segs == s.segs && t.table == s.table && t.phase.Retire? && t.phase.seg == c
    requires forall i, j :: Scanned(s.phase, i, j) ==> i == c
    requires forall i :: IsCurrent(s.phase, i) ==> i == c
    requires forall id :: id in s.table ==> s.table[id].seg != c || s.table[id].idx >= |s.segs[c].log|
    ensures Data(t) && Current(t) == Current(s)
  {
    hide Newest;
    assert Located(t) && Current(t) == Current(s);
    StillNewest(s, t);
    assert forall i: nat :: i < |t.segs| ==> Live(t, i) == Live(s, i);
  }

  // ---------- recycling ----------

  lemma RecyclePartition(s: State, c: nat)
    requires Partition(s) && c in s.used && c < |s.segs|
    ensures Partition(Recycle(s, c))
  {
    hide Emptied;
    RemoveDistinct(s.used, c);
  }

  lemma RecycleShape(s: State)
    requires Inv(s) && s.phase.Retire?
    ensures Sane(s) && Shape(Clean(s).s) && Provided(Clean(s).s) && Clean(s).s.reserve == RESERVE
  {
    InvIsSane(s);
    var c := s.phase.seg;
    var t := Clean(s).s;
    RecyclePartition(s, c);
    PartitionSame(Recycle(s, c), t);
    RemoveDistinct(s.used, c);
    assert s.target in s.cleaner;
    hide Partition, Data;
    RecycleRest(s, t, c);
  }

  lemma RecycleRest(s: State, t: State, c: nat)
    requires Idle(s) && Positions(s) && OnUsed(s) && s.phase.Retire? && s.phase.seg == c && s.target in s.cleaner
    requires c in s.used && c < |s.segs| && t == Recycle(s, c).(phase := Walk(s.phase.next)) && s.target != c
    requires s.head != Some(c) && forall x :: x in Remove(s.used, c) <==> x in s.used && x != c
    ensures Idle(t) && Positions(t) && OnUsed(t)
  {
    hide Remove;
  }

  /** `t` is `s` with the scanned segment emptied. */
  ghost predicate Recycled(s: State, t: State) {
    && s.phase.Retire? && t.phase.Walk? && t.table == s.table
    && s.phase.seg < |s.segs| && t.segs == s.segs[s.phase.seg := Emptied(s.segs[s.phase.seg])]
  }

  lemma RecycledLocated(s: State, t: State)
    requires Located(s) && Recycled(s, t)
    ensures Located(t) && Current(t) == Current(s)
    ensures forall id :: id in s.table ==> At(t, s.table[id]) == At(s, s.table[id])
  {
    assert forall id :: id in s.table ==> s.table[id].seg != s.phase.seg;
  }

  lemma RecycledNewest(s: State, t: State)
    requires TableOk(s) && TableOk(t) && Newest(s) && Recycled(s, t)
    requires forall id :: id in s.table ==> At(t, s.table[id]) == At(s, s.table[id])
    ensures Newest(t)
  {
    forall i: nat, j: nat | ValidLoc(t, Loc(i, j)) && !t.segs[i].log[j].dead && !Scanned(t.phase, i, j)
      ensures Known(t, i, j)
    {
      assert i != s.phase.seg && ValidLoc(s, Loc(i, j)) && Known(s, i, j);
    }
  }

  lemma RecycledAccounted(s: State, t: State)
    requires TableOk(s) && TableOk(t) && Accounted(s) && Sized(s) && Recycled(s, t)
    ensures Accounted(t) && Sized(t)
  {
    var g := s.segs[s.phase.seg];
    EmptiedSized(g);
    assert forall i: nat :: i < |t.segs| && i != s.phase.seg ==> Live(t, i) == Live(s, i);
  }

  lemma EmptiedSized(g: Segment)
    requires SizedSegment(g)
    ensures SizedSegment(Emptied(g))
  {
    BytesConcat(g.log, g.behind.es);
    BytesNone();
  }

  /** Emptying a scanned segment takes nothing from the table. */
  lemma RecycleData(s: State, t: State)
    requires Data(s) && Recycled(s, t)
    ensures Data(t) && Current(t) == Current(s)
  {
    hide Newest, Accounted, Sized, Recycled;
    RecycledLocated(s, t);
    RecycledNewest(s, t);
    RecycledAccounted(s, t);
  }

  lemma RetireKeeps(s: State)
    requires Inv(s) && s.phase.Retire?
    ensures Sane(s) && Clean(s).Continue? && Inv(Clean(s).s) && Current(Clean(s).s) == Current(s)
  {
    RecycleShape(s);
    RecycleData(s, Clean(s).s);
  }

  // ---------- one entry ----------

  /** The entry in hand is to be copied exactly when the table points to it. */
  lemma CopiedIsCurrent(s: State, c: nat, k: nat)
    requires Inv(s) && s.phase == Scan(c, k) && k < |s.segs[c].log| && !s.segs[c].log[k].dead
    ensures s.segs[c].log[k].id in s.table
    ensures At(s, s.table[s.segs[c].log[k].id]).version <= s.segs[c].log[k].version
       <==> s.table[s.segs[c].log[k].id] == Loc(c, k)
  {
    assert ValidLoc(s, Loc(c, k)) && Known(s, c, k);
  }

  lemma SkipEntry(s: State, c: nat, k: nat, t: State)
    requires Inv(s) && s.phase == Scan(c, k) && k < |Seen(s.segs[c])|
    requires t == s.(phase := Scan(c, k + 1))
    requires forall id :: id in s.table ==> s.table[id] != Loc(c, k)
    ensures Inv(t) && Current(t) == Current(s)
  {
    PartitionSame(s, t);
    hide Partition, Data;
    assert Idle(t) && Positions(t) && OnUsed(t);
    SkipData(s, c, k, t);
  }

  lemma SkipData(s: State, c: nat, k: nat, t: State)
    requires Data(s) && s.phase == Scan(c, k) && c < |s.segs| && k < |Seen(s.segs[c])|
    requires t == s.(phase := Scan(c, k + 1))
    requires forall id :: id in s.table ==> s.table[id] != Loc(c, k)
    ensures Data(t) && Current(t) == Current(s)
  {
    hide Newest;
    SkipLocated(s, c, k, t);
    StillNewest(s, t);
    assert forall i: nat :: i < |t.segs| ==> Live(t, i) == Live(s, i);
  }

  lemma SkipLocated(s: State, c: nat, k: nat, t: State)
    requires Located(s) && s.phase == Scan(c, k) && t == s.(phase := Scan(c, k + 1))
    requires forall id :: id in s.table ==> s.table[id] != Loc(c, k)
    ensures Located(t) && Current(t) == Current(s)
  {
    forall id | id in s.table
      ensures At(t, s.table[id]) == At(s, s.table[id])
      ensures !Scanned(t.phase, s.table[id].seg, s.table[id].idx)
    {
      assert At(s, s.table[id]).id == id;
    }
  }

  /** What retiring the target and taking a new one leaves alone. */
  ghost predicate SameButTarget(s: State, t: State) {
    t == s.(free := t.free, used := t.used, cleaner := t.cleaner, emergency := t.emergency, reserve := t.reserve,
            target := t.target, targetPos := t.targetPos)
  }

  lemma CleanerToUsedPartition(s: State, t: State)
    requires Partition(s) && s.cleaner == [s.target] && t == CleanerToUsed(s, s.target)
    ensures Partition(t) && t.cleaner == []
  {
    assert s.target in s.cleaner;
    assert forall x: nat :: x in t.used <==> x in s.used || x == s.target;
  }

  /** Room for a live entry is always there, and after a change of target there is room for all that is left to move: a
      second change is never needed. */
  lemma TargetRoomKeeps(s: State, c: nat, k: nat, r: Result)
    requires Inv(s) && s.phase == Scan(c, k) && k < |s.segs[c].log|
             && s.table[s.segs[c].log[k].id := Loc(c, k)] == s.table
    requires s.target in s.cleaner && r == TargetRoom(s, Size(s.segs[c].log[k]))
    ensures r.ok && SameButTarget(s, r.s) && Shape(r.s) && Provided(r.s)
    ensures r.s.targetPos + Size(s.segs[c].log[k]) <= DATA_SIZE
    ensures r.s.targetPos + LiveFrom(s.table, c, s.segs[c].log, k) <= DATA_SIZE || r.s == s
    ensures r.s != s ==> DATA_SIZE < s.targetPos + Size(s.segs[c].log[k])
  {
    LiveSuffix(s.table, c, s.segs[c].log, 0, k);
    LiveAtLeast(s.table, c, s.segs[c].log, k, k);
    if DATA_SIZE - s.targetPos < Size(s.segs[c].log[k]) {
      var u := CleanerToUsed(s, s.target);
      CleanerToUsedPartition(s, u);
      assert s.reserve == RESERVE && u.emergency != [];
      NewTargetKeeps(u, r);
      assert c in s.used;
      TargetRoomShape(s, r.s);
    }
  }

  lemma TargetRoomShape(s: State, t: State)
    requires Shape(s) && SameButTarget(s, t) && !s.phase.Start?
    requires Partition(t) && Idle(t) && t.cleaner == [t.target] && t.target < |t.segs| && t.segs[t.target].log == []
             && t.targetPos == 0
    requires forall x: nat :: x in s.used ==> x in t.used
    ensures Shape(t)
  {
    assert Positions(t) && OnUsed(t);
  }

  lemma CopiedShape(s: State, f: State, e: Entry, c: nat, k: nat)
    requires Shape(s) && s.phase == Scan(c, k) && k < |s.segs[c].log| && s.target in s.cleaner
    requires f == WriteEntry(s, s.target, e).(targetPos := s.targetPos + Size(e), table := f.table,
             phase := Scan(c, k + 1))
    ensures Shape(f)
  {
    hide Bytes, Past;
    BytesAppend(s.segs[s.target].log, e);
    PartitionSame(s, f);
    assert forall x: nat :: x in s.free || x in s.emergency || x in s.used || s.head == Some(x) ==> x != s.target;
    assert c in s.used;
    hide Partition;
    assert Idle(f);
    assert Positions(f);
    assert OnUsed(f);
  }

  lemma CopiedData(s: State, f: State, e: Entry, h: nat, c: nat, k: nat)
    requires Data(s) && s.phase == Scan(c, k) && c < |s.segs| && k < |s.segs[c].log| && e == s.segs[c].log[k] && !e.dead
    requires h < |s.segs| && h != c && Bytes(s.segs[h].log) + Size(e) <= DATA_SIZE
    requires e.id in s.table && s.table[e.id] == Loc(c, k)
    requires f.phase == Scan(c, k + 1) && Pointed(s, f, h, e) && f.segs == WriteEntry(s, h, e).segs
    ensures Data(f) && Current(f) == Current(s)
  {
    CopiedLocated(s, f, e, h, c, k);
    CopiedNewest(s, f, e, h, c, k);
    WriteSized(s, h, e);
    SizedSame(WriteEntry(s, h, e), f);
    CopiedAccounted(s, f, e, h, c, k);
  }

  lemma CopiedLocated(s: State, f: State, e: Entry, h: nat, c: nat, k: nat)
    requires Located(s) && s.phase == Scan(c, k) && c < |s.segs| && k < |s.segs[c].log| && e == s.segs[c].log[k]
             && !e.dead
    requires e.id in s.table && s.table[e.id] == Loc(c, k) && h != c
    requires f.phase == Scan(c, k + 1) && Pointed(s, f, h, e)
    ensures Located(f) && Current(f) == Current(s)
  {
    PointedTable(s, f, h, e);
    forall id | id in f.table
      ensures !At(f, f.table[id]).dead && !Scanned(f.phase, f.table[id].seg, f.table[id].idx)
              && At(f, f.table[id]) == At(s, s.table[id])
    {
      if id != e.id {
        OtherIsLocated(s, id, e, c, k);
      }
    }
    SameCurrent(s, f);
  }

  lemma OtherIsLocated(s: State, id: nat, e: Entry, c: nat, k: nat)
    requires Located(s) && s.phase == Scan(c, k) && c < |s.segs| && k < |s.segs[c].log| && e == s.segs[c].log[k]
    requires id in s.table && id != e.id
    ensures !At(s, s.table[id]).dead && !Scanned(Scan(c, k + 1), s.table[id].seg, s.table[id].idx)
  {
    assert At(s, s.table[id]).id == id;
  }

  lemma SameCurrent(s: State, f: State)
    requires TableOk(s) && TableOk(f) && f.table.Keys == s.table.Keys
    requires forall id :: id in f.table ==> At(f, f.table[id]) == At(s, s.table[id])
    ensures Current(f) == Current(s)
  {
  }

  lemma CopiedNewest(s: State, f: State, e: Entry, h: nat, c: nat, k: nat)
    requires Located(s) && Newest(s) && s.phase == Scan(c, k) && c < |s.segs| && k < |s.segs[c].log|
    requires e.id in s.table && s.table[e.id] == Loc(c, k) && e == s.segs[c].log[k]
    requires f.phase == Scan(c, k + 1) && Pointed(s, f, h, e) && TableOk(f)
    ensures Newest(f)
  {
    forall i: nat, j: nat | ValidLoc(s, Loc(i, j)) && !s.segs[i].log[j].dead && !Scanned(f.phase, i, j)
        && s.segs[i].log[j].id == e.id
      ensures s.segs[i].log[j].version < e.version
    {
      assert Known(s, i, j);
    }
    PointedNewest(s, f, h, e);
  }

  lemma CopiedAccounted(s: State, f: State, e: Entry, h: nat, c: nat, k: nat)
    requires TableOk(s) && Accounted(s) && s.phase == Scan(c, k)
    requires e.id in s.table && s.table[e.id] == Loc(c, k) && At(s, Loc(c, k)) == e
    requires f.phase == Scan(c, k + 1) && Pointed(s, f, h, e) && h != c && f.segs == WriteEntry(s, h, e).segs
    ensures Accounted(f)
  {
    forall i: nat | i < |f.segs|
      ensures Live(f, i) <= f.segs[i].used && (IsCurrent(f.phase, i) || f.segs[i].used == Live(f, i))
    {
      PointedLive(s, f, h, e, i);
    }
  }

  lemma CopiedProvided(s: State, f: State, e: Entry, h: nat, c: nat, k: nat)
    requires Provided(s) && TableOk(s) && s.phase == Scan(c, k) && c < |s.segs| && k < |s.segs[c].log|
             && e == s.segs[c].log[k]
    requires e.id in s.table && s.table[e.id] == Loc(c, k)
    requires Pointed(s, f, h, e) && h != c && f.phase == Scan(c, k + 1) && f.reserve == s.reserve
             && f.emergency == s.emergency
    requires f.targetPos == s.targetPos + Size(e)
    ensures Provided(f)
    ensures LiveFrom(f.table, c, f.segs[c].log, k + 1) + Size(e) == LiveFrom(s.table, c, s.segs[c].log, k)
  {
    PointedRemaining(s, f, h, e, c, k + 1);
  }

  /** How the step is computed, when there is a target with room. */
  lemma CleanCopies(s: State, c: nat, k: nat, e: Entry, t: State) returns (f: State)
    requires Sane(s) && s.phase == Scan(c, k) && k < |s.segs[c].log| && e == s.segs[c].log[k] && !e.dead
    requires e.id in s.table && s.table[e.id] == Loc(c, k) && s.target in s.cleaner
    requires TargetRoom(s, Size(e)) == Result(t, true) && t.target < |t.segs| && SameButTarget(s, t)
    ensures Clean(s) == Continue(f)
    ensures f == WriteEntry(t, t.target, e).(targetPos := t.targetPos + Size(e), table := f.table,
            phase := Scan(c, k + 1))
    ensures Pointed(t, f, t.target, e)
  {
    var q := TargetRoom(s.(phase := Scan(c, k + 1)), Size(e));
    assert q == Result(t.(phase := Scan(c, k + 1)), true);
    f := CopyToTarget(q.s, e);
  }

  lemma CopyEntry(s: State, c: nat, k: nat)
    requires Inv(s) && s.phase == Scan(c, k) && k < |s.segs[c].log| && !s.segs[c].log[k].dead
    requires s.segs[c].log[k].id in s.table && s.table[s.segs[c].log[k].id] == Loc(c, k)
    ensures Sane(s) && Clean(s).Continue? && Inv(Clean(s).s) && Current(Clean(s).s) == Current(s)
  {
    var e := s.segs[c].log[k];
    var t := TargetReady(s, c, k, e);
    hide Shape, Provided, Data, TargetRoom, Clean, Sane;
    CopyEntryTo(s, t, e, c, k);
  }

  /** The target the entry is copied to, changed if there was need. */
  lemma TargetReady(s: State, c: nat, k: nat, e: Entry) returns (t: State)
    requires Inv(s) && s.phase == Scan(c, k) && k < |s.segs[c].log| && e == s.segs[c].log[k]
    requires e.id in s.table && s.table[e.id] == Loc(c, k)
    ensures Sane(s) && s.target in s.cleaner && TargetRoom(s, Size(e)) == Result(t, true) && SameButTarget(s, t)
    ensures Shape(t) && Provided(t) && t.target in t.cleaner && t.target < |t.segs| && t.target != c
    ensures t.targetPos == Bytes(t.segs[t.target].log) && t.targetPos + Size(e) <= DATA_SIZE
  {
    hide Inv, Shape, Provided, TargetRoom;
    InvIsSane(s);
    t := TargetRoom(s, Size(e)).s;
    TargetRoomKeeps(s, c, k, TargetRoom(s, Size(e)));
    ShapeTarget(t, c, k);
  }

  lemma CopyEntryTo(s: State, t: State, e: Entry, c: nat, k: nat)
    requires Sane(s) && Data(s) && SameButTarget(s, t) && Shape(t) && Provided(t) && t.target in t.cleaner
             && t.target != c
    requires s.phase == Scan(c, k) && c < |s.segs| && k < |s.segs[c].log| && e == s.segs[c].log[k] && !e.dead
    requires e.id in s.table && s.table[e.id] == Loc(c, k) && TargetRoom(s, Size(e)) == Result(t, true)
    requires t.target < |t.segs| && t.targetPos + Size(e) <= DATA_SIZE && t.targetPos == Bytes(t.segs[t.target].log)
    ensures Clean(s).Continue? && Inv(Clean(s).s) && Current(Clean(s).s) == Current(s)
  {
    hide Shape, Provided, Newest, Accounted, Sized, TargetRoom;
    var f := CleanCopies(s, c, k, e, t);
    CopyKeeps(s, t, f, e, c, k);
  }

  lemma CopyKeeps(s: State, t: State, f: State, e: Entry, c: nat, k: nat)
    requires Data(s) && SameButTarget(s, t) && Shape(t) && Provided(t) && t.target in t.cleaner && t.target != c
    requires s.phase == Scan(c, k) && c < |s.segs| && k < |s.segs[c].log| && e == s.segs[c].log[k] && !e.dead
    requires e.id in s.table && s.table[e.id] == Loc(c, k)
    requires t.target < |t.segs| && t.targetPos + Size(e) <= DATA_SIZE && t.targetPos == Bytes(t.segs[t.target].log)
    requires f == WriteEntry(t, t.target, e).(targetPos := t.targetPos + Size(e), table := f.table,
             phase := Scan(c, k + 1))
    requires Pointed(t, f, t.target, e)
    ensures Inv(f) && Current(f) == Current(s)
  {
    hide Shape, Provided, Newest, Sized;
    assert SameEntries(s, t);
    SameEntriesKeep(s, t);
    assert Accounted(t);
    hide Accounted;
    CopiedShape(t, f, e, c, k);
    CopiedData(t, f, e, t.target, c, k);
    CopiedProvided(t, f, e, t.target, c, k);
  }

  lemma ShapeTarget(t: State, c: nat, k: nat)
    requires Shape(t) && t.phase == Scan(c, k)
    ensures t.target in t.cleaner && t.target < |t.segs| && t.target != c && t.targetPos == Bytes(t.segs[t.target].log)
  {
    assert t.target in t.cleaner && c in t.used;
  }

  // ---------- old entries behind those of the segment ----------

  /** A harmful old entry crashes the cleaner, makes it wait, or spoils a count. */
  lemma StaleBreaks(s: State, c: nat, k: nat)
    requires Inv(s) && Sane(s) && s.phase == Scan(c, k) && |s.segs[c].log| <= k < |Seen(s.segs[c])|
    requires !Harmless(s, Seen(s.segs[c])[k]) && Clean(s).Continue?
    ensures !Accounted(Clean(s).s)
  {
    var e := Seen(s.segs[c])[k];
    var f, h := StaleCopied(s, c, k, e);
    hide Shape, Provided, Newest, Sized, Clean;
    CopiedTwice(s, f, h, e, c, k);
  }

  lemma StaleCopied(s: State, c: nat, k: nat, e: Entry) returns (f: State, h: nat)
    requires Sane(s) && s.phase == Scan(c, k) && k < |Seen(s.segs[c])| && e == Seen(s.segs[c])[k]
    requires TableOk(s) && !Harmless(s, e) && Clean(s).Continue?
    ensures Clean(s).s == f && e.id in s.table
    ensures Pointed(s, f, h, e) && f.phase == Scan(c, k + 1) && f.segs == WriteEntry(s, h, e).segs
  {
    var u := s.(phase := Scan(c, k + 1));
    var r := StaleRoom(s, c, k, e);
    hide *;
    TargetRoomIs(u, Size(e));
    f := CopyToTarget(r.s, e);
    h := r.s.target;
    CopyPointed(s, r.s, e);
  }

  lemma CopyPointed(s: State, t: State, e: Entry)
    requires t.segs == s.segs && t.table == s.table && t.target < |t.segs|
    ensures var f := CopyToTarget(t, e);
            Pointed(s, f, t.target, e) && f.segs == WriteEntry(s, t.target, e).segs && f.phase == t.phase
  {
    hide Past;
  }

  lemma StaleRoom(s: State, c: nat, k: nat, e: Entry) returns (r: Result)
    requires Sane(s) && s.phase == Scan(c, k) && k < |Seen(s.segs[c])| && e == Seen(s.segs[c])[k]
    requires TableOk(s) && !Harmless(s, e) && Clean(s).Continue?
    ensures var u := s.(phase := Scan(c, k + 1));
            && u.target in u.cleaner && InRange(u) && r == TargetRoom(u, Size(e)) && r.ok
            && r.s.target < |r.s.segs| && e.id in s.table && Clean(s).s == CopyToTarget(r.s, e)
  {
    hide Bytes, Remove, Past, TargetRoom, NewTarget, CleanerToUsed, CopyToTarget;
    var u := s.(phase := Scan(c, k + 1));
    r := TargetRoom(u, Size(e));
    TargetRoomIs(u, Size(e));
  }

  lemma TargetRoomIs(s: State, size: nat)
    requires InRange(s) && s.target in s.cleaner
    ensures var r := TargetRoom(s, size);
            r.ok ==> r.s.segs == s.segs && r.s.table == s.table && r.s.phase == s.phase && r.s.target < |s.segs|
  {
  }

  /** The version that the table no longer points to is still counted. */
  lemma CopiedTwice(s: State, f: State, h: nat, e: Entry, c: nat, k: nat)
    requires Located(s) && Accounted(s) && s.phase == Scan(c, k) && c < |s.segs| && |s.segs[c].log| <= k
    requires e.id in s.table && Pointed(s, f, h, e) && f.phase == Scan(c, k + 1) && f.segs == WriteEntry(s, h, e).segs
    ensures !Accounted(f)
  {
    var i := s.table[e.id].seg;
    assert i != c;
    PointedLive(s, f, h, e, i);
    assert Share(s, e.id, i) > 0;
    assert f.segs[i].used == s.segs[i].used + if i == h then Size(e) else 0;
  }

  lemma StaleIs(s: State, c: nat, k: nat)
    requires Inv(s) && Sane(s) && s.phase == Scan(c, k) && |s.segs[c].log| <= k < |Seen(s.segs[c])|
    ensures Harmless(s, Seen(s.segs[c])[k]) <==> Clean(s).Continue? && Inv(Clean(s).s)
    ensures Harmless(s, Seen(s.segs[c])[k]) ==>
            Clean(s).s == s.(phase := Scan(c, k + 1)) && Current(Clean(s).s) == Current(s)
  {
    hide Shape, Provided, Newest, Accounted, Sized;
    if Harmless(s, Seen(s.segs[c])[k]) {
      SkipEntry(s, c, k, s.(phase := Scan(c, k + 1)));
    } else if Clean(s).Continue? {
      StaleBreaks(s, c, k);
    }
  }

  /** An old entry that clients do not notice: harmless, or copied with the bytes that the object has anyway. */
  ghost predicate Unnoticed(s: State, e: Entry)
    requires TableOk(s) && s.target in s.cleaner
  {
    || Harmless(s, e)
    || (e.id in s.table && TargetRoom(s, Size(e)).ok && e.data == At(s, s.table[e.id]).data)
  }

  lemma StaleUnnoticed(s: State, c: nat, k: nat)
    requires Inv(s) && Sane(s) && TableOk(s) && s.phase == Scan(c, k) && |s.segs[c].log| <= k < |Seen(s.segs[c])|
    requires s.target in s.cleaner
    ensures Clean(s).Continue? ==> TableOk(Clean(s).s)
    ensures Clean(s).Continue? && Objects(Clean(s).s) == Objects(s) <==> Unnoticed(s, Seen(s.segs[c])[k])
  {
    var e := Seen(s.segs[c])[k];
    if Harmless(s, e) {
      StaleIs(s, c, k);
      InvTable(Clean(s).s);
    } else {
      StaleGoesOn(s, c, k, e);
      if Clean(s).Continue? {
        var f, h := StaleCopied(s, c, k, e);
        hide Inv, Sane, Clean, TargetRoom, Harmless;
        CopySeen(s, f, h, e);
      }
    }
  }

  /** Where a harmful old entry is not copied. */
  lemma StaleGoesOn(s: State, c: nat, k: nat, e: Entry)
    requires Sane(s) && TableOk(s) && s.phase == Scan(c, k) && k < |Seen(s.segs[c])| && e == Seen(s.segs[c])[k]
    requires !Harmless(s, e) && s.target in s.cleaner
    ensures Clean(s).Continue? <==> e.id in s.table && TargetRoom(s, Size(e)).ok
  {
    hide Past, Bytes;
  }

  /** What a copy does to the objects. */
  lemma CopySeen(s: State, f: State, h: nat, e: Entry)
    requires TableOk(s) && e.id in s.table && Pointed(s, f, h, e)
    ensures TableOk(f) && (Objects(f) == Objects(s) <==> e.data == At(s, s.table[e.id]).data)
  {
    PointedTable(s, f, h, e);
    PointedCurrent(s, f, h, e);
    assert Current(s)[e.id] == At(s, s.table[e.id]);
    hide Pointed, TableOk, Current;
    DataOfChanged(Current(s), e.id, e);
    SameWith(DataOf(Current(s)), e.id, e.data);
  }

  lemma SameWith(m: map<nat, seq<byte>>, id: nat, data: seq<byte>)
    requires id in m
    ensures m[id := data] == m <==> data == m[id]
  {
    assert m[id := data][id] == data;
  }

  // ---------- every step ----------

  lemma OwnEntry(s: State, c: nat, k: nat)
    requires Inv(s) && Sane(s) && s.phase == Scan(c, k) && k < |s.segs[c].log|
    ensures Clean(s).Continue? && Inv(Clean(s).s) && Current(Clean(s).s) == Current(s)
  {
    var e := s.segs[c].log[k];
    assert Seen(s.segs[c])[k] == e;
    if e.dead {
      DeadIsNotLocated(s, c, k);
      SkipEntry(s, c, k, Clean(s).s);
    } else {
      CopiedIsCurrent(s, c, k);
      if s.table[e.id] == Loc(c, k) {
        CopyEntry(s, c, k);
      } else {
        OutdatedIsNotLocated(s, c, k);
        SkipEntry(s, c, k, Clean(s).s);
      }
    }
  }

  lemma DeadIsNotLocated(s: State, c: nat, k: nat)
    requires Located(s) && c < |s.segs| && k < |s.segs[c].log| && s.segs[c].log[k].dead
    ensures forall id :: id in s.table ==> s.table[id] != Loc(c, k)
  {
  }

  lemma OutdatedIsNotLocated(s: State, c: nat, k: nat)
    requires TableOk(s) && c < |s.segs| && k < |s.segs[c].log|
    requires s.segs[c].log[k].id in s.table && s.table[s.segs[c].log[k].id] != Loc(c, k)
    ensures forall id :: id in s.table ==> s.table[id] != Loc(c, k)
  {
    forall id | id in s.table
      ensures s.table[id] != Loc(c, k)
    {
      assert At(s, s.table[id]).id == id;
    }
  }

  lemma WalkKeeps(s: State)
    requires Inv(s) && s.phase.Walk?
    ensures Sane(s) && Clean(s).Continue? && Inv(Clean(s).s) && Current(Clean(s).s) == Current(s)
  {
    if s.phase.at.None? || !WorthCleaning(s, s.phase.at.value) {
      WalkOn(s);
    } else if s.segs[s.phase.at.value].used != 0 {
      BeginScan(s);
    } else {
      SkipScan(s);
    }
  }

  /** What a scan does where it has nothing to copy. */
  lemma PassIs(s: State, c: nat, k: nat) returns (t: State)
    requires Sane(s) && TableOk(s) && s.phase == Scan(c, k) && ScanSafe(s)
    requires k < |s.segs[c].log| ==> Harmless(s, s.segs[c].log[k])
    ensures Clean(s) == Continue(t) && t == s.(phase := t.phase)
    ensures t.phase == if k < |Seen(s.segs[c])| then Scan(c, k + 1) else Retire(c, After(s.used, c))
  {
    hide TargetRoom, CopyToTarget;
    t := Clean(s).s;
  }

  /** A step of the cleaner goes through and keeps the heap in order, if and only if it does not come to something
      harmful behind the entries it scans; then no client can tell. */
  lemma CleanKeeps(s: State)
    requires Inv(s)
    ensures Sane(s)
    ensures ScanSafe(s) <==> Clean(s).Continue? && Inv(Clean(s).s)
    ensures ScanSafe(s) ==> Current(Clean(s).s) == Current(s) && Objects(Clean(s).s) == Objects(s)
  {
    InvIsSane(s);
    hide Shape, Provided, Newest, Accounted, Sized, Harmless;
    match s.phase
    case Start => StartKeeps(s);
    case Walk(_) => WalkKeeps(s);
    case Scan(c, k) =>
      if k < |s.segs[c].log| {
        OwnEntry(s, c, k);
      } else if k < |Seen(s.segs[c])| {
        StaleIs(s, c, k);
      } else if EndKnown(s.segs[c]) {
        EndScan(s);
      }
    case Retire(_, _) => RetireKeeps(s);
  }

  /** The cleaner is not about to do anything that clients can notice. */
  ghost predicate ScanUnnoticed(s: State)
    requires TableOk(s)
  {
    s.phase.Scan? && s.phase.seg < |s.segs| && s.target in s.cleaner ==>
      var g := s.segs[s.phase.seg];
      if s.phase.k < |g.log| then true
      else if s.phase.k < |Seen(g)| then Unnoticed(s, Seen(g)[s.phase.k])
      else EndKnown(g)
  }

  /** A step of the cleaner goes through and changes no object, if and only if that is so; it may spoil a count. */
  lemma CleanUnnoticed(s: State)
    requires Inv(s)
    ensures TableOk(s) && Sane(s) && (Clean(s).Continue? ==> TableOk(Clean(s).s))
    ensures Clean(s).Continue? && Objects(Clean(s).s) == Objects(s) <==> ScanUnnoticed(s)
  {
    InvTable(s);
    InvIsSane(s);
    CleanKeeps(s);
    if ScanSafe(s) {
      InvTable(Clean(s).s);
      SafeUnnoticed(s);
    } else {
      hide Inv, ScanUnnoticed, Clean;
      HarmIsBehind(s);
      if s.phase.k < |Seen(s.segs[s.phase.seg])| {
        StaleUnnoticed(s, s.phase.seg, s.phase.k);
      } else {
        UnknownUnnoticed(s);
      }
      BehindUnnoticed(s);
    }
  }

  lemma SafeUnnoticed(s: State)
    requires TableOk(s) && ScanSafe(s)
    ensures ScanUnnoticed(s)
  {
  }

  lemma HarmIsBehind(s: State)
    requires TableOk(s) && Sane(s) && !ScanSafe(s)
    ensures s.phase.Scan? && s.phase.seg < |s.segs|
    ensures |s.segs[s.phase.seg].log| <= s.phase.k <= |Seen(s.segs[s.phase.seg])|
    ensures s.target in s.cleaner
  {
  }

  lemma UnknownUnnoticed(s: State)
    requires TableOk(s) && Sane(s) && !ScanSafe(s)
    requires s.phase.Scan? && s.phase.seg < |s.segs| && s.phase.k == |Seen(s.segs[s.phase.seg])|
    ensures !Clean(s).Continue? && !EndKnown(s.segs[s.phase.seg])
  {
  }

  lemma BehindUnnoticed(s: State)
    requires TableOk(s) && s.phase.Scan? && s.phase.seg < |s.segs| && s.target in s.cleaner
    requires |s.segs[s.phase.seg].log| <= s.phase.k <= |Seen(s.segs[s.phase.seg])|
    ensures ScanUnnoticed(s) <==>
            if s.phase.k < |Seen(s.segs[s.phase.seg])| then Unnoticed(s, Seen(s.segs[s.phase.seg])[s.phase.k])
            else EndKnown(s.segs[s.phase.seg])
  {
  }
}
