/** When all objects have the same length, no scan ever reads an entry from an earlier use of its segment:
    then the cleaner is safe whatever it does, and what is asked of the calls is all that is asked. */
module EqualSizes {
  import opened Layout
  import opened Lists
  import opened LogState
  import opened LiveBytes
  import opened LogInvariant
  import opened ClientSteps
  import opened CleanerSteps
  import opened LogRuns

  /** As many entries of this size as a segment holds. */
  function Most(size: nat): nat
    requires size > 0
  {
    DATA_SIZE / size
  }

  ghost predicate AllOf(log: seq<Entry>, size: nat) {
    forall j :: 0 <= j < |log| ==> Size(log[j]) == size
  }

  /** A segment in its first use, or one whose old entries begin just where the new ones end. */
  ghost predicate Even(g: Segment, size: nat)
    requires size > 0
  {
    && AllOf(g.log, size) && AllOf(g.behind.es, size)
    && (g.behind == Behind([], Zeros) || (|Seen(g)| == Most(size) && EndKnown(g)))
  }

  /** All segments are like that, and those on the used list are full. */
  ghost predicate AllEven(s: State, size: nat)
    requires size > 0
  {
    && (forall i: nat :: i < |s.segs| ==> Even(s.segs[i], size))
    && (forall x :: x in s.used ==> x < |s.segs| && |s.segs[x].log| == Most(size))
  }

  lemma {:induction false} BytesOf(log: seq<Entry>, size: nat)
    requires AllOf(log, size)
    ensures Bytes(log) == |log| * size
    decreases |log|
  {
    if log != [] {
      BytesOf(log[..|log| - 1], size);
    }
  }

  /** No room for one more of this size: as many as there can be. */
  lemma FullIsMost(log: seq<Entry>, size: nat)
    requires size > 0 && AllOf(log, size) && Bytes(log) <= DATA_SIZE
    ensures |log| <= Most(size)
    ensures DATA_SIZE - Bytes(log) < size <==> |log| == Most(size)
  {
    BytesOf(log, size);
    MostIs(size, |log|);
  }

  lemma MostIs(size: nat, n: nat)
    requires size > 0 && n * size <= DATA_SIZE
    ensures n <= Most(size) && (DATA_SIZE - n * size < size <==> n == Most(size))
  {
    var m := Most(size);
    assert m * size <= DATA_SIZE < (m + 1) * size;
    if n > m {
      Multiples(m + 1, n, size);
    } else if n < m {
      Multiples(n + 1, m, size);
    }
  }

  lemma Multiples(a: nat, b: nat, size: nat)
    requires a <= b
    ensures a * size <= b * size
  {
  }

  lemma FullIsTerminated(g: Segment, size: nat)
    requires size > 0 && Even(g, size) && |g.log| == Most(size)
    ensures Terminated(g)
  {
  }

  // ---------- what the operations do to a segment ----------

  /** One more entry takes the place of one old entry. */
  lemma WriteEven(g: Segment, e: Entry, size: nat)
    requires size > 0 && Even(g, size) && Size(e) == size && Bytes(g.log) + size <= DATA_SIZE
    ensures Even(Segment(g.log + [e], g.used + size, Past(g.behind, size)), size)
  {
    FullIsMost(g.log, size);
    if g.behind != Behind([], Zeros) {
      var es := g.behind.es;
      assert Past(Behind(es[1..], g.behind.end), 0) == Behind(es[1..], g.behind.end);
      var w := Segment(g.log + [e], g.used + size, Behind(es[1..], g.behind.end));
      BytesOf(Seen(g), size);
      BytesOf(Seen(w), size);
    }
  }

  lemma EndEven(g: Segment, size: nat)
    requires size > 0 && Even(g, size) && |g.log| == Most(size)
    ensures Even(g.(behind := Behind([], Stops)), size)
  {
  }

  lemma EmptiedEven(g: Segment, size: nat)
    requires size > 0 && Even(g, size) && |g.log| == Most(size)
    ensures Even(Emptied(g), size)
  {
    assert [] + Seen(g) == Seen(g);
  }

  // ---------- what they do to the heap ----------

  /** Entries of the same sizes, and the same behind them. */
  lemma SameEven(s: State, d: State, size: nat)
    requires size > 0 && AllEven(s, size) && d.used == s.used && |d.segs| == |s.segs|
    requires forall i: nat {:trigger d.segs[i]} {:trigger s.segs[i]} :: i < |s.segs| ==>
               && d.segs[i].behind == s.segs[i].behind && |d.segs[i].log| == |s.segs[i].log|
               && forall j :: 0 <= j < |s.segs[i].log| ==> Size(d.segs[i].log[j]) == Size(s.segs[i].log[j])
    ensures AllEven(d, size)
  {
    forall i: nat | i < |d.segs|
      ensures Even(d.segs[i], size)
    {
      assert Even(s.segs[i], size);
      SegmentSameEven(s.segs[i], d.segs[i], size);
    }
  }

  lemma SegmentSameEven(g: Segment, h: Segment, size: nat)
    requires size > 0 && Even(g, size) && h.behind == g.behind && |h.log| == |g.log|
    requires forall j :: 0 <= j < |g.log| ==> Size(h.log[j]) == Size(g.log[j])
    ensures Even(h, size)
  {
    if g.behind != Behind([], Zeros) {
      assert AllOf(Seen(h), size) && AllOf(Seen(g), size);
      BytesOf(Seen(g), size);
      BytesOf(Seen(h), size);
    }
  }

  lemma NextHeadEven(s: State, size: nat)
    requires size > 0 && AllEven(s, size) && s.head.None?
    ensures AllEven(NextHead(s).s, size)
  {
  }

  /** A head is given up only when it is full. */
  lemma HeadIsFull(s: State, size: nat)
    requires size > 0 && Shape(s) && Sized(s) && AllEven(s, size) && s.head.Some? && DATA_SIZE - s.headPos < size
    ensures s.head.value < |s.segs| && Even(s.segs[s.head.value], size) && |s.segs[s.head.value].log| == Most(size)
  {
    var h := s.head.value;
    assert h < |s.segs| && SizedSegment(s.segs[h]) && s.headPos == Bytes(s.segs[h].log) && Even(s.segs[h], size);
    hide Shape, Sized, AllEven;
    FullIsMost(s.segs[h].log, size);
  }

  lemma ChangeHeadEven(s: State, size: nat)
    requires size > 0 && AllEven(s, size) && s.head.Some?
    requires s.head.value < |s.segs| && Even(s.segs[s.head.value], size) && |s.segs[s.head.value].log| == Most(size)
    ensures AllEven(NextHead(EndHead(s)).s, size)
  {
    EndEven(s.segs[s.head.value], size);
    hide Even;
    assert NextHead(EndHead(s)).s.used == s.used + [s.head.value];
  }

  lemma MakeRoomEven(s: State, size: nat)
    requires 0 < size <= DATA_SIZE && Shape(s) && Sized(s) && AllEven(s, size)
    ensures AllEven(MakeRoom(s, size).s, size)
  {
    hide Shape, Sized, AllEven;
    if s.head.None? {
      NextHeadEven(s, size);
      NextHeadShape(s);
    } else if DATA_SIZE - s.headPos < size {
      HeadIsFull(s, size);
      ChangeHeadEven(s, size);
    }
  }

  lemma WriteAllEven(s: State, h: nat, e: Entry, f: State, size: nat)
    requires size > 0 && AllEven(s, size) && h < |s.segs| && h !in s.used && Size(e) == size
             && Bytes(s.segs[h].log) + size <= DATA_SIZE
    requires f.segs == WriteEntry(s, h, e).segs && f.used == s.used
    ensures AllEven(f, size)
  {
    assert Even(s.segs[h], size);
    hide Even, Past;
    WriteEven(s.segs[h], e, size);
  }

  lemma PublishEven(s: State, e: Entry, size: nat)
    requires 0 < size <= DATA_SIZE && Shape(s) && Sized(s) && AllEven(s, size) && Size(e) == size
    ensures InRange(s) && AllEven(Publish(s, e).s, size)
  {
    ShapeInRange(s);
    MakeRoomShape(s, size);
    MakeRoomEven(s, size);
    var r := MakeRoom(s, size);
    if r.ok {
      HeadHasRoom(r.s, size);
      hide Shape, Sized, AllEven, MakeRoom;
      WriteAllEven(r.s, r.s.head.value, e, Publish(s, e).s, size);
    }
  }

  lemma HeadHasRoom(r: State, size: nat)
    requires Shape(r) && r.head.Some? && r.headPos + size <= DATA_SIZE
    ensures r.head.value < |r.segs| && r.head.value !in r.used && Bytes(r.segs[r.head.value].log) + size <= DATA_SIZE
  {
  }

  lemma UpdateEven(s: State, id: nat, data: seq<byte>, size: nat)
    requires Inv(s) && Sane(s) && size > 0 && AllEven(s, size)
             && (data != [] ==> ENTRY_HEADER + |data| == size <= DATA_SIZE)
    ensures AllEven(Update(s, id, data).s, size)
  {
    hide Inv, Shape, Sized, AllEven, Sane, Publish;
    if data != [] && id in s.table {
      var d := DiscountEven(s, id, size);
      var e := At(s, s.table[id]);
      PublishEven(d, e.(version := e.version + 1, data := data), size);
    }
  }

  lemma DiscountEven(s: State, id: nat, size: nat) returns (d: State)
    requires Inv(s) && Sane(s) && id in s.table && size > 0 && AllEven(s, size)
    ensures ValidLoc(s, s.table[id]) && d == Discount(s, s.table[id]) && Shape(d) && Sized(d) && AllEven(d, size)
  {
    InvTable(s);
    DiscountNoUnderflow(s, id);
    d := Discount(s, s.table[id]);
    DiscountedShape(s, d, id);
    hide Inv, Sane, Shape, Sized, AllEven, Discount;
    SameEven(s, d, size);
  }

  lemma FreeEven(s: State, id: nat, size: nat)
    requires Inv(s) && Sane(s) && size > 0 && AllEven(s, size)
    ensures AllEven(Free(s, id), size)
  {
    if id in s.table {
      FreeIsFreed(s, id);
      InvTable(s);
      hide Inv, AllEven, Sane, Free, Freed;
      FreedEven(s, Free(s, id), id, size);
    }
  }

  lemma FreedEven(s: State, f: State, id: nat, size: nat)
    requires TableOk(s) && id in s.table && Freed(s, f, id) && size > 0 && AllEven(s, size)
    ensures AllEven(f, size)
  {
    hide AllEven;
    forall i: nat | i < |s.segs|
      ensures |f.segs[i].log| == |s.segs[i].log| && forall j :: 0 <= j < |s.segs[i].log| ==>
              Size(f.segs[i].log[j]) == Size(s.segs[i].log[j])
    {
    }
    SameEven(s, f, size);
  }

  // ---------- the cleaner ----------

  /** A segment that is scanned has nothing old behind its entries. */
  lemma EvenIsSafe(s: State, size: nat)
    requires Inv(s) && size > 0 && AllEven(s, size)
    ensures TableOk(s) && ScanSafe(s)
  {
    InvTable(s);
    if s.phase.Scan? {
      assert s.phase.seg in s.used;
      FullIsTerminated(s.segs[s.phase.seg], size);
    }
    hide Shape, Provided, Located, Newest, Accounted, Sized;
  }

  lemma MoveEven(s: State, t: State, size: nat)
    requires size > 0 && AllEven(s, size) && t.segs == s.segs && forall x :: x in t.used ==> x in s.used
    ensures AllEven(t, size)
  {
  }

  lemma RecycleEven(s: State, c: nat, t: State, size: nat)
    requires size > 0 && AllEven(s, size) && c < |s.segs| && c in s.used && Distinct(s.used)
    requires t.segs == s.segs[c := Emptied(s.segs[c])] && t.used == Remove(s.used, c)
    ensures AllEven(t, size)
  {
    RemoveDistinct(s.used, c);
    assert Even(s.segs[c], size);
    hide Even;
    EmptiedEven(s.segs[c], size);
  }

  /** A target is given up only when it is full. */
  lemma TargetEven(s: State, r: State, size: nat)
    requires size > 0 && AllEven(s, size) && SameButTarget(s, r) && s.target < |s.segs|
             && SizedSegment(s.segs[s.target])
    requires s.targetPos == Bytes(s.segs[s.target].log)
    requires r == s || (DATA_SIZE - s.targetPos < size && r.used == s.used + [s.target])
    ensures AllEven(r, size)
  {
    if r != s {
      assert Even(s.segs[s.target], size);
      FullIsMost(s.segs[s.target].log, size);
      hide Even;
    }
  }

  lemma CopyEven(s: State, c: nat, k: nat, f: State, size: nat)
    requires Inv(s) && Sane(s) && size > 0 && AllEven(s, size) && s.phase == Scan(c, k) && k < |s.segs[c].log|
             && !s.segs[c].log[k].dead
    requires s.segs[c].log[k].id in s.table && s.table[s.segs[c].log[k].id] == Loc(c, k) && Clean(s) == Continue(f)
    ensures AllEven(f, size)
  {
    var e := s.segs[c].log[k];
    assert Even(s.segs[c], size) && Size(e) == size;
    var r := TargetFor(s, c, k, e);
    hide Inv, Sane, AllEven, TargetRoom, Clean;
    TargetEven(s, r, size);
    var f' := CleanCopies(s, c, k, e, r);
    WriteAllEven(r, r.target, e, f, size);
  }

  lemma TargetFor(s: State, c: nat, k: nat, e: Entry) returns (r: State)
    requires Inv(s) && Sane(s) && s.phase == Scan(c, k) && k < |s.segs[c].log| && e == s.segs[c].log[k] && !e.dead
    requires e.id in s.table && s.table[e.id] == Loc(c, k)
    ensures s.target in s.cleaner && TargetRoom(s, Size(e)) == Result(r, true) && SameButTarget(s, r)
    ensures s.target < |s.segs| && SizedSegment(s.segs[s.target]) && s.targetPos == Bytes(s.segs[s.target].log)
    ensures r == s || (DATA_SIZE - s.targetPos < Size(e) && r.used == s.used + [s.target])
    ensures r.target < |r.segs| && r.target !in r.used && Bytes(r.segs[r.target].log) + Size(e) <= DATA_SIZE
  {
    ShapeTarget(s, c, k);
    assert SizedSegment(s.segs[s.target]);
    r := TargetReady(s, c, k, e);
    hide Inv, Sane, Shape, Provided, TargetRoom, SizedSegment;
    TargetNotUsed(r, c, k);
    TargetUsed(s, Size(e), r);
  }

  lemma TargetNotUsed(t: State, c: nat, k: nat)
    requires Shape(t) && t.phase == Scan(c, k)
    ensures t.target !in t.used
  {
    assert t.target in t.cleaner;
  }

  lemma TargetUsed(s: State, size: nat, r: State)
    requires s.target in s.cleaner && TargetRoom(s, size) == Result(r, true)
    ensures r == s || (DATA_SIZE - s.targetPos < size && r.used == s.used + [s.target])
  {
  }

  lemma PassEven(s: State, c: nat, k: nat, f: State, size: nat)
    requires Sane(s) && TableOk(s) && size > 0 && AllEven(s, size) && s.phase == Scan(c, k) && ScanSafe(s)
    requires k < |s.segs[c].log| ==> Harmless(s, s.segs[c].log[k])
    requires Clean(s) == Continue(f)
    ensures AllEven(f, size)
  {
    hide AllEven, Clean, ScanSafe;
    var f' := PassIs(s, c, k);
    MoveEven(s, f, size);
  }

  lemma ScanEven(s: State, f: State, size: nat)
    requires Inv(s) && Sane(s) && size > 0 && AllEven(s, size) && s.phase.Scan? && Clean(s) == Continue(f)
    ensures AllEven(f, size)
  {
    EvenIsSafe(s, size);
    hide AllEven, Clean, ScanSafe, Shape, Provided, Newest, Accounted, Sized;
    var c, k := s.phase.seg, s.phase.k;
    if k < |s.segs[c].log| && !s.segs[c].log[k].dead {
      CopiedIsCurrent(s, c, k);
      if s.table[s.segs[c].log[k].id] == Loc(c, k) {
        CopyEven(s, c, k, f, size);
      } else {
        PassEven(s, c, k, f, size);
      }
    } else {
      PassEven(s, c, k, f, size);
    }
  }

  lemma RetireEven(s: State, f: State, size: nat)
    requires Inv(s) && Sane(s) && size > 0 && AllEven(s, size) && s.phase.Retire? && Clean(s) == Continue(f)
    ensures AllEven(f, size)
  {
    assert Distinct(s.used) && s.phase.seg < |s.segs|;
    hide Inv, AllEven;
    RecycleEven(s, s.phase.seg, f, size);
  }

  lemma StartEven(s: State, f: State, size: nat)
    requires Sane(s) && size > 0 && AllEven(s, size) && (s.phase.Start? || s.phase.Walk?) && Clean(s) == Continue(f)
    ensures AllEven(f, size)
  {
    hide AllEven;
    MoveEven(s, f, size);
  }

  lemma CleanEven(s: State, f: State, size: nat)
    requires Inv(s) && Sane(s) && size > 0 && AllEven(s, size) && Clean(s) == Continue(f)
    ensures AllEven(f, size)
  {
    hide Inv, Sane, AllEven, Clean;
    match s.phase
    case Start => StartEven(s, f, size);
    case Walk(_) => StartEven(s, f, size);
    case Scan(_, _) => ScanEven(s, f, size);
    case Retire(_, _) => RetireEven(s, f, size);
  }

  // ---------- runs ----------

  /** What is asked of the calls, and nothing of the cleaner: all objects have the one length. */
  ghost predicate CallAllowed(s: State, op: Op, length: nat)
    requires TableOk(s)
  {
    match op
    case Palloc(id, data) => id !in s.table && (data != [] ==> |data| == length)
    case PallocWithId(id, data) => (data != [] ==> |data| == length) && CanReplace(s, id, data)
    case UpdateData(id, data) => (data != [] ==> |data| == length) && CanReplace(s, id, data)
    case Pfree(id) => id in s.table ==> OnlyVersion(s, id)
    case CleanerStep => true
  }

  ghost predicate CallsAllowed(s: State, ops: seq<Op>, length: nat)
    decreases |ops|
  {
    ops == [] || !Sane(s) || !TableOk(s) ||
    (CallAllowed(s, ops[0], length)
        && (Step(s, ops[0]).0.Continue? ==> CallsAllowed(Step(s, ops[0]).0.s, ops[1..], length)))
  }

  lemma CallIsAllowed(s: State, op: Op, length: nat)
    requires Inv(s) && TableOk(s) && AllEven(s, ENTRY_HEADER + length) && CallAllowed(s, op, length)
             && ENTRY_HEADER + length <= DATA_SIZE
    ensures Allowed(s, op)
  {
    if op.CleanerStep? {
      EvenIsSafe(s, ENTRY_HEADER + length);
    }
  }

  lemma StepEven(s: State, op: Op, t: State, length: nat)
    requires Inv(s) && Sane(s) && TableOk(s) && AllEven(s, ENTRY_HEADER + length) && CallAllowed(s, op, length)
    requires ENTRY_HEADER + length <= DATA_SIZE && Step(s, op).0 == Continue(t)
    ensures AllEven(t, ENTRY_HEADER + length)
  {
    var size := ENTRY_HEADER + length;
    assert Shape(s) && Sized(s);
    hide Inv, Sane, TableOk, AllEven, Shape, Sized, Publish, Update, Free, Clean, OnlyVersion, CanReplace;
    match op
    case Palloc(id, data) => NewEven(s, id, data, size);
    case PallocWithId(id, data) => PutEven(s, id, data, size);
    case UpdateData(id, data) => UpdateEven(s, id, data, size);
    case Pfree(id) => FreeEven(s, id, size);
    case CleanerStep => CleanEven(s, t, size);
  }

  lemma NewEven(s: State, id: nat, data: seq<byte>, size: nat)
    requires Shape(s) && Sized(s) && size > 0 && AllEven(s, size)
             && (data != [] ==> ENTRY_HEADER + |data| == size <= DATA_SIZE)
    ensures InRange(s) && AllEven(New(s, id, data).s, size)
  {
    ShapeInRange(s);
    hide Shape, Sized, AllEven, Publish;
    if data != [] {
      PublishEven(s, Entry(id, 1, data, false), size);
    }
  }

  lemma PutEven(s: State, id: nat, data: seq<byte>, size: nat)
    requires Inv(s) && Shape(s) && Sized(s) && Sane(s) && size > 0 && AllEven(s, size)
    requires data != [] ==> ENTRY_HEADER + |data| == size <= DATA_SIZE
    ensures AllEven(Put(s, id, data).s, size)
  {
    hide Inv, Shape, Sized, Sane, AllEven, New, Update;
    NewEven(s, id, data, size);
    UpdateEven(s, id, data, size);
  }

  lemma {:induction false} CallsAreAdmissible(s: State, ops: seq<Op>, length: nat)
    requires Inv(s) && AllEven(s, ENTRY_HEADER + length) && CallsAllowed(s, ops, length)
             && ENTRY_HEADER + length <= DATA_SIZE
    ensures Admissible(s, ops)
    decreases |ops|
  {
    InvTable(s);
    InvIsSane(s);
    hide Inv, Sane, AllEven, TableOk, Step, Allowed, CallAllowed;
    if ops != [] {
      CallIsAllowed(s, ops[0], length);
      StepRefines(s, ops[0]);
      StepInv(s, ops[0]);
      var t := Step(s, ops[0]).0.s;
      StepEven(s, ops[0], t, length);
      CallsAreAdmissible(t, ops[1..], length);
    }
  }

  lemma StepInv(s: State, op: Op)
    requires Sane(s) && Refined(s, op)
    ensures Step(s, op).0.Continue? && Inv(Step(s, op).0.s)
  {
  }

  lemma FreshEven(n: nat, size: nat)
    requires n >= 2 && size > 0
    ensures AllEven(Fresh(n), size)
  {
  }

  /** A heap of objects of one length is a map, whatever the cleaner does between the calls. */
  lemma HeapIsAMap(n: nat, ops: seq<Op>, length: nat)
    requires n >= 2 && ENTRY_HEADER + length <= DATA_SIZE && CallsAllowed(Fresh(n), ops, length)
    ensures var r := Execute(Fresh(n), ops);
            && r.Completed? && Inv(r.s) && |r.oks| == |ops|
            && Objects(r.s) == Replay(map[], ops, r.oks)
  {
    FormattedInv(seq(n, _ => Zeros));
    FreshEven(n, ENTRY_HEADER + length);
    CallsAreAdmissible(Fresh(n), ops, length);
    LogRuns.HeapIsAMap(seq(n, _ => Zeros), ops);
  }
}
