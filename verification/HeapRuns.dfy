/** Any sequence of client calls and single steps of the cleaner thread, made on the memory: it is a run of the heap as
    a value, and so the objects in memory are those of a plain map. */
module HeapRuns {
  import opened Wrappers
  import opened Layout
  import opened LogState
  import opened LiveBytes
  import opened LogInvariant
  import opened ClientSteps
  import opened CleanerSteps
  import opened LogRuns
  import opened Addresses
  import opened Chains
  import opened Offsets
  import opened IdGen
  import opened LogSize
  import opened SegmentBytes
  import opened StoredSegments
  import opened Numbering
  import opened GeneratedIds
  import Recovery
  import opened HeapMemory

  /** Where in its code the cleaner thread is: getting its first target, at the head of the loop over the used list, in
      the loop over a segment's entries, or about to recycle. */
  datatype Pc = AtStart | AtWalk | AtScan | AtRetire

  predicate AtPhase(pc: Pc, p: Phase) {
    match pc
    case AtStart => p.Start?
    case AtWalk => p.Walk?
    case AtScan => p.Scan?
    case AtRetire => p.Retire?
  }

  /** What is called; palloc generates the id. */
  datatype Call =
    | Alloc(data: seq<byte>)
    | AllocWithId(id: nat, data: seq<byte>)
    | Store(id: nat, data: seq<byte>)
    | Release(id: nat)
    | CleanerRuns

  /** The call, with the id that was generated, is this operation. */
  ghost predicate IsCall(op: Op, c: Call) {
    match c
    case Alloc(data) => op.Palloc? && op.data == data
    case AllocWithId(id, data) => op == PallocWithId(id, data)
    case Store(id, data) => op == UpdateData(id, data)
    case Release(id) => op == Pfree(id)
    case CleanerRuns => op == CleanerStep
  }

  /** Each call is allowed when it is made, whatever unused ids were generated. */
  ghost predicate CallsAllowed(s: State, calls: seq<Call>)
    decreases |calls|
  {
    calls == [] || !Sane(s) || !TableOk(s) ||
    forall op :: IsCall(op, calls[0]) && (op.Palloc? ==> op.id !in s.table) ==>
      && Allowed(s, op)
      && (Step(s, op).0.Continue? ==> CallsAllowed(Step(s, op).0.s, calls[1..]))
  }

  // ---------- one step of the cleaner ----------

  /** The body of the loop over the used list, up to the test whether the segment is to be scanned. */
  method StepWalk(h: Heap) returns (pc: Pc)
    requires h.Valid() && Inv(h.m) && Whole(h.m.segs) && h.m.phase.Walk?
    modifies h, h.next, h.usedSpace, h.area
    ensures h.Valid() && Inv(h.m) && Sane(old(h.m)) && Clean(old(h.m)) == Continue(h.m) && AtPhase(pc, h.m.phase)
    ensures h.consistent == old(h.consistent) && h.currentId == old(h.currentId)
  {
    hide Inv, Clean, Sane, Chained, OffsetTable, CleanerAt, SegmentOf, SegmentAddr, Whole, Holding;
    pc := AtWalk;
    if h.currSeg == 0 {
      NoSegment(h.cleanerSeg, h.cleanerPos, h.currSeg, h.scanPos, h.nextSeg, h.m);
      h.StartPass();
    } else {
      ghost var c := SomeSegment(h.cleanerSeg, h.cleanerPos, h.currSeg, h.scanPos, h.nextSeg, h.m);
      if h.usedSpace[SegmentOf(h.currSeg)] < HALF_SEGMENT {
        var scan := h.EnterSegment(c);
        pc := if scan then AtScan else AtRetire;
      } else {
        h.SkipSegment(c);
      }
    }
  }

  lemma NoSegment(a: nat, b: nat, c: nat, d: nat, n: nat, m: State)
    requires CleanerAt(a, b, c, d, n, m) && m.phase.Walk? && c == 0
    ensures m.phase == Walk(None)
  {
  }

  lemma SomeSegment(a: nat, b: nat, c: nat, d: nat, n: nat, m: State) returns (x: nat)
    requires CleanerAt(a, b, c, d, n, m) && m.phase.Walk? && c != 0 && Inv(m)
    ensures m.phase == Walk(Some(x)) && SegmentOf(c) == x < |m.segs|
  {
    x := m.phase.at.value;
    WalkerAt(a, b, c, d, n, m, x);
    assert x in m.used;
  }

  /** The loop over a segment's entries: one entry, or the end. */
  method StepScan(h: Heap) returns (pc: Pc)
    requires h.Valid() && Inv(h.m) && Whole(h.m.segs) && h.m.phase.Scan? && TableOk(h.m) && ScanSafe(h.m)
    modifies h, h.next, h.usedSpace, h.area
    ensures h.Valid() && Sane(old(h.m)) && Clean(old(h.m)) == Continue(h.m) && AtPhase(pc, h.m.phase)
    ensures h.consistent == old(h.consistent) && h.currentId == old(h.currentId)
  {
    hide Inv, Clean, Sane, Chained, OffsetTable, CleanerAt, SegmentOf, SegmentAddr, TableOk, ScanSafe, Bytes, Pos, Word,
         Whole, Holding;
    ghost var c, k := h.m.phase.seg, h.m.phase.k;
    CleanerScans(h.cleanerSeg, h.cleanerPos, h.currSeg, h.scanPos, h.nextSeg, h.m);
    var segment := SegmentOf(h.currSeg);
    ReadsSafely(h.m, c, k, h.area[..]);
    if h.scanPos < DATA_SIZE - ENTRY_HEADER && Word(h.area[segment], h.scanPos + LENGTH_AT) != 0 {
      h.CleanEntry();
      pc := AtScan;
    } else {
      h.LeaveSegment(c);
      pc := AtRetire;
    }
  }

  lemma ReadsSafely(m: State, c: nat, k: nat, bs: seq<seq<byte>>)
    requires Inv(m) && TableOk(m) && m.phase == Scan(c, k) && c < |m.segs| && ScanSafe(m)
    requires Holding(m.segs, bs) && k <= |Seen(m.segs[c])|
    ensures c < |bs| && ReadOn(bs[c], Seen(m.segs[c]), k)
    ensures k == |Seen(m.segs[c])| ==> EndKnown(m.segs[c])
  {
    hide Inv, Described, Word, Pos;
    ScanGoesOn(bs[c], m.segs[c], k);
  }

  method StepCleaner(h: Heap, at: Pc) returns (pc: Pc)
    requires h.Valid() && Inv(h.m) && Whole(h.m.segs) && AtPhase(at, h.m.phase) && TableOk(h.m) && ScanSafe(h.m)
    modifies h, h.next, h.usedSpace, h.area
    ensures h.Valid() && Sane(old(h.m)) && Clean(old(h.m)) == Continue(h.m) && AtPhase(pc, h.m.phase)
    ensures h.consistent == old(h.consistent) && h.currentId == old(h.currentId)
  {
    hide Inv, Clean, Sane, Chained, OffsetTable, CleanerAt, TableOk, ScanSafe, Whole, Holding;
    match at {
      case AtStart =>
        h.StartCleaner();
        pc := AtWalk;
      case AtWalk =>
        pc := StepWalk(h);
      case AtScan =>
        pc := StepScan(h);
      case AtRetire =>
        h.RecycleSegment(h.m.phase.seg);
        pc := AtWalk;
    }
  }

  // ---------- any call ----------

  /** One call, or one step of the cleaner thread, on the memory: the operation it is, and whether it succeeds. */
  method Do(h: Heap, call: Call, at: Pc) returns (ghost op: Op, ok: bool, pc: Pc)
    requires h.Valid() && Inv(h.m) && Whole(h.m.segs) && h.consistent && AtPhase(at, h.m.phase) && TableOk(h.m)
    requires exists x :: Usable(h.table, x)
    requires call.CleanerRuns? ==> ScanSafe(h.m)
    modifies h, h.next, h.usedSpace, h.area
    ensures h.Valid() && h.consistent && Sane(old(h.m)) && IsCall(op, call)
    ensures op.Palloc? ==> op.id !in old(h.m).table && op.id < TWO_64
    ensures Generates(op) ==> FirstUsable(old(h.m).table, old(h.currentId), op.id)
    ensures h.currentId == NextCounter(old(h.currentId), op)
    ensures Step(old(h.m), op) == (Continue(h.m), ok)
    ensures AtPhase(pc, h.m.phase)
  {
    hide Inv, Clean, Sane, Chained, OffsetTable, CleanerAt, TableOk, ScanSafe, New, Put, Update, Free, HasRoom, Allowed,
         OnlyVersion, Objects, CanStore, Whole, Holding, Candidate, Distance;
    InvIsSane(h.m);
    SameKeys(h.table, h.m);
    ok, pc := true, at;
    match call {
      case Alloc(data) =>
        ghost var unused :| Usable(h.table, unused);
        ghost var s := h.m;
        var id, g := h.Palloc(data);
        if data == [] {
          g := unused;
          NothingStored(s, unused);
        } else {
          FirstUsableByKeys(old(h.table), s.table, old(h.currentId), g);
        }
        op, ok := Palloc(g, data), id != 0;
        StepStays(s, op);
      case AllocWithId(id, data) =>
        op := PallocWithId(id, data);
        ghost var s := h.m;
        var failed := h.PallocWithId(id, data);
        ok := !failed;
        StepStays(s, op);
      case Store(id, data) =>
        op := UpdateData(id, data);
        ghost var s := h.m;
        var failed := h.UpdateData(id, data);
        ok := !failed;
        StepStays(s, op);
      case Release(id) =>
        op := Pfree(id);
        ghost var s := h.m;
        h.Pfree(id);
        StepStays(s, op);
      case CleanerRuns =>
        op := CleanerStep;
        pc := StepCleaner(h, at);
    }
  }

  lemma NothingStored(s: State, id: nat)
    requires Sane(s)
    ensures New(s, id, []) == Result(s, false)
  {
  }

  /** A client call leaves the cleaner where it is. */
  lemma StepStays(s: State, op: Op)
    requires Sane(s) && !op.CleanerStep?
    ensures Step(s, op).0.Continue? && Step(s, op).0.s.phase == s.phase
  {
    hide Past, Bytes;
  }

  // ---------- any sequence of them ----------

  /** The operations are the calls, and a run of them. */
  ghost predicate Ran(s: State, calls: seq<Call>, ops: seq<Op>, oks: seq<bool>, m: State) {
    && |ops| == |calls| == |oks| && (forall i :: 0 <= i < |ops| ==> IsCall(ops[i], calls[i]))
    && Execute(s, ops) == Completed(m, oks)
  }

  predicate WordCall(c: Call) {
    c.AllocWithId? ==> c.id < TWO_64
  }

  /** The ids that clients choose are 64-bit words. */
  ghost predicate WordCalls(calls: seq<Call>) {
    forall i :: 0 <= i < |calls| ==> WordCall(calls[i])
  }

  lemma WordCallsRest(calls: seq<Call>)
    requires WordCalls(calls) && calls != []
    ensures WordCall(calls[0]) && WordCalls(calls[1..])
  {
  }

  /** The bytes of the heap's data areas are those of the entries that the state has. */
  ghost predicate Stands(h: Heap)
    reads h, h.next, h.usedSpace, h.area
  {
    h.Valid() && Inv(h.m) && Holding(h.m.segs, h.area[..])
  }

  /** Whatever the calls store, there will be unused ids. */
  predicate IdsLeft(table: map<nat, nat>, calls: seq<Call>) {
    |table| + |calls| < TWO_64 - 1
  }

  /** The first of the calls. */
  method RunFirst(h: Heap, calls: seq<Call>, at: Pc, ghost v: nat) returns (ghost op: Op, ok: bool, pc: Pc)
    requires h.Valid() && Inv(h.m) && h.consistent && AtPhase(at, h.m.phase) && CallsAllowed(h.m, calls) && calls != []
    requires IdsLeft(h.table, calls) && Numbered(h.m.segs, v) && v < TWO_64 && WordCall(calls[0])
    modifies h, h.next, h.usedSpace, h.area
    ensures h.Valid() && Inv(h.m) && h.consistent && AtPhase(pc, h.m.phase) && CallsAllowed(h.m, calls[1..])
    ensures IdsLeft(h.table, calls[1..]) && Numbered(h.m.segs, v + 1)
    ensures Sane(old(h.m)) && IsCall(op, calls[0]) && Step(old(h.m), op) == (Continue(h.m), ok)
    ensures TableOk(old(h.m)) && TableOk(h.m) && Objects(h.m) == OnMap(Objects(old(h.m)), op, ok)
    ensures Generates(op) ==> FirstUsable(old(h.m).table, old(h.currentId), op.id)
    ensures h.currentId == NextCounter(old(h.currentId), op)
  {
    hide Inv, Sane, OffsetTable, CleanerAt, TableOk, ScanSafe, Allowed, Objects, Step, CallsAllowed, IsCall, OnMap,
         Whole, Holding, Numbered, FirstUsable;
    ghost var s := h.m;
    InvTable(s);
    InvIsSane(s);
    WholeByNumbers(s, v);
    UsableIdExists(h.table);
    FirstAllowed(s, calls);
    SameKeys(h.table, s);
    op, ok, pc := Do(h, calls[0], at);
    CallDone(s, calls, op, ok, h.m);
    CallNumbered(s, calls[0], op, ok, h.m, v);
    SameKeys(h.table, h.m);
    KeysGrow(s, h.m, op, ok);
    assert |h.table| == |h.table.Keys| && |old(h.table)| == |old(h.table).Keys|;
  }

  /** Calls, and steps of the cleaner between them, on a heap in order, as long as no version (none is above `v`) gets
      too high for its word: the memory, byte for byte, then stands for the state that the run ends in, and the objects
      are those that the same calls make of a map. */
  method Run(h: Heap, calls: seq<Call>, at: Pc, ghost v: nat) returns (ghost ops: seq<Op>, oks: seq<bool>, pc: Pc)
    requires h.Valid() && Inv(h.m) && h.consistent && AtPhase(at, h.m.phase) && CallsAllowed(h.m, calls)
    requires IdsLeft(h.table, calls)
    requires Numbered(h.m.segs, v) && v + |calls| < TWO_64 && WordCalls(calls)
    modifies h, h.next, h.usedSpace, h.area
    ensures Stands(h) && h.consistent && AtPhase(pc, h.m.phase)
    ensures Ran(old(h.m), calls, ops, oks, h.m)
    ensures TableOk(old(h.m)) && TableOk(h.m) && Objects(h.m) == Replay(Objects(old(h.m)), ops, oks)
    ensures Counted(old(h.m), old(h.currentId), ops, h.currentId)
    decreases |calls|
  {
    hide Inv, Sane, OffsetTable, CleanerAt, TableOk, Objects, Step, CallsAllowed, Ran, Replay, IsCall, OnMap, Whole,
         Holding, Numbered, Stands, WordCall, WordCalls, IdsLeft, Heap.Valid, Counted, FirstUsable, NextCounter;
    ghost var s, from := h.m, h.currentId;
    ops, oks, pc := [], [], at;
    if calls == [] {
      StandsNow(h, v);
      NoneRan(s);
      NoneCounted(s, from);
      return;
    }
    WordCallsRest(calls);
    ghost var op; var ok;
    op, ok, pc := RunFirst(h, calls, at, v);
    ghost var t := h.m;
    ghost var rest; var restOks;
    rest, restOks, pc := Run(h, calls[1..], pc, v + 1);
    OneMoreRan(s, calls, op, ok, t, rest, restOks, h.m);
    OneMoreCounted(s, from, op, ok, t, rest, h.currentId);
    ops, oks := [op] + rest, [ok] + restOks;
  }

  lemma StandsNow(h: Heap, v: nat)
    requires h.Valid() && Inv(h.m) && Numbered(h.m.segs, v) && v < TWO_64
    ensures Stands(h) && TableOk(h.m)
  {
    hide Inv, Numbered, Whole, Holding;
    InvTable(h.m);
    WholeByNumbers(h.m, v);
  }

  lemma WholeByNumbers(s: State, v: nat)
    requires Inv(s) && Numbered(s.segs, v) && v < TWO_64
    ensures Whole(s.segs)
  {
    InvParts(s);
    NumberedWhole(s, v);
  }

  lemma CallNumbered(s: State, c: Call, op: Op, ok: bool, t: State, v: nat)
    requires Sane(s) && Numbered(s.segs, v) && IsCall(op, c) && WordCall(c) && (op.Palloc? ==> op.id < TWO_64)
    requires Step(s, op) == (Continue(t), ok)
    ensures Numbered(t.segs, v + 1)
  {
    hide Sane, Numbered, Step;
    StepNumbered(s, op, v);
  }

  lemma NoneRan(s: State)
    requires TableOk(s)
    ensures Ran(s, [], [], [], s) && Objects(s) == Replay(Objects(s), [], [])
  {
  }

  lemma NoneCounted(s: State, from: nat)
    ensures Counted(s, from, [], from)
  {
  }

  lemma OneMoreCounted(s: State, from: nat, op: Op, ok: bool, t: State, ops: seq<Op>, to: nat)
    requires Sane(s) && TableOk(s) && Step(s, op) == (Continue(t), ok)
    requires Generates(op) ==> FirstUsable(s.table, from, op.id)
    requires Counted(t, NextCounter(from, op), ops, to)
    ensures Counted(s, from, [op] + ops, to)
  {
    hide Sane, Step, TableOk, FirstUsable;
    assert ([op] + ops)[1..] == ops;
  }

  lemma FirstAllowed(s: State, calls: seq<Call>)
    requires Sane(s) && TableOk(s) && calls != [] && CallsAllowed(s, calls)
    ensures calls[0].CleanerRuns? ==> ScanSafe(s)
  {
    if calls[0].CleanerRuns? {
      assert IsCall(CleanerStep, calls[0]) && Allowed(s, CleanerStep);
    }
  }

  lemma CallDone(s: State, calls: seq<Call>, op: Op, ok: bool, t: State)
    requires Inv(s) && Sane(s) && TableOk(s) && calls != [] && CallsAllowed(s, calls)
    requires IsCall(op, calls[0]) && (op.Palloc? ==> op.id !in s.table) && Step(s, op) == (Continue(t), ok)
    ensures Inv(t) && TableOk(t) && CallsAllowed(t, calls[1..]) && Objects(t) == OnMap(Objects(s), op, ok)
  {
    hide Inv, Sane, TableOk, Step, Objects, OnMap;
    assert Allowed(s, op);
    hide Allowed;
    StepRefines(s, op);
  }

  lemma KeysGrow(s: State, t: State, op: Op, ok: bool)
    requires TableOk(s) && TableOk(t) && Objects(t) == OnMap(Objects(s), op, ok)
    ensures |t.table.Keys| <= |s.table.Keys| + 1
  {
    ObjectsHaveKeys(s);
    ObjectsHaveKeys(t);
    hide Objects, TableOk;
    var added := OnMapAdds(Objects(s), op, ok);
    SubsetSize(t.table.Keys, s.table.Keys + added);
  }

  lemma ObjectsHaveKeys(s: State)
    requires TableOk(s)
    ensures Objects(s).Keys == s.table.Keys
  {
    assert Current(s).Keys == s.table.Keys;
  }

  /** A call adds one object at most. */
  lemma OnMapAdds(m: map<nat, seq<byte>>, op: Op, ok: bool) returns (added: set<nat>)
    ensures |added| <= 1 && OnMap(m, op, ok).Keys <= m.Keys + added
  {
    added := if op.Pfree? || op.CleanerStep? then {} else {op.id};
  }

  lemma OneMoreRan(s: State, calls: seq<Call>, op: Op, ok: bool, t: State, ops: seq<Op>, oks: seq<bool>, m: State)
    requires Sane(s) && calls != [] && IsCall(op, calls[0]) && Step(s, op) == (Continue(t), ok)
             && Ran(t, calls[1..], ops, oks, m)
    requires TableOk(s) && TableOk(t) && TableOk(m)
    requires Objects(t) == OnMap(Objects(s), op, ok) && Objects(m) == Replay(Objects(t), ops, oks)
    ensures Ran(s, calls, [op] + ops, [ok] + oks, m) && Objects(m) == Replay(Objects(s), [op] + ops, [ok] + oks)
  {
    hide Sane, Step, TableOk, Objects, OnMap;
    assert ([op] + ops)[1..] == ops && ([ok] + oks)[1..] == oks;
    forall i | 0 <= i < |[op] + ops|
      ensures IsCall(([op] + ops)[i], calls[i])
    {
      if i > 0 {
        assert calls[i] == calls[1..][i - 1];
      }
    }
  }

  /** The same from a new log on, whatever the mapping holds. */
  method RunNew(size: nat, mapping: seq<seq<byte>>, calls: seq<Call>)
      returns (h: Heap, ghost ops: seq<Op>, oks: seq<bool>)
    requires size >= MIN_LOG_LENGTH && Carved(size) == Expected(size) && |calls| < TWO_64 - 1
    requires |mapping| == size / SEGMENT_SIZE && forall i :: 0 <= i < |mapping| ==> |mapping[i]| == DATA_SIZE
    requires CallsAllowed(Formatted(EndsOf(mapping, Carved(size))), calls)
    requires WordCalls(calls)
    ensures Stands(h) && TableOk(h.m)
    ensures Ran(Formatted(EndsOf(mapping, Carved(size))), calls, ops, oks, h.m)
    ensures Objects(h.m) == Replay(map[], ops, oks)
    ensures Counted(Formatted(EndsOf(mapping, Carved(size))), 0, ops, h.currentId)
    ensures forall i, j :: 0 <= i < j < |ops| && Generates(ops[i]) && Generates(ops[j]) ==> ops[i].id < ops[j].id
  {
    hide CallsAllowed, Formatted, EndsOf, Ran, OffsetTable, CleanerAt, Numbered, Whole, Holding, WordCalls,
         Counted;
    h := new Heap(size, mapping);
    h.CheckConsistency();
    FormattedInv(EndsOf(mapping, Carved(size)));
    FormattedNumbered(EndsOf(mapping, Carved(size)));
    FormattedStarts(EndsOf(mapping, Carved(size)));
    SameKeys(h.table, h.m);
    assert h.table.Keys == {};
    assert |h.table| == |h.table.Keys|;
    var pc;
    ops, oks, pc := Run(h, calls, AtStart, 0);
    RanLength(Formatted(EndsOf(mapping, Carved(size))), calls, ops, oks, h.m);
    NeverAgain(Formatted(EndsOf(mapping, Carved(size))), ops, h.currentId);
  }

  lemma RanLength(s: State, calls: seq<Call>, ops: seq<Op>, oks: seq<bool>, m: State)
    requires Ran(s, calls, ops, oks, m)
    ensures |ops| == |calls|
  {
  }

  lemma FormattedStarts(ends: seq<End>)
    requires |ends| >= 2
    ensures AtPhase(AtStart, Formatted(ends).phase) && Formatted(ends).table == map[]
  {
  }

  /** A crash, and the table rebuilt from what memory holds: it is the one that was lost, offset for offset, if and only
      if heap and bytes are safe. */
  method Crash(h: Heap)
    requires Stands(h)
    modifies h`table
    ensures TableOk(h.m) && Recovery.Readable(Recovery.AsRead(h.m, Tails(h.m.segs, h.area[..])))
    ensures h.table == old(h.table) <==> Recovery.CrashSafe(h.m, Tails(h.m.segs, h.area[..]))
  {
    hide Inv, Shape, Sized, Holding, Whole, Tails, OffsetTable, CleanerAt, Chained, Recovery.AsRead, Recovery.CrashSafe;
    InvTable(h.m);
    InvParts(h.m);
    HoldingWhole(h.m.segs, h.area[..]);
    h.ReconstructHashTable();
    RebuiltTableIsOld(h.m, h.area[..], old(h.table), h.table);
  }
}
