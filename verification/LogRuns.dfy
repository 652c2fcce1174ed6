/** Runs of the heap: any interleaving of client calls with steps of the cleaner. */
module LogRuns {
  import opened Wrappers
  import opened Layout
  import opened LogState
  import opened LiveBytes
  import opened LogInvariant
  import opened ClientSteps
  import opened CleanerSteps

  datatype Op =
    | Palloc(id: nat, data: seq<byte>)         // `id` is the one that was generated
    | PallocWithId(id: nat, data: seq<byte>)
    | UpdateData(id: nat, data: seq<byte>)
    | Pfree(id: nat)
    | CleanerStep

  /** A heap nothing has been stored in: one head, the rest free, the last segment in reserve. Initialisation leaves the
      data areas as they are; `ends` is what is known of their bytes. */
  function Formatted(ends: seq<End>): State
    requires |ends| >= 2
  {
    var n := |ends|;
    State(seq(n, i requires 0 <= i < n => Segment([], 0, Behind([], ends[i]))),
          Some(0), 0, seq(n - 2, i requires 0 <= i => i + 1), [], [], [n - 1], RESERVE, map[], Start, 0, 0)
  }

  /** The same in a mapping that is all zero. */
  function Fresh(n: nat): State
    requires n >= 2
  {
    Formatted(seq(n, _ => Zeros))
  }

  function Step(s: State, op: Op): (Outcome, bool)
    requires Sane(s)
  {
    match op
    case Palloc(id, data) => var r := New(s, id, data); (Continue(r.s), r.ok)
    case PallocWithId(id, data) => var r := Put(s, id, data); (Continue(r.s), r.ok)
    case UpdateData(id, data) => var r := Update(s, id, data); (Continue(r.s), r.ok)
    case Pfree(id) => (Continue(Free(s, id)), true)
    case CleanerStep => (Clean(s), true)
  }

  /** What each call asks for: an entry that runs over the end of a segment must not be written, an object that is
      stored anew needs room (or its old version must be counted twice, in a segment being cleaned), an object that is
      freed must not have an older unmarked version, and the cleaner must not come to something harmful from an earlier
      use of the segment it scans. The id for palloc is an unused one. */
  ghost predicate Allowed(s: State, op: Op)
    requires TableOk(s)
  {
    match op
    case Palloc(id, data) => id !in s.table && CanStore(s, data)
    case PallocWithId(id, data) => CanStore(s, data) && CanReplace(s, id, data)
    case UpdateData(id, data) => id in s.table ==> CanStore(s, data) && CanReplace(s, id, data)
    case Pfree(id) => id in s.table ==> OnlyVersion(s, id)
    case CleanerStep => ScanSafe(s)
  }

  ghost predicate CanStore(s: State, data: seq<byte>) {
    data != [] ==> Fits(s, ENTRY_HEADER + |data|)
  }

  ghost predicate CanReplace(s: State, id: nat, data: seq<byte>)
    requires TableOk(s)
  {
    id in s.table && data != [] ==> HasRoom(s, ENTRY_HEADER + |data|) || Overcounted(s, id)
  }

  /** What the call does to a plain map. */
  ghost function OnMap(m: map<nat, seq<byte>>, op: Op, ok: bool): map<nat, seq<byte>> {
    match op
    case Pfree(id) => m - {id}
    case CleanerStep => m
    case _ => if ok then m[op.id := op.data] else m
  }

  /** When the call succeeds. */
  ghost predicate Succeeds(s: State, op: Op) {
    match op
    case Palloc(_, data) => data != [] && HasRoom(s, ENTRY_HEADER + |data|)
    case PallocWithId(_, data) => data != [] && HasRoom(s, ENTRY_HEADER + |data|)
    case UpdateData(id, data) => data != [] && id in s.table && HasRoom(s, ENTRY_HEADER + |data|)
    case _ => true
  }

  lemma FormattedInv(ends: seq<End>)
    requires |ends| >= 2
    ensures Inv(Formatted(ends)) && Objects(Formatted(ends)) == map[]
  {
    var s := Formatted(ends);
    forall x: nat | 1 <= x < |ends| - 1
      ensures x in s.free
    {
      assert s.free[x - 1] == x;
    }
    assert Partition(s);
  }

  /** The step goes through, keeps the heap in order, and does to the objects what a map would do. */
  ghost predicate Refined(s: State, op: Op)
    requires Sane(s)
  {
    var (o, ok) := Step(s, op);
    && o.Continue? && Inv(o.s)
    && (ok <==> Succeeds(s, op))
    && TableOk(s) && TableOk(o.s) && Objects(o.s) == OnMap(Objects(s), op, ok)
    && (!op.CleanerStep? ==> Undisturbed(s, o.s))
  }

  lemma PallocRefined(s: State, id: nat, data: seq<byte>)
    requires Sane(s) && Inv(s) && TableOk(s) && Allowed(s, Palloc(id, data))
    ensures Refined(s, Palloc(id, data))
  {
    EmptyFits(s, data);
    hide Inv, HasRoom, Fits, Undisturbed, Objects, TableOk, Sane, New;
    NewKeeps(s, id, data);
  }

  /** An entry without bytes is none, and fits. */
  lemma EmptyFits(s: State, data: seq<byte>)
    requires CanStore(s, data)
    ensures Fits(s, ENTRY_HEADER + |data|)
  {
  }

  lemma PutRefined(s: State, id: nat, data: seq<byte>)
    requires Sane(s) && Inv(s) && TableOk(s) && Allowed(s, PallocWithId(id, data))
    ensures Refined(s, PallocWithId(id, data))
  {
    NoneDisturbed(s);
    hide Inv, HasRoom, Fits, Undisturbed, Current, Objects, Newer, Publish, TableOk, Sane, New, Update, Overcounted;
    if data != [] && id in s.table {
      UpdateKeeps(s, id, data);
    } else {
      EmptyFits(s, data);
      PutKeeps(s, id, data);
    }
  }

  lemma UpdateRefined(s: State, id: nat, data: seq<byte>)
    requires Sane(s) && Inv(s) && TableOk(s) && Allowed(s, UpdateData(id, data))
    ensures Refined(s, UpdateData(id, data))
  {
    NoneDisturbed(s);
    hide Inv, HasRoom, Fits, Undisturbed, Objects, TableOk, Sane, Update, Overcounted;
    if id in s.table && data != [] {
      UpdateKeeps(s, id, data);
    } else {
      NothingToUpdate(s, id, data);
    }
  }

  lemma NothingToUpdate(s: State, id: nat, data: seq<byte>)
    requires Sane(s) && (id !in s.table || data == [])
    ensures Update(s, id, data) == Result(s, false)
  {
  }

  /** Otherwise it publishes the next version, when the old one is off its count. */
  lemma UpdatePublishes(s: State, id: nat, data: seq<byte>) returns (d: State, e: Entry)
    requires Sane(s) && data != [] && id in s.table
    ensures ValidLoc(s, s.table[id]) && d == Discount(s, s.table[id]) && e == At(s, s.table[id]) && InRange(d)
    ensures Update(s, id, data) == Publish(d, e.(version := e.version + 1, data := data))
  {
    hide Publish;
    d, e := Discount(s, s.table[id]), At(s, s.table[id]);
  }

  lemma FreeRefined(s: State, id: nat)
    requires Sane(s) && Inv(s) && TableOk(s) && Allowed(s, Pfree(id))
    ensures Refined(s, Pfree(id))
  {
    NoneDisturbed(s);
    hide Inv, OnlyVersion, Undisturbed, Objects, TableOk, Sane, Free;
    if id in s.table {
      FreeKeeps(s, id);
      InvTable(Free(s, id));
    } else {
      NothingToFree(s, id);
    }
  }

  lemma NothingToFree(s: State, id: nat)
    requires Sane(s) && id !in s.table
    ensures Free(s, id) == s && Objects(s) - {id} == Objects(s)
  {
  }

  lemma CleanRefined(s: State)
    requires Sane(s) && Inv(s) && TableOk(s) && Allowed(s, CleanerStep)
    ensures Refined(s, CleanerStep)
  {
    hide Inv, Objects, TableOk, Sane, Clean, ScanSafe;
    CleanKeeps(s);
    InvTable(Clean(s).s);
  }

  lemma StepRefines(s: State, op: Op)
    requires Inv(s) && TableOk(s) && Allowed(s, op)
    ensures Sane(s) && Refined(s, op)
  {
    InvIsSane(s);
    StepRefinesSane(s, op);
  }

  lemma StepRefinesSane(s: State, op: Op)
    requires Sane(s) && Inv(s) && TableOk(s) && Allowed(s, op)
    ensures Refined(s, op)
  {
    match op
    case Palloc(id, data) => PallocRefined(s, id, data);
    case PallocWithId(id, data) => PutRefined(s, id, data);
    case UpdateData(id, data) => UpdateRefined(s, id, data);
    case Pfree(id) => FreeRefined(s, id);
    case CleanerStep => CleanRefined(s);
  }

  // ---------- nothing less will do ----------

  /** An entry that runs over the end of its segment is written all the same. */
  lemma OversizeIsWritten(s: State, d: State, e: Entry)
    requires Inv(s) && Discounted(s, d, e.id) && !Fits(s, Size(e))
    ensures InRange(d) && !Inv(Publish(d, e).s)
  {
    DiscountedShape(s, d, e.id);
    FitsSame(s, d, Size(e));
    hide Shape, Fits, Discounted, Publish;
    OversizeIsPublished(d, e);
  }

  lemma OversizeIsPublished(d: State, e: Entry)
    requires Shape(d) && !Fits(d, Size(e))
    ensures InRange(d) && !Sized(Publish(d, e).s)
  {
    hide Bytes, Shape;
    ShapeInRange(d);
    var r := MakeRoom(d, Size(e)).s;
    var h := r.head.value;
    BytesAppend(r.segs[h].log, e);
    assert Publish(d, e).s.segs[h].log == r.segs[h].log + [e];
  }

  lemma ShapeInRange(d: State)
    requires Shape(d)
    ensures InRange(d)
  {
  }

  lemma PallocExact(s: State, id: nat, data: seq<byte>)
    requires Inv(s) && Sane(s) && TableOk(s) && id !in s.table && !CanStore(s, data)
    ensures !Inv(New(s, id, data).s)
  {
    UndiscountedIs(s, id);
    OversizeIsWritten(s, s, Entry(id, 1, data, false));
  }

  lemma UpdateExact(s: State, id: nat, data: seq<byte>)
    requires Inv(s) && Sane(s) && TableOk(s) && id in s.table && !(CanStore(s, data) && CanReplace(s, id, data))
    ensures !Inv(Update(s, id, data).s)
  {
    hide Inv, Shape, HasRoom, Fits, Overcounted, Discounted, Publish;
    if CanStore(s, data) {
      UpdateKeeps(s, id, data);
    } else {
      DiscountNoUnderflow(s, id);
      TableEntry(s, id);
      hide TableOk;
      var d, e := UpdateIs(s, id, data);
      hide Update;
      OversizeIsWritten(s, d, e);
    }
  }

  lemma TableEntry(s: State, id: nat)
    requires Inv(s) && TableOk(s) && id in s.table
    ensures At(s, s.table[id]).id == id && !At(s, s.table[id]).dead
  {
  }

  /** In a heap that is in order, these conditions are just what keeps it so. */
  lemma StepExact(s: State, op: Op)
    requires Inv(s) && TableOk(s) && (op.Palloc? ==> op.id !in s.table)
    ensures Sane(s)
    ensures Allowed(s, op) <==> Step(s, op).0.Continue? && Inv(Step(s, op).0.s)
  {
    InvIsSane(s);
    hide Inv, Sane, TableOk, New, Update, Free, Clean, CanStore, CanReplace, OnlyVersion, ScanSafe;
    if Allowed(s, op) {
      StepRefinesSane(s, op);
    } else {
      match op
      case Palloc(id, data) => PallocExact(s, id, data);
      case PallocWithId(id, data) => PutExact(s, id, data);
      case UpdateData(id, data) => UpdateExact(s, id, data);
      case Pfree(id) => FreeKeeps(s, id);
      case CleanerStep => CleanKeeps(s);
    }
  }

  lemma PutExact(s: State, id: nat, data: seq<byte>)
    requires Inv(s) && Sane(s) && TableOk(s) && !(CanStore(s, data) && CanReplace(s, id, data))
    ensures !Inv(Put(s, id, data).s)
  {
    assert data != [];
    hide Inv, Sane, TableOk, New, Update, Fits, HasRoom, Overcounted;
    if id in s.table {
      UpdateExact(s, id, data);
    } else {
      PallocExact(s, id, data);
    }
  }

  // ---------- runs ----------

  datatype Run = Completed(s: State, oks: seq<bool>) | Stuck(why: Outcome)

  /** All the steps, one after the other. */
  ghost function Execute(s: State, ops: seq<Op>): Run
    decreases |ops|
  {
    if ops == [] || !Sane(s) then Completed(s, [])
    else
      var (o, ok) := Step(s, ops[0]);
      if !o.Continue? then Stuck(o)
      else
        var r := Execute(o.s, ops[1..]);
        if r.Completed? then r.(oks := [ok] + r.oks) else r
  }

  ghost predicate Admissible(s: State, ops: seq<Op>)
    decreases |ops|
  {
    ops == [] || !Sane(s) || !TableOk(s) ||
    (Allowed(s, ops[0]) && (Step(s, ops[0]).0.Continue? ==> Admissible(Step(s, ops[0]).0.s, ops[1..])))
  }

  /** The same calls on a plain map, given which of them succeed. */
  ghost function Replay(m: map<nat, seq<byte>>, ops: seq<Op>, oks: seq<bool>): map<nat, seq<byte>>
    requires |ops| == |oks|
    decreases |ops|
  {
    if ops == [] then m else Replay(OnMap(m, ops[0], oks[0]), ops[1..], oks[1..])
  }

  /** The run completes with the heap in order, and is a run of a map. */
  ghost predicate RunRefined(s: State, ops: seq<Op>, r: Run)
    requires TableOk(s)
  {
    && r.Completed? && Inv(r.s) && |r.oks| == |ops|
    && Objects(r.s) == Replay(Objects(s), ops, r.oks)
  }

  lemma {:induction false} RunRefines(s: State, ops: seq<Op>)
    requires Inv(s) && Admissible(s, ops)
    ensures RunRefined(s, ops, Execute(s, ops))
    decreases |ops|
  {
    if ops != [] {
      var t, ok := NextState(s, ops);
      RunRefines(t, ops[1..]);
      RunExtends(s, ops, t, ok, Execute(t, ops[1..]));
    }
  }

  lemma NextState(s: State, ops: seq<Op>) returns (t: State, ok: bool)
    requires Inv(s) && ops != [] && Admissible(s, ops)
    ensures Sane(s) && Step(s, ops[0]) == (Continue(t), ok) && Inv(t) && Admissible(t, ops[1..])
    ensures TableOk(s) && TableOk(t) && Objects(t) == OnMap(Objects(s), ops[0], ok)
  {
    InvIsSane(s);
    InvTable(s);
    StepRefines(s, ops[0]);
    t, ok := Step(s, ops[0]).0.s, Step(s, ops[0]).1;
  }

  lemma RunExtends(s: State, ops: seq<Op>, t: State, ok: bool, r: Run)
    requires ops != [] && Sane(s) && TableOk(s) && TableOk(t) && Step(s, ops[0]) == (Continue(t), ok)
    requires Objects(t) == OnMap(Objects(s), ops[0], ok)
    requires r == Execute(t, ops[1..]) && RunRefined(t, ops[1..], r)
    ensures RunRefined(s, ops, Execute(s, ops))
  {
    assert ([ok] + r.oks)[1..] == r.oks;
  }

  /** From a new log on, every run completes with the invariant, and is a run of a map. */
  lemma HeapIsAMap(ends: seq<End>, ops: seq<Op>)
    requires |ends| >= 2 && Admissible(Formatted(ends), ops)
    ensures var r := Execute(Formatted(ends), ops);
            && r.Completed? && Inv(r.s) && |r.oks| == |ops|
            && Objects(r.s) == Replay(map[], ops, r.oks)
  {
    FormattedInv(ends);
    RunRefines(Formatted(ends), ops);
  }

  /** In every reachable state the head and the four lists have each segment exactly once, and the reserve's counter is
      right. */
  lemma ReachableLists(ends: seq<End>, ops: seq<Op>)
    requires |ends| >= 2 && Admissible(Formatted(ends), ops)
    ensures var r := Execute(Formatted(ends), ops);
            r.Completed? && Partition(r.s) && r.s.reserve == |r.s.emergency| <= RESERVE
  {
    HeapIsAMap(ends, ops);
  }

  /** In every reachable state each segment counts exactly the bytes of the entries the table points to; only the one
      being cleaned may count more. */
  lemma ReachableCounts(ends: seq<End>, ops: seq<Op>, i: nat)
    requires |ends| >= 2 && Admissible(Formatted(ends), ops)
    ensures var r := Execute(Formatted(ends), ops);
            r.Completed? &&
            (i < |r.s.segs| ==>
                Live(r.s, i) <= r.s.segs[i].used && (!IsCurrent(r.s.phase, i) ==> r.s.segs[i].used == Live(r.s, i)))
  {
    HeapIsAMap(ends, ops);
  }
}
