/** What it means to find no room: the failure lasts until the cleaner recycles a segment. */
module OutOfSpace {
  import opened Layout
  import opened Lists
  import opened LogState
  import opened LogInvariant
  import opened ClientSteps
  import opened LogRuns

  /** There is no head, and no segment to become one. */
  ghost predicate NoSpace(s: State) {
    s.head.None? && s.free == []
  }

  predicate Storing(op: Op) {
    op.Palloc? || op.PallocWithId? || op.UpdateData?
  }

  /** There is something to store. */
  ghost predicate Stores(s: State, op: Op) {
    Storing(op) && op.data != [] && (op.UpdateData? ==> op.id in s.table)
  }

  /** Storing is publishing, when the old version has been taken off its count. */
  lemma StoresIsPublish(s: State, op: Op) returns (d: State, e: Entry)
    requires Inv(s) && Stores(s, op)
    ensures Sane(s) && Shape(d) && Sized(d) && InRange(d) && d == s.(segs := d.segs)
    ensures Step(s, op) == (Continue(Publish(d, e).s), Publish(d, e).ok)
  {
    InvIsSane(s);
    InvTable(s);
    hide Publish;
    if op.Palloc? || op.id !in s.table {
      d, e := s, Entry(op.id, 1, op.data, false);
    } else {
      DiscountNoUnderflow(s, op.id);
      d, e := UpdateIs(s, op.id, op.data);
      DiscountedShape(s, d, op.id);
      ShapeInRange(d);
    }
  }

  /** A publication that fails has put the head on the used list, and found nothing to take its place. */
  lemma PublishFailed(d: State, e: Entry)
    requires Shape(d) && Sized(d) && InRange(d) && !Publish(d, e).ok
    ensures var t := Publish(d, e).s; NoSpace(t) && (d.head.Some? ==> d.head.value in t.used)
  {
    MakeRoomShape(d, Size(e));
    hide MakeRoom, Shape, Sized, InRange;
  }

  lemma NoSpaceNoRoom(t: State)
    requires NoSpace(t)
    ensures forall n :: !HasRoom(t, n)
  {
  }

  /** A store that finds no room leaves none: the head it gave up is on the used list, where the cleaner can reach it,
      and nothing can be stored any more, however short. */
  lemma FailureLeavesNoSpace(s: State, op: Op)
    requires Inv(s) && Stores(s, op)
    ensures Sane(s) && Step(s, op).0.Continue?
    ensures !Step(s, op).1 ==>
              var t := Step(s, op).0.s;
              && t.head.None? && t.free == [] && (forall n :: !HasRoom(t, n))
              && (s.head.Some? ==> s.head.value in t.used)
  {
    var d, e := StoresIsPublish(s, op);
    hide Inv, Sane, Shape, Sized, Step, InRange, Publish, HasRoom;
    if !Publish(d, e).ok {
      PublishFailed(d, e);
      NoSpaceNoRoom(Publish(d, e).s);
    }
  }

  // ---------- until a segment is recycled ----------

  /** Without space every store fails, and only recycling makes space. */
  lemma StepWithoutSpace(s: State, op: Op)
    requires Inv(s) && Sane(s) && NoSpace(s) && Step(s, op).0.Continue? && !(op.CleanerStep? && s.phase.Retire?)
    ensures NoSpace(Step(s, op).0.s) && (Storing(op) ==> !Step(s, op).1)
  {
    if Stores(s, op) {
      var d, e := StoresIsPublish(s, op);
      hide Inv, Sane, Shape, Step, InRange, Sized;
      PublishWithoutSpace(d, e);
    } else if op.CleanerStep? {
      hide Inv, Shape;
      CleanWithoutSpace(s);
    } else if Storing(op) {
      NothingStored(s, op);
    } else {
      hide Inv, Shape;
    }
  }

  lemma PublishWithoutSpace(d: State, e: Entry)
    requires InRange(d) && NoSpace(d)
    ensures Publish(d, e) == Result(d, false)
  {
  }

  lemma NothingStored(s: State, op: Op)
    requires Sane(s) && Storing(op) && !Stores(s, op)
    ensures Step(s, op) == (Continue(s), false)
  {
  }

  lemma CleanWithoutSpace(s: State)
    requires Sane(s) && NoSpace(s) && !s.phase.Retire? && Clean(s).Continue?
    ensures NoSpace(Clean(s).s)
  {
    hide Past, Bytes, Remove;
    if s.phase.Scan? && s.phase.k < |Seen(s.segs[s.phase.seg])| {
      var e := Seen(s.segs[s.phase.seg])[s.phase.k];
      TargetWithoutSpace(s.(phase := Scan(s.phase.seg, s.phase.k + 1)), Size(e));
      hide TargetRoom;
    }
  }

  lemma TargetWithoutSpace(s: State, size: nat)
    requires InRange(s) && NoSpace(s) && s.target in s.cleaner
    ensures var r := TargetRoom(s, size); NoSpace(r.s) && (r.ok && s.target < |s.segs| ==> r.s.target < |r.s.segs|)
  {
    hide Remove;
  }

  /** A segment is recycled in the course of the run. */
  ghost predicate Recycles(s: State, ops: seq<Op>)
    decreases |ops|
  {
    ops != [] && Sane(s) && Step(s, ops[0]).0.Continue?
    && ((ops[0].CleanerStep? && s.phase.Retire?) || Recycles(Step(s, ops[0]).0.s, ops[1..]))
  }

  /** After a store has found no room, every store fails, however short, until the cleaner recycles a segment. */
  lemma {:induction false} FailsUntilRecycled(s: State, ops: seq<Op>)
    requires Inv(s) && s.head.None? && s.free == [] && Admissible(s, ops) && !Recycles(s, ops)
    ensures var r := Execute(s, ops);
            && r.Completed? && |r.oks| == |ops| && r.s.head.None? && r.s.free == []
            && forall i :: 0 <= i < |ops| && Storing(ops[i]) ==> !r.oks[i]
    decreases |ops|
  {
    if ops != [] {
      var t, ok := NextState(s, ops);
      StepWithoutSpace(s, ops[0]);
      hide Inv, Sane, Step, Admissible;
      FailsUntilRecycled(t, ops[1..]);
      OneMoreFails(s, ops, t, ok);
    }
  }

  lemma OneMoreFails(s: State, ops: seq<Op>, t: State, ok: bool)
    requires ops != [] && Sane(s) && Step(s, ops[0]) == (Continue(t), ok) && (Storing(ops[0]) ==> !ok)
    requires var r := Execute(t, ops[1..]);
             && r.Completed? && |r.oks| == |ops[1..]| && NoSpace(r.s)
             && forall i :: 0 <= i < |ops[1..]| && Storing(ops[1..][i]) ==> !r.oks[i]
    ensures var r := Execute(s, ops);
            && r.Completed? && |r.oks| == |ops| && NoSpace(r.s)
            && forall i :: 0 <= i < |ops| && Storing(ops[i]) ==> !r.oks[i]
  {
    hide Sane, Step;
    var r, q := Execute(s, ops), Execute(t, ops[1..]);
    assert r == Completed(q.s, [ok] + q.oks);
    forall i | 0 <= i < |ops| && Storing(ops[i])
      ensures !r.oks[i]
    {
      if i > 0 {
        assert ops[1..][i - 1] == ops[i] && r.oks[i] == q.oks[i - 1];
      }
    }
  }

  /** Recycling, once the reserve is full, makes room for any entry that fits a segment. */
  lemma RecyclingMakesRoom(s: State, n: nat)
    requires Inv(s) && s.phase.Retire? && s.reserve == RESERVE && n <= DATA_SIZE
    ensures Sane(s) && Clean(s).Continue? && s.phase.seg in Clean(s).s.free && HasRoom(Clean(s).s, n)
  {
    InvIsSane(s);
    hide Inv, Remove;
  }
}
