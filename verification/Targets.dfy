/** Cleaning one segment takes at most one new target segment. */
module Targets {
  import opened Layout
  import opened LogState
  import opened LiveBytes
  import opened LogInvariant
  import opened CleanerSteps
  import opened LogRuns

  /** The target has room for everything still to be moved out of the segment in hand. */
  ghost predicate RoomForRest(s: State) {
    s.phase.Scan? && s.phase.seg < |s.segs|
    && s.targetPos + LiveFrom(s.table, s.phase.seg, s.segs[s.phase.seg].log, s.phase.k) <= DATA_SIZE
  }

  /** Within the scan, a target with room is kept, and a new target has room. */
  ghost predicate TargetSettled(s: State, t: State) {
    && (t.target != s.target ==> RoomForRest(t))
    && (RoomForRest(s) ==> t.target == s.target && (t.phase.Scan? ==> RoomForRest(t)))
  }

  lemma CopySettles(s: State, c: nat, k: nat)
    requires Inv(s) && s.phase == Scan(c, k) && k < |s.segs[c].log| && !s.segs[c].log[k].dead
    requires s.segs[c].log[k].id in s.table && s.table[s.segs[c].log[k].id] == Loc(c, k)
    ensures Sane(s) && Clean(s).Continue? && TargetSettled(s, Clean(s).s)
  {
    var e := s.segs[c].log[k];
    InvIsSane(s);
    hide Shape, Provided, Newest, Accounted, Sized, TargetRoom, Clean, TargetSettled;
    var r := TargetRoom(s, Size(e));
    TargetRoomKeeps(s, c, k, r);
    ShapeTarget(r.s, c, k);
    CopySettlesTo(s, c, k, e, r.s);
  }

  lemma CopySettlesTo(s: State, c: nat, k: nat, e: Entry, t: State)
    requires Sane(s) && TableOk(s) && s.phase == Scan(c, k) && c < |s.segs| && k < |s.segs[c].log|
             && e == s.segs[c].log[k] && !e.dead
    requires e.id in s.table && s.table[e.id] == Loc(c, k)
    requires TargetRoom(s, Size(e)) == Result(t, true) && SameButTarget(s, t) && Provided(t) && t.target != c
             && t.target < |t.segs|
    requires t.targetPos + LiveFrom(s.table, c, s.segs[c].log, k) <= DATA_SIZE || t == s
    requires t != s ==> DATA_SIZE < s.targetPos + Size(e)
    ensures Clean(s).Continue? && TargetSettled(s, Clean(s).s)
  {
    hide TargetRoom, Provided, TargetSettled;
    var f := CleanCopies(s, c, k, e, t);
    LiveAtLeast(s.table, c, s.segs[c].log, k, k);
    CopySettlesFrom(s, t, f, e, c, k);
  }

  lemma CopySettlesFrom(s: State, t: State, f: State, e: Entry, c: nat, k: nat)
    requires TableOk(s) && s.phase == Scan(c, k) && c < |s.segs| && k < |s.segs[c].log| && e == s.segs[c].log[k]
    requires e.id in s.table && s.table[e.id] == Loc(c, k) && Size(e) <= LiveFrom(s.table, c, s.segs[c].log, k)
    requires SameButTarget(s, t) && Provided(t) && t.target != c && t.target < |t.segs|
    requires t.targetPos + LiveFrom(s.table, c, s.segs[c].log, k) <= DATA_SIZE || t == s
    requires t != s ==> DATA_SIZE < s.targetPos + Size(e)
    requires f == WriteEntry(t, t.target, e).(targetPos := t.targetPos + Size(e), table := f.table,
             phase := Scan(c, k + 1))
    requires Pointed(t, f, t.target, e)
    ensures TargetSettled(s, f)
  {
    CopiedProvided(t, f, e, t.target, c, k);
  }

  lemma CleanSettles(s: State)
    requires Inv(s) && TableOk(s) && s.phase.Scan? && ScanSafe(s)
    ensures Sane(s) && Clean(s).Continue? && TargetSettled(s, Clean(s).s)
  {
    hide ScanSafe, Clean, TargetSettled;
    InvIsSane(s);
    var c, k := s.phase.seg, s.phase.k;
    if k < |s.segs[c].log| && !s.segs[c].log[k].dead {
      CopiedIsCurrent(s, c, k);
      if s.table[s.segs[c].log[k].id] == Loc(c, k) {
        CopySettles(s, c, k);
      } else {
        PassSettles(s, c, k);
      }
    } else {
      PassSettles(s, c, k);
    }
  }

  lemma PassSettles(s: State, c: nat, k: nat)
    requires Sane(s) && TableOk(s) && s.phase == Scan(c, k) && c < |s.segs| && ScanSafe(s)
    requires k < |s.segs[c].log| ==> Harmless(s, s.segs[c].log[k])
    ensures Clean(s).Continue? && TargetSettled(s, Clean(s).s)
  {
    hide Sane, ScanSafe;
    var t := PassIs(s, c, k);
    PassedSettles(s, t);
  }

  /** Passing an entry, or coming to the end, leaves the target alone. */
  lemma PassedSettles(s: State, t: State)
    requires s.phase.Scan? && s.phase.seg < |s.segs|
    requires t == s.(phase := t.phase) && (t.phase.Scan? ==> t.phase == Scan(s.phase.seg, s.phase.k + 1))
    ensures TargetSettled(s, t)
  {
    LiveSuffix(s.table, s.phase.seg, s.segs[s.phase.seg].log, s.phase.k, s.phase.k + 1);
  }

  /** How often the target changes in a run. */
  ghost function TargetChanges(s: State, ops: seq<Op>): nat
    decreases |ops|
  {
    if ops == [] || !Sane(s) || !Step(s, ops[0]).0.Continue? then 0
    else
      var t := Step(s, ops[0]).0.s;
      (if t.target != s.target then 1 else 0) + TargetChanges(t, ops[1..])
  }

  /** The run ends before, or with, the cleaning of the segment in hand. */
  ghost predicate WithinScan(s: State, ops: seq<Op>)
    decreases |ops|
  {
    ops == [] ||
    (s.phase.Scan? &&
     (Sane(s) && Step(s, ops[0]).0.Continue? ==> WithinScan(Step(s, ops[0]).0.s, ops[1..])))
  }

  lemma StepSettles(s: State, ops: seq<Op>) returns (t: State)
    requires Inv(s) && ops != [] && Admissible(s, ops) && WithinScan(s, ops)
    ensures Sane(s) && Step(s, ops[0]).0 == Continue(t) && Inv(t) && Admissible(t, ops[1..]) && WithinScan(t, ops[1..])
    ensures TargetSettled(s, t)
  {
    InvIsSane(s);
    InvTable(s);
    StepRefines(s, ops[0]);
    t := Step(s, ops[0]).0.s;
    if ops[0].CleanerStep? {
      CleanSettles(s);
    }
  }

  lemma {:induction false} OneNewTarget(s: State, ops: seq<Op>)
    requires Inv(s) && Admissible(s, ops) && WithinScan(s, ops)
    ensures TargetChanges(s, ops) <= if RoomForRest(s) then 0 else 1
    decreases |ops|
  {
    if ops != [] {
      var t := StepSettles(s, ops);
      OneNewTarget(t, ops[1..]);
      if !t.phase.Scan? {
        assert ops[1..] == [];
      }
    }
  }
}
