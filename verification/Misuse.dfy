/** What goes wrong outside the conditions that the other modules ask for, on runs from a fresh heap on. */
module Misuse {
  import opened Wrappers
  import opened Layout
  import opened Lists
  import opened LogState
  import opened LogInvariant
  import opened ClientSteps
  import opened LogRuns
  import opened ConcreteRuns

  const E1 := Entry(1, 1, [7], false)
  const E2 := Entry(2, 1, [8], false)
  const E3 := Entry(1, 2, [9], false)

  /** An entry that fills a segment. */
  ghost predicate Fills(big: seq<byte>) {
    ENTRY_HEADER + |big| == DATA_SIZE
  }

  function Full(id: nat, big: seq<byte>): Segment {
    Open([Entry(id, 1, big, false)], ENTRY_HEADER + |big|)
  }

  function InSegment0(log: seq<Entry>, used: nat, pos: nat, table: map<nat, Loc>): State {
    State([Open(log, used), NEW, NEW, NEW, NEW], Some(0), pos, [1, 2, 3], [], [], [4], 1, table, Start, 0, 0)
  }

  // ---------- freeing an object that was updated ----------

  const SET_UP: seq<Op> := [Palloc(1, [7])] + ([Palloc(2, [8])] + [UpdateData(1, [9])])

  function Stored(): State {
    InSegment0([E1], 33, 33, map[1 := Loc(0, 0)])
  }

  function BothStored(): State {
    InSegment0([E1, E2], 66, 66, map[1 := Loc(0, 0), 2 := Loc(0, 1)])
  }

  function Updated(): State {
    InSegment0([E1, E2, E3], 66, 99, map[1 := Loc(0, 2), 2 := Loc(0, 1)])
  }

  /** Objects 1 and 2 share segment 0 with an outdated version of object 1; segment 0 is then given up as head. */
  function Outdated(big: seq<byte>): State {
    State([Closed([E1, E2, E3], 66), Full(3, big), NEW, NEW, NEW],
          Some(1), ENTRY_HEADER + |big|, [2, 3], [0], [], [4], 1, map[1 := Loc(0, 2), 2 := Loc(0, 1), 3 := Loc(1, 0)],
              Start, 0, 0)
  }

  /** From there: object 1 is freed, though its outdated version is unmarked. */
  function OutdatedFreed(big: seq<byte>): State {
    Outdated(big).(segs := [Closed([E1, E2, Marked(E3)], 33), Full(3, big), NEW, NEW, NEW],
        table := map[2 := Loc(0, 1), 3 := Loc(1, 0)])
  }

  lemma Store1()
    ensures Ready(Stored()) && Leads(Fresh(5), [Palloc(1, [7])], Stored(), true)
  {
    hide Leads, Ready;
    var s := Fresh(5);
    FreshReady(5);
    assert s == InSegment0([], 0, 0, map[]);
    assert [] + [E1] == [E1] && s.segs[0 := Open([E1], 33)] == Stored().segs;
    assert WriteEntry(s, 0, E1).segs == Stored().segs;
    Store(s, 1, [7], 0, Stored());
  }

  lemma Store2()
    requires Ready(Stored())
    ensures Ready(BothStored()) && Leads(Stored(), [Palloc(2, [8])], BothStored(), true)
  {
    hide Leads, Ready;
    var s, t := Stored(), BothStored();
    assert [E1] + [E2] == [E1, E2] && s.segs[0 := Open([E1, E2], 66)] == t.segs;
    assert s.table[2 := Loc(0, 1)] == t.table;
    Store(s, 2, [8], 0, t);
  }

  lemma Update1()
    requires Ready(BothStored())
    ensures Ready(Updated()) && Leads(BothStored(), [UpdateData(1, [9])], Updated(), true)
  {
    hide Leads, Ready, Overcounted;
    var s, t := BothStored(), Updated();
    var d := Discount(s, Loc(0, 0));
    assert d.segs == [Open([E1, E2], 33), NEW, NEW, NEW, NEW];
    assert E1.(version := 2, data := [9]) == E3;
    assert [E1, E2] + [E3] == [E1, E2, E3];
    assert d.segs[0 := Open([E1, E2, E3], 66)] == t.segs;
    assert s.table[1 := Loc(0, 2)] == t.table;
    assert Publish(d, E3) == Result(t, true);
    assert Sane(s) by { ReadySane(s); }
    assert Update(s, 1, [9]) == Result(t, true);
    hide Update, Publish;
    Proper(s, UpdateData(1, [9]), t);
  }

  lemma StoreBig(big: seq<byte>)
    requires Fills(big) && Ready(Updated())
    ensures Ready(Outdated(big)) && Leads(Updated(), [Palloc(3, big)], Outdated(big), true)
  {
    hide Leads, Ready;
    var s, t, e := Updated(), Outdated(big), Entry(3, 1, big, false);
    assert [] + [e] == [e] && [1, 2, 3][1..] == [2, 3] && [] + [0] == [0];
    assert s.segs[0 := Closed([E1, E2, E3], 66)][1 := Full(3, big)] == t.segs;
    assert s.table[3 := Loc(1, 0)] == t.table;
    StoreInNext(s, 3, big, 1, t);
  }

  lemma OutdatedIsReached(big: seq<byte>)
    requires Fills(big)
    ensures Ready(Outdated(big)) && Leads(Fresh(5), SET_UP + [Palloc(3, big)], Outdated(big), false)
  {
    hide Leads, Ready, Fresh, Stored, BothStored, Updated, Outdated;
    Store1();
    Store2();
    Update1();
    StoreBig(big);
    Join(Stored(), [Palloc(2, [8])], BothStored(), [UpdateData(1, [9])], Updated(), true);
    Join(Fresh(5), [Palloc(1, [7])], Stored(), [Palloc(2, [8])] + [UpdateData(1, [9])], Updated(), true);
    Join(Fresh(5), SET_UP, Updated(), [Palloc(3, big)], Outdated(big), true);
    Loosen(Fresh(5), SET_UP + [Palloc(3, big)], Outdated(big));
  }

  lemma OutdatedIsNotFreeable(big: seq<byte>)
    requires Fills(big) && Ready(Outdated(big))
    ensures Leads(Outdated(big), [Pfree(1)], OutdatedFreed(big), false)
    ensures !OnlyVersion(Outdated(big), 1)
  {
    hide Ready, Leads, Sane;
    var s := Outdated(big);
    ReadySane(s);
    TwoVersions(s);
    hide OnlyVersion;
    FreeOne(big);
    hide Outdated, OutdatedFreed, Free;
    Improper(s, Pfree(1), OutdatedFreed(big));
  }

  lemma TwoVersions(s: State)
    requires |s.segs| > 0 && s.segs[0].log == [E1, E2, E3] && 1 in s.table && s.table[1] == Loc(0, 2) && s.phase.Start?
    ensures !OnlyVersion(s, 1)
  {
    assert s.segs[0].log[0].id == 1 && ValidLoc(s, Loc(0, 0));
  }

  lemma FreeOne(big: seq<byte>)
    requires Fills(big) && Sane(Outdated(big))
    ensures Free(Outdated(big), 1) == OutdatedFreed(big)
  {
    hide Sane;
    var s := Outdated(big);
    var m := Mark(s, Loc(0, 2));
    assert m.segs[0].log == [E1, E2, Marked(E3)];
    var d := Discount(m, Loc(0, 2));
    assert d.segs == OutdatedFreed(big).segs;
    assert s.table - {1} == OutdatedFreed(big).table;
  }

  const CLEANER_ARRIVES: seq<Op> := [CleanerStep] + ([CleanerStep] + [CleanerStep])

  /** The cleaner, three steps after its start, at the first entry of the first used segment. */
  function Arrived(s: State): State
    requires s.free != [] && s.used != []
  {
    s.(free := s.free[1..], cleaner := s.cleaner + [s.free[0]], target := s.free[0], targetPos := 0,
        phase := Scan(s.used[0], 0))
  }

  lemma CleanerArrives(s: State)
    requires Sane(s) && s.phase.Start? && s.free != [] && s.used != []
    requires s.used[0] < |s.segs| && 0 < s.segs[s.used[0]].used < HALF_SEGMENT && s.used[0] != s.free[0]
    ensures Leads(s, CLEANER_ARRIVES, Arrived(s), false) && Sane(Arrived(s))
  {
    hide Leads;
    var s2 := Arrived(s).(phase := Walk(None));
    var s3 := Arrived(s).(phase := Walk(Some(s.used[0])));
    assert s.free[0] in s.free && s.free[0] in s2.cleaner && s.used[0] in s.used;
    assert forall x :: x in s.free[1..] ==> x in s.free;
    assert InRange(s2);
    Improper(s, CleanerStep, s2);
    Improper(s2, CleanerStep, s3);
    Improper(s3, CleanerStep, Arrived(s));
    Join(s2, [CleanerStep], s3, [CleanerStep], Arrived(s), false);
    Join(s, [CleanerStep], s2, [CleanerStep] + [CleanerStep], Arrived(s), false);
  }

  /** The run so far. */
  function Freeing(big: seq<byte>): seq<Op> {
    (SET_UP + [Palloc(3, big)]) + [Pfree(1)]
  }

  lemma FreedIsReached(big: seq<byte>)
    requires Fills(big)
    ensures Leads(Fresh(5), Freeing(big), OutdatedFreed(big), false) && !OnlyVersion(Outdated(big), 1)
  {
    hide Leads, Ready, Fresh, Outdated, OutdatedFreed, OnlyVersion;
    OutdatedIsReached(big);
    OutdatedIsNotFreeable(big);
    Join(Fresh(5), SET_UP + [Palloc(3, big)], Outdated(big), [Pfree(1)], OutdatedFreed(big), false);
  }

  /** One more segment is filled, so that as many are used as the cleaner waits for. */
  function FreedFilled(big: seq<byte>): State {
    OutdatedFreed(big).(segs := [Closed([E1, E2, Marked(E3)], 33), Full(3, big), Full(4, big), NEW, NEW],
                        head := Some(2), used := [0, 1], free := [3],
                        table := map[2 := Loc(0, 1), 3 := Loc(1, 0), 4 := Loc(2, 0)])
  }

  lemma FillOneMore(big: seq<byte>)
    requires Fills(big)
    ensures Leads(OutdatedFreed(big), [Palloc(4, big)], FreedFilled(big), false)
  {
    hide Leads, Sane;
    var s, t, e := OutdatedFreed(big), FreedFilled(big), Entry(4, 1, big, false);
    OutdatedFreedSane(big);
    assert [] + [e] == [e] && [0] + [1] == [0, 1] && [2, 3][1..] == [3];
    assert s.segs[2 := Full(4, big)] == t.segs && s.table[4 := Loc(2, 0)] == t.table;
    Improper(s, Palloc(4, big), t);
  }

  function FreedArrived(big: seq<byte>): State {
    Arrived(FreedFilled(big))
  }

  lemma OutdatedCrashes(big: seq<byte>)
    requires Fills(big)
    ensures Leads(FreedFilled(big), CLEANER_ARRIVES, FreedArrived(big), false)
    ensures Sane(FreedArrived(big)) && Step(FreedArrived(big), CleanerStep).0 == NullEntry
  {
    hide Leads, TargetRoom;
    CleanerArrives(FreedFilled(big));
    assert Seen(FreedArrived(big).segs[0])[0] == E1;
  }

  /** Freeing an object that was updated before: the cleaner goes through a null pointer. */
  lemma FreeAfterUpdateCrashes(big: seq<byte>)
    requires Fills(big)
    ensures Execute(Fresh(5), (Freeing(big) + ([Palloc(4, big)] + CLEANER_ARRIVES)) + [CleanerStep]) == Stuck(NullEntry)
  {
    hide Leads, Fresh, OutdatedFreed, FreedFilled, FreedArrived, Freeing, Sane, Step, OnlyVersion;
    FreedIsReached(big);
    FillOneMore(big);
    OutdatedCrashes(big);
    var ops := [Palloc(4, big)] + CLEANER_ARRIVES;
    Join(OutdatedFreed(big), [Palloc(4, big)], FreedFilled(big), CLEANER_ARRIVES, FreedArrived(big), false);
    Join(Fresh(5), Freeing(big), OutdatedFreed(big), ops, FreedArrived(big), false);
    LeadsStuck(Fresh(5), Freeing(big) + ops, FreedArrived(big), CleanerStep, false);
  }

  // ---------- storing it again ----------

  const E4 := Entry(1, 1, [5], false)

  /** Storing the object again hides the crash, but brings back its first bytes. */
  function StoredAgain(big: seq<byte>): State {
    OutdatedFreed(big).(segs := [Closed([E1, E2, Marked(E3)], 33), Full(3, big), Open([E4], 33), NEW, NEW],
                        head := Some(2), headPos := 33, used := [0, 1], free := [3],
                        table := map[1 := Loc(2, 0), 2 := Loc(0, 1), 3 := Loc(1, 0)])
  }

  lemma OutdatedFreedSane(big: seq<byte>)
    requires Fills(big)
    ensures Sane(OutdatedFreed(big))
  {
  }

  lemma StoringAgain(big: seq<byte>)
    requires Fills(big)
    ensures Leads(OutdatedFreed(big), [PallocWithId(1, [5])], StoredAgain(big), false)
  {
    hide Leads, Sane;
    var s, t := OutdatedFreed(big), StoredAgain(big);
    OutdatedFreedSane(big);
    NextForFour(s);
    assert [] + [E4] == [E4] && s.segs[2 := Open([E4], 33)] == t.segs;
    assert s.table[1 := Loc(2, 0)] == t.table;
    hide MakeRoom;
    Improper(s, PallocWithId(1, [5]), t);
  }

  lemma NextForFour(s: State)
    requires s.head == Some(1) && s.headPos == DATA_SIZE && s.used == [0] && s.free == [2, 3]
    ensures MakeRoom(s, Size(E4)) == Result(s.(head := Some(2), headPos := 0, used := [0, 1], free := [3]), true)
  {
    assert [0] + [1] == [0, 1] && [2, 3][1..] == [3];
  }

  function AgainArrived(big: seq<byte>): State {
    Arrived(StoredAgain(big))
  }

  /** Object 1 is where its first bytes were copied to. */
  function Revived(big: seq<byte>): State {
    AgainArrived(big).(segs := [Closed([E1, E2, Marked(E3)], 33), Full(3, big), Open([E4], 33), Open([E1], 33), NEW],
                               table := map[1 := Loc(3, 0), 2 := Loc(0, 1), 3 := Loc(1, 0)], targetPos := 33,
                                   phase := Scan(0, 1))
  }

  lemma StoredAgainArrives(big: seq<byte>)
    requires Fills(big)
    ensures Leads(StoredAgain(big), CLEANER_ARRIVES, AgainArrived(big), false) && Sane(AgainArrived(big))
  {
    hide Leads;
    CleanerArrives(StoredAgain(big));
  }

  lemma CopyOne(s: State)
    requires s.target == 3 && |s.segs| == 5 && s.segs[3] == NEW && s.targetPos == 0
    ensures CopyToTarget(s, E1)
            == s.(segs := s.segs[3 := Open([E1], 33)], targetPos := 33, table := s.table[1 := Loc(3, 0)])
  {
    assert [] + [E1] == [E1];
  }

  lemma CopyOfFirst(big: seq<byte>)
    requires Fills(big)
    ensures 3 in AgainArrived(big).cleaner && CopyToTarget(AgainArrived(big).(phase := Scan(0, 1)), E1) == Revived(big)
  {
    var s, t := AgainArrived(big), Revived(big);
    assert s.cleaner == [3] && s.target == 3;
    CopyOne(s.(phase := Scan(0, 1)));
    hide CopyToTarget;
    assert s.segs[3 := Open([E1], 33)] == t.segs;
    assert s.table[1 := Loc(3, 0)] == t.table;
  }

  lemma CleanerRevives(big: seq<byte>)
    requires Fills(big) && Sane(AgainArrived(big))
    ensures Leads(AgainArrived(big), [CleanerStep], Revived(big), false)
  {
    hide Leads, Sane, CopyToTarget, Revived;
    var s, t := AgainArrived(big), Revived(big);
    CopyOfFirst(big);
    assert Seen(s.segs[0])[0] == E1;
    assert TargetRoom(s.(phase := Scan(0, 1)), Size(E1)) == Result(s.(phase := Scan(0, 1)), true);
    hide TargetRoom;
    Improper(s, CleanerStep, t);
  }

  /** The cleaner takes the outdated entry for the newest one: the object's bytes are those it had first. */
  lemma StoringAgainRevives(big: seq<byte>)
    requires Fills(big)
    ensures var r := Execute(Fresh(5), Freeing(big) + ([PallocWithId(1, [5])] + (CLEANER_ARRIVES + [CleanerStep])));
            r.Completed? && 1 in r.s.table && ValidLoc(r.s, r.s.table[1]) && At(r.s, r.s.table[1]).data == [7]
  {
    assert 1 in Revived(big).table && ValidLoc(Revived(big), Revived(big).table[1])
           && At(Revived(big), Loc(3, 0)).data == [7];
    hide Leads, Fresh, OutdatedFreed, StoredAgain, AgainArrived, Revived, Freeing, Sane, OnlyVersion;
    FreedIsReached(big);
    StoringAgain(big);
    StoredAgainArrives(big);
    CleanerRevives(big);
    var f := Revived(big);
    Join(StoredAgain(big), CLEANER_ARRIVES, AgainArrived(big), [CleanerStep], f, false);
    Join(OutdatedFreed(big), [PallocWithId(1, [5])], StoredAgain(big), CLEANER_ARRIVES + [CleanerStep], f, false);
    Join(Fresh(5), Freeing(big), OutdatedFreed(big), [PallocWithId(1, [5])] + (CLEANER_ARRIVES + [CleanerStep]), f,
        false);
    LeadsExecutes(Fresh(5), Freeing(big) + ([PallocWithId(1, [5])] + (CLEANER_ARRIVES + [CleanerStep])), f, false);
  }

  // ---------- an update that finds no room ----------

  /** An entry that fills what object 1 leaves of a segment. */
  ghost predicate FillsRest(rest: seq<byte>) {
    33 + ENTRY_HEADER + |rest| == DATA_SIZE
  }

  function R(rest: seq<byte>): Entry {
    Entry(2, 1, rest, false)
  }

  function Seg0Full(rest: seq<byte>): State {
    InSegment0([E1, R(rest)], DATA_SIZE, DATA_SIZE, map[1 := Loc(0, 0), 2 := Loc(0, 1)])
  }

  function OneFull(rest: seq<byte>, big: seq<byte>): State {
    State([Open([E1, R(rest)], DATA_SIZE), Full(3, big), NEW, NEW, NEW], Some(1), DATA_SIZE, [2, 3], [0], [], [4], 1,
          map[1 := Loc(0, 0), 2 := Loc(0, 1), 3 := Loc(1, 0)], Start, 0, 0)
  }

  function TwoFull(rest: seq<byte>, big: seq<byte>): State {
    State([Open([E1, R(rest)], DATA_SIZE), Full(3, big), Full(4, big), NEW, NEW], Some(2), DATA_SIZE, [3], [0, 1], [],
        [4], 1,
          map[1 := Loc(0, 0), 2 := Loc(0, 1), 3 := Loc(1, 0), 4 := Loc(2, 0)], Start, 0, 0)
  }

  /** The cleaner has taken the last free segment. */
  function WithCleaner(rest: seq<byte>, big: seq<byte>): State {
    TwoFull(rest, big).(free := [], cleaner := [3], phase := Walk(None), target := 3, targetPos := 0)
  }

  function NoHead(rest: seq<byte>, big: seq<byte>): State {
    WithCleaner(rest, big).(head := None, used := [0, 1, 2])
  }

  /** Object 2 is freed; only object 1 is counted in segment 0. */
  function OneLeft(rest: seq<byte>, big: seq<byte>, phase: Phase): State {
    NoHead(rest, big).(segs := [Open([E1, Marked(R(rest))], 33), Full(3, big), Full(4, big), NEW, NEW],
                       table := map[1 := Loc(0, 0), 3 := Loc(1, 0), 4 := Loc(2, 0)], phase := phase)
  }

  function NotCounted(rest: seq<byte>, big: seq<byte>, phase: Phase): State {
    OneLeft(rest, big, phase).(segs := [Open([E1, Marked(R(rest))], 0), Full(3, big), Full(4, big), NEW, NEW])
  }

  lemma FillSegment0(rest: seq<byte>)
    requires FillsRest(rest) && Ready(Stored())
    ensures Ready(Seg0Full(rest)) && Leads(Stored(), [Palloc(2, rest)], Seg0Full(rest), true)
  {
    hide Leads, Ready;
    var s, t := Stored(), Seg0Full(rest);
    assert [E1] + [R(rest)] == [E1, R(rest)] && s.segs[0 := Open([E1, R(rest)], DATA_SIZE)] == t.segs;
    assert s.table[2 := Loc(0, 1)] == t.table;
    Store(s, 2, rest, 0, t);
  }

  lemma FillSegment1(rest: seq<byte>, big: seq<byte>)
    requires FillsRest(rest) && Fills(big) && Ready(Seg0Full(rest))
    ensures Ready(OneFull(rest, big)) && Leads(Seg0Full(rest), [Palloc(3, big)], OneFull(rest, big), true)
  {
    hide Leads, Ready;
    var s, t, e := Seg0Full(rest), OneFull(rest, big), Entry(3, 1, big, false);
    assert [] + [e] == [e] && [] + [0] == [0] && [1, 2, 3][1..] == [2, 3];
    assert s.segs[1 := Full(3, big)] == t.segs && s.table[3 := Loc(1, 0)] == t.table;
    StoreInNext(s, 3, big, 1, t);
  }

  lemma FillSegment2(rest: seq<byte>, big: seq<byte>)
    requires FillsRest(rest) && Fills(big) && Ready(OneFull(rest, big))
    ensures Ready(TwoFull(rest, big)) && Leads(OneFull(rest, big), [Palloc(4, big)], TwoFull(rest, big), true)
  {
    hide Leads, Ready;
    var s, t, e := OneFull(rest, big), TwoFull(rest, big), Entry(4, 1, big, false);
    assert [] + [e] == [e] && [0] + [1] == [0, 1] && [2, 3][1..] == [3];
    assert s.segs[2 := Full(4, big)] == t.segs && s.table[4 := Loc(2, 0)] == t.table;
    StoreInNext(s, 4, big, 2, t);
  }

  lemma NoRoom(rest: seq<byte>, big: seq<byte>)
    requires FillsRest(rest) && Fills(big) && Ready(TwoFull(rest, big))
    ensures Ready(NoHead(rest, big))
            && Leads(TwoFull(rest, big), [CleanerStep] + [Palloc(5, [1])], NoHead(rest, big), true)
  {
    hide Leads, Ready;
    var s, t, u := TwoFull(rest, big), WithCleaner(rest, big), NoHead(rest, big);
    assert [] + [3] == [3] && [3][1..] == [];
    Starts(s, t);
    assert [0, 1] + [2] == [0, 1, 2];
    ReadySane(t);
    hide Sane;
    Proper(t, Palloc(5, [1]), u);
    Join(s, [CleanerStep], t, [Palloc(5, [1])], u, true);
  }

  lemma FreeRest(rest: seq<byte>, big: seq<byte>)
    requires FillsRest(rest) && Fills(big) && Ready(NoHead(rest, big))
    ensures Ready(OneLeft(rest, big, Walk(Some(0))))
    ensures Leads(NoHead(rest, big), [Pfree(2)] + [CleanerStep], OneLeft(rest, big, Walk(Some(0))), true)
  {
    hide Leads, Ready;
    var s, t, u := NoHead(rest, big), OneLeft(rest, big, Walk(None)), OneLeft(rest, big, Walk(Some(0)));
    var m := Mark(s, Loc(0, 1));
    assert m.segs[0].log == [E1, Marked(R(rest))];
    assert Discount(m, Loc(0, 1)).segs == t.segs;
    assert s.table - {2} == t.table;
    assert OnlyVersion(s, 2);
    hide OnlyVersion;
    Release(s, 2, t);
    Begins(t, u);
    Join(s, [Pfree(2)], t, [CleanerStep], u, true);
  }

  /** The update takes the old version off the count and then finds no room. */
  lemma UpdateFails(rest: seq<byte>, big: seq<byte>)
    requires FillsRest(rest) && Fills(big) && Ready(OneLeft(rest, big, Walk(Some(0))))
    ensures var s := OneLeft(rest, big, Walk(Some(0)));
            Sane(s) && Step(s, UpdateData(1, [9])) == (Continue(NotCounted(rest, big, Walk(Some(0)))), false)
  {
    hide Ready, Sane;
    var s := OneLeft(rest, big, Walk(Some(0)));
    ReadySane(s);
    assert Discount(s, Loc(0, 0)).segs == NotCounted(rest, big, Walk(Some(0))).segs;
  }

  lemma NotCountedSane(rest: seq<byte>, big: seq<byte>, phase: Phase)
    requires phase == Walk(Some(0)) || phase == Retire(0, Some(1))
    ensures Sane(NotCounted(rest, big, phase))
  {
    var s := NotCounted(rest, big, phase);
    assert 3 in s.cleaner && 0 in s.used;
  }

  /** The cleaner recycles the segment, and the table is left pointing nowhere. */
  lemma CleanerRecycles(rest: seq<byte>, big: seq<byte>) returns (f: State)
    ensures Leads(NotCounted(rest, big, Walk(Some(0))), [CleanerStep] + [CleanerStep], f, false)
    ensures 1 in f.table && !ValidLoc(f, f.table[1])
  {
    hide Leads, Sane;
    var s, t := NotCounted(rest, big, Walk(Some(0))), NotCounted(rest, big, Retire(0, Some(1)));
    NotCountedSane(rest, big, Walk(Some(0)));
    NotCountedSane(rest, big, Retire(0, Some(1)));
    assert After([0, 1, 2], 0) == Some(1) && 0 in t.used;
    Improper(s, CleanerStep, t);
    f := Recycle(t, 0).(phase := Walk(Some(1)));
    assert f.segs[0].log == [];
    hide Recycle;
    Improper(t, CleanerStep, f);
    Join(s, [CleanerStep], t, [CleanerStep], f, false);
  }

  /** The run up to the update, all of whose steps are allowed. */
  function BeforeUpdate(rest: seq<byte>, big: seq<byte>): seq<Op> {
    [Palloc(1, [7])] + ([Palloc(2, rest)]
        + ([Palloc(3, big)] + ([Palloc(4, big)] + (([CleanerStep] + [Palloc(5, [1])]) +
      ([Pfree(2)] + [CleanerStep])))))
  }

  lemma OneLeftIsReached(rest: seq<byte>, big: seq<byte>)
    requires FillsRest(rest) && Fills(big)
    ensures Ready(OneLeft(rest, big, Walk(Some(0))))
    ensures Leads(Fresh(5), BeforeUpdate(rest, big), OneLeft(rest, big, Walk(Some(0))), true)
  {
    hide Leads, Ready, Fresh, Stored, Seg0Full, OneFull, TwoFull, NoHead, OneLeft;
    Store1();
    FillSegment0(rest);
    FillSegment1(rest, big);
    FillSegment2(rest, big);
    NoRoom(rest, big);
    FreeRest(rest, big);
    var t := OneLeft(rest, big, Walk(Some(0)));
    var ops := [Pfree(2)] + [CleanerStep];
    var more := ([CleanerStep] + [Palloc(5, [1])]) + ops;
    Join(TwoFull(rest, big), [CleanerStep] + [Palloc(5, [1])], NoHead(rest, big), ops, t, true);
    Join(OneFull(rest, big), [Palloc(4, big)], TwoFull(rest, big), more, t, true);
    Join(Seg0Full(rest), [Palloc(3, big)], OneFull(rest, big), [Palloc(4, big)] + more, t, true);
    Join(Stored(), [Palloc(2, rest)], Seg0Full(rest), [Palloc(3, big)] + ([Palloc(4, big)] + more), t, true);
    Join(Fresh(5), [Palloc(1, [7])], Stored(),
         [Palloc(2, rest)] + ([Palloc(3, big)] + ([Palloc(4, big)] + more)), t, true);
  }

  /** An update that finds no room leaves the object on a segment that counts nothing;
      the cleaner then recycles the segment, and the object is lost. */
  lemma FailedUpdateLosesObject(rest: seq<byte>, big: seq<byte>)
    requires FillsRest(rest) && Fills(big)
    ensures Admissible(Fresh(5), BeforeUpdate(rest, big))
    ensures var r := Execute(Fresh(5),
            BeforeUpdate(rest, big) + ([UpdateData(1, [9])] + ([CleanerStep] + [CleanerStep])));
            r.Completed? && 1 in r.s.table && !ValidLoc(r.s, r.s.table[1])
  {
    hide Leads, Ready, Fresh, OneLeft, NotCounted, BeforeUpdate, Sane, Step;
    OneLeftIsReached(rest, big);
    UpdateFails(rest, big);
    var f := CleanerRecycles(rest, big);
    var s, t := OneLeft(rest, big, Walk(Some(0))), NotCounted(rest, big, Walk(Some(0)));
    Improper(s, UpdateData(1, [9]), t);
    LeadsExecutes(Fresh(5), BeforeUpdate(rest, big), s, true);
    Loosen(Fresh(5), BeforeUpdate(rest, big), s);
    Join(s, [UpdateData(1, [9])], t, [CleanerStep] + [CleanerStep], f, false);
    Join(Fresh(5), BeforeUpdate(rest, big), s, [UpdateData(1, [9])] + ([CleanerStep] + [CleanerStep]), f, false);
    LeadsExecutes(Fresh(5), BeforeUpdate(rest, big) + ([UpdateData(1, [9])] + ([CleanerStep] + [CleanerStep])), f,
        false);
  }

  // ---------- an object too long for a segment ----------

  /** An object may be stored exactly if it fits into an empty segment; a longer one is written all the same, and runs
      past the end of the head segment. */
  lemma OversizeOverflows(s: State, id: nat, data: seq<byte>)
    requires Inv(s) && id !in s.table && data != [] && Sane(s) && New(s, id, data).ok
    ensures Inv(New(s, id, data).s) <==> ENTRY_HEADER + |data| <= DATA_SIZE
  {
    InvTable(s);
    hide Inv, Fits, Publish;
    StoredFits(s, id, data);
    if ENTRY_HEADER + |data| <= DATA_SIZE {
      NewKeeps(s, id, data);
    } else {
      PallocExact(s, id, data);
    }
  }

  lemma StoredFits(s: State, id: nat, data: seq<byte>)
    requires InRange(s) && data != [] && New(s, id, data).ok
    ensures Fits(s, ENTRY_HEADER + |data|) <==> ENTRY_HEADER + |data| <= DATA_SIZE
  {
  }
}
