/** A run in which every client call is allowed, and the cleaner goes through a null pointer all the same: it gives up a
    target without a zero length, and later reads, behind the entries of that segment, one from an earlier use, of an
    object that has been freed since. */
module StaleRun {
  import opened Wrappers
  import opened Layout
  import opened Lists
  import opened LogState
  import opened LiveBytes
  import opened LogInvariant
  import opened ClientSteps
  import opened CleanerSteps
  import opened LogRuns
  import opened ConcreteRuns

  /** Half as long as a data area, and a little more. */
  const LARGE: nat := 2040

  ghost predicate IsLarge(h: seq<byte>) {
    ENTRY_HEADER + |h| == LARGE
  }

  const B := Entry(2, 1, [8], false)

  function Big(id: nat, h: seq<byte>): Entry {
    Entry(id, 1, h, false)
  }

  /** Before the cleaner starts. */
  function Client(segs: seq<Segment>, head: nat, pos: nat, free: seq<nat>, used: seq<nat>, table: map<nat, Loc>): State
  {
    State(segs, Some(head), pos, free, used, [], [5], 1, table, Start, 0, 0)
  }

  /** Afterwards the head is segment 3. */
  function Cleaner(segs: seq<Segment>, free: seq<nat>, used: seq<nat>, table: map<nat, Loc>, phase: Phase, target: nat,
      pos: nat): State {
    State(segs, Some(3), LARGE, free, used, [target], [5], 1, table, phase, target, pos)
  }

  // ---------- five objects in four segments; the first is freed ----------

  function Stored1(h: seq<byte>): State {
    Client([Open([Big(1, h)], LARGE), NEW, NEW, NEW, NEW, NEW], 0, LARGE, [1, 2, 3, 4], [], map[1 := Loc(0, 0)])
  }

  function Stored2(h: seq<byte>): State {
    Client([Open([Big(1, h), B], 2073), NEW, NEW, NEW, NEW, NEW], 0, 2073, [1, 2, 3, 4], [],
        map[1 := Loc(0, 0), 2 := Loc(0, 1)])
  }

  function Stored3(h: seq<byte>): State {
    Client([Closed([Big(1, h), B], 2073), Open([Big(3, h)], LARGE), NEW, NEW, NEW, NEW], 1, LARGE, [2, 3, 4], [0],
           map[1 := Loc(0, 0), 2 := Loc(0, 1), 3 := Loc(1, 0)])
  }

  function Stored4(h: seq<byte>): State {
    Client([Closed([Big(1, h), B], 2073), Closed([Big(3, h)], LARGE), Open([Big(4, h)], LARGE), NEW, NEW, NEW], 2,
        LARGE, [3, 4], [0, 1],
           map[1 := Loc(0, 0), 2 := Loc(0, 1), 3 := Loc(1, 0), 4 := Loc(2, 0)])
  }

  function Stored5(h: seq<byte>): State {
    Client([Closed([Big(1, h), B], 2073), Closed([Big(3, h)], LARGE), Closed([Big(4, h)], LARGE),
        Open([Big(5, h)], LARGE), NEW, NEW],
           3, LARGE, [4], [0, 1, 2],
               map[1 := Loc(0, 0), 2 := Loc(0, 1), 3 := Loc(1, 0), 4 := Loc(2, 0), 5 := Loc(3, 0)])
  }

  function Freed1(h: seq<byte>): State {
    Client([Closed([Marked(Big(1, h)), B], 33), Closed([Big(3, h)], LARGE), Closed([Big(4, h)], LARGE),
        Open([Big(5, h)], LARGE), NEW, NEW],
           3, LARGE, [4], [0, 1, 2], map[2 := Loc(0, 1), 3 := Loc(1, 0), 4 := Loc(2, 0), 5 := Loc(3, 0)])
  }

  lemma Store1(h: seq<byte>)
    requires IsLarge(h)
    ensures Ready(Stored1(h)) && Leads(Fresh(6), [Palloc(1, h)], Stored1(h), true)
  {
    hide Leads, Ready;
    var s := Fresh(6);
    FreshReady(6);
    assert s == Client([NEW, NEW, NEW, NEW, NEW, NEW], 0, 0, [1, 2, 3, 4], [], map[]);
    var e := Big(1, h);
    assert [] + [e] == [e] && s.segs[0 := Open([e], LARGE)] == Stored1(h).segs;
    assert WriteEntry(s, 0, e).segs == Stored1(h).segs;
    Store(s, 1, h, 0, Stored1(h));
  }

  lemma Store2(h: seq<byte>)
    requires IsLarge(h) && Ready(Stored1(h))
    ensures Ready(Stored2(h)) && Leads(Stored1(h), [Palloc(2, [8])], Stored2(h), true)
  {
    hide Leads, Ready;
    var s := Stored1(h);
    assert [Big(1, h)] + [B] == [Big(1, h), B] && s.segs[0 := Open([Big(1, h), B], 2073)] == Stored2(h).segs;
    assert s.table[2 := Loc(0, 1)] == Stored2(h).table;
    Store(s, 2, [8], 0, Stored2(h));
  }

  lemma Store3(h: seq<byte>)
    requires IsLarge(h) && Ready(Stored2(h))
    ensures Ready(Stored3(h)) && Leads(Stored2(h), [Palloc(3, h)], Stored3(h), true)
  {
    hide Leads, Ready;
    var s, t, e := Stored2(h), Stored3(h), Big(3, h);
    assert [] + [e] == [e] && [] + [0] == [0] && [1, 2, 3, 4][1..] == [2, 3, 4];
    assert s.segs[0 := Closed([Big(1, h), B], 2073)][1 := Open([e], LARGE)] == t.segs;
    assert s.table[3 := Loc(1, 0)] == t.table;
    StoreInNext(s, 3, h, 1, t);
  }

  lemma Store4(h: seq<byte>)
    requires IsLarge(h) && Ready(Stored3(h))
    ensures Ready(Stored4(h)) && Leads(Stored3(h), [Palloc(4, h)], Stored4(h), true)
  {
    hide Leads, Ready;
    var s, t, e := Stored3(h), Stored4(h), Big(4, h);
    assert [] + [e] == [e] && [0] + [1] == [0, 1] && [2, 3, 4][1..] == [3, 4];
    assert s.segs[1 := Closed([Big(3, h)], LARGE)][2 := Open([e], LARGE)] == t.segs;
    assert s.table[4 := Loc(2, 0)] == t.table;
    StoreInNext(s, 4, h, 2, t);
  }

  lemma Store5(h: seq<byte>)
    requires IsLarge(h) && Ready(Stored4(h))
    ensures Ready(Stored5(h)) && Leads(Stored4(h), [Palloc(5, h)], Stored5(h), true)
  {
    hide Leads, Ready;
    var s, t, e := Stored4(h), Stored5(h), Big(5, h);
    assert [] + [e] == [e] && [0, 1] + [2] == [0, 1, 2] && [3, 4][1..] == [4];
    assert s.segs[2 := Closed([Big(4, h)], LARGE)][3 := Open([e], LARGE)] == t.segs;
    assert s.table[5 := Loc(3, 0)] == t.table;
    StoreInNext(s, 5, h, 3, t);
  }

  lemma Free1(h: seq<byte>)
    requires IsLarge(h) && Ready(Stored5(h))
    ensures Ready(Freed1(h)) && Leads(Stored5(h), [Pfree(1)], Freed1(h), true)
  {
    hide Leads, Ready;
    var s, t := Stored5(h), Freed1(h);
    var m := Mark(s, Loc(0, 0));
    assert m.segs[0].log == [Marked(Big(1, h)), B];
    assert Discount(m, Loc(0, 0)).segs == t.segs;
    assert s.table - {1} == t.table;
    assert OnlyVersion(s, 1);
    hide OnlyVersion;
    Release(s, 1, t);
  }

  // ---------- the cleaner moves object 2 out of segment 0, and it is freed ----------

  const IN_FOUR: map<nat, Loc> := map[2 := Loc(4, 0), 3 := Loc(1, 0), 4 := Loc(2, 0), 5 := Loc(3, 0)]

  /** Segments 0 to 3, while segment 0 is being cleaned. */
  function Arrived(h: seq<byte>, phase: Phase): State {
    Cleaner([Closed([Marked(Big(1, h)), B], 33), Closed([Big(3, h)], LARGE), Closed([Big(4, h)], LARGE),
        Open([Big(5, h)], LARGE), NEW, NEW],
            [], [0, 1, 2], map[2 := Loc(0, 1), 3 := Loc(1, 0), 4 := Loc(2, 0), 5 := Loc(3, 0)], phase, 4, 0)
  }

  function Moved2(h: seq<byte>, phase: Phase): State {
    Cleaner([Closed([Marked(Big(1, h)), B], 33), Closed([Big(3, h)], LARGE), Closed([Big(4, h)], LARGE),
        Open([Big(5, h)], LARGE),
             Open([B], 33), NEW],
            [], [0, 1, 2], IN_FOUR, phase, 4, 33)
  }

  /** Segment 0 is empty; behind its entries, of which it has none, are those it had. */
  function Used0(h: seq<byte>): Segment {
    Segment([], 0, Behind([Marked(Big(1, h)), B], Stops))
  }

  function Cleaned0(h: seq<byte>): State {
    Cleaner([Used0(h), Closed([Big(3, h)], LARGE), Closed([Big(4, h)], LARGE), Open([Big(5, h)], LARGE), Open([B], 33),
        NEW],
            [0], [1, 2], IN_FOUR, Walk(Some(1)), 4, 33)
  }

  function Freed2(h: seq<byte>, phase: Phase): State {
    Cleaner([Used0(h), Closed([Big(3, h)], LARGE), Closed([Big(4, h)], LARGE), Open([Big(5, h)], LARGE),
        Open([Marked(B)], 0), NEW],
            [0], [1, 2], map[3 := Loc(1, 0), 4 := Loc(2, 0), 5 := Loc(3, 0)], phase, 4, 33)
  }

  lemma Arrive(h: seq<byte>)
    requires IsLarge(h) && Ready(Freed1(h))
    ensures Ready(Arrived(h, Scan(0, 1)))
    ensures Leads(Freed1(h), [CleanerStep] + ([CleanerStep] + ([CleanerStep] + [CleanerStep])), Arrived(h, Scan(0, 1)),
            true)
  {
    hide Leads, Ready;
    var s := Freed1(h);
    var a, b, c, d := Arrived(h, Walk(None)), Arrived(h, Walk(Some(0))), Arrived(h, Scan(0, 0)), Arrived(h, Scan(0, 1));
    assert [] + [4] == [4] && [4][1..] == [];
    Starts(s, a);
    Begins(a, b);
    Enters(b, 0, c);
    Skips(c, 0, 0, d);
    Four(s, a, b, c, d);
  }

  lemma Move2(h: seq<byte>)
    requires IsLarge(h) && Ready(Arrived(h, Scan(0, 1)))
    ensures Ready(Moved2(h, Scan(0, 2))) && Leads(Arrived(h, Scan(0, 1)), [CleanerStep], Moved2(h, Scan(0, 2)), true)
  {
    hide Leads, Ready;
    var s, t := Arrived(h, Scan(0, 1)), Moved2(h, Scan(0, 2));
    assert [] + [B] == [B];
    assert CopyToTarget(s, B).segs == t.segs;
    assert CopyToTarget(s, B).table == t.table;
    assert 4 in s.cleaner;
    Copies(s, 0, 1, B, s, t);
  }

  lemma Clean0(h: seq<byte>)
    requires IsLarge(h) && Ready(Moved2(h, Scan(0, 2)))
    ensures Ready(Cleaned0(h)) && Leads(Moved2(h, Scan(0, 2)), [CleanerStep] + [CleanerStep], Cleaned0(h), true)
  {
    hide Leads, Ready;
    var s, r, t := Moved2(h, Scan(0, 2)), Moved2(h, Retire(0, Some(1))), Cleaned0(h);
    assert After([0, 1, 2], 0) == Some(1);
    Leaves(s, 0, r);
    assert [Marked(Big(1, h)), B] + [] == [Marked(Big(1, h)), B];
    assert Emptied(r.segs[0]) == Used0(h);
    assert r.segs[0 := Used0(h)] == t.segs;
    assert Remove([0, 1, 2], 0) == [1, 2] && [] + [0] == [0];
    Recycles(r, 0, t);
    Join(s, [CleanerStep], r, [CleanerStep], t, true);
  }

  lemma Free2(h: seq<byte>)
    requires IsLarge(h) && Ready(Cleaned0(h))
    ensures Ready(Freed2(h, Walk(Some(1)))) && Leads(Cleaned0(h), [Pfree(2)], Freed2(h, Walk(Some(1))), true)
  {
    hide Leads, Ready;
    var s, t := Cleaned0(h), Freed2(h, Walk(Some(1)));
    var m := Mark(s, Loc(4, 0));
    assert m.segs[4].log == [Marked(B)];
    assert Discount(m, Loc(4, 0)).segs == t.segs;
    assert s.table - {2} == t.table;
    assert OnlyVersion(s, 2);
    hide OnlyVersion;
    Release(s, 2, t);
  }

  // ---------- segments 1, 2 and 4 are cleaned: segment 0 becomes a target, and is given up ----------

  function Moved3(h: seq<byte>, phase: Phase): State {
    Cleaner([Used0(h), Closed([Big(3, h)], LARGE), Closed([Big(4, h)], LARGE), Open([Big(5, h)], LARGE),
             Open([Marked(B), Big(3, h)], LARGE), NEW],
            [0], [1, 2], map[3 := Loc(4, 1), 4 := Loc(2, 0), 5 := Loc(3, 0)], phase, 4, 2073)
  }

  /** An emptied segment that held one object. */
  function UsedFor(id: nat, h: seq<byte>): Segment {
    Segment([], 0, Behind([Big(id, h)], Stops))
  }

  function Cleaned1(h: seq<byte>, phase: Phase): State {
    Cleaner([Used0(h), UsedFor(3, h), Closed([Big(4, h)], LARGE), Open([Big(5, h)], LARGE),
        Open([Marked(B), Big(3, h)], LARGE), NEW],
            [0, 1], [2], map[3 := Loc(4, 1), 4 := Loc(2, 0), 5 := Loc(3, 0)], phase, 4, 2073)
  }

  /** As long as the entry that was first in segment 0 is its new one; behind it begins the old second one. */
  function Stale0(h: seq<byte>): Segment {
    Segment([Big(4, h)], LARGE, Behind([B], Stops))
  }

  function Moved4(h: seq<byte>, phase: Phase): State {
    Cleaner([Stale0(h), UsedFor(3, h), Closed([Big(4, h)], LARGE), Open([Big(5, h)], LARGE),
        Open([Marked(B), Big(3, h)], LARGE), NEW],
            [1], [2, 4], map[3 := Loc(4, 1), 4 := Loc(0, 0), 5 := Loc(3, 0)], phase, 0, LARGE)
  }

  function Cleaned2(h: seq<byte>, phase: Phase): State {
    Cleaner([Stale0(h), UsedFor(3, h), UsedFor(4, h), Open([Big(5, h)], LARGE), Open([Marked(B), Big(3, h)], LARGE),
        NEW],
            [1, 2], [4], map[3 := Loc(4, 1), 4 := Loc(0, 0), 5 := Loc(3, 0)], phase, 0, LARGE)
  }

  function Moved3Again(h: seq<byte>, phase: Phase): State {
    Cleaner([Stale0(h), Closed([Big(3, h)], LARGE), UsedFor(4, h), Open([Big(5, h)], LARGE),
        Open([Marked(B), Big(3, h)], LARGE), NEW],
            [2], [4, 0], map[3 := Loc(1, 0), 4 := Loc(0, 0), 5 := Loc(3, 0)], phase, 1, LARGE)
  }

  function Used4(h: seq<byte>): Segment {
    Segment([], 0, Behind([Marked(B), Big(3, h)], Zeros))
  }

  function Cleaned4(h: seq<byte>, phase: Phase): State {
    Cleaner([Stale0(h), Closed([Big(3, h)], LARGE), UsedFor(4, h), Open([Big(5, h)], LARGE), Used4(h), NEW],
            [2, 4], [0], map[3 := Loc(1, 0), 4 := Loc(0, 0), 5 := Loc(3, 0)], phase, 1, LARGE)
  }

  function Moved4Again(h: seq<byte>, phase: Phase): State {
    Cleaner([Stale0(h), Closed([Big(3, h)], LARGE), Closed([Big(4, h)], LARGE), Open([Big(5, h)], LARGE), Used4(h),
        NEW],
            [4], [0, 1], map[3 := Loc(1, 0), 4 := Loc(2, 0), 5 := Loc(3, 0)], phase, 2, LARGE)
  }

  lemma Move3(h: seq<byte>)
    requires IsLarge(h) && Ready(Freed2(h, Scan(1, 0)))
    ensures Ready(Moved3(h, Scan(1, 1))) && Leads(Freed2(h, Scan(1, 0)), [CleanerStep], Moved3(h, Scan(1, 1)), true)
  {
    hide Leads, Ready;
    var s, t, e := Freed2(h, Scan(1, 0)), Moved3(h, Scan(1, 1)), Big(3, h);
    assert [Marked(B)] + [e] == [Marked(B), e];
    assert CopyToTarget(s, e).segs == t.segs;
    assert CopyToTarget(s, e).table == t.table;
    assert 4 in s.cleaner;
    Copies(s, 1, 0, e, s, t);
  }

  lemma Clean1(h: seq<byte>)
    requires IsLarge(h) && Ready(Freed2(h, Walk(Some(1))))
    ensures Ready(Cleaned1(h, Walk(Some(2))))
    ensures Leads(Freed2(h, Walk(Some(1))), [CleanerStep] + ([CleanerStep] + ([CleanerStep] + [CleanerStep])),
            Cleaned1(h, Walk(Some(2))), true)
  {
    hide Leads, Ready;
    var s, a, b, c, t := Freed2(h, Walk(Some(1))), Freed2(h, Scan(1, 0)), Moved3(h, Scan(1, 1)),
        Moved3(h, Retire(1, Some(2))), Cleaned1(h, Walk(Some(2)));
    Enters(s, 1, a);
    Move3(h);
    assert After([1, 2], 1) == Some(2);
    Leaves(b, 1, c);
    assert [Big(3, h)] + [] == [Big(3, h)];
    assert Emptied(c.segs[1]) == UsedFor(3, h);
    assert c.segs[1 := UsedFor(3, h)] == t.segs;
    assert Remove([1, 2], 1) == [2] && [0] + [1] == [0, 1];
    Recycles(c, 1, t);
    Four(s, a, b, c, t);
  }

  /** A target with no room is given up for the first free segment. */
  lemma Changes(s: State, size: nat, f: nat, r: State)
    requires DATA_SIZE - s.targetPos < size && s.free != [] && s.free[0] == f && s.cleaner == [s.target]
    requires r == s.(used := s.used + [s.target], cleaner := [f], free := s.free[1..], target := f, targetPos := 0)
    ensures s.target in s.cleaner && TargetRoom(s, size) == Result(r, true) && SameButTarget(s, r)
  {
    assert s.target in s.cleaner && Remove([s.target], s.target) == [] && [] + [f] == [f];
  }

  lemma Move4(h: seq<byte>)
    requires IsLarge(h) && Ready(Cleaned1(h, Scan(2, 0)))
    ensures Ready(Moved4(h, Scan(2, 1))) && Leads(Cleaned1(h, Scan(2, 0)), [CleanerStep], Moved4(h, Scan(2, 1)), true)
  {
    hide Leads, Ready;
    var s, t, e := Cleaned1(h, Scan(2, 0)), Moved4(h, Scan(2, 1)), Big(4, h);
    var r := s.(used := [2] + [4], cleaner := [0], free := [0, 1][1..], target := 0, targetPos := 0);
    assert [2] + [4] == [2, 4] && [0, 1][1..] == [1];
    Changes(s, LARGE, 0, r);
    assert [] + [e] == [e];
    PastFirst(Used0(h).behind, [B]);
    assert CopyToTarget(r, e).segs == t.segs;
    assert CopyToTarget(r, e).table == t.table;
    Copies(s, 2, 0, e, r, t);
  }

  /** Writing over just the first of the old entries leaves the others. */
  lemma PastFirst(b: Behind, rest: seq<Entry>)
    requires b.es != [] && b.es[1..] == rest
    ensures Past(b, Size(b.es[0])) == Behind(rest, b.end)
  {
    assert Past(Behind(rest, b.end), 0) == Behind(rest, b.end);
  }

  lemma Clean2(h: seq<byte>)
    requires IsLarge(h) && Ready(Cleaned1(h, Walk(Some(2))))
    ensures Ready(Cleaned2(h, Walk(Some(4))))
    ensures Leads(Cleaned1(h, Walk(Some(2))), [CleanerStep] + ([CleanerStep] + ([CleanerStep] + [CleanerStep])),
            Cleaned2(h, Walk(Some(4))), true)
  {
    hide Leads, Ready;
    var s, a, b, c, t := Cleaned1(h, Walk(Some(2))), Cleaned1(h, Scan(2, 0)), Moved4(h, Scan(2, 1)),
        Moved4(h, Retire(2, Some(4))), Cleaned2(h, Walk(Some(4)));
    Enters(s, 2, a);
    Move4(h);
    assert After([2, 4], 2) == Some(4);
    Leaves(b, 2, c);
    assert [Big(4, h)] + [] == [Big(4, h)];
    assert Emptied(c.segs[2]) == UsedFor(4, h);
    assert c.segs[2 := UsedFor(4, h)] == t.segs;
    assert Remove([2, 4], 2) == [4] && [1] + [2] == [1, 2];
    Recycles(c, 2, t);
    Four(s, a, b, c, t);
  }

  lemma Move3Again(h: seq<byte>)
    requires IsLarge(h) && Ready(Cleaned2(h, Scan(4, 1)))
    ensures Ready(Moved3Again(h, Scan(4, 2)))
            && Leads(Cleaned2(h, Scan(4, 1)), [CleanerStep], Moved3Again(h, Scan(4, 2)), true)
  {
    hide Leads, Ready;
    var s, t, e := Cleaned2(h, Scan(4, 1)), Moved3Again(h, Scan(4, 2)), Big(3, h);
    var r := s.(used := [4] + [0], cleaner := [1], free := [1, 2][1..], target := 1, targetPos := 0);
    assert [4] + [0] == [4, 0] && [1, 2][1..] == [2];
    Changes(s, LARGE, 1, r);
    assert [] + [e] == [e] && [e][1..] == [];
    PastFirst(UsedFor(3, h).behind, []);
    assert CopyToTarget(r, e).segs == t.segs;
    assert CopyToTarget(r, e).table == t.table;
    Copies(s, 4, 1, e, r, t);
  }

  lemma Clean4(h: seq<byte>)
    requires IsLarge(h) && Ready(Cleaned2(h, Walk(Some(4))))
    ensures Ready(Cleaned4(h, Walk(Some(0))))
    ensures Leads(Cleaned2(h, Walk(Some(4))),
            [CleanerStep] + ([CleanerStep] + ([CleanerStep] + ([CleanerStep] + [CleanerStep]))),
            Cleaned4(h, Walk(Some(0))), true)
  {
    hide Leads, Ready;
    var s, a, b, c, d := Cleaned2(h, Walk(Some(4))), Cleaned2(h, Scan(4, 0)), Cleaned2(h, Scan(4, 1)),
        Moved3Again(h, Scan(4, 2)), Moved3Again(h, Retire(4, Some(0)));
    var t := Cleaned4(h, Walk(Some(0)));
    Enters(s, 4, a);
    Skips(a, 4, 0, b);
    Move3Again(h);
    assert After([4, 0], 4) == Some(0);
    Leaves(c, 4, d);
    assert [Marked(B), Big(3, h)] + [] == [Marked(B), Big(3, h)];
    assert Emptied(d.segs[4]) == Used4(h);
    assert d.segs[4 := Used4(h)] == t.segs;
    assert Remove([4, 0], 4) == [0] && [2] + [4] == [2, 4];
    Recycles(d, 4, t);
    Four(a, b, c, d, t);
    Join(s, [CleanerStep], a, [CleanerStep] + ([CleanerStep] + ([CleanerStep] + [CleanerStep])), t, true);
  }

  // ---------- segment 0 is cleaned ----------

  lemma Move4Again(h: seq<byte>)
    requires IsLarge(h) && Ready(Cleaned4(h, Scan(0, 0)))
    ensures Ready(Moved4Again(h, Scan(0, 1)))
            && Leads(Cleaned4(h, Scan(0, 0)), [CleanerStep], Moved4Again(h, Scan(0, 1)), true)
  {
    hide Leads, Ready;
    var s, t, e := Cleaned4(h, Scan(0, 0)), Moved4Again(h, Scan(0, 1)), Big(4, h);
    var r := s.(used := [0] + [1], cleaner := [2], free := [2, 4][1..], target := 2, targetPos := 0);
    assert [0] + [1] == [0, 1] && [2, 4][1..] == [4];
    Changes(s, LARGE, 2, r);
    assert [] + [e] == [e] && [e][1..] == [];
    PastFirst(UsedFor(4, h).behind, []);
    assert CopyToTarget(r, e).segs == t.segs;
    assert CopyToTarget(r, e).table == t.table;
    Copies(s, 0, 0, e, r, t);
  }

  lemma Enter0(h: seq<byte>)
    requires IsLarge(h) && Ready(Cleaned4(h, Walk(Some(0))))
    ensures Ready(Moved4Again(h, Scan(0, 1)))
    ensures Leads(Cleaned4(h, Walk(Some(0))), [CleanerStep] + [CleanerStep], Moved4Again(h, Scan(0, 1)), true)
  {
    hide Leads, Ready;
    Enters(Cleaned4(h, Walk(Some(0))), 0, Cleaned4(h, Scan(0, 0)));
    Move4Again(h);
    Join(Cleaned4(h, Walk(Some(0))), [CleanerStep], Cleaned4(h, Scan(0, 0)), [CleanerStep], Moved4Again(h, Scan(0, 1)),
        true);
  }

  /** The next entry is the old one of object 2, which the table does not have any more. */
  lemma MeetsStale(h: seq<byte>)
    requires IsLarge(h) && Ready(Moved4Again(h, Scan(0, 1)))
    ensures Sane(Moved4Again(h, Scan(0, 1))) && Step(Moved4Again(h, Scan(0, 1)), CleanerStep).0 == NullEntry
  {
    hide Ready, Inv, Sane, TargetRoom;
    ReadySane(Moved4Again(h, Scan(0, 1)));
    var s := Moved4Again(h, Scan(0, 1));
    assert Seen(s.segs[0]) == [Big(4, h), B];
  }

  // ---------- the run ----------

  /** The client calls of the run, and the steps of the cleaner. */
  function Storing(h: seq<byte>): seq<Op> {
    [Palloc(1, h)] + ([Palloc(2, [8])] + ([Palloc(3, h)] + ([Palloc(4, h)] + ([Palloc(5, h)] + [Pfree(1)]))))
  }

  const Moving: seq<Op> := [CleanerStep] + ([CleanerStep] + ([CleanerStep] + [CleanerStep]))

  function Proper1(h: seq<byte>): seq<Op> {
    Storing(h) + (Moving + ([CleanerStep] + (([CleanerStep] + [CleanerStep]) + [Pfree(2)])))
  }

  function Proper2(): seq<Op> {
    Moving + (Moving + (([CleanerStep] + Moving) + ([CleanerStep] + [CleanerStep])))
  }

  lemma StoringLeads(h: seq<byte>)
    requires IsLarge(h)
    ensures Ready(Freed1(h)) && Leads(Fresh(6), Storing(h), Freed1(h), true)
  {
    hide Leads, Ready, Stored1, Stored2, Stored3, Stored4, Stored5, Freed1, Fresh;
    Store1(h);
    Store2(h);
    Store3(h);
    Store4(h);
    Store5(h);
    Free1(h);
    Join(Stored4(h), [Palloc(5, h)], Stored5(h), [Pfree(1)], Freed1(h), true);
    Join(Stored3(h), [Palloc(4, h)], Stored4(h), [Palloc(5, h)] + [Pfree(1)], Freed1(h), true);
    Join(Stored2(h), [Palloc(3, h)], Stored3(h), [Palloc(4, h)] + ([Palloc(5, h)] + [Pfree(1)]), Freed1(h), true);
    Join(Stored1(h), [Palloc(2, [8])], Stored2(h), [Palloc(3, h)] + ([Palloc(4, h)] + ([Palloc(5, h)] + [Pfree(1)])),
        Freed1(h), true);
    Join(Fresh(6), [Palloc(1, h)], Stored1(h),
         [Palloc(2, [8])] + ([Palloc(3, h)] + ([Palloc(4, h)] + ([Palloc(5, h)] + [Pfree(1)]))), Freed1(h), true);
  }

  lemma FirstHalf(h: seq<byte>)
    requires IsLarge(h)
    ensures Ready(Freed2(h, Walk(Some(1)))) && Leads(Fresh(6), Proper1(h), Freed2(h, Walk(Some(1))), true)
  {
    hide Leads, Ready, Freed1, Fresh, Storing, Arrived, Moved2, Cleaned0, Freed2;
    StoringLeads(h);
    Arrive(h);
    Move2(h);
    Clean0(h);
    Free2(h);
    var t := Freed2(h, Walk(Some(1)));
    Join(Moved2(h, Scan(0, 2)), [CleanerStep] + [CleanerStep], Cleaned0(h), [Pfree(2)], t, true);
    Join(Arrived(h, Scan(0, 1)), [CleanerStep], Moved2(h, Scan(0, 2)), ([CleanerStep] + [CleanerStep]) + [Pfree(2)], t,
        true);
    Join(Freed1(h), Moving, Arrived(h, Scan(0, 1)), [CleanerStep] + (([CleanerStep] + [CleanerStep]) + [Pfree(2)]), t,
        true);
    Join(Fresh(6), Storing(h), Freed1(h), Moving + ([CleanerStep] + (([CleanerStep] + [CleanerStep]) + [Pfree(2)])), t,
        true);
  }

  lemma SecondHalf(h: seq<byte>)
    requires IsLarge(h) && Ready(Freed2(h, Walk(Some(1))))
    ensures Ready(Moved4Again(h, Scan(0, 1)))
            && Leads(Freed2(h, Walk(Some(1))), Proper2(), Moved4Again(h, Scan(0, 1)), true)
  {
    hide Leads, Ready, Freed2, Cleaned1, Cleaned2, Cleaned4, Moved4Again;
    Clean1(h);
    Clean2(h);
    Clean4(h);
    Enter0(h);
    var t := Moved4Again(h, Scan(0, 1));
    Join(Cleaned2(h, Walk(Some(4))), [CleanerStep] + Moving, Cleaned4(h, Walk(Some(0))), [CleanerStep] + [CleanerStep],
        t, true);
    Join(Cleaned1(h, Walk(Some(2))), Moving, Cleaned2(h, Walk(Some(4))),
        ([CleanerStep] + Moving) + ([CleanerStep] + [CleanerStep]), t, true);
    Join(Freed2(h, Walk(Some(1))), Moving, Cleaned1(h, Walk(Some(2))),
         Moving + (([CleanerStep] + Moving) + ([CleanerStep] + [CleanerStep])), t, true);
  }

  /** The cleaner is about to look at the old entry. */
  function BeforeStale(h: seq<byte>): State {
    Moved4Again(h, Scan(0, 1))
  }

  /** Every call and every step up to there is allowed. */
  lemma ComesToStale(h: seq<byte>)
    requires IsLarge(h)
    ensures Ready(BeforeStale(h)) && Leads(Fresh(6), Proper1(h) + Proper2(), BeforeStale(h), true)
    ensures Admissible(Fresh(6), Proper1(h) + Proper2())
    ensures var r := Execute(Fresh(6), Proper1(h) + Proper2()); r.Completed? && r.s == BeforeStale(h)
    ensures TableOk(BeforeStale(h))
  {
    hide Leads, Ready, Fresh, Proper1, Proper2, Freed2, Moved4Again;
    FirstHalf(h);
    SecondHalf(h);
    Join(Fresh(6), Proper1(h), Freed2(h, Walk(Some(1))), Proper2(), BeforeStale(h), true);
    LeadsExecutes(Fresh(6), Proper1(h) + Proper2(), BeforeStale(h), true);
    ReadySane(BeforeStale(h));
  }

  /** Every call, and every step of the cleaner but the last, is allowed; the last one goes through a null pointer. */
  lemma StaleEntryCrashes(h: seq<byte>)
    requires IsLarge(h)
    ensures Admissible(Fresh(6), Proper1(h) + Proper2())
    ensures Execute(Fresh(6), Proper1(h) + Proper2() + [CleanerStep]) == Stuck(NullEntry)
  {
    hide Leads, Ready, Fresh, Proper1, Proper2, Moved4Again, Sane, Step;
    ComesToStale(h);
    MeetsStale(h);
    LeadsStuck(Fresh(6), Proper1(h) + Proper2(), BeforeStale(h), CleanerStep, true);
  }
}
