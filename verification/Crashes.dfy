/** Recovery over the bytes that a crash leaves, whatever they are where nothing is known of them, and after runs. */
module Crashes {
  import opened Layout
  import opened LogState
  import opened LiveBytes
  import opened LogInvariant
  import opened ClientSteps
  import opened CleanerSteps
  import opened LogRuns
  import opened StoredSegments
  import opened Recovery
  import opened StaleRun
  import IdGen

  /** A scan of each used segment is known to end. */
  ghost predicate EndsKnown(m: State) {
    forall x :: x in m.used ==> x < |m.segs| && EndKnown(m.segs[x])
  }

  function Nothing(m: State): (tails: seq<seq<Entry>>)
    ensures |tails| == |m.segs|
  {
    seq(|m.segs|, _ => [])
  }

  // ---------- the table ----------

  /** From these bytes the table is rebuilt as it was, place for place. */
  ghost predicate Restored(m: State, bs: seq<seq<byte>>)
    requires Shape(m) && Holding(m.segs, bs)
  {
    ShapeReadable(m);
    Recover(AsRead(m, Tails(m.segs, bs))) == m.table
  }

  lemma RestoredExactly(m: State, bs: seq<seq<byte>>)
    requires Inv(m) && Holding(m.segs, bs)
    ensures TableOk(m) && Readable(AsRead(m, Tails(m.segs, bs)))
    ensures Restored(m, bs) <==> CrashSafe(m, Tails(m.segs, bs))
  {
    RecoveryIsExact(m, Tails(m.segs, bs));
  }

  /** Where scans are known to end it does not matter what lies behind. */
  lemma NothingRead(m: State, bs: seq<seq<byte>>)
    requires EndsKnown(m) && Holding(m.segs, bs)
    ensures AsRead(m, Tails(m.segs, bs)) == AsRead(m, Nothing(m))
  {
    hide Holding, EndKnown, Tails;
    var a, b := AsRead(m, Tails(m.segs, bs)), AsRead(m, Nothing(m));
    forall i | 0 <= i < |m.segs|
      ensures a.segs[i] == b.segs[i]
    {
      if i in m.used {
        TailsAre(m.segs, bs, i);
      }
    }
  }

  /** An object that does not exist is found behind the known entries of a used segment. */
  lemma OddIsMet(m: State, tails: seq<seq<Entry>>, x: nat)
    requires |tails| == |m.segs| && TableOk(m) && Readable(AsRead(m, tails)) && x in m.used && x < |m.segs|
    requires tails[x] != [] && tails[x][0].id !in m.table && !tails[x][0].dead
    ensures !CrashSafe(m, tails)
  {
    var r := AsRead(m, tails);
    var l := Loc(x, |Seen(m.segs[x])|);
    assert ValidLoc(r, l) && At(r, l) == tails[x][0];
    MetAre(r, l);
    MetValid(r);
    AsReadTable(m, tails);
    hide Met, AsRead;
    var k: nat :| k < |Met(r)| && Met(r)[k] == l;
    assert Extra(m, l) && !Outdone(r, Met(r), m.table, k);
  }

  lemma SameSafety(m: State, tails: seq<seq<Entry>>, more: seq<seq<Entry>>)
    requires |tails| == |more| == |m.segs| && AsRead(m, tails) == AsRead(m, more)
    requires TableOk(m) && Readable(AsRead(m, tails))
    ensures CrashSafe(m, tails) <==> CrashSafe(m, more)
  {
    MetValid(AsRead(m, tails));
    AsReadTable(m, tails);
    AsReadTable(m, more);
    hide AsRead, Met, Readable, TableOk;
  }

  lemma KnownRestored(m: State, bs: seq<seq<byte>>)
    requires Inv(m) && TableOk(m) && EndsKnown(m) && Holding(m.segs, bs) && Readable(AsRead(m, Nothing(m)))
    ensures Restored(m, bs) <==> CrashSafe(m, Nothing(m))
  {
    hide Inv, Shape, Holding, Restored, CrashSafe, AsRead, TableOk, EndsKnown, Readable, Tails;
    RestoredExactly(m, bs);
    NothingRead(m, bs);
    SameSafety(m, Tails(m.segs, bs), Nothing(m));
  }

  lemma InRangeOfUsed(m: State)
    requires Inv(m)
    ensures forall x :: x in m.used ==> x < |m.segs|
  {
  }

  /** If an end is not known, or the heap is not safe by what is known, there are bytes from which the table is not
      rebuilt. */
  lemma LosingBytes(m: State) returns (bs: seq<seq<byte>>)
    requires Inv(m) && TableOk(m) && Whole(m.segs) && |m.table| < TWO_64 - 1 && Readable(AsRead(m, Nothing(m)))
    requires !(CrashSafe(m, Nothing(m)) && EndsKnown(m))
    ensures Holding(m.segs, bs) && !Restored(m, bs)
  {
    hide Inv, Shape, Holding, Restored, CrashSafe, AsRead, Whole, TableOk, EndKnown, Readable, Tails;
    InRangeOfUsed(m);
    IdGen.UsableIdExists(m.table);
    var id :| IdGen.Usable(m.table, id);
    var e := Entry(id, 1, [0], false);
    if EndsKnown(m) {
      bs := BytesForAll(m.segs, |m.segs|, e);
      KnownRestored(m, bs);
    } else {
      var x :| x in m.used && !EndKnown(m.segs[x]);
      bs := BytesForAll(m.segs, x, e);
      RestoredExactly(m, bs);
      OddIsMet(m, Tails(m.segs, bs), x);
    }
  }

  /** The table is rebuilt as it was from any bytes that there may be, if and only if the heap is safe by what is known,
      and scans of the used segments are known to end. (There are fewer objects than ids.) */
  lemma RecoveryOfAnyBytes(m: State)
    requires Inv(m) && Whole(m.segs) && |m.table| < TWO_64 - 1
    ensures TableOk(m) && Readable(AsRead(m, Nothing(m)))
    ensures (forall bs :: Holding(m.segs, bs) ==> Restored(m, bs)) <==> CrashSafe(m, Nothing(m)) && EndsKnown(m)
  {
    InvTable(m);
    ShapeReadable(m);
    hide *;
    if CrashSafe(m, Nothing(m)) && EndsKnown(m) {
      forall bs | Holding(m.segs, bs)
        ensures Restored(m, bs)
      {
        KnownRestored(m, bs);
      }
    } else {
      var bs := LosingBytes(m);
    }
  }

  // ---------- freed objects ----------

  /** Freed, and rebuilt from these bytes with the mark set, the table does not have the object. */
  ghost predicate StaysFreed(m: State, id: nat, bs: seq<seq<byte>>)
    requires Inv(m) && TableOk(m) && id in m.table && Holding(m.segs, bs)
  {
    FreeHolding(m, id, bs);
    FreedIsReadable(m, id, Tails(m.segs, bs));
    id !in Recover(AsRead(Free(m, id), Tails(Free(m, id).segs, WithMark(m, id, bs))))
  }

  lemma StaysFreedExactly(m: State, id: nat, bs: seq<seq<byte>>)
    requires Inv(m) && TableOk(m) && id in m.table && Holding(m.segs, bs)
    ensures Readable(AsRead(m, Tails(m.segs, bs)))
    ensures StaysFreed(m, id, bs) <==> OnlyMet(m, id, Tails(m.segs, bs))
  {
    InvIsSane(m);
    FreeHolding(m, id, bs);
    FreedStaysFreed(m, id, Tails(m.segs, bs));
  }

  lemma SameOnlyMet(m: State, id: nat, tails: seq<seq<Entry>>, more: seq<seq<Entry>>)
    requires |tails| == |more| == |m.segs| && AsRead(m, tails) == AsRead(m, more)
    requires id in m.table && Readable(AsRead(m, tails))
    ensures OnlyMet(m, id, tails) <==> OnlyMet(m, id, more)
  {
    hide AsRead, Met, Readable;
  }

  /** Where scans are known to end the bytes do not matter. */
  lemma KnownStaysFreed(m: State, id: nat, bs: seq<seq<byte>>)
    requires Inv(m) && TableOk(m) && id in m.table && Holding(m.segs, bs) && EndsKnown(m)
    requires Readable(AsRead(m, Nothing(m)))
    ensures StaysFreed(m, id, bs) <==> OnlyMet(m, id, Nothing(m))
  {
    hide Inv, Holding, StaysFreed, OnlyMet, AsRead, TableOk, EndsKnown, Readable, Tails;
    StaysFreedExactly(m, id, bs);
    NothingRead(m, bs);
    SameOnlyMet(m, id, Tails(m.segs, bs), Nothing(m));
  }

  lemma AnotherIsMet(m: State, tails: seq<seq<Entry>>, x: nat, id: nat)
    requires |tails| == |m.segs| && TableOk(m) && Readable(AsRead(m, tails)) && x in m.used && x < |m.segs|
    requires tails[x] != [] && tails[x][0].id == id && !tails[x][0].dead && id in m.table
    ensures !OnlyMet(m, id, tails)
  {
    var r := AsRead(m, tails);
    var l := Loc(x, |Seen(m.segs[x])|);
    assert ValidLoc(r, l) && At(r, l) == tails[x][0] && m.table[id] != l;
    MetAre(r, l);
    MetValid(r);
    hide Met, AsRead;
    var k: nat :| k < |Met(r)| && Met(r)[k] == l;
    assert Candidate(r, Met(r), id, k);
  }

  lemma AnotherRevives(m: State, id: nat, bs: seq<seq<byte>>, x: nat)
    requires Inv(m) && TableOk(m) && id in m.table && Holding(m.segs, bs) && x in m.used && x < |m.segs|
    requires Tails(m.segs, bs)[x] != [] && Tails(m.segs, bs)[x][0].id == id && !Tails(m.segs, bs)[x][0].dead
    ensures !StaysFreed(m, id, bs)
  {
    hide Inv, Holding, StaysFreed, OnlyMet, AsRead, TableOk, Readable, Tails;
    StaysFreedExactly(m, id, bs);
    AnotherIsMet(m, Tails(m.segs, bs), x, id);
  }

  /** If not, there are bytes that bring it back. */
  lemma RevivingBytes(m: State, id: nat) returns (bs: seq<seq<byte>>)
    requires Inv(m) && TableOk(m) && Whole(m.segs) && id in m.table && Readable(AsRead(m, Nothing(m)))
    requires !(OnlyMet(m, id, Nothing(m)) && EndsKnown(m))
    ensures Holding(m.segs, bs) && !StaysFreed(m, id, bs)
  {
    hide Inv, Holding, StaysFreed, OnlyMet, AsRead, Whole, TableOk, EndKnown, Readable, Tails, Shape;
    InRangeOfUsed(m);
    IdIsWord(m, id);
    var e := Entry(id, 1, [0], false);
    if EndsKnown(m) {
      bs := BytesForAll(m.segs, |m.segs|, e);
      KnownStaysFreed(m, id, bs);
    } else {
      var x :| x in m.used && !EndKnown(m.segs[x]);
      bs := BytesForAll(m.segs, x, e);
      AnotherRevives(m, id, bs, x);
    }
  }

  lemma IdIsWord(m: State, id: nat)
    requires TableOk(m) && Whole(m.segs) && id in m.table
    ensures id < TWO_64
  {
    var g := m.segs[m.table[id].seg];
    assert WholeSegment(g) && Seen(g)[m.table[id].idx] == At(m, m.table[id]);
  }

  /** A freed object stays freed, whatever bytes there are, if and only if by what is known no other unmarked entry of
      it is met, and scans of the used segments are known to end. */
  lemma FreedWithAnyBytes(m: State, id: nat)
    requires Inv(m) && Whole(m.segs) && id in m.table
    ensures TableOk(m) && Readable(AsRead(m, Nothing(m)))
    ensures (forall bs :: Holding(m.segs, bs) ==> StaysFreed(m, id, bs)) <==>
              OnlyMet(m, id, Nothing(m)) && EndsKnown(m)
  {
    InvTable(m);
    ShapeReadable(m);
    hide *;
    if OnlyMet(m, id, Nothing(m)) && EndsKnown(m) {
      forall bs | Holding(m.segs, bs)
        ensures StaysFreed(m, id, bs)
      {
        KnownStaysFreed(m, id, bs);
      }
    } else {
      var bs := RevivingBytes(m, id);
    }
  }

  // ---------- before the cleaner has taken a segment ----------

  /** No segment was used twice: no old entries lie behind those there are, and a head that was given up ends a scan. */
  ghost predicate Pristine(m: State) {
    forall i: nat :: i < |m.segs| ==> PristineSegment(m, i)
  }

  ghost predicate PristineSegment(m: State, i: nat)
    requires i < |m.segs|
  {
    m.segs[i].behind.es == [] && (i in m.used ==> EndKnown(m.segs[i]))
  }

  /** Then a crash loses nothing, whatever bytes were in the mapping. */
  lemma PristineIsSafe(m: State)
    requires Inv(m) && m.phase.Start? && Pristine(m)
    ensures EndsKnown(m) && TableOk(m) && Readable(AsRead(m, Nothing(m))) && CrashSafe(m, Nothing(m))
    ensures forall bs :: Holding(m.segs, bs) ==> Restored(m, bs)
  {
    InvTable(m);
    ShapeReadable(m);
    InRangeOfUsed(m);
    hide Shape;
    forall x | x in m.used
      ensures EndKnown(m.segs[x])
    {
      assert PristineSegment(m, x);
    }
    MetValid(AsRead(m, Nothing(m)));
    hide Inv, Met, EndKnown;
    forall k: nat | k < |Met(AsRead(m, Nothing(m)))|
      ensures !Extra(m, Met(AsRead(m, Nothing(m)))[k])
    {
      PristineNotExtra(m, Met(AsRead(m, Nothing(m)))[k]);
    }
    hide Holding, AsRead, Restored;
    forall bs | Holding(m.segs, bs)
      ensures Restored(m, bs)
    {
      KnownRestored(m, bs);
    }
  }

  lemma PristineNotExtra(m: State, l: Loc)
    requires Pristine(m) && m.phase.Start? && ValidLoc(AsRead(m, Nothing(m)), l)
    ensures !Extra(m, l)
  {
    assert PristineSegment(m, l.seg);
  }

  lemma FormattedPristine(ends: seq<End>)
    requires |ends| >= 2
    ensures Pristine(Formatted(ends))
  {
  }

  lemma NextHeadPristine(s: State)
    requires Pristine(s) && s.head.None?
    ensures Pristine(NextHead(s).s)
  {
    forall i: nat | i < |s.segs|
      ensures PristineSegment(NextHead(s).s, i)
    {
      assert PristineSegment(s, i);
    }
  }

  /** The head gets its zero length when it is given up, unless it is full. */
  lemma ChangeHeadPristine(s: State)
    requires Shape(s) && Pristine(s) && s.head.Some?
    ensures Pristine(NextHead(EndHead(s)).s)
  {
    var h, t := s.head.value, NextHead(EndHead(s)).s;
    assert h < |s.segs| && s.headPos == Bytes(s.segs[h].log);
    hide Shape;
    forall i: nat | i < |s.segs|
      ensures PristineSegment(t, i)
    {
      assert PristineSegment(s, i);
      assert i in t.used ==> i in s.used || i == h;
      assert s.segs[i].log + [] == s.segs[i].log;
    }
  }

  lemma MakeRoomPristine(s: State, size: nat)
    requires Shape(s) && Pristine(s)
    ensures Pristine(MakeRoom(s, size).s)
  {
    hide Pristine, Shape;
    if s.head.None? {
      NextHeadPristine(s);
      NextHeadShape(s);
      if NextHead(s).ok {
        ChangeHeadPristine(NextHead(s).s);
      }
    } else {
      ChangeHeadPristine(s);
    }
  }

  lemma PublishPristine(s: State, e: Entry)
    requires Shape(s) && Pristine(s)
    ensures InRange(s) && Pristine(Publish(s, e).s) && Publish(s, e).s.phase == s.phase
  {
    ShapeInRange(s);
    MakeRoomPristine(s, Size(e));
    hide Shape, Pristine;
    var r := MakeRoom(s, Size(e));
    if r.ok {
      WritePristine(r.s, Publish(s, e).s, r.s.head.value, e);
    }
  }

  lemma WritePristine(r: State, f: State, h: nat, e: Entry)
    requires Pristine(r) && h < |r.segs| && h !in r.used
    requires f.segs == WriteEntry(r, h, e).segs && f.used == r.used
    ensures Pristine(f)
  {
    assert PristineSegment(r, h);
    forall i: nat | i < |f.segs|
      ensures PristineSegment(f, i)
    {
      assert PristineSegment(r, i);
    }
  }

  lemma SamePristine(s: State, d: State)
    requires Pristine(s) && d.used == s.used && |d.segs| == |s.segs|
    requires forall i: nat {:trigger d.segs[i]} :: i < |s.segs| ==>
               d.segs[i].behind == s.segs[i].behind && Bytes(d.segs[i].log) == Bytes(s.segs[i].log)
    ensures Pristine(d)
  {
    hide Bytes;
    forall i: nat | i < |d.segs|
      ensures PristineSegment(d, i)
    {
      assert PristineSegment(s, i);
      assert s.segs[i].log + [] == s.segs[i].log && d.segs[i].log + [] == d.segs[i].log;
    }
  }

  lemma UpdatePristine(s: State, id: nat, data: seq<byte>)
    requires Inv(s) && Sane(s) && Pristine(s)
    ensures Pristine(Update(s, id, data).s)
  {
    if data != [] && id in s.table {
      var d := DiscountPristine(s, id);
      var e := At(s, s.table[id]);
      hide Pristine, Publish, Shape, Inv, Sane;
      PublishPristine(d, e.(version := e.version + 1, data := data));
    }
  }

  lemma DiscountPristine(s: State, id: nat) returns (d: State)
    requires Inv(s) && Sane(s) && Pristine(s) && id in s.table
    ensures d == Discount(s, s.table[id]) && Shape(d) && Pristine(d)
  {
    InvTable(s);
    DiscountNoUnderflow(s, id);
    d := Discount(s, s.table[id]);
    DiscountedShape(s, d, id);
    hide Inv, Shape;
    SamePristine(s, d);
  }

  lemma FreePristine(s: State, id: nat)
    requires Inv(s) && Sane(s) && Pristine(s)
    ensures Pristine(Free(s, id))
  {
    if id in s.table {
      InvTable(s);
      FreeIsFreed(s, id);
      hide Inv, Sane, Pristine, Free, TableOk;
      FreedPristine(s, Free(s, id), id);
    }
  }

  lemma FreedPristine(s: State, f: State, id: nat)
    requires TableOk(s) && id in s.table && Freed(s, f, id) && Pristine(s)
    ensures Pristine(f)
  {
    var l := s.table[id];
    var log := s.segs[l.seg].log;
    hide Share, Pristine, Bytes;
    BytesReplace(log, l.idx, log[l.idx].(dead := true));
    SamePristine(s, f);
  }

  lemma StepPristine(s: State, op: Op, t: State)
    requires Inv(s) && Sane(s) && Pristine(s) && Step(s, op).0 == Continue(t) && t.phase.Start?
    ensures Pristine(t)
  {
    assert Shape(s);
    hide Inv, Shape, Pristine, Publish;
    match op
    case Palloc(id, data) => PublishPristine(s, Entry(id, 1, data, false));
    case PallocWithId(id, data) =>
      PublishPristine(s, Entry(id, 1, data, false));
      UpdatePristine(s, id, data);
    case UpdateData(id, data) => UpdatePristine(s, id, data);
    case Pfree(id) => FreePristine(s, id);
    case CleanerStep => NotStarted(s, t);
  }

  /** The cleaner starts no second time. */
  lemma NotStarted(s: State, t: State)
    requires Sane(s) && Clean(s) == Continue(t) && t.phase.Start?
    ensures t == s
  {
    if !s.phase.Start? {
      CleanGoesOn(s);
    }
  }

  lemma CleanGoesOn(s: State)
    requires Sane(s) && !s.phase.Start?
    ensures Clean(s).Continue? ==> !Clean(s).s.phase.Start?
  {
    hide Past, Bytes, TargetRoom, CleanerToUsed, NewTarget;
    if s.phase.Scan? && s.phase.k < |Seen(s.segs[s.phase.seg])| {
      TargetRoomIs(s.(phase := Scan(s.phase.seg, s.phase.k + 1)), Size(Seen(s.segs[s.phase.seg])[s.phase.k]));
    }
  }

  lemma {:induction false} RunPristine(s: State, ops: seq<Op>)
    requires Inv(s) && Pristine(s) && Admissible(s, ops)
    requires Execute(s, ops).Completed? && Execute(s, ops).s.phase.Start?
    ensures Pristine(Execute(s, ops).s)
    decreases |ops|
  {
    if ops != [] {
      var t, ok := NextState(s, ops);
      hide Inv, Sane, Step, Pristine, Admissible;
      if t.phase.Start? {
        StepPristine(s, ops[0], t);
        RunPristine(t, ops[1..]);
      } else {
        NeverBack(t, ops[1..]);
      }
    }
  }

  /** Once the cleaner has a target it never goes without. */
  lemma {:induction false} NeverBack(s: State, ops: seq<Op>)
    requires Inv(s) && Admissible(s, ops) && !s.phase.Start?
    ensures Execute(s, ops).Completed? ==> !Execute(s, ops).s.phase.Start?
    decreases |ops|
  {
    if ops != [] {
      var t, ok := NextState(s, ops);
      StepGoesOn(s, ops[0], t);
      hide Inv, Sane, Step, Admissible;
      NeverBack(t, ops[1..]);
    }
  }

  lemma StepGoesOn(s: State, op: Op, t: State)
    requires Sane(s) && Step(s, op).0 == Continue(t) && !s.phase.Start?
    ensures !t.phase.Start?
  {
    hide Sane, Clean, Past, Bytes;
    if op.CleanerStep? {
      CleanGoesOn(s);
    }
  }

  /** A crash at the end of any run, from any bytes the mapping may have had: the objects are those of the map, and all
      are recovered where they were if and only if the state and the bytes are safe; before the cleaner has taken a
      segment they are. */
  lemma RunSurvivesCrash(ends: seq<End>, ops: seq<Op>, bs: seq<seq<byte>>)
    requires |ends| >= 2 && Admissible(Formatted(ends), ops)
    requires var r := Execute(Formatted(ends), ops); r.Completed? ==> Holding(r.s.segs, bs)
    ensures var r := Execute(Formatted(ends), ops);
            && r.Completed? && |r.oks| == |ops| && Inv(r.s) && TableOk(r.s)
            && Objects(r.s) == Replay(map[], ops, r.oks)
            && Readable(AsRead(r.s, Tails(r.s.segs, bs)))
            && (Restored(r.s, bs) <==> CrashSafe(r.s, Tails(r.s.segs, bs)))
            && (r.s.phase.Start? ==> Restored(r.s, bs))
  {
    HeapIsAMap(ends, ops);
    var r := Execute(Formatted(ends), ops);
    RestoredExactly(r.s, bs);
    FormattedInv(ends);
    if r.s.phase.Start? {
      FormattedPristine(ends);
      RunPristine(Formatted(ends), ops);
      PristineIsSafe(r.s);
    }
  }

  lemma StaleIsRead(h: seq<byte>, tails: seq<seq<Entry>>)
    requires |tails| == |BeforeStale(h).segs|
    ensures var r := AsRead(BeforeStale(h), tails);
            ValidLoc(r, Loc(0, 1)) && At(r, Loc(0, 1)) == B && 0 in r.used && Readable(r)
    ensures 2 !in BeforeStale(h).table
  {
    var r := AsRead(BeforeStale(h), tails);
    assert r.segs[0].log == [Big(4, h)] + [B] + tails[0] && r.segs[0].log[1] == B;
  }

  lemma StaleIsMet(h: seq<byte>, tails: seq<seq<Entry>>)
    requires TableOk(BeforeStale(h)) && |tails| == |BeforeStale(h).segs|
    ensures var s := BeforeStale(h);
            2 !in Objects(s) && Readable(AsRead(s, tails)) && 2 in Recover(AsRead(s, tails))
  {
    hide Met, AsRead, Recover, Found, BeforeStale;
    StaleIsRead(h, tails);
    var s, l := BeforeStale(h), Loc(0, 1);
    var r := AsRead(s, tails);
    MetAre(r, l);
    RecoverFinds(r, 2);
    var k: nat :| k < |Met(r)| && Met(r)[k] == l;
    assert Candidate(r, Met(r), 2, k);
    FoundIfMet(r, Met(r), 2, Recover(r));
  }

  /** They need not be: at the end of the run of StaleRun, before its last step, a crash brings back a freed object. */
  lemma FreedObjectReturns(h: seq<byte>, bs: seq<seq<byte>>)
    requires IsLarge(h) && Holding(BeforeStale(h).segs, bs)
    ensures Admissible(Fresh(6), Proper1(h) + Proper2())
    ensures var r := Execute(Fresh(6), Proper1(h) + Proper2()); r.Completed? && r.s == BeforeStale(h)
    ensures TableOk(BeforeStale(h)) && 2 !in Objects(BeforeStale(h))
    ensures var tails := Tails(BeforeStale(h).segs, bs);
            Readable(AsRead(BeforeStale(h), tails)) && 2 in Recover(AsRead(BeforeStale(h), tails))
  {
    ComesToStale(h);
    hide *;
    StaleIsMet(h, Tails(BeforeStale(h).segs, bs));
  }
}
