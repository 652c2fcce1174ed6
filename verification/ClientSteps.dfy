/** Allocating, updating and freeing keep the invariant and do to the objects what they should. */
module ClientSteps {
  import opened Wrappers
  import opened Layout
  import opened LogState
  import opened LiveBytes
  import opened LogInvariant

  /** `d` is `s` after the share that object `id` has in each segment was taken off its count. */
  ghost predicate Discounted(s: State, d: State, id: nat)
    requires TableOk(s)
  {
    && d == s.(segs := d.segs) && |d.segs| == |s.segs|
    && forall i: nat :: i < |s.segs| ==>
         d.segs[i].log == s.segs[i].log && d.segs[i].used == s.segs[i].used - Share(s, id, i)
             && d.segs[i].behind == s.segs[i].behind
  }

  /** The count of a segment is never less than what is taken off it. */
  lemma DiscountNoUnderflow(s: State, id: nat)
    requires Inv(s) && id in s.table
    ensures Size(At(s, s.table[id])) <= s.segs[s.table[id].seg].used
    ensures Discounted(s, Discount(s, s.table[id]), id)
  {
    ShareAtMostLive(s, id, s.table[id].seg);
  }

  lemma DiscountedShape(s: State, d: State, id: nat)
    requires Inv(s) && Discounted(s, d, id)
    ensures Shape(d) && Sized(d)
  {
    hide Shape, Provided, Located, Newest, Accounted, Bytes;
    assert SameShape(s, d);
    ShapeSame(s, d);
    assert Sized(d);
  }

  /** The entry that publishing writes is counted, and the old version is not any more. */
  lemma PublishedAccounted(s: State, d: State, r: State, f: State, e: Entry)
    requires Inv(s) && Discounted(s, d, e.id) && SameButHead(d, r) && Shape(r)
    requires r.head.Some? && r.head.value < |r.segs|
    requires f == WriteEntry(r, r.head.value, e).(headPos := f.headPos, table := f.table)
    requires Pointed(s, f, r.head.value, e)
    ensures Accounted(f)
  {
    var h := r.head.value;
    forall i: nat | i < |f.segs|
      ensures Live(f, i) <= f.segs[i].used && (IsCurrent(f.phase, i) || f.segs[i].used == Live(f, i))
    {
      PointedLive(s, f, h, e, i);
      ShareAtMostLive(s, e.id, i);
      assert f.segs[i].used == s.segs[i].used - Share(s, e.id, i) + if i == h then Size(e) else 0;
    }
  }

  ghost function Remaining(s: State, p: Phase): nat
    requires p.Scan? && p.seg < |s.segs|
  {
    LiveFrom(s.table, p.seg, s.segs[p.seg].log, p.k)
  }

  /** The cleaner is where it was, and has no more left to move than before. */
  ghost predicate Undisturbed(s: State, t: State) {
    && t.phase == s.phase && t.target == s.target && t.targetPos == s.targetPos && |t.segs| == |s.segs|
    && (s.phase.Scan? && s.phase.seg < |s.segs| ==> Remaining(t, s.phase) <= Remaining(s, s.phase))
  }

  lemma PublishedProvided(s: State, f: State, h: nat, e: Entry)
    requires Inv(s) && Pointed(s, f, h, e)
    requires f.phase == s.phase && f.reserve == s.reserve && f.emergency == s.emergency && f.target == s.target
             && f.targetPos == s.targetPos
    requires !(s.phase.Scan? && s.phase.seg == h)
    ensures Provided(f) && Undisturbed(s, f)
  {
    hide Partition, Idle, Positions, Newest, Accounted, Sized;
    if s.phase.Scan? {
      PointedRemaining(s, f, h, e, s.phase.seg, s.phase.k);
    }
  }

  /** The states that publishing goes through. */
  lemma PublishSteps(s: State, d: State, e: Entry) returns (r: State, h: nat, f: State)
    requires Inv(s) && TableOk(s) && Discounted(s, d, e.id) && HasRoom(s, Size(e))
    ensures InRange(d) && MakeRoom(d, Size(e)) == Result(r, true) && Publish(d, e) == Result(f, true)
    ensures SameButHead(d, r) && Shape(r) && Sized(r) && r.head == Some(h) && h < |r.segs|
    ensures r.headPos + Size(e) <= DATA_SIZE && r.headPos == Bytes(s.segs[h].log)
    ensures f == WriteEntry(r, h, e).(headPos := r.headPos + Size(e), table := f.table)
    ensures Pointed(s, f, h, e) && !IsCurrent(s.phase, h)
  {
    DiscountedShape(s, d, e.id);
    FitsSame(s, d, Size(e));
    MakeRoomShape(d, Size(e));
    r := MakeRoom(d, Size(e)).s;
    hide Inv, Sized, HasRoom, Fits;
    h, f := PublishesAt(s, d, e, r);
  }

  lemma PublishesAt(s: State, d: State, e: Entry, r: State) returns (h: nat, f: State)
    requires TableOk(s) && Discounted(s, d, e.id) && Shape(d) && MakeRoom(d, Size(e)) == Result(r, true)
    requires SameButHead(d, r) && Shape(r)
    ensures InRange(d) && Publish(d, e) == Result(f, true)
    ensures r.head == Some(h) && h < |r.segs| && r.headPos == Bytes(s.segs[h].log)
    ensures f == WriteEntry(r, h, e).(headPos := r.headPos + Size(e), table := f.table)
    ensures Pointed(s, f, h, e) && !IsCurrent(s.phase, h)
  {
    hide Bytes, Past, MakeRoom;
    h := r.head.value;
    f := Publish(d, e).s;
    assert Positions(r);
  }

  /** A new entry at the head, newer than any there is of its object, keeps the invariant. */
  lemma PublishKeeps(s: State, d: State, e: Entry)
    requires Inv(s) && Discounted(s, d, e.id)
    requires !e.dead && e.data != [] && e.version >= 1 && HasRoom(s, Size(e))
    requires e.id in s.table ==> At(s, s.table[e.id]).version < e.version
    ensures InRange(d)
    ensures Publish(d, e).ok && Inv(Publish(d, e).s)
    ensures Current(Publish(d, e).s) == Current(s)[e.id := e] && Undisturbed(s, Publish(d, e).s)
  {
    var r, h, f := PublishSteps(s, d, e);
    assert Data(f) by {
      PublishedLocated(s, f, h, e);
      PublishedNewest(s, f, h, e);
      PublishedAccounted(s, d, r, f, e);
      WriteSized(r, h, e);
      SizedSame(WriteEntry(r, h, e), f);
    }
    PublishedProvided(s, f, h, e);
    PublishedShape(r, f, h, e);
    PointedCurrent(s, f, h, e);
  }

  /** Publishing fails exactly when there is no room, and then only the head has changed. */
  lemma PublishFails(s: State, d: State, e: Entry)
    requires Inv(s) && Discounted(s, d, e.id) && Fits(s, Size(e)) && !HasRoom(s, Size(e))
    ensures InRange(d)
    ensures !Publish(d, e).ok && SameButHead(d, Publish(d, e).s) && Shape(Publish(d, e).s)
    ensures Undisturbed(s, Publish(d, e).s)
  {
    DiscountedShape(s, d, e.id);
    FitsSame(s, d, Size(e));
    MakeRoomShape(d, Size(e));
  }

  lemma PublishedNewest(s: State, f: State, h: nat, e: Entry)
    requires Inv(s) && Pointed(s, f, h, e) && f.phase == s.phase && TableOk(f)
    requires e.id in s.table ==> At(s, s.table[e.id]).version < e.version
    ensures Newest(f)
  {
    forall i: nat, j: nat | ValidLoc(s, Loc(i, j)) && !s.segs[i].log[j].dead && !Scanned(f.phase, i, j)
        && s.segs[i].log[j].id == e.id
      ensures s.segs[i].log[j].version < e.version
    {
      assert Known(s, i, j);
    }
    PointedNewest(s, f, h, e);
  }

  lemma PublishedLocated(s: State, f: State, h: nat, e: Entry)
    requires Inv(s) && Pointed(s, f, h, e) && f.phase == s.phase && !e.dead && !IsCurrent(s.phase, h)
    ensures Located(f)
  {
    PointedTable(s, f, h, e);
  }

  lemma PublishedShape(r: State, f: State, h: nat, e: Entry)
    requires Shape(r) && r.head == Some(h) && h < |r.segs|
    requires f == WriteEntry(r, h, e).(headPos := r.headPos + Size(e), table := f.table)
    ensures Shape(f)
  {
    hide Bytes;
    BytesAppend(r.segs[h].log, e);
    assert Partition(f);
    if !r.phase.Start? { assert r.target in r.cleaner && r.target != h; }
    if f.phase.Scan? || f.phase.Retire? { assert f.phase.seg != h; }
    assert forall x :: x in r.free || x in r.emergency ==> x != h;
    hide Partition;
    assert Positions(f);
    assert Idle(f);
    assert OnUsed(f);
  }

  // ---------- the operations ----------

  lemma UnchangedHead(s: State, t: State)
    requires Inv(s) && SameButHead(s, t) && Shape(t)
    ensures Inv(t) && Current(t) == Current(s)
  {
    hide Shape, Located, Newest, Sized;
    assert SameEntries(s, t);
    SameEntriesKeep(s, t);
  }

  lemma NewKeeps(s: State, id: nat, data: seq<byte>)
    requires Inv(s) && id !in s.table && Fits(s, ENTRY_HEADER + |data|)
    ensures InRange(s)
    ensures var r := New(s, id, data);
            && (r.ok <==> data != [] && HasRoom(s, ENTRY_HEADER + |data|))
            && Inv(r.s) && Undisturbed(s, r.s)
            && Current(r.s) == (if r.ok then Current(s)[id := Entry(id, 1, data, false)] else Current(s))
            && Objects(r.s) == if r.ok then Objects(s)[id := data] else Objects(s)
  {
    InvTable(s);
    InvIsSane(s);
    NoneDisturbed(s);
    hide Inv, HasRoom, Fits, Undisturbed, Current, DataOf, Publish, TableOk, InRange;
    if data != [] {
      PublishNew(s, id, data, Publish(s, Entry(id, 1, data, false)));
    }
  }

  lemma PublishNew(s: State, id: nat, data: seq<byte>, r: Result)
    requires Inv(s) && id !in s.table && data != [] && Fits(s, ENTRY_HEADER + |data|)
    requires InRange(s) && r == Publish(s, Entry(id, 1, data, false))
    ensures r.ok <==> HasRoom(s, ENTRY_HEADER + |data|)
    ensures Inv(r.s) && Undisturbed(s, r.s) && TableOk(s)
    ensures Current(r.s) == if r.ok then Current(s)[id := Entry(id, 1, data, false)] else Current(s)
    ensures Objects(r.s) == if r.ok then Objects(s)[id := data] else Objects(s)
  {
    var e := Entry(id, 1, data, false);
    InvTable(s);
    UndiscountedIs(s, id);
    hide Inv, HasRoom, Fits, Undisturbed, Current, DataOf, Publish, TableOk, InRange, Discounted;
    if HasRoom(s, Size(e)) {
      PublishedObject(s, s, e);
    } else {
      PublishFailed(s, s, e);
    }
  }

  /** Publishing where there is room: the object has the new entry's bytes. */
  lemma PublishedObject(s: State, d: State, e: Entry)
    requires Inv(s) && Discounted(s, d, e.id)
    requires !e.dead && e.data != [] && e.version >= 1 && HasRoom(s, Size(e))
    requires e.id in s.table ==> At(s, s.table[e.id]).version < e.version
    ensures InRange(d) && TableOk(s)
    ensures var r := Publish(d, e);
            && r.ok && Inv(r.s) && TableOk(r.s) && Undisturbed(s, r.s)
            && Current(r.s) == Current(s)[e.id := e] && Objects(r.s) == Objects(s)[e.id := e.data]
  {
    PublishKeeps(s, d, e);
    InvTable(Publish(d, e).s);
    hide Inv, HasRoom, Undisturbed, Current, DataOf, Publish;
    DataOfChanged(Current(s), e.id, e);
  }

  /** Where there is none, and nothing was taken off a count. */
  lemma PublishFailed(s: State, d: State, e: Entry)
    requires Inv(s) && Discounted(s, s, e.id) && d == s && Fits(s, Size(e)) && !HasRoom(s, Size(e))
    ensures InRange(d) && TableOk(s)
    ensures var r := Publish(d, e);
            && !r.ok && Inv(r.s) && Undisturbed(s, r.s) && Current(r.s) == Current(s) && Objects(r.s) == Objects(s)
  {
    PublishFails(s, s, e);
    UndiscountedHead(s, Publish(d, e).s);
  }

  lemma UndiscountedHead(s: State, t: State)
    requires Inv(s) && SameButHead(s, t) && Shape(t)
    ensures TableOk(s) && Inv(t) && Current(t) == Current(s) && Objects(t) == Objects(s)
  {
    UnchangedHead(s, t);
  }

  /** A new object has no share in any segment. */
  lemma UndiscountedIs(s: State, id: nat)
    requires TableOk(s) && id !in s.table
    ensures Discounted(s, s, id)
  {
  }

  lemma NoneDisturbed(s: State)
    ensures Undisturbed(s, s)
  {
  }

  /** A count that is too large by at least the current version of the object: only a segment being cleaned may have
      that. */
  ghost predicate Overcounted(s: State, id: nat)
    requires TableOk(s) && id in s.table
  {
    var i := s.table[id].seg;
    IsCurrent(s.phase, i) && Live(s, i) + Size(At(s, s.table[id])) <= s.segs[i].used
  }

  /** The entry that stores new data for an object. */
  ghost function Newer(s: State, id: nat, data: seq<byte>): Entry
    requires TableOk(s)
  {
    Entry(id, if id in s.table then At(s, s.table[id]).version + 1 else 1, data, false)
  }

  /** An update that finds no room has already taken the old version off its segment's count.
      That segment is undercounted from then on, unless it is being cleaned. */
  lemma UpdateKeeps(s: State, id: nat, data: seq<byte>)
    requires Inv(s) && id in s.table && data != [] && Fits(s, ENTRY_HEADER + |data|)
    ensures Sane(s)
    ensures var r := Update(s, id, data);
            && (r.ok <==> HasRoom(s, ENTRY_HEADER + |data|))
            && (Inv(r.s) <==> r.ok || Overcounted(s, id)) && TableOk(r.s)
            && Current(r.s) == (if r.ok then Current(s)[id := Newer(s, id, data)] else Current(s))
            && Objects(r.s) == (if r.ok then Objects(s)[id := data] else Objects(s)) && Undisturbed(s, r.s)
  {
    InvIsSane(s);
    InvTable(s);
    assert At(s, s.table[id]).id == id && !At(s, s.table[id]).dead;
    DiscountNoUnderflow(s, id);
    hide Inv, HasRoom, Fits, Undisturbed, Current, DataOf, Publish, Overcounted, Discounted;
    var d, e := UpdateIs(s, id, data);
    hide Update;
    PublishNewer(s, d, id, data, Publish(d, e));
  }

  lemma PublishNewer(s: State, d: State, id: nat, data: seq<byte>, r: Result)
    requires Inv(s) && id in s.table && data != [] && Fits(s, ENTRY_HEADER + |data|) && Discounted(s, d, id)
    requires InRange(d) && r == Publish(d, Newer(s, id, data))
    ensures r.ok <==> HasRoom(s, ENTRY_HEADER + |data|)
    ensures Inv(r.s) <==> r.ok || Overcounted(s, id)
    ensures TableOk(r.s) && Undisturbed(s, r.s)
    ensures Current(r.s) == if r.ok then Current(s)[id := Newer(s, id, data)] else Current(s)
    ensures Objects(r.s) == if r.ok then Objects(s)[id := data] else Objects(s)
  {
    var e := Newer(s, id, data);
    InvTable(s);
    hide Inv, HasRoom, Fits, Undisturbed, Current, DataOf, Publish, Overcounted, Discounted;
    if HasRoom(s, Size(e)) {
      PublishedObject(s, d, e);
    } else {
      PublishNewerFails(s, d, e);
    }
  }

  lemma PublishNewerFails(s: State, d: State, e: Entry)
    requires Inv(s) && e.id in s.table && Fits(s, Size(e)) && !HasRoom(s, Size(e)) && Discounted(s, d, e.id)
    ensures InRange(d) && TableOk(s)
    ensures var r := Publish(d, e);
            && !r.ok && (Inv(r.s) <==> Overcounted(s, e.id)) && TableOk(r.s) && Undisturbed(s, r.s)
            && Current(r.s) == Current(s) && Objects(r.s) == Objects(s)
  {
    PublishFails(s, d, e);
    FailedUpdateObjects(s, e.id, d, Publish(d, e).s);
    hide *;
  }

  lemma FailedUpdateObjects(s: State, id: nat, d: State, f: State)
    requires Inv(s) && id in s.table && Discounted(s, d, id) && SameButHead(d, f) && Shape(f)
    ensures TableOk(s) && TableOk(f) && (Inv(f) <==> Overcounted(s, id))
    ensures Current(f) == Current(s) && Objects(f) == Objects(s)
  {
    InvTable(s);
    FailedUpdate(s, id, d, f);
  }

  lemma UpdateIs(s: State, id: nat, data: seq<byte>) returns (d: State, e: Entry)
    requires Sane(s) && TableOk(s) && id in s.table && data != []
    requires At(s, s.table[id]).id == id && !At(s, s.table[id]).dead
    ensures d == Discount(s, s.table[id]) && InRange(d)
    ensures e == Newer(s, id, data)
    ensures Update(s, id, data) == Publish(d, e)
  {
    d := Discount(s, s.table[id]);
    e := At(s, s.table[id]).(version := At(s, s.table[id]).version + 1, data := data);
  }

  lemma FailedUpdate(s: State, id: nat, d: State, f: State)
    requires Inv(s) && id in s.table && Discounted(s, d, id) && SameButHead(d, f) && Shape(f)
    ensures Inv(f) <==> Overcounted(s, id)
    ensures TableOk(f) && Current(f) == Current(s)
  {
    hide Newest, Sized, Overcounted;
    assert SameEntries(s, f);
    SameEntriesKeep(s, f);
    assert Provided(f);
    hide Shape;
    FailedUpdateAccounted(s, id, f);
  }

  lemma FailedUpdateAccounted(s: State, id: nat, f: State)
    requires Inv(s) && id in s.table && SameEntries(s, f)
    requires forall i: nat :: i < |s.segs| ==> f.segs[i].used == s.segs[i].used - Share(s, id, i)
    requires forall i: nat :: i < |s.segs| ==> Live(f, i) == Live(s, i)
    ensures Accounted(f) <==> Overcounted(s, id)
  {
    hide Shape, Provided, Newest, Sized;
    var i := s.table[id].seg;
    assert f.segs[i].used == s.segs[i].used - Size(At(s, s.table[id]));
    forall x: nat | x < |f.segs| && x != i
      ensures Live(f, x) <= f.segs[x].used && (IsCurrent(f.phase, x) || f.segs[x].used == Live(f, x))
    {
      assert f.segs[x].used == s.segs[x].used;
    }
  }

  lemma PutKeeps(s: State, id: nat, data: seq<byte>)
    requires Inv(s) && Fits(s, ENTRY_HEADER + |data|)
    ensures Sane(s)
    ensures var r := Put(s, id, data);
            && (r.ok <==> data != [] && HasRoom(s, ENTRY_HEADER + |data|))
            && (Inv(r.s) <==> r.ok || data == [] || id !in s.table || Overcounted(s, id)) && TableOk(r.s)
            && Current(r.s) == (if r.ok then Current(s)[id := Newer(s, id, data)] else Current(s))
            && Objects(r.s) == (if r.ok then Objects(s)[id := data] else Objects(s)) && Undisturbed(s, r.s)
  {
    InvIsSane(s);
    if data != [] {
      if id in s.table {
        UpdateKeeps(s, id, data);
      } else {
        NewKeeps(s, id, data);
      }
    }
  }

  // ---------- freeing ----------

  /** The object has one unmarked entry only, as far as the cleaner will ever see. */
  ghost predicate OnlyVersion(s: State, id: nat)
    requires id in s.table
  {
    forall i: nat, j: nat ::
      ValidLoc(s, Loc(i, j)) && s.segs[i].log[j].id == id && !s.segs[i].log[j].dead && !Scanned(s.phase, i, j) ==>
        Loc(i, j) == s.table[id]
  }

  /** A first version has none before it. */
  lemma FirstVersionIsOnly(s: State, id: nat)
    requires Inv(s) && id in s.table && At(s, s.table[id]).version == 1
    ensures OnlyVersion(s, id)
  {
    forall i: nat, j: nat | ValidLoc(s, Loc(i, j)) && s.segs[i].log[j].id == id && !s.segs[i].log[j].dead
        && !Scanned(s.phase, i, j)
      ensures Loc(i, j) == s.table[id]
    {
      assert Known(s, i, j) && SizedSegment(s.segs[i]);
    }
  }

  /** `f` is `s` with object `id` marked, not counted any more, and forgotten. */
  ghost predicate Freed(s: State, f: State, id: nat)
    requires TableOk(s) && id in s.table
  {
    var l := s.table[id];
    && f == s.(segs := f.segs, table := s.table - {id}) && |f.segs| == |s.segs|
    && forall i: nat :: i < |s.segs| ==>
         && f.segs[i].used == s.segs[i].used - Share(s, id, i) && f.segs[i].behind == s.segs[i].behind
         && f.segs[i].log == if i == l.seg then s.segs[i].log[l.idx := At(s, l).(dead := true)] else s.segs[i].log
  }

  lemma FreeIsFreed(s: State, id: nat)
    requires Inv(s) && id in s.table
    ensures Sane(s) && Freed(s, Free(s, id), id)
  {
    InvIsSane(s);
    DiscountNoUnderflow(s, id);
  }

  lemma {:induction false} BytesReplace(log: seq<Entry>, k: nat, e: Entry)
    requires k < |log| && Size(e) == Size(log[k])
    ensures Bytes(log[k := e]) == Bytes(log)
    decreases |log|
  {
    var n := |log| - 1;
    if k < n {
      assert log[k := e][..n] == log[..n][k := e];
      BytesReplace(log[..n], k, e);
    } else {
      assert log[k := e][..n] == log[..n];
    }
  }

  lemma FreedLive(s: State, f: State, id: nat, i: nat, k: nat)
    requires TableOk(s) && id in s.table && Freed(s, f, id) && i < |s.segs|
    ensures LiveFrom(f.table, i, f.segs[i].log, k)
         == LiveFrom(s.table, i, s.segs[i].log, k)
          - if s.table[id].seg == i && k <= s.table[id].idx then Share(s, id, i) else 0
  {
    LiveForget(s, f.table, id, i, k);
    LiveSame(f.table, f.table, i, s.segs[i].log, f.segs[i].log, k);
  }

  lemma FreedAccounted(s: State, f: State, id: nat)
    requires Inv(s) && id in s.table && Freed(s, f, id)
    ensures Accounted(f) && Provided(f) && Undisturbed(s, f)
  {
    hide Shape, Newest, Sized, LiveFrom;
    forall i: nat | i < |f.segs|
      ensures Live(f, i) <= f.segs[i].used && (IsCurrent(f.phase, i) || f.segs[i].used == Live(f, i))
    {
      FreedLive(s, f, id, i, 0);
    }
    FreedProvided(s, f, id);
  }

  lemma FreedProvided(s: State, f: State, id: nat)
    requires TableOk(s) && Provided(s) && id in s.table && Freed(s, f, id)
    ensures Provided(f) && Undisturbed(s, f)
  {
    hide LiveFrom;
    if s.phase.Scan? && s.phase.seg < |s.segs| {
      FreedLive(s, f, id, s.phase.seg, s.phase.k);
    }
  }

  lemma FreedSizes(s: State, f: State, id: nat)
    requires Inv(s) && id in s.table && Freed(s, f, id)
    ensures forall i: nat {:trigger f.segs[i]} {:trigger s.segs[i]} :: i < |s.segs| ==>
              && Bytes(f.segs[i].log) == Bytes(s.segs[i].log) && |f.segs[i].log| == |s.segs[i].log|
                   && f.segs[i].used <= s.segs[i].used
              && f.segs[i].behind == s.segs[i].behind
              && forall j :: 0 <= j < |s.segs[i].log| ==>
                   f.segs[i].log[j].data == s.segs[i].log[j].data
                       && f.segs[i].log[j].version == s.segs[i].log[j].version
  {
    hide Shape, Provided, Newest, Accounted, Sized, Bytes;
    var l := s.table[id];
    BytesReplace(s.segs[l.seg].log, l.idx, At(s, l).(dead := true));
  }

  lemma FreedShape(s: State, f: State, id: nat)
    requires Inv(s) && id in s.table && Freed(s, f, id)
    ensures Shape(f) && Sized(f)
  {
    hide Shape, Provided, Newest, Accounted, Located, Bytes;
    FreedSizes(s, f, id);
    assert SameShape(s, f);
    ShapeSame(s, f);
    assert Sized(f);
  }

  lemma FreedAt(s: State, f: State, id: nat, x: nat)
    requires Inv(s) && id in s.table && Freed(s, f, id) && x in f.table
    ensures x in s.table && x != id && f.table[x] == s.table[x]
    ensures ValidLoc(f, f.table[x]) && At(f, f.table[x]) == At(s, s.table[x])
  {
    hide Shape, Provided, Newest, Accounted, Sized;
    assert At(s, s.table[x]).id == x && At(s, s.table[id]).id == id;
    assert s.table[x] != s.table[id];
  }

  lemma FreedLocated(s: State, f: State, id: nat)
    requires Inv(s) && id in s.table && Freed(s, f, id)
    ensures Located(f) && Current(f) == Current(s) - {id}
  {
    forall x | x in f.table
      ensures ValidLoc(f, f.table[x]) && At(f, f.table[x]) == At(s, s.table[x])
    {
      FreedAt(s, f, id, x);
    }
    FreedCurrent(s, f, id);
  }

  lemma FreedCurrent(s: State, f: State, id: nat)
    requires TableOk(s) && TableOk(f)
    requires f.table == s.table - {id}
    requires forall x :: x in f.table ==> At(f, f.table[x]) == At(s, s.table[x])
    ensures Current(f) == Current(s) - {id}
  {
    var a, b := Current(f), Current(s) - {id};
    forall x | x in b
      ensures x in a && a[x] == b[x]
    {
      assert x in f.table;
    }
  }

  /** Freeing is safe exactly when no older version of the object is still unmarked. */
  lemma FreeKeeps(s: State, id: nat)
    requires Inv(s) && id in s.table
    ensures Sane(s)
    ensures Current(Free(s, id)) == Current(s) - {id} && Objects(Free(s, id)) == Objects(s) - {id}
            && Undisturbed(s, Free(s, id))
    ensures Inv(Free(s, id)) <==> OnlyVersion(s, id)
  {
    FreeIsFreed(s, id);
    DataOfChanged(Current(s), id, At(s, s.table[id]));
    var f := Free(s, id);
    FreedAccounted(s, f, id);
    FreedShape(s, f, id);
    FreedLocated(s, f, id);
    if OnlyVersion(s, id) {
      FreedNewest(s, f, id);
    } else {
      FreedNotNewest(s, f, id);
    }
  }

  lemma FreedNewest(s: State, f: State, id: nat)
    requires TableOk(s) && Newest(s) && id in s.table && Freed(s, f, id) && TableOk(f) && OnlyVersion(s, id)
    ensures Newest(f)
  {
    hide Newest, OnlyVersion;
    forall i: nat, j: nat | ValidLoc(f, Loc(i, j)) && !f.segs[i].log[j].dead && !Scanned(f.phase, i, j)
      ensures Known(f, i, j)
    {
      FreedKnown(s, f, id, i, j);
    }
    KnownIsNewest(f);
  }

  lemma KnownIsNewest(f: State)
    requires TableOk(f)
    requires forall i: nat, j: nat :: ValidLoc(f, Loc(i, j)) && !f.segs[i].log[j].dead && !Scanned(f.phase, i, j) ==>
             Known(f, i, j)
    ensures Newest(f)
  {
  }

  lemma FreedKnown(s: State, f: State, id: nat, i: nat, j: nat)
    requires TableOk(s) && Newest(s) && id in s.table && Freed(s, f, id) && TableOk(f) && OnlyVersion(s, id)
    requires ValidLoc(f, Loc(i, j)) && !f.segs[i].log[j].dead && !Scanned(f.phase, i, j)
    ensures Known(f, i, j)
  {
    assert ValidLoc(s, Loc(i, j)) && s.segs[i].log[j] == f.segs[i].log[j];
    assert Known(s, i, j);
    hide Newest;
    var x := s.segs[i].log[j].id;
    assert x != id;
    hide OnlyVersion;
    assert At(s, s.table[x]).id == x && s.table[x] != s.table[id];
  }

  lemma FreedNotNewest(s: State, f: State, id: nat)
    requires Inv(s) && id in s.table && Freed(s, f, id) && TableOk(f) && !OnlyVersion(s, id)
    ensures !Newest(f)
  {
    hide Shape, Provided, Accounted, Sized;
    var i: nat, j: nat :| ValidLoc(s, Loc(i, j)) && s.segs[i].log[j].id == id && !s.segs[i].log[j].dead
                          && !Scanned(s.phase, i, j) && Loc(i, j) != s.table[id];
    assert ValidLoc(f, Loc(i, j)) && f.segs[i].log[j] == s.segs[i].log[j];
    assert !Known(f, i, j);
  }
}
