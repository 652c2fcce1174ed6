/** What holds in every reachable state, and why each operation keeps it. */
module LogInvariant {
  import opened Wrappers
  import opened Layout
  import opened Lists
  import opened LogState
  import opened LiveBytes

  // ---------- the lists ----------

  /** Every segment is in exactly one place: the head, or once on one of the four lists. */
  ghost predicate Partition(s: State) {
    && Distinct(s.free) && Distinct(s.used) && Distinct(s.cleaner) && Distinct(s.emergency)
    && (forall x: nat :: x < |s.segs| <==>
          s.head == Some(x) || x in s.free || x in s.used || x in s.cleaner || x in s.emergency)
    && (forall x: nat :: x in s.free ==> x !in s.used && x !in s.cleaner && x !in s.emergency && s.head != Some(x))
    && (forall x: nat :: x in s.used ==> x !in s.cleaner && x !in s.emergency && s.head != Some(x))
    && (forall x: nat :: x in s.cleaner ==> x !in s.emergency && s.head != Some(x))
    && (forall x: nat :: x in s.emergency ==> s.head != Some(x))
    && |s.segs| == |s.free| + |s.used| + |s.cleaner| + |s.emergency| + if s.head.Some? then 1 else 0
  }

  /** Waiting segments are empty. */
  ghost predicate Idle(s: State) {
    forall x: nat :: x < |s.segs| && (x in s.free || x in s.emergency) ==> s.segs[x].log == []
  }

  /** Both write positions are where the entries of their segment end. */
  ghost predicate Positions(s: State) {
    && (s.head.Some? && s.head.value < |s.segs| ==> s.headPos == Bytes(s.segs[s.head.value].log))
    && (if s.phase.Start? then s.cleaner == []
        else s.cleaner == [s.target] && s.target < |s.segs| && s.targetPos == Bytes(s.segs[s.target].log))
  }

  /** The segment being looked at, and the one after it, are used ones. */
  ghost predicate OnUsed(s: State) {
    match s.phase
    case Start => true
    case Walk(at) => at.Some? ==> at.value in s.used
    case Scan(c, k) => c < |s.segs| && c in s.used && k <= |Seen(s.segs[c])| && s.segs[c].used < HALF_SEGMENT
    case Retire(c, next) =>
        c < |s.segs| && c in s.used && s.segs[c].used < HALF_SEGMENT
        && (next.Some? ==> next.value in s.used && next.value != c)
  }

  ghost predicate Shape(s: State) {
    Partition(s) && Idle(s) && Positions(s) && OnUsed(s)
  }

  /** The reserve holds what its counter says, and whenever it is not full the target has room for all that the current
      cleaning can still move. */
  ghost predicate Provided(s: State) {
    && s.reserve == |s.emergency| <= RESERVE
    && match s.phase
       case Start => s.reserve == RESERVE
       case Walk(at) => s.reserve == RESERVE || (s.targetPos == 0 && s.reserve + 1 == RESERVE)
       case Scan(c, k) => c < |s.segs| &&
         (s.reserve == RESERVE ||
          (s.reserve + 1 == RESERVE && s.targetPos + LiveFrom(s.table, c, s.segs[c].log, k) <= DATA_SIZE))
       case Retire(_, _) => s.reserve + 1 >= RESERVE
  }

  // ---------- the entries ----------

  /** The cleaner is done with this entry: its segment will be recycled. */
  ghost predicate Scanned(p: Phase, i: nat, j: nat) {
    match p
    case Scan(c, k) => i == c && j < k
    case Retire(c, _) => i == c
    case _ => false
  }

  ghost predicate IsCurrent(p: Phase, i: nat) {
    (p.Scan? || p.Retire?) && p.seg == i
  }

  /** The table points to unmarked entries that are here to stay. */
  ghost predicate Located(s: State) {
    && TableOk(s)
    && forall id :: id in s.table ==>
         !At(s, s.table[id]).dead && !Scanned(s.phase, s.table[id].seg, s.table[id].idx)
  }

  /** Entry `j` of segment `i` is what the table points to, or older than that. */
  ghost predicate Known(s: State, i: nat, j: nat)
    requires TableOk(s) && ValidLoc(s, Loc(i, j))
  {
    var e := s.segs[i].log[j];
    e.id in s.table && (s.table[e.id] == Loc(i, j) || e.version < At(s, s.table[e.id]).version)
  }

  /** The table has the newest of all unmarked entries the cleaner may still come across. */
  ghost predicate Newest(s: State)
    requires TableOk(s)
  {
    forall i: nat, j: nat :: ValidLoc(s, Loc(i, j)) && !s.segs[i].log[j].dead && !Scanned(s.phase, i, j) ==>
        Known(s, i, j)
  }

  /** `used_space` is exactly the live bytes, but for the segment being cleaned, where it is not less. */
  ghost predicate Accounted(s: State) {
    forall i: nat :: i < |s.segs| ==>
      Live(s, i) <= s.segs[i].used && (IsCurrent(s.phase, i) || s.segs[i].used == Live(s, i))
  }

  /** The entries of a segment, and old ones behind them, lie within its data area, have bytes, and have a version. */
  ghost predicate Sized(s: State) {
    forall i: nat :: i < |s.segs| ==> SizedSegment(s.segs[i])
  }

  ghost predicate SizedSegment(g: Segment) {
    && Bytes(g.log) + Bytes(g.behind.es) <= DATA_SIZE
    && (forall j :: 0 <= j < |g.log| ==> g.log[j].data != [] && g.log[j].version >= 1)
    && (forall j :: 0 <= j < |g.behind.es| ==> g.behind.es[j].data != [] && g.behind.es[j].version >= 1)
  }

  ghost predicate Data(s: State) {
    Located(s) && Newest(s) && Accounted(s) && Sized(s)
  }

  ghost predicate Inv(s: State) {
    Shape(s) && Provided(s) && Data(s)
  }

  lemma InvIsSane(s: State)
    requires Inv(s)
    ensures Sane(s)
  {
    if s.phase.Scan? {
      assert s.target in s.cleaner;
    }
  }

  /** What is behind is the same, or a scan was made to end there. */
  predicate BehindKept(b: Behind, c: Behind) {
    c == b || c == Behind([], Stops)
  }

  lemma InvTable(s: State)
    requires Inv(s)
    ensures TableOk(s)
  {
  }

  /** The two states have the same entries, whatever their lists and counts are. */
  ghost predicate SameEntries(s: State, t: State) {
    && |s.segs| == |t.segs| && s.table == t.table && s.phase == t.phase
    && forall i: nat :: i < |s.segs| ==>
         t.segs[i].log == s.segs[i].log && BehindKept(s.segs[i].behind, t.segs[i].behind)
  }

  lemma SameEntriesKeep(s: State, t: State)
    requires SameEntries(s, t) && Located(s) && Newest(s) && Sized(s)
    ensures Located(t) && Newest(t) && Sized(t) && Current(t) == Current(s)
    ensures forall i: nat :: i < |s.segs| ==> Live(t, i) == Live(s, i)
  {
    hide Newest;
    assert forall id :: id in s.table ==> At(t, s.table[id]) == At(s, s.table[id]);
    SameEntriesNewest(s, t);
  }

  lemma SameEntriesNewest(s: State, t: State)
    requires SameEntries(s, t) && TableOk(s) && TableOk(t) && Newest(s)
    ensures Newest(t)
  {
    forall i: nat, j: nat | ValidLoc(t, Loc(i, j)) && !t.segs[i].log[j].dead && !Scanned(t.phase, i, j)
      ensures Known(t, i, j)
    {
      assert ValidLoc(s, Loc(i, j)) && Known(s, i, j);
    }
  }

  // ---------- the head ----------

  /** The condition under which an entry of this size can be appended. */
  ghost predicate HasRoom(s: State, size: nat) {
    size <= DATA_SIZE && ((s.head.Some? && s.headPos + size <= DATA_SIZE) || s.free != [])
  }

  /** An entry of this size fits a segment, or finds none to run over the end of. */
  ghost predicate Fits(s: State, size: nat) {
    size <= DATA_SIZE || !MakeRoom(s, size).ok
  }

  lemma FitsSame(s: State, d: State, size: nat)
    requires d == s.(segs := d.segs)
    ensures (Fits(d, size) <==> Fits(s, size)) && (HasRoom(d, size) <==> HasRoom(s, size))
  {
  }

  /** What changing the head leaves alone. */
  ghost predicate SameButHead(s: State, t: State) {
    && t == s.(segs := t.segs, head := t.head, headPos := t.headPos, free := t.free, used := t.used)
         && |t.segs| == |s.segs|
    && forall i: nat :: i < |s.segs| ==>
         t.segs[i].log == s.segs[i].log && t.segs[i].used == s.segs[i].used
             && BehindKept(s.segs[i].behind, t.segs[i].behind)
  }

  lemma NextHeadShape(s: State)
    requires Shape(s)
    ensures Shape(NextHead(s).s) && SameButHead(s, NextHead(s).s) && NextHead(s).s.segs == s.segs
    ensures NextHead(s).s.used == if s.head.Some? then s.used + [s.head.value] else s.used
    ensures NextHead(s).ok <==> s.free != []
    ensures NextHead(s).ok ==>
              var t := NextHead(s).s; t.head == Some(s.free[0]) && t.free == s.free[1..] && t.headPos == 0
    ensures !NextHead(s).ok ==> NextHead(s).s.head.None? && NextHead(s).s.free == []
  {
    var t := NextHead(s).s;
    if s.free != [] {
      assert s.free == [s.free[0]] + s.free[1..];
      assert forall x: nat :: x in s.free <==> x == s.free[0] || x in s.free[1..];
    }
    assert forall x: nat :: x in t.used <==> x in s.used || s.head == Some(x);
    assert Partition(t);
  }

  lemma PartitionSame(s: State, t: State)
    requires Partition(s) && |t.segs| == |s.segs| && t.head == s.head
    requires t.free == s.free && t.used == s.used && t.cleaner == s.cleaner && t.emergency == s.emergency
    ensures Partition(t)
  {
  }

  /** What the shape of the heap depends on. */
  ghost predicate SameShape(s: State, t: State) {
    && t == s.(segs := t.segs, table := t.table) && |t.segs| == |s.segs|
    && forall i: nat {:trigger t.segs[i]} {:trigger s.segs[i]} :: i < |s.segs| ==>
         && Bytes(t.segs[i].log) == Bytes(s.segs[i].log) && |t.segs[i].log| == |s.segs[i].log|
         && t.segs[i].used <= s.segs[i].used && t.segs[i].behind == s.segs[i].behind
  }

  lemma ShapeSame(s: State, t: State)
    requires Shape(s) && SameShape(s, t)
    ensures Shape(t)
  {
    hide Bytes;
    PartitionSame(s, t);
    assert forall x: nat :: x < |s.segs| && (x in s.free || x in s.emergency) ==> s.segs[x].log == [];
    hide Partition;
    assert Idle(t) && Positions(t) && OnUsed(t);
  }

  /** Ending the entries of the head with a zero length changes no entry. */
  lemma EndHeadShape(s: State)
    requires Shape(s) && Sized(s)
    ensures Shape(EndHead(s)) && Sized(EndHead(s)) && SameButHead(s, EndHead(s))
            && EndHead(s) == s.(segs := EndHead(s).segs)
  {
    hide Bytes;
    var t := EndHead(s);
    PartitionSame(s, t);
    if s.phase.Scan? && s.head.Some? {
      assert s.phase.seg != s.head.value;
    }
    hide Partition;
    assert Bytes([]) == 0 by { BytesNone(); }
    assert Idle(t);
    hide Idle;
    assert Positions(t);
    hide Positions;
    assert OnUsed(t);
  }

  lemma MakeRoomShape(s: State, size: nat)
    requires Shape(s) && Sized(s)
    ensures var r := MakeRoom(s, size);
            && Shape(r.s) && Sized(r.s) && SameButHead(s, r.s)
            && (Fits(s, size) ==> (r.ok <==> HasRoom(s, size)) && (r.ok ==> r.s.headPos + size <= DATA_SIZE))
            && (!r.ok ==> r.s.head.None? && r.s.free == [] && (s.head.Some? ==> s.head.value in r.s.used))
  {
    hide Shape, Sized;
    if s.head.None? {
      NextHeadShape(s);
      SizedSame(s, NextHead(s).s);
      if NextHead(s).ok && size > DATA_SIZE {
        ChangeHeadShape(NextHead(s).s);
      }
    } else if DATA_SIZE - s.headPos < size {
      ChangeHeadShape(s);
    }
  }

  lemma ChangeHeadShape(s: State)
    requires Shape(s) && Sized(s)
    ensures var r := NextHead(EndHead(s));
            && Shape(r.s) && Sized(r.s) && SameButHead(s, r.s)
            && (r.ok <==> s.free != []) && (r.ok ==> r.s.headPos == 0)
            && (!r.ok ==> r.s.head.None? && r.s.free == []) && (s.head.Some? ==> s.head.value in r.s.used)
  {
    hide Shape, Sized;
    EndHeadShape(s);
    NextHeadShape(EndHead(s));
    SizedSame(EndHead(s), NextHead(EndHead(s)).s);
  }

  lemma SizedSame(s: State, t: State)
    requires Sized(s) && t.segs == s.segs
    ensures Sized(t)
  {
  }

  /** Only the old head and the new one can change. */
  lemma MakeRoomElsewhere(s: State, size: nat, i: nat)
    requires i < |s.segs| && s.head != Some(i) && i !in s.free
    ensures i < |MakeRoom(s, size).s.segs| && MakeRoom(s, size).s.segs[i] == s.segs[i]
  {
  }

  // ---------- appending an entry and pointing to it ----------

  /** `f` is `s` with `e` at the end of segment `h` and the table pointing to it. */
  ghost predicate Pointed(s: State, f: State, h: nat, e: Entry) {
    && h < |s.segs| == |f.segs|
    && (forall i: nat :: i < |s.segs| ==> f.segs[i].log == if i == h then s.segs[i].log + [e] else s.segs[i].log)
    && f.table == s.table[e.id := Loc(h, |s.segs[h].log|)]
  }

  lemma PointedTable(s: State, f: State, h: nat, e: Entry)
    requires Pointed(s, f, h, e) && TableOk(s)
    ensures TableOk(f) && At(f, f.table[e.id]) == e
    ensures forall id :: id in s.table && id != e.id ==>
            f.table[id] == s.table[id] && At(f, f.table[id]) == At(s, s.table[id])
  {
  }

  lemma PointedCurrent(s: State, f: State, h: nat, e: Entry)
    requires Pointed(s, f, h, e) && TableOk(s) && TableOk(f)
    ensures Current(f) == Current(s)[e.id := e]
  {
    PointedTable(s, f, h, e);
  }

  lemma PointedLive(s: State, f: State, h: nat, e: Entry, i: nat)
    requires Pointed(s, f, h, e) && TableOk(s) && i < |s.segs|
    ensures Live(f, i) == Live(s, i) - Share(s, e.id, i) + if i == h then Size(e) else 0
  {
    LiveForget(s, f.table, e.id, i, 0);
    if i == h {
      LiveAppend(f.table, i, s.segs[i].log, e, 0);
    }
  }

  /** Whatever becomes older than `e` is known to be; what was known stays so. */
  lemma PointedNewest(s: State, f: State, h: nat, e: Entry)
    requires Pointed(s, f, h, e) && TableOk(s) && TableOk(f) && Newest(s)
    requires forall i, j :: Scanned(s.phase, i, j) ==> Scanned(f.phase, i, j)
    requires forall i: nat, j: nat ::
               ValidLoc(s, Loc(i, j)) && !s.segs[i].log[j].dead && !Scanned(f.phase, i, j)
               && s.segs[i].log[j].id == e.id ==>
                 s.segs[i].log[j].version < e.version
    ensures Newest(f)
  {
    forall i: nat, j: nat | ValidLoc(f, Loc(i, j)) && !f.segs[i].log[j].dead && !Scanned(f.phase, i, j)
      ensures Known(f, i, j)
    {
      if i != h || j < |s.segs[h].log| {
        assert ValidLoc(s, Loc(i, j)) && Known(s, i, j);
        assert f.segs[i].log[j] == s.segs[i].log[j];
        PointedTable(s, f, h, e);
      }
    }
  }

  lemma WriteSized(r: State, h: nat, e: Entry)
    requires Sized(r) && h < |r.segs|
    requires e.data != [] && e.version >= 1 && Bytes(r.segs[h].log) + Size(e) <= DATA_SIZE
    ensures Sized(WriteEntry(r, h, e))
  {
    var g := r.segs[h];
    BytesAppend(g.log, e);
    PastSized(g.behind, Size(e), DATA_SIZE - Bytes(g.log));
    hide Bytes, Past;
    assert SizedSegment(g);
    assert SizedSegment(WriteEntry(r, h, e).segs[h]);
  }

  /** Old entries stay where they are, and are what they are. */
  lemma {:induction false} PastSized(b: Behind, n: nat, space: nat)
    requires n <= space && Bytes(b.es) <= space
    requires forall j :: 0 <= j < |b.es| ==> b.es[j].data != [] && b.es[j].version >= 1
    ensures n + Bytes(Past(b, n).es) <= space
    ensures forall j :: 0 <= j < |Past(b, n).es| ==> Past(b, n).es[j].data != [] && Past(b, n).es[j].version >= 1
    decreases |b.es|
  {
    if n > 0 && b.es != [] && Size(b.es[0]) <= n {
      assert b.es == [b.es[0]] + b.es[1..];
      BytesConcat([b.es[0]], b.es[1..]);
      BytesOne(b.es[0]);
      PastSized(Behind(b.es[1..], b.end), n - Size(b.es[0]), space - Size(b.es[0]));
    }
  }

  /** What can still be moved out of a segment does not grow when the new entry is elsewhere. */
  lemma PointedRemaining(s: State, f: State, h: nat, e: Entry, c: nat, k: nat)
    requires Pointed(s, f, h, e) && TableOk(s) && c < |s.segs| && c != h
    ensures LiveFrom(f.table, c, f.segs[c].log, k)
         == LiveFrom(s.table, c, s.segs[c].log, k)
          - if e.id in s.table && s.table[e.id].seg == c && k <= s.table[e.id].idx then Share(s, e.id, c) else 0
  {
    LiveForget(s, f.table, e.id, c, k);
  }
}
