/** The heap as it lies in memory: segments chained by offsets, the bytes of their data areas, a table of offsets, and
    the local variables of the one cleaner thread.

    The ghost field `m` is the state that the memory stands for. Every operation is proved to do to `m` what its
    specification in `LogState` says. Entries are read from the bytes and written to them. They are those of `m` as long
    as all entries fit their segments and the fields of their headers (`StoredSegments.Whole`).
 */
module HeapMemory {
  import opened Wrappers
  import opened Layout
  import opened Lists
  import opened LogState
  import opened LiveBytes
  import opened LogInvariant
  import opened ClientSteps
  import opened CleanerSteps
  import opened CleaningPass
  import opened ClearPass
  import opened LogRuns
  import opened Addresses
  import opened Links
  import opened Chains
  import opened Offsets
  import opened IdGen
  import opened LogSize
  import opened SegmentBytes
  import opened SegmentReads
  import opened SegmentWrites
  import opened StoredSegments
  import Recovery

  /** What is known of the bytes of an area that nothing was written to. */
  ghost function EndOf(b: seq<byte>): End
    requires |b| == DATA_SIZE
  {
    if ZerosFrom(b, 0) then Zeros else if Word(b, LENGTH_AT) == 0 then Stops else Unknown
  }

  ghost function EndsOf(bs: seq<seq<byte>>, n: nat): (ends: seq<End>)
    requires n <= |bs| && forall i :: 0 <= i < |bs| ==> |bs[i]| == DATA_SIZE
    ensures |ends| == n
  {
    seq(n, i requires 0 <= i < n => EndOf(bs[i]))
  }

  /** The bytes behind an object's bytes in the block in which an entry is built: whatever they were. */
  method Padding() returns (pad: seq<byte>)
    ensures |pad| == ENTRY_HEADER - BYTES_AT
  {
    var rest := new byte[ENTRY_HEADER - BYTES_AT];
    pad := rest[..];
  }

  class Heap {
    const size: nat
    const count: nat
    const next: array<nat>
    const usedSpace: array<nat>
    const area: array<seq<byte>>

    var head: nat
    var free: nat
    var lastFree: nat
    var used: nat
    var lastUsed: nat
    var cleaner: nat
    var lastCleaner: nat
    var emergency: nat
    var lastEmergency: nat
    var currentId: nat
    var headPos: nat
    var reserve: nat
    var table: map<nat, nat>
    var consistent: bool

    var cleanerSeg: nat
    var cleanerPos: nat
    var currSeg: nat
    var scanPos: nat
    var nextSeg: nat

    ghost var m: State
    ghost var links: seq<nat>     // the array `next`, as a value

    // ---------- what the memory stands for ----------

    ghost predicate Segments()
      reads this, next, usedSpace, area
    {
      && next != usedSpace && next.Length == usedSpace.Length == area.Length && |m.segs| == count <= area.Length
      && (forall i: nat :: i < count ==> m.segs[i].used == usedSpace[i])
      && (Whole(m.segs) ==> Holding(m.segs, area[..]))
    }

    ghost function ListEnds(): Ends
      reads this
    {
      Ends(head, free, lastFree, used, lastUsed, cleaner, lastCleaner, emergency, lastEmergency)
    }

    /** The lists as the links have them. */
    ghost predicate Linking()
      reads this, next
    {
      links == next[..] && Chained(links, ListEnds(), m)
    }

    ghost predicate Lists()
      reads this, next
    {
      Linking() && headPos == m.headPos && reserve == m.reserve
    }

    ghost predicate CleanerLocals()
      reads this
    {
      CleanerAt(cleanerSeg, cleanerPos, currSeg, scanPos, nextSeg, m)
    }

    ghost predicate Valid()
      reads this, next, usedSpace, area
    {
      Segments() && Lists() && OffsetTable(table, m) && CleanerLocals() && currentId < TWO_64
    }

    // ---------- a new log ----------

    /** init_log, for a log of `size` bytes after its header; the data areas go on holding what they held, `mapping`. */
    constructor (size: nat, mapping: seq<seq<byte>>)
      requires size >= MIN_LOG_LENGTH && |mapping| == size / SEGMENT_SIZE
      requires forall i :: 0 <= i < |mapping| ==> |mapping[i]| == DATA_SIZE
      ensures this.size == size && count == Carved(size) <= |mapping| && area[..] == mapping
      ensures Valid() && Whole(m.segs) && m == Formatted(EndsOf(mapping, count)) && currentId == 0
      ensures fresh(next) && fresh(usedSpace) && fresh(area)
    {
      hide Chained, Formatted, OffsetTable, CleanerAt, Whole, Holding;
      this.size := size;
      count := Carved(size);
      next := new nat[size / SEGMENT_SIZE];
      usedSpace := new nat[size / SEGMENT_SIZE];
      area := new seq<byte>[size / SEGMENT_SIZE](i requires 0 <= i < |mapping| => mapping[i]);
      cleanerSeg, cleanerPos, currSeg, scanPos, nextSeg := 0, 0, 0, 0, 0;
      table, consistent := map[], false;
      used, lastUsed, cleaner, lastCleaner, currentId, headPos := 0, 0, 0, 0, 0, 0;
      reserve := RESERVE;
      new;
      assert area[..] == mapping;
      Format();
    }

    /** The segments, their lists, and the counts. */
    method Format()
      requires size >= MIN_LOG_LENGTH && count == Carved(size) && next != usedSpace && table == map[]
      requires next.Length == usedSpace.Length == area.Length == size / SEGMENT_SIZE
      requires forall i :: 0 <= i < area.Length ==> |area[i]| == DATA_SIZE
      requires used == lastUsed == cleaner == lastCleaner == currentId == headPos == 0 && reserve == RESERVE
      requires cleanerSeg == cleanerPos == currSeg == scanPos == nextSeg == 0
      modifies this`head, this`free, this`lastFree, this`emergency, this`lastEmergency, this`links, this`m, next,
               usedSpace
      ensures count <= area.Length && Valid() && Whole(m.segs) && m == Formatted(EndsOf(area[..], count))
    {
      hide Chained, Formatted, OffsetTable, CleanerAt, Whole, Holding, EndsOf;
      CarvedInBounds(size);
      var n := CarveSegments();
      ChainSegments(n);
      FormattedIs(EndsOf(area[..], count), area[..]);
    }

    /** The ends of the lists, and the last segment as reserve. */
    method ChainSegments(n: nat)
      requires n + RESERVE == count <= next.Length && n >= 3 && next != usedSpace
               && next.Length == usedSpace.Length == area.Length
      requires forall i :: 0 <= i < area.Length ==> |area[i]| == DATA_SIZE
      requires used == lastUsed == cleaner == lastCleaner == 0
      requires forall j: nat :: j < n ==> usedSpace[j] == 0 && next[j] == if j + 1 < n then SegmentAddr(j + 1) else 0
      modifies this`head, this`free, this`lastFree, this`emergency, this`lastEmergency, this`links, this`m, next,
               usedSpace
      ensures m == Formatted(EndsOf(area[..], count)) && Linking()
      ensures forall j: nat :: j < count ==> usedSpace[j] == 0
    {
      hide Chained, Formatted, EndsOf;
      lastFree := SegmentAddr(n - 1);
      emergency := SegmentAddr(n);
      next[n] := 0;
      usedSpace[n] := 0;
      lastEmergency := SegmentAddr(n);
      head := SegmentAddr(0);
      free := next[0];
      next[0] := 0;
      links := next[..];
      m := Formatted(EndsOf(area[..], count));
      FormattedChained(links, EndsOf(area[..], count), ListEnds());
    }

    /** The loop that carves the segments that are not kept in reserve, chained one after the other. */
    method CarveSegments() returns (n: nat)
      requires size >= MIN_LOG_LENGTH && count == Carved(size) && next != usedSpace
      requires next.Length == usedSpace.Length == area.Length == size / SEGMENT_SIZE
      modifies next, usedSpace
      ensures n + RESERVE == count <= next.Length
      ensures forall j: nat :: j < n ==> usedSpace[j] == 0 && next[j] == if j + 1 < n then SegmentAddr(j + 1) else 0
    {
      var i: nat := 0;
      n := 0;
      while i < size - SEGMENT_SIZE * (RESERVE + 1)
        invariant i == n * SEGMENT_SIZE && n <= Carved(size) - RESERVE
        invariant i < size - SEGMENT_SIZE * (RESERVE + 1) <==> n < Carved(size) - RESERVE
        invariant forall j: nat :: j < n ==> usedSpace[j] == 0 && next[j] == SegmentAddr(j + 1)
      {
        assert n < next.Length;
        usedSpace[n] := 0;
        next[n] := SegmentAddr(n + 1);
        n := n + 1;
        i := i + SEGMENT_SIZE;
      }
      next[n - 1] := 0;
    }

    /** The length of a list, by following its links. */
    method CountList(first: nat, ghost last: nat, ghost l: seq<nat>) returns (n: nat)
      requires links == next[..] && Linked(links, first, last, l)
      ensures n == |l|
    {
      var curr := first;
      n := 0;
      while curr != 0
        invariant n <= |l| && curr == Ref(l, n)
        decreases |l| - n
      {
        if n < |l| { SegmentOfAddr(l[n]); }
        curr := next[SegmentOf(curr)];
        n := n + 1;
      }
    }

    /** check_consistency */
    method CheckConsistency()
      requires Valid() && size >= MIN_LOG_LENGTH
      modifies this`consistent
      ensures Valid() && (consistent <==> count == Expected(size))
    {
      hide Chained, Linked, OffsetTable, CleanerAt;
      CountsAll(links, ListEnds(), m);
      ChainedLists(links, ListEnds(), m);
      var a := CountList(head, head, if m.head.Some? then [m.head.value] else []);
      var b := CountList(free, lastFree, m.free);
      var c := CountList(used, lastUsed, m.used);
      var d := CountList(cleaner, lastCleaner, m.cleaner);
      var e := CountList(emergency, lastEmergency, m.emergency);
      consistent := a + b + c + d + e == (size - LOG_HEADER) / SEGMENT_SIZE;
    }

    // ---------- the head segment ----------

    /** First half of append_head_to_used_segments_and_get_new_head_segment: the head joins the used list. */
    method HeadJoinsUsed()
      requires Linking() && head != 0
      modifies this`used, this`lastUsed, this`m, this`links, next
      ensures old(m).head.Some? && m == old(m).(head := None, used := old(m.used) + [old(m).head.value])
      ensures links == next[..] && Chained(links, ListEnds().(head := 0), m)
    {
      hide Chained;
      Fields(links, ListEnds(), m);
      ghost var was, e, n := links, ListEnds(), m.(head := None, used := m.used + [m.head.value]);
      links := if lastUsed == 0 then links else links[SegmentOf(lastUsed) := head];
      HeadToUsed(was, e, m, links);
      if lastUsed == 0 {
        used := head;
      } else {
        next[SegmentOf(lastUsed)] := head;
      }
      lastUsed := head;
      m := n;
    }

    /** Second half: the first free segment becomes the head. */
    method TakeHead()
      requires links == next[..] && Chained(links, ListEnds().(head := 0), m) && m.head.None? && free != 0
      modifies this`head, this`free, this`lastFree, this`headPos, this`m, this`links, next
      ensures old(m.free) != []
      ensures m == old(m).(head := Some(old(m).free[0]), free := old(m.free)[1..], headPos := 0) && headPos == 0
      ensures Linking()
    {
      hide Chained;
      ghost var was, e := links, ListEnds().(head := 0);
      Fields(links, e, m);
      ghost var n := m.(head := Some(m.free[0]), free := m.free[1..]);
      links := links[m.free[0] := 0];
      FreeToHead(was, e, m, links);
      head := free;
      free := next[SegmentOf(free)];
      if free == 0 {
        lastFree := 0;
      }
      next[SegmentOf(head)] := 0;
      headPos := 0;
      m := n.(headPos := 0);
      ChainedSame(links, ListEnds(), n, m);
    }

    /** append_head_to_used_segments_and_get_new_head_segment */
    method NextHeadSegment() returns (failed: bool)
      requires Lists()
      modifies this`head, this`free, this`lastFree, this`used, this`lastUsed, this`headPos, this`m, this`links, next
      ensures Lists()
      ensures NextHead(old(m)) == Result(m, !failed)
      ensures failed <==> old(m).free == []
      ensures failed ==> head == 0 && m.head.None? && m.free == []
      ensures m.used == if old(m).head.Some? then old(m).used + [old(m).head.value] else old(m).used
    {
      hide Chained;
      hide InRange;
      Fields(links, ListEnds(), m);
      if head != 0 {
        HeadJoinsUsed();
      } else {
        assert ListEnds() == ListEnds().(head := 0);
      }
      Fields(links, ListEnds().(head := 0), m);
      if free == 0 {
        head := 0;
        assert ListEnds() == ListEnds().(head := 0);
        failed := true;
      } else {
        TakeHead();
        failed := false;
      }
    }

    /** A zero length behind the entries of the head, if an entry header fits there. */
    method EndHeadSegment()
      requires Lists() && Segments() && head != 0 && Shape(m) && Whole(m.segs)
      modifies this`m, area
      ensures Lists() && Segments() && m == EndHead(old(m)) && Whole(m.segs)
    {
      hide Chained, Shape, Whole, Holding, Splice, Bytes;
      Fields(links, ListEnds(), m);
      HeadPosIs(m);
      ghost var n := m;
      if DATA_SIZE - headPos >= ENTRY_HEADER {
        var h := SegmentOf(head);
        EndHolding(m.segs, area[..], h);
        area[h] := Splice(area[h], headPos + LENGTH_AT, ZERO_LENGTH);
        assert area[..] == old(area[..])[h := area[h]];
      }
      m := EndHead(n);
      HoldingWhole(m.segs, area[..]);
      ChainedSame(links, ListEnds(), n, m);
    }

    /** append_to_log, up to the point where the entry is written. */
    method RoomAtHead(size: nat) returns (failed: bool)
      requires Lists() && Segments() && Shape(m) && Sized(m) && Whole(m.segs)
      modifies this`head, this`free, this`lastFree, this`used, this`lastUsed, this`headPos, this`m, this`links, next,
               area
      ensures Lists() && Segments() && Whole(m.segs)
      ensures MakeRoom(old(m), size) == Result(m, !failed)
    {
      hide Chained, InRange, EndHead, Shape, Sized, Whole, Holding, Bytes;
      Fields(links, ListEnds(), m);
      NextHeadShape(m);
      HeadPosBound(m);
      failed := false;
      if head == 0 {
        failed := NextHeadSegment();
        if failed {
          return;
        }
      }
      Fields(links, ListEnds(), m);
      if DATA_SIZE - headPos < size {
        EndHeadSegment();
        failed := NextHeadSegment();
      }
    }

    /** The second part of append_to_log: the entry goes behind those in the head. */
    method WriteAtHead(e: Entry) returns (offset: nat)
      requires Valid() && head != 0 && (m.phase.Scan? ==> m.head != Some(m.phase.seg)) && Whole(m.segs)
      requires m.head.Some? && m.head.value < |m.segs| ==> headPos == Bytes(m.segs[m.head.value].log)
      modifies this`headPos, this`m, usedSpace, area
      ensures Valid() && Appended(old(m), e, m, offset)
    {
      hide Chained, OffsetTable, CleanerAt, Whole, Holding, Splice, Encode, Past, Bytes;
      ghost var r := m;
      Fields(links, ListEnds(), m);
      var h := SegmentOf(head);
      offset := head + SEGMENT_HEADER + headPos;
      var pad := Padding();
      WriteHolding(m.segs, area[..], h, e, pad);
      area[h] := Splice(area[h], headPos, Encode(e, pad));
      assert area[..] == old(area[..])[h := area[h]];
      usedSpace[h] := usedSpace[h] + Size(e);
      headPos := headPos + Size(e);
      m := WriteEntry(r, h, e).(headPos := headPos);
      KeptByWrite(r, h, e, m, links, ListEnds(), table, cleanerSeg, cleanerPos, currSeg, scanPos, nextSeg);
      PosAppend(r.segs[h].log, e, |r.segs[h].log|);
      PosEnd(r.segs[h].log);
    }

    /** append_to_log */
    method AppendToLog(e: Entry) returns (offset: nat)
      requires Valid() && Shape(m) && Sized(m) && Whole(m.segs)
      modifies this`head, this`free, this`lastFree, this`used, this`lastUsed, this`headPos, this`m, this`links, next,
               usedSpace, area
      ensures Valid()
      ensures offset != 0 <==> MakeRoom(old(m), Size(e)).ok
      ensures offset == 0 ==> m == MakeRoom(old(m), Size(e)).s
      ensures offset != 0 ==> Appended(MakeRoom(old(m), Size(e)).s, e, m, offset)
    {
      hide Chained, Shape, Sized, OffsetTable, CleanerAt, InRange, MakeRoom, Whole, Holding, Bytes;
      Fields(links, ListEnds(), m);
      MakeRoomShape(m, Size(e));
      ScanElsewhere(m, Size(e));
      var failed := RoomAtHead(Size(e));
      KeptByHead(old(m), m, table, cleanerSeg, cleanerPos, currSeg, scanPos, nextSeg);
      if failed {
        return 0;
      }
      Fields(links, ListEnds(), m);
      HeadPosIs(m);
      offset := WriteAtHead(e);
    }

    /** append_to_log, and the offset it returns entered into the table. */
    method PublishEntry(e: Entry) returns (failed: bool)
      requires Valid() && Shape(m) && Sized(m) && Whole(m.segs)
      modifies this`head, this`free, this`lastFree, this`used, this`lastUsed, this`headPos, this`m, this`links,
               this`table, next, usedSpace, area
      ensures Valid() && InRange(old(m))
      ensures Publish(old(m), e) == Result(m, !failed)
    {
      hide Chained, Shape, Sized, OffsetTable, CleanerAt, InRange, MakeRoom, Whole, Holding;
      ShapeInRange(m);
      var offset := AppendToLog(e);
      PublishIs(old(m), e);
      if offset == 0 {
        return true;
      }
      table := table[e.id := offset];
      ghost var n := m;
      m := Publish(old(m), e).s;
      KeptByPoint(MakeRoom(old(m), Size(e)).s, e, n, m, offset, links, ListEnds(), old(table), cleanerSeg, cleanerPos,
          currSeg, scanPos, nextSeg);
      failed := false;
    }

    /** gen_id */
    method GenId() returns (id: nat)
      requires currentId < TWO_64 && exists x :: Usable(table, x)
      modifies this`currentId
      ensures FirstUsable(table, old(currentId), id) && currentId == (id + 1) % TWO_64
    {
      hide Candidate, Distance;
      ghost var goal :| Usable(table, goal);
      ghost var from, d := currentId, 0 as nat;
      CandidateDistance(from, goal);
      CandidateStart(from);
      id := currentId;
      currentId := (currentId + 1) % TWO_64;
      if id == 0 {
        NextCandidate(table, from, d, goal);
        id := currentId;
        currentId := (currentId + 1) % TWO_64;
        d := d + 1;
      }
      while id in table
        invariant 0 < id < TWO_64 && currentId == (id + 1) % TWO_64
        invariant id == Candidate(from, d) && d <= Distance(from, goal)
        invariant forall x: nat :: x < d ==> !Usable(table, Candidate(from, x))
        decreases Distance(from, goal) - d
      {
        NextCandidate(table, from, d, goal);
        id := currentId;
        currentId := (currentId + 1) % TWO_64;
        d := d + 1;
        if id == 0 {
          NextCandidate(table, from, d, goal);
          id := currentId;
          currentId := (currentId + 1) % TWO_64;
          d := d + 1;
        }
      }
      DistanceCandidate(from, d);
    }

    /** palloc; `g` is the id that was generated, if one was. */
    method Palloc(data: seq<byte>) returns (id: nat, ghost g: nat)
      requires Valid() && Inv(m) && Whole(m.segs)
      requires exists x :: Usable(table, x)
      modifies this, next, usedSpace, area
      ensures Valid()
      ensures consistent == old(consistent)
      ensures !consistent || data == [] ==> id == 0 && m == old(m)
      ensures consistent && data != [] ==> FirstUsable(old(table), old(currentId), g) && currentId == (g + 1) % TWO_64
      ensures !consistent || data == [] ==> currentId == old(currentId)
      ensures consistent && data != [] ==>
                InRange(old(m)) && New(old(m), g, data) == Result(m, id != 0)
                    && (id != 0 ==> id == g)
      ensures Inv(m) <==> consistent ==> CanStore(old(m), data)
      ensures Inv(m) ==> Objects(m) == if id != 0 then Objects(old(m))[id := data] else Objects(old(m))
      ensures id != 0 ==> id !in Objects(old(m))
      ensures Inv(m) && consistent && data != [] ==> (id != 0 <==> HasRoom(old(m), ENTRY_HEADER + |data|))
    {
      hide Chained, Inv, OffsetTable, CleanerAt, InRange, Publish, HasRoom, New, CanStore, Objects, Whole, Holding;
      InvTable(m);
      SameKeys(table, m);
      id, g := 0, 0;
      if !consistent || |data| == 0 {
        NothingToStore(m, data);
        return;
      }
      InvParts(m);
      var unused := GenId();
      g := unused;
      PallocDoes(m, g, data);
      NewIs(m, g, data);
      var failed := PublishEntry(Entry(unused, 1, data, false));
      if !failed {
        id := unused;
      }
    }

    /** Where the entry behind an object's offset lies; its segment is found by division. */
    method Lookup(id: nat) returns (segment: nat, pos: nat)
      requires Segments() && OffsetTable(table, m) && Sized(m) && Whole(m.segs) && id in table
      ensures id in m.table && ValidLoc(m, m.table[id]) && segment == m.table[id].seg < count
      ensures pos == Pos(m.segs[segment].log, m.table[id].idx)
      ensures |area[segment]| == DATA_SIZE && Holds(area[segment], pos, At(m, m.table[id]))
    {
      hide Sized, Fitting, OffsetTable, Whole, Holding, Holds, SegmentOf, Pos;
      SizedFits(m);
      OffsetFinds(table, m, id);
      var offset := table[id];
      segment := SegmentOf(offset);
      pos := (offset - LOG_HEADER) % SEGMENT_SIZE - SEGMENT_HEADER;
      HoldsLogged(m.segs, area[..], segment, m.table[id].idx);
    }

    /** Take the old version of an object off its segment's count. */
    method TakeOffCount(id: nat) returns (entry: Entry)
      requires Valid() && Inv(m) && Whole(m.segs) && id in table
      modifies this`m, usedSpace
      ensures Valid() && Shape(m) && Sized(m) && Whole(m.segs)
      ensures id in old(m).table && ValidLoc(old(m), old(m).table[id])
      ensures m == Discount(old(m), old(m).table[id]) && entry == At(old(m), old(m).table[id])
    {
      hide Chained, Inv, OffsetTable, CleanerAt, Sized, Shape, Whole, Holding, Decode, Word, Pos;
      InvParts(m);
      var segment, pos := Lookup(id);
      entry := Decode(area[segment], pos);
      usedSpace[segment] := Sub64(usedSpace[segment], Word(area[segment], pos + LENGTH_AT) + ENTRY_HEADER);
      m := Discount(m, m.table[id]);
      SameHolding(old(m).segs, m.segs, area[..]);
      HoldingWhole(m.segs, area[..]);
      KeptByDiscount(old(m), id, m, links, ListEnds(), table, cleanerSeg, cleanerPos, currSeg, scanPos, nextSeg);
    }

    /** update_data */
    method UpdateData(id: nat, data: seq<byte>) returns (failed: bool)
      requires Valid() && Inv(m) && Whole(m.segs)
      modifies this, next, usedSpace, area
      ensures Valid() && Sane(old(m)) && TableOk(old(m)) && TableOk(m)
      ensures if consistent then Update(old(m), id, data) == Result(m, !failed) else failed && m == old(m)
      ensures consistent == old(consistent) && currentId == old(currentId)
      ensures Inv(m) <==> consistent ==> Allowed(old(m), LogRuns.UpdateData(id, data))
      ensures Inv(m) ==> (failed <==>
              !consistent || data == [] || id !in Objects(old(m)) || !HasRoom(old(m), ENTRY_HEADER + |data|))
      ensures Inv(m) ==> Objects(m) == if failed then Objects(old(m)) else Objects(old(m))[id := data]
    {
      hide Chained, Inv, OffsetTable, CleanerAt, Publish, Sane, Shape, Sized, HasRoom, Allowed, TableOk, Objects,
           Discount, Whole, Holding;
      InvParts(m);
      SameKeys(table, m);
      UpdateDoes(m, id, data);
      if !consistent || |data| == 0 {
        return true;
      }
      if id !in table {
        return true;
      }
      var entry := TakeOffCount(id);
      failed := PublishEntry(entry.(version := entry.version + 1, data := data));
      OffsetsOk(table, m);
    }

    /** palloc_with_id; the result is 0 or 1 in the original. */
    method PallocWithId(id: nat, data: seq<byte>) returns (failed: bool)
      requires Valid() && Inv(m) && Whole(m.segs)
      modifies this, next, usedSpace, area
      ensures Valid() && Sane(old(m)) && TableOk(old(m)) && TableOk(m)
      ensures if consistent then Put(old(m), id, data) == Result(m, !failed) else failed && m == old(m)
      ensures consistent == old(consistent) && currentId == old(currentId)
      ensures Inv(m) <==> consistent ==> Allowed(old(m), LogRuns.PallocWithId(id, data))
      ensures Inv(m) ==> (failed <==> !consistent || data == [] || !HasRoom(old(m), ENTRY_HEADER + |data|))
      ensures Inv(m) ==> Objects(m) == if failed then Objects(old(m)) else Objects(old(m))[id := data]
    {
      hide Chained, Inv, OffsetTable, CleanerAt, Publish, Sane, Shape, Sized, Update, HasRoom, Allowed, TableOk,
           Objects, Whole, Holding;
      InvParts(m);
      SameKeys(table, m);
      PutDoes(m, id, data);
      if !consistent || |data| == 0 {
        return true;
      }
      if id in table {
        failed := UpdateData(id, data);
      } else {
        failed := PublishEntry(Entry(id, 1, data, false));
        OffsetsOk(table, m);
      }
    }

    /** pfree */
    method Pfree(id: nat)
      requires Valid() && Inv(m) && Whole(m.segs)
      modifies this`table, this`m, usedSpace, area
      ensures Valid() && Whole(m.segs) && Sane(old(m)) && m == Free(old(m), id)
      ensures Objects(m) == Objects(old(m)) - {id}
      ensures Inv(m) <==> id in old(m).table ==> OnlyVersion(old(m), id)
    {
      hide Chained, Inv, OffsetTable, CleanerAt, Sane, Shape, Sized, Objects, OnlyVersion, Whole, Holding, Free, Decode,
           Word, Pos;
      InvParts(m);
      SameKeys(table, m);
      OffsetsOk(table, m);
      FreeDoes(m, id);
      if id !in table {
        NothingToFree(m, id);
        return;
      }
      var segment, pos := Lookup(id);
      FreeHolding(m, id, area[..]);
      FreeCounts(m, id);
      var length := Word(area[segment], pos + LENGTH_AT);
      area[segment] := area[segment][pos + MARK_AT := 1];
      assert area[..] == WithMark(m, id, old(area[..]));
      usedSpace[segment] := Sub64(usedSpace[segment], length + ENTRY_HEADER);
      KeptByFree(m, id, links, ListEnds(), table, cleanerSeg, cleanerPos, currSeg, scanPos, nextSeg);
      table := table - {id};
      m := Free(m, id);
      HoldingWhole(m.segs, area[..]);
    }

    /** get_address: the bytes stored for an object, if there is one. */
    method GetAddress(id: nat) returns (data: Option<seq<byte>>)
      requires Valid() && Inv(m) && Whole(m.segs)
      ensures TableOk(m)
      ensures data == if id in Objects(m) then Some(Objects(m)[id]) else None
    {
      hide Chained, Inv, OffsetTable, CleanerAt, Sane, Shape, Sized, Whole, Holding, Decode, Word, Pos;
      InvParts(m);
      SameKeys(table, m);
      OffsetsOk(table, m);
      if id !in table {
        return None;
      }
      var segment, pos := Lookup(id);
      data := Some(Decode(area[segment], pos).data);
    }

    // ---------- segments for the cleaner ----------

    /** The first segment of the reserve is linked to the end of the cleaner list. */
    method ReserveJoinsCleaner()
      requires Linking() && emergency != 0
      modifies this`cleaner, this`lastCleaner, this`emergency, this`lastEmergency, this`m, this`links, next
      ensures old(m).emergency != [] && lastCleaner == SegmentAddr(old(m).emergency[0])
      ensures m == old(m).(cleaner := old(m).cleaner + [old(m).emergency[0]], emergency := old(m).emergency[1..])
      ensures Linking()
    {
      hide Chained, MovedLinks, SegmentOf, SegmentAddr, InRange, Linked;
      Fields(links, ListEnds(), m);
      ghost var e := ListEnds();
      EmergencyToCleaner(links, e, m);
      MovedFirst(links, m.emergency, m.cleaner);
      ghost var moved := MovedLinks(links, m.emergency, 0, m.cleaner);
      if lastCleaner == 0 {
        cleaner := emergency;
      } else {
        next[SegmentOf(lastCleaner)] := emergency;
      }
      lastCleaner := emergency;
      emergency := next[SegmentOf(emergency)];
      if emergency == 0 {
        lastEmergency := 0;
      }
      next[SegmentOf(lastCleaner)] := 0;
      assert next[..] == moved;
      links := moved;
      m := m.(cleaner := m.cleaner + [m.emergency[0]], emergency := m.emergency[1..]);
    }

    /** The first free segment is linked to the end of the cleaner list. */
    method FreeJoinsCleaner()
      requires Linking() && free != 0
      modifies this`cleaner, this`lastCleaner, this`free, this`lastFree, this`m, this`links, next
      ensures old(m).free != [] && lastCleaner == SegmentAddr(old(m).free[0])
      ensures m == old(m).(cleaner := old(m).cleaner + [old(m).free[0]], free := old(m).free[1..])
      ensures Linking()
    {
      hide Chained, MovedLinks, SegmentOf, SegmentAddr, InRange, Linked;
      Fields(links, ListEnds(), m);
      ghost var e := ListEnds();
      FreeToCleaner(links, e, m);
      MovedFirst(links, m.free, m.cleaner);
      ghost var moved := MovedLinks(links, m.free, 0, m.cleaner);
      if lastCleaner == 0 {
        cleaner := free;
      } else {
        next[SegmentOf(lastCleaner)] := free;
      }
      lastCleaner := free;
      free := next[SegmentOf(free)];
      if free == 0 {
        lastFree := 0;
      }
      next[SegmentOf(lastCleaner)] := 0;
      assert next[..] == moved;
      links := moved;
      m := m.(cleaner := m.cleaner + [m.free[0]], free := m.free[1..]);
    }

    /** get_emergency_cleaner_segment: the offset of the segment, or 0. */
    method GetEmergencyCleanerSegment() returns (seg: nat)
      requires Lists() && free == 0
      modifies this`cleaner, this`lastCleaner, this`emergency, this`lastEmergency, this`reserve, this`m, this`links,
               next
      ensures Lists() && NewTarget(old(m)) == Result(m, seg != 0) && (seg != 0 ==> seg == SegmentAddr(m.target))
    {
      hide Chained, InRange;
      Fields(links, ListEnds(), m);
      if emergency == 0 {
        return 0;
      }
      ReserveJoinsCleaner();
      reserve := Sub64(reserve, 1);
      seg := lastCleaner;
      ghost var n := m;
      m := n.(reserve := reserve, target := old(m).emergency[0], targetPos := 0);
      ChainedSame(links, ListEnds(), n, m);
    }

    /** get_new_cleaner_segment: the offset of the segment, or 0. */
    method GetNewCleanerSegment() returns (seg: nat)
      requires Lists()
      modifies this`free, this`lastFree, this`cleaner, this`lastCleaner, this`emergency, this`lastEmergency,
               this`reserve, this`m, this`links, next
      ensures Lists() && NewTarget(old(m)) == Result(m, seg != 0) && (seg != 0 ==> seg == SegmentAddr(m.target))
    {
      hide Chained, InRange;
      Fields(links, ListEnds(), m);
      if free == 0 {
        seg := GetEmergencyCleanerSegment();
        return;
      }
      FreeJoinsCleaner();
      seg := lastCleaner;
      ghost var n := m;
      m := n.(target := old(m).free[0], targetPos := 0);
      ChainedSame(links, ListEnds(), n, m);
    }

    // ---------- moving segments ----------

    /** Search a list from `first` on for the segment `id`, and its predecessor. */
    method Find(first: nat, ghost last: nat, ghost l: seq<nat>, id: nat) returns (curr: nat, prev: nat, ghost i: nat)
      requires links == next[..] && Linked(links, first, last, l) && id in l
      ensures SearchAt(l, i, curr, prev) && i == IndexOf(l, id) && l[i] == id && SegmentOf(curr) == id < next.Length
    {
      hide Linked, SearchAt, SegmentOf;
      SearchStarts(links, first, last, l, id);
      curr, prev, i := first, 0, 0;
      SearchGoesOn(links, first, last, l, i, curr, prev, id);
      while SegmentOf(curr) != id
        invariant SearchAt(l, i, curr, prev) && i <= IndexOf(l, id) && i < |l| && SegmentOf(curr) == l[i] < |links|
        invariant i == IndexOf(l, id) <==> l[i] == id
        decreases |l| - i
      {
        SearchGoesOn(links, first, last, l, i, curr, prev, id);
        curr, prev := next[SegmentOf(curr)], curr;
        i := i + 1;
        SearchGoesOn(links, first, last, l, i, curr, prev, id);
      }
    }

    /** Take the segment at `curr` out of the list with these ends; its own link becomes 0. */
    method Unlink(first: nat, last: nat, id: nat, curr: nat, prev: nat, ghost l: seq<nat>, ghost i: nat)
        returns (first': nat, last': nat)
      requires i < |l| && SearchAt(l, i, curr, prev) && l[i] == id == SegmentOf(curr) < next.Length
      requires (SegmentOf(first) == id <==> i == 0) && (SegmentOf(last) == id <==> i + 1 == |l|)
      requires i > 0 ==> SegmentOf(SegmentAddr(l[i - 1])) == l[i - 1] < next.Length
      requires |l| == 1 ==> next[id] == 0
      modifies next
      ensures next[..] == (if i == 0 then old(next[..]) else old(next[..])[l[i - 1] := old(next[id])])[id := 0]
      ensures first' == (if i == 0 then old(next[id]) else first) && last' == LastWithout(last, l, i)
    {
      hide SegmentOf, SegmentAddr;
      first', last' := first, last;
      if SegmentOf(first) == id && SegmentOf(last) == id {
        first' := 0;
        last' := 0;
      } else if SegmentOf(first) == id {
        first' := next[SegmentOf(curr)];
      } else {
        if SegmentOf(last) == id {
          last' := prev;
        }
        next[SegmentOf(prev)] := next[SegmentOf(curr)];
      }
      next[SegmentOf(curr)] := 0;
    }

    /** append_cleaner_segment_to_used_segments */
    method AppendCleanerSegmentToUsed(id: nat)
      requires Linking() && id in m.cleaner
      modifies this`cleaner, this`lastCleaner, this`used, this`lastUsed, this`m, this`links, next
      ensures Linking() && InRange(m) && m == CleanerToUsed(old(m), id)
    {
      hide Chained, Linked, SegmentOf, SegmentAddr, InRange, LastWithout, FirstWithout, SearchAt;
      var curr, prev; ghost var i, nx, e, n;
      ChainedLists(links, ListEnds(), m);
      curr, prev, i := Find(cleaner, lastCleaner, m.cleaner, id);
      nx, e, n := CleanerToUsedDone(links, ListEnds(), m, i, curr, prev);
      if lastUsed == 0 {
        used := curr;
      } else {
        next[SegmentOf(lastUsed)] := curr;
      }
      lastUsed := curr;
      cleaner, lastCleaner := Unlink(cleaner, lastCleaner, id, curr, prev, m.cleaner, i);
      links := nx;
      m := n;
      assert ListEnds() == e;
    }

    /** refill_emergency_cleaner_segment, and the removal from the used list that its caller makes. */
    method UsedToReserve(id: nat)
      requires Linking() && id in m.used
      modifies this`emergency, this`lastEmergency, this`used, this`lastUsed, this`m, this`links, next
      ensures Linking() && m == old(m).(used := Remove(old(m).used, id), emergency := old(m).emergency + [id])
    {
      hide Chained, Linked, SegmentOf, SegmentAddr, InRange, LastWithout, FirstWithout, SearchAt;
      var curr, prev; ghost var i, nx, e, n;
      ChainedLists(links, ListEnds(), m);
      curr, prev, i := Find(used, lastUsed, m.used, id);
      nx, e, n := UsedToReserveDone(links, ListEnds(), m, i, curr, prev);
      if lastEmergency == 0 {
        emergency := curr;
      } else {
        next[SegmentOf(lastEmergency)] := curr;
      }
      lastEmergency := curr;
      used, lastUsed := Unlink(used, lastUsed, id, curr, prev, m.used, i);
      links := nx;
      m := n;
      assert ListEnds() == e;
    }

    /** The same towards the free list. */
    method UsedToFree(id: nat)
      requires Linking() && id in m.used
      modifies this`free, this`lastFree, this`used, this`lastUsed, this`m, this`links, next
      ensures Linking() && m == old(m).(used := Remove(old(m).used, id), free := old(m).free + [id])
    {
      hide Chained, Linked, SegmentOf, SegmentAddr, InRange, LastWithout, FirstWithout, SearchAt;
      var curr, prev; ghost var i, nx, e, n;
      ChainedLists(links, ListEnds(), m);
      curr, prev, i := Find(used, lastUsed, m.used, id);
      nx, e, n := UsedToFreeDone(links, ListEnds(), m, i, curr, prev);
      if lastFree == 0 {
        free := curr;
      } else {
        next[SegmentOf(lastFree)] := curr;
      }
      lastFree := curr;
      used, lastUsed := Unlink(used, lastUsed, id, curr, prev, m.used, i);
      links := nx;
      m := n;
      assert ListEnds() == e;
    }

    /** append_cleaned_segment_to_free_segments, as far as the lists go. */
    method RelinkCleaned(id: nat)
      requires Lists() && id in m.used
      modifies this`free, this`lastFree, this`emergency, this`lastEmergency, this`used, this`lastUsed, this`reserve,
               this`m, this`links, next
      ensures Lists() && id in old(m).used
      ensures m == if old(m).reserve < RESERVE
                   then old(m).(used := Remove(old(m).used, id), emergency := old(m).emergency + [id],
                       reserve := old(m).reserve + 1)
                   else old(m).(used := Remove(old(m).used, id), free := old(m).free + [id])
    {
      hide Chained;
      if reserve < RESERVE {
        UsedToReserve(id);
        reserve := reserve + 1;
        ghost var n := m;
        m := n.(reserve := reserve);
        ChainedSame(links, ListEnds(), n, m);
      } else {
        UsedToFree(id);
      }
    }

    /** append_cleaned_segment_to_free_segments */
    method AppendCleanedSegmentToFree(id: nat)
      requires Valid() && Whole(m.segs) && id in m.used && id < count
      requires forall x :: x in m.table ==> m.table[x].seg != id
      requires !(m.phase.Scan? && m.phase.seg == id)
      modifies this`free, this`lastFree, this`emergency, this`lastEmergency, this`used, this`lastUsed, this`reserve,
               this`m, this`links, next, usedSpace
      ensures Valid() && Whole(m.segs) && id in old(m).used && id < |old(m).segs| && m == Recycle(old(m), id)
    {
      hide Chained, OffsetTable, CleanerAt, Remove, Recycle, Whole, Holding;
      EmptiedHolding(m.segs, area[..], id);
      RelinkCleaned(id);
      usedSpace[id] := 0;
      m := KeptByRecycle(old(m), id, m, links, ListEnds(), table, cleanerSeg, cleanerPos, currSeg, scanPos, nextSeg);
      HoldingWhole(m.segs, area[..]);
    }

    // ---------- the cleaner thread ----------

    /** Change the target if it has no room for `size` more bytes. The original waits while there is no segment to be
        had; that there always is one is proved in CleanerSteps. */
    method TargetWithRoom(size: nat)
      requires Valid() && Inv(m) && !m.phase.Start? && m.target in m.cleaner && TargetRoom(m, size).ok
      modifies this`free, this`lastFree, this`used, this`lastUsed, this`cleaner, this`lastCleaner, this`emergency,
               this`lastEmergency, this`reserve, this`cleanerSeg, this`cleanerPos, this`m, this`links, next
      ensures Valid() && m == TargetRoom(old(m), size).s
    {
      hide Chained, OffsetTable, CleanerAt, Inv, InRange, NewTarget, SegmentOf, Whole, Holding;
      CleanerTarget(cleanerSeg, cleanerPos, currSeg, scanPos, nextSeg, m);
      if DATA_SIZE - cleanerPos < size {
        AppendCleanerSegmentToUsed(SegmentOf(cleanerSeg));
        cleanerSeg := GetNewCleanerSegment();
        cleanerPos := 0;
        KeptByTarget(old(m), size, m, table, old(cleanerSeg), old(cleanerPos), currSeg, scanPos, nextSeg);
      }
    }

    /** memcpy of the entry that is scanned behind those of the target, which counts it. */
    method CopyBytes(n: nat, ghost entry: Entry, ghost k: nat)
      requires Valid() && Whole(m.segs) && m.phase == Scan(SegmentOf(currSeg), k) && m.target < |m.segs|
      requires m.phase.seg < |m.segs| && m.phase.seg != m.target && k < |Seen(m.segs[m.phase.seg])|
      requires entry == Seen(m.segs[m.phase.seg])[k] && n == Size(entry)
      requires cleanerPos == Bytes(m.segs[m.target].log) && cleanerPos + n <= DATA_SIZE
      modifies usedSpace, area
      ensures Holding(m.segs[m.target := Written(m.segs[m.target], entry)], area[..])
      ensures forall i: nat :: i < count ==> usedSpace[i] == m.segs[i].used + if i == m.target then n else 0
    {
      hide Chained, OffsetTable, CleanerAt, SegmentOf, SegmentAddr, Past, Bytes, Whole, Holding, Splice, Pos, Seen;
      CleanerTarget(cleanerSeg, cleanerPos, currSeg, scanPos, nextSeg, m);
      CleanerScans(cleanerSeg, cleanerPos, currSeg, scanPos, nextSeg, m);
      CopyHolding(m.segs, area[..], m.phase.seg, k, m.target, entry);
      var t := SegmentOf(cleanerSeg);
      area[t] := Splice(area[t], cleanerPos, area[SegmentOf(currSeg)][scanPos..scanPos + n]);
      assert area[..] == old(area[..])[t := area[t]];
      usedSpace[t] := usedSpace[t] + n;
    }

    /** Copy the entry that is scanned behind those of the target, and point the table to the copy. */
    method CopyToCleaner(entry: Entry, ghost k: nat)
      requires Valid() && Whole(m.segs) && m.phase == Scan(SegmentOf(currSeg), k) && m.target < |m.segs|
      requires m.phase.seg < |m.segs| && m.phase.seg != m.target && k < |Seen(m.segs[m.phase.seg])|
      requires entry == Seen(m.segs[m.phase.seg])[k]
      requires cleanerPos == Bytes(m.segs[m.target].log) && cleanerPos + Size(entry) <= DATA_SIZE
      modifies this`cleanerPos, this`table, this`m, usedSpace, area
      ensures Valid() && Whole(m.segs) && m == CopyToTarget(old(m), entry)
    {
      hide Chained, OffsetTable, CleanerAt, SegmentOf, SegmentAddr, CopyToTarget, Past, Bytes, Whole, Holding, Seen,
           InRange, Written, Size;
      CleanerTarget(cleanerSeg, cleanerPos, currSeg, scanPos, nextSeg, m);
      CopyBytes(Size(entry), entry, k);
      var offset := cleanerSeg + SEGMENT_HEADER + cleanerPos;
      cleanerPos := cleanerPos + Size(entry);
      table := table[entry.id := offset];
      m := KeptByCopy(m, entry, offset, links, ListEnds(), old(table), cleanerSeg, old(cleanerPos), currSeg, scanPos,
          nextSeg);
      HoldingWhole(m.segs, area[..]);
    }

    /** Is this entry, the next one to be scanned, to be copied? */
    method ToCopy(entry: Entry, ghost c: nat, ghost k: nat) returns (copy: bool)
      requires Valid() && Inv(m) && TableOk(m) && m.phase == Scan(c, k) && c < |m.segs| && k < |Seen(m.segs[c])|
      requires entry == Seen(m.segs[c])[k] && ScanSafe(m) && Whole(m.segs)
      ensures copy ==> k < |m.segs[c].log| && !entry.dead && entry.id in m.table && m.table[entry.id] == Loc(c, k)
      ensures TableOk(m) && (!copy ==> Harmless(m, entry))
    {
      hide Chained, OffsetTable, CleanerAt, Inv, SegmentOf, Clean, Shape, Sized, Whole, Holding, Word, Pos;
      InvParts(m);
      SameKeys(table, m);
      copy := false;
      if !entry.dead {
        if k < |m.segs[c].log| {
          CopiedIsCurrent(m, c, k);
        }
        var segment, pos := Lookup(entry.id);
        copy := Word(area[segment], pos + 8) <= entry.version;
      }
    }

    /** The cleaner's work on one entry, under the update/move mutex. */
    method CleanEntry()
      requires Valid() && Inv(m) && m.phase.Scan? && m.phase.seg < |m.segs| && m.phase.k < |Seen(m.segs[m.phase.seg])|
      requires TableOk(m) && ScanSafe(m) && Whole(m.segs)
      modifies this`free, this`lastFree, this`used, this`lastUsed, this`cleaner, this`lastCleaner, this`emergency,
               this`lastEmergency, this`reserve, this`cleanerSeg, this`cleanerPos, this`scanPos, this`table, this`m,
               this`links, next, usedSpace, area
      ensures Valid() && Sane(old(m)) && Clean(old(m)) == Continue(m) && Whole(m.segs)
      ensures |m.segs| == |old(m).segs| && m.segs[old(m).phase.seg] == old(m).segs[old(m).phase.seg]
      ensures m.phase == Scan(old(m).phase.seg, old(m).phase.k + 1)
    {
      hide Chained, OffsetTable, CleanerAt, Inv, SegmentOf, Clean, Sane, Shape, Sized, TableOk, TargetRoom,
           CopyToTarget, ScanSafe, Harmless, Whole, Holding, Decode, Bytes, Pos;
      ghost var c, k := m.phase.seg, m.phase.k;
      InvParts(m);
      CleanerScans(cleanerSeg, cleanerPos, currSeg, scanPos, nextSeg, m);
      HoldsScanned(m.segs, area[..], c, k);
      var entry := Decode(area[SegmentOf(currSeg)], scanPos);
      var copy := ToCopy(entry, c, k);
      if copy {
        ghost var t := RoomForCopy(m, c, k, entry);
        TargetWithRoom(Size(entry));
        CleanerTarget(cleanerSeg, cleanerPos, currSeg, scanPos, nextSeg, m);
        CopyToCleaner(entry, k);
      } else {
        SkipIs(m, c, k, entry);
      }
      NextEntry(c, k, entry);
    }

    /** The scan position moves behind the entry. */
    method NextEntry(ghost c: nat, ghost k: nat, entry: Entry)
      requires Valid() && m.phase == Scan(c, k) && c < |m.segs| && k < |Seen(m.segs[c])| && Seen(m.segs[c])[k] == entry
      modifies this`scanPos, this`m
      ensures Valid() && m == old(m).(phase := Scan(c, k + 1))
    {
      hide Chained, OffsetTable, CleanerAt;
      CleanerScans(cleanerSeg, cleanerPos, currSeg, scanPos, nextSeg, m);
      scanPos := scanPos + Size(entry);
      KeptByScan(m, c, k, entry, links, ListEnds(), table, cleanerSeg, cleanerPos, currSeg, nextSeg);
      m := m.(phase := Scan(c, k + 1));
    }

    /** Where the scan is, and whether it goes on. */
    lemma ScanPlace(c: nat, k: nat)
      requires Valid() && Inv(m) && m.phase == Scan(c, k) && c < |m.segs| && Whole(m.segs)
      requires TableOk(m) && SafeBehind(m, m.segs[c])
      ensures SegmentOf(currSeg) == c < area.Length && k <= |Seen(m.segs[c])| && scanPos == Pos(Seen(m.segs[c]), k)
      ensures ReadOn(area[c], Seen(m.segs[c]), k) && ScanSafe(m)
    {
      hide Chained, OffsetTable, CleanerAt, Inv, TableOk, SafeBehind, ScanSafe, Whole, Holding, Pos, SegmentOf;
      CleanerScans(cleanerSeg, cleanerPos, currSeg, scanPos, nextSeg, m);
      ScanReads(m, c, k, area[..]);
    }

    /** The loop over the entries of the current segment. `n` is the number of steps made. */
    method ScanSegment(ghost i: nat) returns (ghost n: nat)
      requires Valid() && Inv(m) && m.phase.Scan? && m.phase.seg < |m.segs| && m.phase.k <= |Seen(m.segs[m.phase.seg])|
      requires TableOk(m) && SafeBehind(m, m.segs[m.phase.seg]) && Whole(m.segs)
      modifies this`free, this`lastFree, this`used, this`lastUsed, this`cleaner, this`lastCleaner, this`emergency,
               this`lastEmergency, this`reserve, this`cleanerSeg, this`cleanerPos, this`scanPos, this`table, this`m,
               this`links, next, usedSpace, area
      ensures Valid() && m == CleanerRun(old(m), n) && Inv(m) && Whole(m.segs)
      ensures m.phase == Scan(old(m).phase.seg, |Seen(old(m).segs[old(m).phase.seg])|) && |m.segs| == |old(m).segs|
      ensures m.segs[m.phase.seg] == old(m).segs[m.phase.seg]
      ensures TableOk(m) && SafeBehind(m, m.segs[m.phase.seg]) && StillWalking(old(m), i, m)
    {
      hide Chained, OffsetTable, CleanerAt, Inv, SegmentOf, Clean, Sane, StillWalking, CleanerRun, TableOk, SafeBehind,
           ScanSafe, Bytes, Whole, Holding, Word, Pos, Seen, Segments, Lists, CleanerLocals, ToClean;
      ghost var c: nat, k: nat, s := m.phase.seg, m.phase.k, m;
      ScanPlace(c, k);
      ScanStarts(m, i);
      n := 0;
      var segment := SegmentOf(currSeg);
      while scanPos < DATA_SIZE - ENTRY_HEADER
        invariant Valid() && Inv(m) && m.phase == Scan(c, k) && c < |m.segs| == |s.segs| && m.segs[c] == s.segs[c]
        invariant k <= |Seen(m.segs[c])| && scanPos == Pos(Seen(m.segs[c]), k) && segment == c && Whole(m.segs)
        invariant m == CleanerRun(s, n) && TableOk(m) && SafeBehind(m, m.segs[c]) && StillWalking(s, i, m)
        invariant c < area.Length && ReadOn(area[c], Seen(m.segs[c]), k)
        decreases |Seen(m.segs[c])| - k
      {
        if Word(area[segment], scanPos + LENGTH_AT) == 0 {
          break;
        }
        ghost var t := m;
        ScanPlace(c, k);
        CleanEntry();
        n := ScanStep(s, n, i, t, m);
        k := k + 1;
        ScanPlace(c, k);
      }
      assert k == |Seen(m.segs[c])|;
    }

    /** A segment worth cleaning is found: it is scanned from the beginning, unless it counts no bytes. */
    method EnterSegment(ghost c: nat) returns (scan: bool)
      requires Valid() && Inv(m) && Whole(m.segs) && m.phase == Walk(Some(c)) && c < |m.segs| && WorthCleaning(m, c)
      modifies this`scanPos, this`nextSeg, this`m
      ensures Valid() && Inv(m) && Whole(m.segs) && Sane(old(m)) && Clean(old(m)) == Continue(m)
      ensures m == old(m).(phase := m.phase)
      ensures c in m.used && m.phase == if scan then Scan(c, 0) else Retire(c, After(m.used, c))
    {
      hide Chained, OffsetTable, CleanerAt, Inv, SegmentOf, SegmentAddr, Clean, Sane, Whole, Holding;
      WalkerAt(cleanerSeg, cleanerPos, currSeg, scanPos, nextSeg, m, c);
      EnterIs(m, c);
      NextUsed(links, ListEnds(), m, c);
      ghost var s := m;
      scan := usedSpace[SegmentOf(currSeg)] != 0;
      if scan {
        scanPos := 0;
        m := m.(phase := Scan(c, 0));
      } else {
        nextSeg := next[SegmentOf(currSeg)];
        m := m.(phase := Retire(c, After(m.used, c)));
      }
      KeptByPhase(s, m, links, ListEnds(), table, cleanerSeg, cleanerPos, currSeg, old(scanPos), scanPos, old(nextSeg),
          nextSeg, c);
    }

    /** All entries are scanned: the successor is noted. */
    method LeaveSegment(ghost c: nat)
      requires Valid() && Inv(m) && Whole(m.segs) && c < |m.segs|
      requires m.phase == Scan(c, |Seen(m.segs[c])|) && EndKnown(m.segs[c])
      modifies this`nextSeg, this`m
      ensures Valid() && Inv(m) && Whole(m.segs) && Sane(old(m)) && Clean(old(m)) == Continue(m)
      ensures m == old(m).(phase := m.phase)
      ensures c in m.used && m.phase == Retire(c, After(m.used, c))
    {
      hide Chained, OffsetTable, CleanerAt, Inv, SegmentOf, SegmentAddr, Clean, Sane, Whole, Holding;
      CleanerScans(cleanerSeg, cleanerPos, currSeg, scanPos, nextSeg, m);
      LeaveIs(m, c);
      NextUsed(links, ListEnds(), m, c);
      ghost var s := m;
      nextSeg := next[SegmentOf(currSeg)];
      m := m.(phase := Retire(c, After(m.used, c)));
      KeptByPhase(s, m, links, ListEnds(), table, cleanerSeg, cleanerPos, currSeg, scanPos, scanPos, old(nextSeg),
          nextSeg, c);
    }

    /** The scanned segment is recycled, and the walk goes on. */
    method RecycleSegment(ghost c: nat)
      requires Valid() && Inv(m) && Whole(m.segs) && m.phase.Retire? && m.phase.seg == c
      modifies this`free, this`lastFree, this`emergency, this`lastEmergency, this`used, this`lastUsed, this`reserve,
               this`currSeg, this`m, this`links, next, usedSpace
      ensures Valid() && Inv(m) && Whole(m.segs) && Sane(old(m)) && Clean(old(m)) == Continue(m)
      ensures m.phase == Walk(old(m).phase.next)
    {
      hide Chained, OffsetTable, CleanerAt, Inv, SegmentOf, SegmentAddr, Clean, Sane, Recycle, Whole, Holding;
      RecycleIs(m, c);
      CleanerRetires(cleanerSeg, cleanerPos, currSeg, scanPos, nextSeg, m);
      ghost var next := m.phase.next;
      AppendCleanedSegmentToFree(SegmentOf(currSeg));
      KeptByWalk(m, next, links, ListEnds(), table, cleanerSeg, cleanerPos, currSeg, scanPos, nextSeg);
      currSeg := nextSeg;
      m := m.(phase := Walk(next));
    }

    /** Cleaning one segment, from the test that it is worth it to its return to the free list or the reserve. */
    method CleanSegment(ghost c: nat, ghost i: nat) returns (ghost n: nat)
      requires Valid() && Inv(m) && Whole(m.segs) && m.phase == Walk(Some(c)) && c < |m.segs| && WorthCleaning(m, c)
      requires TableOk(m) && SafeBehind(m, m.segs[c]) && Walking(m, i) && i < |m.used|
      modifies this`free, this`lastFree, this`used, this`lastUsed, this`cleaner, this`lastCleaner, this`emergency,
               this`lastEmergency, this`reserve, this`cleanerSeg, this`cleanerPos, this`scanPos, this`currSeg,
               this`nextSeg, this`table, this`m, this`links, next, usedSpace, area
      ensures Valid() && Inv(m) && Whole(m.segs) && m == CleanerRun(old(m), n) && m.phase.Walk?
      ensures Walking(m, i) && ToClean(m, i) < ToClean(old(m), i)
    {
      hide Chained, OffsetTable, CleanerAt, Inv, Clean, Sane, Walking, ToClean, CleanerRun, StillWalking, Segments,
           Lists, CleanerLocals, TableOk, SafeBehind, Whole, Holding;
      ghost var s := m;
      var scan := EnterSegment(c);
      ghost var t := m;
      EnterPasses(s, i, c, t);
      ghost var a := 0;
      if scan {
        ScanBegins(s, m, c);
        a := ScanSegment(i);
        ghost var u := m;
        SafeEnds(m, c);
        LeaveSegment(c);
        LeavePasses(t, i, c, a, u, m);
        a := a + 1;
      } else {
        ScanStarts(t, i);
      }
      ghost var v := m;
      RecycleSegment(c);
      n := RecyclePasses(s, t, i, c, a, v, m);
    }

    /** The cleaner thread takes its first target. */
    method StartCleaner()
      requires Valid() && Inv(m) && Whole(m.segs) && m.phase.Start?
      modifies this`free, this`lastFree, this`cleaner, this`lastCleaner, this`emergency, this`lastEmergency,
               this`reserve, this`cleanerSeg, this`cleanerPos, this`currSeg, this`m, this`links, next
      ensures Valid() && Inv(m) && Whole(m.segs) && Sane(old(m)) && Clean(old(m)) == Continue(m)
      ensures m.phase == Walk(None)
    {
      hide Chained, OffsetTable, CleanerAt, Inv, SegmentAddr, Clean, Sane, InRange, NewTarget, Whole, Holding;
      ghost var s := m;
      StartIsNewTarget(m);
      var seg := GetNewCleanerSegment();
      cleanerSeg, cleanerPos, currSeg := seg, 0, 0;
      KeptByStart(s, m, links, ListEnds(), table, old(cleanerSeg), old(cleanerPos), old(currSeg), scanPos, nextSeg);
      m := m.(phase := Walk(None));
    }

    /** The walk begins at the first used segment. */
    method StartPass()
      requires Valid() && Inv(m) && Whole(m.segs) && m.phase == Walk(None)
      modifies this`currSeg, this`m
      ensures Valid() && Inv(m) && Whole(m.segs) && Sane(old(m)) && Clean(old(m)) == Continue(m) && m.phase.Walk?
    {
      hide Chained, OffsetTable, CleanerAt, Inv, SegmentAddr, Clean, Sane, Whole, Holding;
      Fields(links, ListEnds(), m);
      StartIs(m);
      ghost var at := if m.used == [] then None else Some(m.used[0]);
      KeptByWalkOn(m, at, used, links, ListEnds(), table, cleanerSeg, cleanerPos, currSeg, scanPos, nextSeg);
      currSeg := used;
      m := m.(phase := Walk(at));
    }

    /** A segment that is not worth cleaning is passed by. */
    method SkipSegment(ghost c: nat)
      requires Valid() && Inv(m) && Whole(m.segs) && m.phase == Walk(Some(c)) && c < |m.segs| && !WorthCleaning(m, c)
      modifies this`currSeg, this`m
      ensures Valid() && Inv(m) && Whole(m.segs) && Sane(old(m)) && Clean(old(m)) == Continue(m) && m.phase.Walk?
    {
      hide Chained, OffsetTable, CleanerAt, Inv, SegmentOf, SegmentAddr, Clean, Sane, Whole, Holding;
      WalkerAt(cleanerSeg, cleanerPos, currSeg, scanPos, nextSeg, m, c);
      SkipSegmentIs(m, c);
      NextUsed(links, ListEnds(), m, c);
      ghost var at := After(m.used, c);
      var behind := next[SegmentOf(currSeg)];
      KeptByWalkOn(m, at, behind, links, ListEnds(), table, cleanerSeg, cleanerPos, currSeg, scanPos, nextSeg);
      currSeg := behind;
      m := m.(phase := Walk(at));
    }

    /** The body of the loop over the used list. */
    method PassStep(ghost s: State, ghost n: nat, ghost i: nat) returns (ghost n': nat, ghost i': nat)
      requires Valid() && Inv(m) && Whole(m.segs) && m.phase.Walk? && Walking(m, i) && currSeg != 0
      requires Inv(s) && m == CleanerRun(s, n)
      requires i <= |m.used| && Clear(m)
      modifies this`free, this`lastFree, this`used, this`lastUsed, this`cleaner, this`lastCleaner, this`emergency,
               this`lastEmergency, this`reserve, this`cleanerSeg, this`cleanerPos, this`scanPos, this`currSeg,
               this`nextSeg, this`table, this`m, this`links, next, usedSpace, area
      ensures Valid() && Inv(m) && Whole(m.segs) && m.phase.Walk? && Walking(m, i') && i' <= |m.used|
      ensures m == CleanerRun(s, n')
      ensures ToClean(m, i') < ToClean(old(m), i)
              || (ToClean(m, i') == ToClean(old(m), i) && |m.used| - i' < |old(m).used| - i)
    {
      hide Chained, OffsetTable, CleanerAt, Inv, Clean, Sane, Walking, ToClean, CleanerRun, SegmentOf, SegmentAddr,
           Clear, SafeBehind, TableOk, Whole, Holding;
      ghost var c := WalkerIs(cleanerSeg, cleanerPos, currSeg, scanPos, nextSeg, m, i);
      ghost var t := m;
      SparseIsSafe(m, c);
      if usedSpace[SegmentOf(currSeg)] < HALF_SEGMENT {
        ghost var a := CleanSegment(c, i);
        CleanerRunJoin(s, n, a);
        n', i' := n + a, i;
        WalkingBound(m, i);
      } else {
        SkipSegment(c);
        NoScan(t);
        CleanerRunMore(s, n);
        n', i' := n + 1, i + 1;
        SkippedNearer(t, i, m, c);
      }
    }

    /** One pass of the cleaner over the used list, in the course of which the list may grow. */
    method CleanPass() returns (ghost n: nat)
      requires Valid() && Inv(m) && Whole(m.segs) && m.phase == Walk(None) && Clear(m)
      modifies this`free, this`lastFree, this`used, this`lastUsed, this`cleaner, this`lastCleaner, this`emergency,
               this`lastEmergency, this`reserve, this`cleanerSeg, this`cleanerPos, this`scanPos, this`currSeg,
               this`nextSeg, this`table, this`m, this`links, next, usedSpace, area
      ensures Valid() && Inv(m) && Whole(m.segs) && m == CleanerRun(old(m), n)
      ensures TableOk(old(m)) && Objects(m) == Objects(old(m))
      ensures m.phase == Walk(None)
      ensures forall x :: x in m.used ==> x < |m.segs| && SEGMENT_SIZE <= 2 * Live(m, x) && Live(m, x) == m.segs[x].used
    {
      hide Chained, OffsetTable, CleanerAt, Inv, Clean, Sane, Walking, ToClean, CleanerRun, WalkOver, SegmentAddr,
           Clear, Whole, Holding;
      ghost var s := m;
      StartPass();
      PassStarts(s, m);
      n := 1;
      ghost var i: nat := 0;
      while currSeg != 0
        invariant Valid() && Inv(m) && Whole(m.segs) && m.phase.Walk? && Walking(m, i) && i <= |m.used|
        invariant m == CleanerRun(s, n)
        decreases ToClean(m, i), |m.used| - i
      {
        RunClear(s, n);
        n, i := PassStep(s, n, i);
      }
      PassOver(s, n, m, i, cleanerSeg, cleanerPos, currSeg, scanPos, nextSeg);
    }

    // ---------- after a crash ----------

    /** Memory as recovery reads it: the used segments up to where a scan of their bytes ends, the head up to the write
        position. */
    ghost predicate ReadAs(r: State)
      reads this, next, usedSpace, area
    {
      && Segments() && Whole(m.segs) && Fitting(r)
      && r == Recovery.AsRead(m, Tails(m.segs, area[..]))
    }

    /** The entry whose header is at `pos` is entered into the table, unless it is marked or the table has one at least
        as new. */
    method MeetEntry(t: map<nat, nat>, i: nat, pos: nat, ghost r: State, ghost k: nat, ghost tm: map<nat, Loc>)
        returns (t': map<nat, nat>)
      requires ReadAs(r) && i < count && k < |r.segs[i].log| && pos == Pos(r.segs[i].log, k)
      requires OffsetTable(t, r.(table := tm)) && Recovery.Usable(r, tm)
      ensures OffsetTable(t', r.(table := Recovery.Meet(r, tm, Loc(i, k))))
    {
      hide Fitting, OffsetTable, SegmentAddr, Recovery.AsRead, Whole, Holding, Tails, Word, SegmentOf, Pos;
      ReadLists(m, Tails(m.segs, area[..]));
      HeaderMet(m, r, area[..], i, k);
      ghost var n, e := r.(table := tm), r.segs[i].log[k];
      SameKeys(t, n);
      OffsetsAfterPoint(t, n, e.id, Loc(i, k));
      FittingSame(r, n);
      t' := t;
      if area[i][pos + MARK_AT] == 0 {
        var id := Word(area[i], pos);
        if id in t {
          var offset := t[id];
          OffsetFinds(t, n, id);
          HeaderMet(m, r, area[..], tm[id].seg, tm[id].idx);
          var there := (offset - LOG_HEADER) % SEGMENT_SIZE - SEGMENT_HEADER;
          if Word(area[i], pos + 8) > Word(area[SegmentOf(offset)], there + 8) {
            t' := t[id := SegmentAddr(i) + SEGMENT_HEADER + pos];
          }
        } else {
          t' := t[id := SegmentAddr(i) + SEGMENT_HEADER + pos];
        }
      }
    }

    /** The entries of a used segment, up to where a zero length or too little space is found. */
    method MeetSegment(t: map<nat, nat>, i: nat, ghost r: State, ghost ls: seq<Loc>) returns (t': map<nat, nat>)
      requires ReadAs(r) && i in m.used && i < count && Recovery.ValidLocs(r, ls)
      requires OffsetTable(t, r.(table := Recovery.MeetAll(r, ls)))
      ensures Recovery.ValidLocs(r, ls + Recovery.LocsIn(r, i))
      ensures OffsetTable(t', r.(table := Recovery.MeetAll(r, ls + Recovery.LocsIn(r, i))))
    {
      hide Fitting, OffsetTable, Recovery.MeetAll, Recovery.Meet, Recovery.AsRead, Bytes, Pos, Whole, Holding, Tails,
           Word, ReadOut;
      t' := t;
      var pos: nat := 0;
      ReadLists(m, Tails(m.segs, area[..]));
      ghost var k: nat, es := 0, r.segs[i].log;
      assert ls + Recovery.LocsUpTo(i, 0) == ls;
      ReadsOut(m, r, area[..], i);
      while pos < DATA_SIZE - ENTRY_HEADER
        invariant k <= |es| && MetTo(area[i], es, k, pos)
        invariant Recovery.ValidLocs(r, ls + Recovery.LocsUpTo(i, k))
        invariant OffsetTable(t', r.(table := Recovery.MeetAll(r, ls + Recovery.LocsUpTo(i, k))))
        decreases |es| - k
      {
        var length := Word(area[i], pos + LENGTH_AT);
        if length == 0 {
          break;
        }
        ghost var was := ls + Recovery.LocsUpTo(i, k);
        MetNext(area[i], es, k, pos);
        Recovery.MeetAllMore(r, was, Loc(i, k));
        assert ls + Recovery.LocsUpTo(i, k + 1) == was + [Loc(i, k)];
        t' := MeetEntry(t', i, pos, r, k, Recovery.MeetAll(r, was));
        pos := pos + ENTRY_HEADER + length;
        k := k + 1;
      }
      MetEnd(area[i], es, k, pos);
    }

    /** The entries of the head, up to the write position. */
    method MeetHead(t: map<nat, nat>, i: nat, ghost r: State, ghost ls: seq<Loc>) returns (t': map<nat, nat>)
      requires ReadAs(r) && i !in m.used && i < count && Recovery.ValidLocs(r, ls) && headPos == Bytes(m.segs[i].log)
      requires OffsetTable(t, r.(table := Recovery.MeetAll(r, ls)))
      ensures Recovery.ValidLocs(r, ls + Recovery.LocsIn(r, i))
      ensures OffsetTable(t', r.(table := Recovery.MeetAll(r, ls + Recovery.LocsIn(r, i))))
    {
      hide Fitting, OffsetTable, Recovery.MeetAll, Recovery.Meet, Recovery.AsRead, Bytes, Pos, Whole, Holding, Tails,
           Word;
      t' := t;
      var pos := 0;
      ghost var k: nat, es := 0, m.segs[i].log;
      ReadIs(m, r, area[..], i);
      assert ls + Recovery.LocsUpTo(i, 0) == ls;
      PosNone(es);
      PosEnd(es);
      while pos < headPos
        invariant k <= |es| && pos == Pos(es, k) && es == r.segs[i].log
        invariant Recovery.ValidLocs(r, ls + Recovery.LocsUpTo(i, k))
        invariant OffsetTable(t', r.(table := Recovery.MeetAll(r, ls + Recovery.LocsUpTo(i, k))))
        decreases |es| - k
      {
        ghost var was := ls + Recovery.LocsUpTo(i, k);
        HoldsLogged(m.segs, area[..], i, k);
        Recovery.MeetAllMore(r, was, Loc(i, k));
        assert ls + Recovery.LocsUpTo(i, k + 1) == was + [Loc(i, k)];
        t' := MeetEntry(t', i, pos, r, k, Recovery.MeetAll(r, was));
        PosStep(es, k);
        pos := pos + ENTRY_HEADER + Word(area[i], pos + LENGTH_AT);
        k := k + 1;
      }
      AllPassed(es, k);
    }

    /** The used segments, in the order of their list. */
    method MeetUsed(ghost r: State) returns (t: map<nat, nat>)
      requires ReadAs(r) && Linking() && Recovery.Readable(r) && forall x :: x in m.used ==> x < |m.segs|
      ensures Recovery.ValidLocs(r, Recovery.ListLocs(r, r.used, |r.used|))
      ensures OffsetTable(t, r.(table := Recovery.MeetAll(r, Recovery.ListLocs(r, r.used, |r.used|))))
    {
      hide Fitting, OffsetTable, Chained, SegmentOf, Ref, Recovery.MeetAll, Recovery.LocsIn, Recovery.AsRead, Whole,
           Holding, Tails;
      ReadLists(m, Tails(m.segs, area[..]));
      t := map[];
      var curr := used;
      ghost var n: nat := 0;
      NothingMet(r);
      UsedFrom(links, ListEnds(), m, 0);
      while curr != 0
        invariant n <= |m.used| && curr == Ref(m.used, n)
        invariant (curr == 0 <==> n == |m.used|) && (n < |m.used| ==> SegmentOf(curr) == m.used[n])
        invariant Recovery.ValidLocs(r, Recovery.ListLocs(r, r.used, n))
        invariant OffsetTable(t, r.(table := Recovery.MeetAll(r, Recovery.ListLocs(r, r.used, n))))
        decreases |m.used| - n
      {
        t := MeetSegment(t, SegmentOf(curr), r, Recovery.ListLocs(r, r.used, n));
        UsedFrom(links, ListEnds(), m, n);
        curr := next[SegmentOf(curr)];
        n := n + 1;
        UsedFrom(links, ListEnds(), m, n);
      }
    }

    /** reconstruct_hash_table: the used segments, then the head. */
    method ReconstructHashTable()
      requires Segments() && Lists() && Shape(m) && Sized(m) && Whole(m.segs)
      modifies this`table
      ensures Holding(m.segs, area[..]) && Recovery.Readable(Recovery.AsRead(m, Tails(m.segs, area[..])))
      ensures var r := Recovery.AsRead(m, Tails(m.segs, area[..])); OffsetTable(table, r.(table := Recovery.Recover(r)))
    {
      hide Fitting, Sized, OffsetTable, Chained, Shape, SegmentOf, Recovery.MeetAll, Recovery.LocsIn, Recovery.ListLocs,
           Recovery.AsRead, Whole, Holding, Tails;
      ghost var r := Recovery.AsRead(m, Tails(m.segs, area[..]));
      ReadIsFitting(m, area[..]);
      Fields(links, ListEnds(), m);
      UsedInRange(m);
      var t := MeetUsed(r);
      if head != 0 {
        HeadPosIs(m);
        HeadIsNotUsed(m);
        t := MeetHead(t, SegmentOf(head), r, Recovery.ListLocs(r, r.used, |r.used|));
      } else {
        assert Recovery.Met(r) == Recovery.ListLocs(r, r.used, |r.used|);
      }
      table := t;
    }
  }

  // ---------- reading ----------

  /** At the position of entry `k` a scan goes on exactly if there is such an entry. */
  ghost predicate ReadOn(b: seq<byte>, es: seq<Entry>, k: nat)
    requires k <= |es|
  {
    var p := Pos(es, k);
    |b| == DATA_SIZE && (k < |es| <==> p < DATA_SIZE - ENTRY_HEADER && Word(b, p + LENGTH_AT) != 0)
  }

  lemma ScanReads(m: State, c: nat, k: nat, bs: seq<seq<byte>>)
    requires Inv(m) && TableOk(m) && m.phase == Scan(c, k) && c < |m.segs| && SafeBehind(m, m.segs[c])
    requires Holding(m.segs, bs) && k <= |Seen(m.segs[c])|
    ensures c < |bs| && ReadOn(bs[c], Seen(m.segs[c]), k) && ScanSafe(m)
  {
    hide Inv, Described, Word, Pos;
    ScanGoesOn(bs[c], m.segs[c], k);
    if |m.segs[c].log| <= k < |Seen(m.segs[c])| {
      assert Seen(m.segs[c])[k] == m.segs[c].behind.es[k - |m.segs[c].log|];
    }
  }

  /** What recovery takes for the entries of a segment. */
  lemma ReadIs(m: State, r: State, bs: seq<seq<byte>>, i: nat)
    requires Holding(m.segs, bs) && r == Recovery.AsRead(m, Tails(m.segs, bs)) && i < |m.segs|
    ensures |r.segs| == |m.segs| <= |bs| && r.used == m.used && r.head == m.head && |bs[i]| == DATA_SIZE
    ensures r.segs[i].log == if i in m.used then ReadOut(bs[i], 0) else m.segs[i].log
  {
    hide Described, Tail, ReadOut, Tails;
    TailsAre(m.segs, bs, i);
  }

  lemma ReadLists(m: State, tails: seq<seq<Entry>>)
    requires |tails| == |m.segs|
    ensures Recovery.AsRead(m, tails).used == m.used && |Recovery.AsRead(m, tails).segs| == |m.segs|
  {
  }

  /** The header of every entry that recovery takes for one is where the entries before it end. */
  lemma HeaderMet(m: State, r: State, bs: seq<seq<byte>>, i: nat, k: nat)
    requires Holding(m.segs, bs) && r == Recovery.AsRead(m, Tails(m.segs, bs))
    requires i < |m.segs| && i < |r.segs| && k < |r.segs[i].log|
    ensures |r.segs| == |m.segs| <= |bs| && |bs[i]| == DATA_SIZE
    ensures HeaderAt(bs[i], Pos(r.segs[i].log, k), r.segs[i].log[k])
  {
    hide Recovery.AsRead, Holding, Tails, Word, ReadOut, Holds, Pos;
    ReadIs(m, r, bs, i);
    if i in m.used {
      ReadOutFrom(bs[i], 0, k);
      ReadOutFirst(bs[i], Pos(r.segs[i].log, k));
    } else {
      HoldsLogged(m.segs, bs, i, k);
      HeaderHeld(bs[i], Pos(r.segs[i].log, k), r.segs[i].log[k]);
    }
  }

  lemma HeaderHeld(b: seq<byte>, p: nat, e: Entry)
    requires Holds(b, p, e)
    ensures HeaderAt(b, p, e)
  {
    hide Word;
  }

  /** The scan has met the first `k` entries, and is where the next is read out, or beyond the end. */
  ghost predicate MetTo(b: seq<byte>, es: seq<Entry>, k: nat, pos: nat)
    requires k <= |es|
  {
    && |b| == DATA_SIZE && es == ReadOut(b, 0)
    && (pos == Pos(es, k) <= DATA_SIZE || (k == |es| && pos >= DATA_SIZE - ENTRY_HEADER))
  }

  lemma ReadsOut(m: State, r: State, bs: seq<seq<byte>>, i: nat)
    requires Holding(m.segs, bs) && r == Recovery.AsRead(m, Tails(m.segs, bs)) && i in m.used && i < |m.segs|
    ensures i < |bs| && i < |r.segs| && MetTo(bs[i], r.segs[i].log, 0, 0)
  {
    hide Recovery.AsRead, Tails, ReadOut;
    ReadIs(m, r, bs, i);
    PosNone(r.segs[i].log);
  }

  lemma MetNext(b: seq<byte>, es: seq<Entry>, k: nat, pos: nat)
    requires k <= |es| && MetTo(b, es, k, pos) && pos < DATA_SIZE - ENTRY_HEADER && Word(b, pos + LENGTH_AT) != 0
    ensures k < |es| && pos == Pos(es, k) && MetTo(b, es, k + 1, pos + ENTRY_HEADER + Word(b, pos + LENGTH_AT))
  {
    hide Word, ReadOut, Pos;
    ReadOutFrom(b, 0, k);
    ReadOutNothing(b, pos);
    ReadOutFirst(b, pos);
    PosStep(es, k);
    if pos + Size(es[k]) == DATA_SIZE {
      ReadOutFrom(b, 0, k + 1);
      ReadOutNothing(b, DATA_SIZE);
    }
  }

  lemma MetEnd(b: seq<byte>, es: seq<Entry>, k: nat, pos: nat)
    requires k <= |es| && MetTo(b, es, k, pos)
    requires pos >= DATA_SIZE - ENTRY_HEADER || Word(b, pos + LENGTH_AT) == 0
    ensures k == |es|
  {
    hide Word, ReadOut, Pos;
    if pos == Pos(es, k) <= DATA_SIZE {
      ReadOutFrom(b, 0, k);
      ReadOutNothing(b, pos);
    }
  }

  lemma PosNone(es: seq<Entry>)
    ensures Pos(es, 0) == 0
  {
    assert es[..0] == [];
  }

  lemma AllPassed(es: seq<Entry>, k: nat)
    requires k <= |es| && Pos(es, k) >= Bytes(es)
    ensures k == |es|
  {
    if k < |es| {
      PosMonotone(es, k, |es|);
      PosEnd(es);
    }
  }

  lemma ReadIsFitting(m: State, bs: seq<seq<byte>>)
    requires Shape(m) && Sized(m) && Holding(m.segs, bs)
    ensures var r := Recovery.AsRead(m, Tails(m.segs, bs));
            Recovery.Readable(r) && Fitting(r) && r.used == m.used && r.head == m.head && |r.segs| == |m.segs|
  {
    Recovery.ShapeReadable(m);
    var r := Recovery.AsRead(m, Tails(m.segs, bs));
    hide Shape, ReadOut, Tails, Bytes;
    forall i: nat | i < |m.segs|
      ensures Bytes(r.segs[i].log) <= DATA_SIZE
    {
      assert SizedSegment(m.segs[i]);
      ReadIs(m, r, bs, i);
      ReadOutSized(bs[i], 0);
    }
  }

  lemma UsedInRange(m: State)
    requires Shape(m)
    ensures forall x :: x in m.used ==> x < |m.segs|
  {
  }

  lemma HeadIsNotUsed(m: State)
    requires Shape(m) && m.head.Some?
    ensures m.head.value !in m.used
  {
  }

  /** Offset for offset, the table that is rebuilt from these bytes is the one that was lost, if and only if heap and
      bytes were safe. */
  lemma RebuiltTableIsOld(m: State, bs: seq<seq<byte>>, lost: map<nat, nat>, rebuilt: map<nat, nat>)
    requires Inv(m) && TableOk(m) && OffsetTable(lost, m) && Holding(m.segs, bs)
    requires Recovery.Readable(Recovery.AsRead(m, Tails(m.segs, bs)))
    requires var r := Recovery.AsRead(m, Tails(m.segs, bs)); OffsetTable(rebuilt, r.(table := Recovery.Recover(r)))
    ensures rebuilt == lost <==> Recovery.CrashSafe(m, Tails(m.segs, bs))
  {
    var tails := Tails(m.segs, bs);
    Recovery.RecoveryIsExact(m, tails);
    var r := Recovery.AsRead(m, tails);
    var n := r.(table := Recovery.Recover(r));
    OffsetsAsRead(lost, m, tails);
    ReadIsFitting(m, bs);
    hide Inv, Recovery.AsRead, Recovery.Recover, Recovery.CrashSafe, OffsetTable, Fitting, Holding, Tails;
    if n.table == m.table {
      assert n == r.(table := m.table);
      OffsetsUnique(lost, rebuilt, n);
    }
    if rebuilt == lost {
      PlacesUnique(lost, n, r.(table := m.table));
    }
  }

  lemma OffsetsAsRead(t: map<nat, nat>, m: State, tails: seq<seq<Entry>>)
    requires OffsetTable(t, m) && |tails| == |m.segs|
    ensures OffsetTable(t, Recovery.AsRead(m, tails).(table := m.table))
  {
    var r := Recovery.AsRead(m, tails).(table := m.table);
    forall id | id in m.table
      ensures ValidLoc(r, m.table[id]) && At(r, m.table[id]).id == id
      ensures t[id] == EntryAddr(m.table[id].seg, r.segs[m.table[id].seg].log, m.table[id].idx)
    {
      var g := m.segs[m.table[id].seg];
      PosBefore(g.log, g.behind.es + tails[m.table[id].seg], m.table[id].idx);
      assert g.log + (g.behind.es + tails[m.table[id].seg]) == Seen(g) + tails[m.table[id].seg];
    }
  }

  /** An offset leads to one place. */
  lemma PlacesUnique(t: map<nat, nat>, n: State, r: State)
    requires OffsetTable(t, n) && OffsetTable(t, r) && n.segs == r.segs && Fitting(r)
    ensures n.table == r.table
  {
    FittingSame(r, n);
    SameKeys(t, n);
    SameKeys(t, r);
    forall id | id in t
      ensures id in n.table && id in r.table && n.table[id] == r.table[id]
    {
      PlaceUnique(t, n, r, id);
    }
    hide OffsetTable, Fitting;
    SameMaps(t, n.table, r.table);
  }

  lemma PlaceUnique(t: map<nat, nat>, n: State, r: State, id: nat)
    requires OffsetTable(t, n) && OffsetTable(t, r) && n.segs == r.segs && Fitting(r) && Fitting(n) && id in t
    ensures id in n.table && id in r.table && n.table[id] == r.table[id]
  {
    hide OffsetTable, Fitting, SegmentOf, IndexAt, Pos;
    OffsetFinds(t, n, id);
    OffsetFinds(t, r, id);
    IndexAtPos(n.segs[n.table[id].seg].log, n.table[id].idx);
    IndexAtPos(r.segs[r.table[id].seg].log, r.table[id].idx);
  }

  lemma SameMaps(t: map<nat, nat>, a: map<nat, Loc>, b: map<nat, Loc>)
    requires t.Keys == a.Keys == b.Keys && forall id :: id in t ==> id in a && id in b && a[id] == b[id]
    ensures a == b
  {
    forall id
      ensures id in a <==> id in b
      ensures id in a ==> a[id] == b[id]
    {
      assert id in t.Keys <==> id in t;
    }
  }

  // ---------- what the client operations come to ----------

  lemma FreeDoes(m: State, id: nat)
    requires Inv(m)
    ensures Sane(m) && Objects(Free(m, id)) == Objects(m) - {id}
    ensures Inv(Free(m, id)) <==> id in m.table ==> OnlyVersion(m, id)
  {
    InvIsSane(m);
    hide Inv, Free;
    if id in m.table {
      FreeKeeps(m, id);
    } else {
      NothingToFree(m, id);
    }
  }

  lemma FreeCounts(m: State, id: nat)
    requires Sane(m) && id in m.table
    ensures var f, l := Free(m, id), m.table[id];
            && f.headPos == m.headPos && f.reserve == m.reserve && ValidLoc(m, l) && |f.segs| == |m.segs|
            && forall i: nat :: i < |m.segs| ==>
                 f.segs[i].used == if i == l.seg then Sub64(m.segs[i].used, Size(At(m, l))) else m.segs[i].used
  {
  }

  lemma NothingToStore(m: State, data: seq<byte>)
    ensures data == [] ==> CanStore(m, data)
  {
  }

  lemma PallocDoes(m: State, id: nat, data: seq<byte>)
    requires Inv(m) && id !in m.table && data != []
    ensures InRange(m) && TableOk(m) && id !in Objects(m)
    ensures var r := New(m, id, data);
            && (Inv(r.s) <==> CanStore(m, data))
            && (Inv(r.s) ==>
                  && TableOk(r.s) && (r.ok <==> HasRoom(m, ENTRY_HEADER + |data|))
                  && Objects(r.s) == if r.ok then Objects(m)[id := data] else Objects(m))
  {
    InvTable(m);
    InvIsSane(m);
    ObjectsKeys(m, id);
    hide Inv, HasRoom, Fits, Objects, New, TableOk, Sane;
    if CanStore(m, data) {
      NewKeeps(m, id, data);
      InvTable(New(m, id, data).s);
    } else {
      PallocExact(m, id, data);
    }
  }

  lemma UpdateDoes(m: State, id: nat, data: seq<byte>)
    requires Inv(m)
    ensures Sane(m) && TableOk(m)
    ensures var r := Update(m, id, data);
            && (Inv(r.s) <==> Allowed(m, UpdateData(id, data)))
            && (Inv(r.s) ==>
                  && TableOk(r.s) && (r.ok <==> data != [] && id in Objects(m) && HasRoom(m, ENTRY_HEADER + |data|))
                  && Objects(r.s) == if r.ok then Objects(m)[id := data] else Objects(m))
    ensures data == [] || id !in m.table ==> Update(m, id, data) == Result(m, false)
  {
    InvTable(m);
    InvIsSane(m);
    ObjectsKeys(m, id);
    hide Inv, HasRoom, Allowed, Objects, Update, TableOk, Sane;
    StepExact(m, UpdateData(id, data));
    if data == [] || id !in m.table {
      NothingToUpdate(m, id, data);
    }
    if Allowed(m, UpdateData(id, data)) {
      StepRefines(m, UpdateData(id, data));
    }
  }

  lemma PutDoes(m: State, id: nat, data: seq<byte>)
    requires Inv(m)
    ensures Sane(m) && TableOk(m)
    ensures var r := Put(m, id, data);
            && (Inv(r.s) <==> Allowed(m, PallocWithId(id, data)))
            && (Inv(r.s) ==>
                  && TableOk(r.s) && (r.ok <==> data != [] && HasRoom(m, ENTRY_HEADER + |data|))
                  && Objects(r.s) == if r.ok then Objects(m)[id := data] else Objects(m))
    ensures data == [] ==> Put(m, id, data) == Result(m, false)
    ensures data != [] && id in m.table ==> Put(m, id, data) == Update(m, id, data)
    ensures data != [] && id !in m.table ==> Put(m, id, data) == Publish(m, Entry(id, 1, data, false))
  {
    InvTable(m);
    InvIsSane(m);
    hide Inv, HasRoom, Allowed, Objects, Update, TableOk, Sane, Publish;
    StepExact(m, PallocWithId(id, data));
    if Allowed(m, PallocWithId(id, data)) {
      StepRefines(m, PallocWithId(id, data));
    }
  }

  lemma ObjectsKeys(m: State, id: nat)
    requires TableOk(m)
    ensures id in Objects(m) <==> id in m.table
  {
  }

  lemma NewIs(m: State, id: nat, data: seq<byte>)
    requires InRange(m) && data != []
    ensures New(m, id, data) == Publish(m, Entry(id, 1, data, false))
  {
  }

  lemma NothingMet(m: State)
    requires Recovery.Readable(m)
    ensures OffsetTable(map[], m.(table := Recovery.MeetAll(m, Recovery.ListLocs(m, m.used, 0))))
  {
  }

  /** Element `n` of the used list, and the link to the next. */
  lemma UsedFrom(nx: seq<nat>, e: Ends, m: State, n: nat)
    requires Chained(nx, e, m) && n <= |m.used|
    ensures var l := Ref(m.used, n);
            && (l == 0 <==> n == |m.used|)
            && (n < |m.used| ==> SegmentOf(l) == m.used[n] < |nx| && nx[m.used[n]] == Ref(m.used, n + 1))
    ensures n == 0 ==> e.used == Ref(m.used, n)
  {
    if n < |m.used| {
      SegmentOfAddr(m.used[n]);
    }
  }

  /** The five lists have as many elements as there are segments. */
  lemma CountsAll(nx: seq<nat>, e: Ends, m: State)
    requires Chained(nx, e, m)
    ensures Linked(nx, e.head, e.head, if m.head.Some? then [m.head.value] else [])
    ensures |m.segs| == |m.free| + |m.used| + |m.cleaner| + |m.emergency| + if m.head.Some? then 1 else 0
  {
  }

  lemma FormattedIs(ends: seq<End>, bs: seq<seq<byte>>)
    requires 2 <= |ends| <= |bs| && (forall i :: 0 <= i < |bs| ==> |bs[i]| == DATA_SIZE) && ends == EndsOf(bs, |ends|)
    ensures var m := Formatted(ends);
            && |m.segs| == |ends| && (forall i: nat :: i < |ends| ==> m.segs[i].used == 0)
            && Holding(m.segs, bs) && Whole(m.segs)
            && m.headPos == 0 && m.reserve == RESERVE && m.phase.Start?
            && OffsetTable(map[], m) && CleanerAt(0, 0, 0, 0, 0, m)
  {
    var m := Formatted(ends);
    hide Described, EndOf;
    forall i | 0 <= i < |ends|
      ensures Described(bs[i], m.segs[i].log, m.segs[i].behind)
    {
      UnwrittenDescribed(bs[i]);
    }
    HoldingWhole(m.segs, bs);
  }

  /** An area that nothing was written to. */
  lemma UnwrittenDescribed(b: seq<byte>)
    requires |b| == DATA_SIZE
    ensures Described(b, [], Behind([], EndOf(b)))
  {
    BytesNone();
    ZerosEmpty(b);
    var none: seq<Entry> := [];
    assert none + none == none;
  }

  /** A mapping that is all zero, as that of a new file is. */
  lemma ZerosFresh(bs: seq<seq<byte>>, n: nat)
    requires 2 <= n <= |bs| && forall i :: 0 <= i < |bs| ==> |bs[i]| == DATA_SIZE && ZerosFrom(bs[i], 0)
    ensures Formatted(EndsOf(bs, n)) == Fresh(n)
  {
    assert EndsOf(bs, n) == seq(n, _ => Zeros);
  }

  lemma FormattedChained(nx: seq<nat>, ends: seq<End>, e: Ends)
    requires 4 <= |ends| <= |nx| && nx[0] == 0 && nx[|ends| - 1] == 0
    requires forall j: nat :: 1 <= j < |ends| - 1 ==> nx[j] == if j + 1 < |ends| - 1 then SegmentAddr(j + 1) else 0
    requires var n := |ends|; e == Ends(SegmentAddr(0), SegmentAddr(1), SegmentAddr(n - 2), 0, 0, 0, 0,
                                       SegmentAddr(n - 1), SegmentAddr(n - 1))
    ensures Chained(nx, e, Formatted(ends))
  {
    FormattedInv(ends);
  }

  lemma StartIsNewTarget(s: State)
    requires Inv(s) && s.phase.Start?
    ensures Sane(s) && NewTarget(s).ok && Clean(s) == Continue(NewTarget(s).s.(phase := Walk(None))) && Inv(Clean(s).s)
  {
    CleanKeeps(s);
  }

  lemma KeptByStart(s: State, m: State, links: seq<nat>, ends: Ends, t: map<nat, nat>, a: nat, b: nat, c: nat, d: nat,
      n: nat)
    requires Chained(links, ends, m) && OffsetTable(t, s) && CleanerAt(a, b, c, d, n, s)
    requires NewTarget(s) == Result(m, true)
    ensures var w := m.(phase := Walk(None));
            w.segs == s.segs && Chained(links, ends, w) && OffsetTable(t, w)
                && CleanerAt(SegmentAddr(m.target), 0, 0, d, n, w)
  {
    ChainedSame(links, ends, m, m.(phase := Walk(None)));
    OffsetsSame(t, s, m.(phase := Walk(None)));
  }

  lemma StartIs(s: State)
    requires Inv(s) && s.phase == Walk(None)
    ensures Sane(s) && Clean(s) == Continue(s.(phase := Walk(if s.used == [] then None else Some(s.used[0]))))
            && Inv(Clean(s).s)
  {
    CleanKeeps(s);
  }

  lemma SkipSegmentIs(s: State, c: nat)
    requires Inv(s) && s.phase == Walk(Some(c)) && c < |s.segs| && !WorthCleaning(s, c)
    ensures Sane(s) && c in s.used && Clean(s) == Continue(s.(phase := Walk(After(s.used, c)))) && Inv(Clean(s).s)
  {
    CleanKeeps(s);
  }

  lemma KeptByWalkOn(s: State, at: Option<nat>, to: nat, links: seq<nat>, ends: Ends, t: map<nat, nat>, a: nat, b: nat,
      d: nat, x: nat, n: nat)
    requires Chained(links, ends, s) && OffsetTable(t, s) && CleanerAt(a, b, d, x, n, s) && s.phase.Walk?
    requires to == match at { case Some(y) => SegmentAddr(y) case None => 0 }
    ensures var m := s.(phase := Walk(at));
            Chained(links, ends, m) && OffsetTable(t, m) && CleanerAt(a, b, to, x, n, m)
  {
    ChainedSame(links, ends, s, s.(phase := Walk(at)));
    OffsetsSame(t, s, s.(phase := Walk(at)));
  }

  lemma WalkerIs(a: nat, b: nat, c: nat, d: nat, n: nat, m: State, i: nat) returns (x: nat)
    requires CleanerAt(a, b, c, d, n, m) && m.phase.Walk? && c != 0 && Walking(m, i) && Inv(m)
    ensures m.phase == Walk(Some(x)) && SegmentOf(c) == x < |m.segs| && i < |m.used|
  {
    x := m.phase.at.value;
    WalkerAt(a, b, c, d, n, m, x);
    assert x in m.used;
  }

  lemma WalkingBound(m: State, i: nat)
    requires Walking(m, i)
    ensures i <= |m.used|
  {
  }

  lemma SkippedNearer(s: State, i: nat, t: State, c: nat)
    requires Inv(s) && Walking(s, i) && i < |s.used| && s.phase == Walk(Some(c)) && c < |s.segs| && !WorthCleaning(s, c)
    requires Sane(s) && Clean(s) == Continue(t)
    ensures Walking(t, i + 1) && i + 1 <= |t.used| && ToClean(t, i + 1) == ToClean(s, i) && |t.used| == |s.used|
  {
    SkipWalks(s, i, t);
  }

  lemma PassStarts(s: State, t: State)
    requires Inv(s) && s.phase == Walk(None) && Clear(s) && Sane(s) && Clean(s) == Continue(t)
    ensures Walking(t, 0) && t == CleanerRun(s, 1)
  {
    BeginWalk(s, t);
    NoScan(s);
    CleanerRunMore(s, 0);
  }

  /** Only a scan can come to harm. */
  lemma NoScan(s: State)
    requires Inv(s) && !s.phase.Scan?
    ensures TableOk(s) && ScanSafe(s)
  {
  }

  lemma SparseIsSafe(s: State, c: nat)
    requires Inv(s) && Clear(s) && s.phase == Walk(Some(c)) && c < |s.segs|
    ensures TableOk(s) && (s.segs[c].used < HALF_SEGMENT ==> SafeBehind(s, s.segs[c]))
  {
    assert c in s.used;
  }

  lemma PassOver(s: State, n: nat, m: State, i: nat, a: nat, b: nat, c: nat, d: nat, x: nat)
    requires Inv(s) && m == CleanerRun(s, n) && Inv(m) && m.phase.Walk? && Walking(m, i) && CleanerAt(a, b, c, d, x, m)
             && c == 0
    ensures m.phase == Walk(None) && TableOk(s) && Objects(m) == Objects(s)
    ensures forall x :: x in m.used ==> x < |m.segs| && SEGMENT_SIZE <= 2 * Live(m, x) && Live(m, x) == m.segs[x].used
  {
    assert WalkOver(m);
    WalkedHalfLive(m);
  }

  /** Entering a segment is a step of the pass. */
  lemma EnterPasses(s: State, i: nat, c: nat, t: State)
    requires Inv(s) && Walking(s, i) && i < |s.used| && s.phase == Walk(Some(c)) && Inv(t)
    requires Sane(s) && Clean(s) == Continue(t) && t == s.(phase := t.phase) && c in s.used
    requires t.phase == Scan(c, 0) || t.phase == Retire(c, After(t.used, c))
    ensures Walking(t, i) && ToClean(t, i) == ToClean(s, i) && t == CleanerRun(s, 1)
  {
    NoScan(s);
    CleanerRunMore(s, 0);
    assert s.used[i] == c;
    EnterWalks(s, i, t);
  }

  lemma ScanBegins(s: State, m: State, c: nat)
    requires Inv(m) && m.phase == Scan(c, 0) && m == s.(phase := m.phase)
    requires TableOk(s) && c < |s.segs| && SafeBehind(s, s.segs[c])
    ensures TableOk(m) && SafeBehind(m, m.segs[c])
  {
    InvTable(m);
    hide Inv, SafeBehind;
    SafeBehindSame(s, m, s.segs[c]);
  }

  lemma SafeEnds(m: State, c: nat)
    requires TableOk(m) && c < |m.segs| && SafeBehind(m, m.segs[c])
    ensures EndKnown(m.segs[c])
  {
  }

  lemma LeavePasses(t: State, i: nat, c: nat, a: nat, u: State, v: State)
    requires Inv(t) && Walking(t, i) && u == CleanerRun(t, a) && Inv(u) && StillWalking(t, i, u)
    requires c < |u.segs| && u.phase == Scan(c, |Seen(u.segs[c])|) && EndKnown(u.segs[c]) && c in u.used
    requires Sane(u) && Clean(u) == Continue(v) && v == u.(phase := v.phase) && v.phase == Retire(c, After(v.used, c))
    ensures v == CleanerRun(t, a + 1) && StillWalking(t, i, v)
  {
    EndIsSafe(u, c);
    hide Inv, Clean, Sane, CleanerRun, ScanSafe;
    CleanerRunMore(t, a);
    assert i < |u.used| && u.used[i] == c;
    EnterWalks(u, i, v);
  }

  lemma EndIsSafe(u: State, c: nat)
    requires Inv(u) && c < |u.segs| && u.phase == Scan(c, |Seen(u.segs[c])|) && EndKnown(u.segs[c])
    ensures TableOk(u) && ScanSafe(u)
  {
  }

  lemma RecyclePasses(s: State, t: State, i: nat, c: nat, a: nat, v: State, w: State) returns (n: nat)
    requires Inv(s) && Inv(t) && t == CleanerRun(s, 1) && v == CleanerRun(t, a) && Inv(v)
    requires Walking(s, i) && Walking(t, i) && ToClean(t, i) == ToClean(s, i) && StillWalking(t, i, v)
    requires v.phase.Retire? && Sane(v) && Clean(v) == Continue(w)
    ensures w == CleanerRun(s, n) && Walking(w, i) && ToClean(w, i) < ToClean(s, i)
  {
    NoScan(v);
    hide Inv, Clean, Sane, CleanerRun, Walking, ToClean, ScanSafe;
    CleanerRunMore(t, a);
    CleanerRunJoin(s, 1, a + 1);
    n := a + 2;
    RetireIs(v, i, w);
    RetireWalks(v, i, w);
  }

  lemma WalkerAt(a: nat, b: nat, c: nat, d: nat, n: nat, m: State, x: nat)
    requires CleanerAt(a, b, c, d, n, m) && m.phase == Walk(Some(x))
    ensures SegmentOf(c) == x && c == SegmentAddr(x)
  {
    SegmentOfAddr(x);
  }

  lemma CleanerRetires(a: nat, b: nat, c: nat, d: nat, n: nat, m: State)
    requires CleanerAt(a, b, c, d, n, m) && m.phase.Retire?
    ensures SegmentOf(c) == m.phase.seg
  {
    SegmentOfAddr(m.phase.seg);
  }

  lemma EnterIs(s: State, c: nat)
    requires Inv(s) && s.phase == Walk(Some(c)) && c < |s.segs| && WorthCleaning(s, c)
    ensures Sane(s) && c in s.used
    ensures s.segs[c].used != 0 ==> Clean(s) == Continue(s.(phase := Scan(c, 0)))
    ensures s.segs[c].used == 0 ==> Clean(s) == Continue(s.(phase := Retire(c, After(s.used, c))))
    ensures Inv(Clean(s).s)
  {
    CleanKeeps(s);
  }

  lemma LeaveIs(s: State, c: nat)
    requires Inv(s) && c < |s.segs| && s.phase == Scan(c, |Seen(s.segs[c])|) && EndKnown(s.segs[c])
    ensures Sane(s) && c in s.used && Clean(s) == Continue(s.(phase := Retire(c, After(s.used, c)))) && Inv(Clean(s).s)
  {
    CleanKeeps(s);
  }

  lemma RecycleIs(s: State, c: nat)
    requires Inv(s) && s.phase.Retire? && s.phase.seg == c
    ensures Sane(s) && c in s.used && c < |s.segs| && Clean(s) == Continue(Recycle(s, c).(phase := Walk(s.phase.next)))
    ensures Recycle(s, c).phase == s.phase
    ensures Inv(Clean(s).s)
    ensures forall x :: x in s.table ==> s.table[x].seg != c
  {
    CleanKeeps(s);
  }

  lemma KeptByPhase(s: State, m: State, links: seq<nat>, ends: Ends, t: map<nat, nat>, a: nat, b: nat, d: nat, x: nat,
      x': nat, n: nat, n': nat, c: nat)
    requires Chained(links, ends, s) && OffsetTable(t, s) && CleanerAt(a, b, d, x, n, s)
    requires d == SegmentAddr(c) && c < |s.segs| && !s.phase.Start? && m == s.(phase := m.phase)
    requires || (m.phase == Scan(c, 0) && x' == 0)
             || (m.phase.Retire? && m.phase.seg == c
                 && n' == match m.phase.next { case Some(x) => SegmentAddr(x) case None => 0 })
    ensures Chained(links, ends, m) && OffsetTable(t, m) && CleanerAt(a, b, d, x', n', m)
  {
    ChainedSame(links, ends, s, m);
    OffsetsSame(t, s, m);
  }

  lemma KeptByWalk(s: State, next: Option<nat>, links: seq<nat>, ends: Ends, t: map<nat, nat>, a: nat, b: nat, d: nat,
      x: nat, n: nat)
    requires Chained(links, ends, s) && OffsetTable(t, s) && CleanerAt(a, b, d, x, n, s) && s.phase.Retire?
             && s.phase.next == next
    ensures var m := s.(phase := Walk(next));
            Chained(links, ends, m) && OffsetTable(t, m) && CleanerAt(a, b, n, x, n, m)
  {
    ChainedSame(links, ends, s, s.(phase := Walk(next)));
    OffsetsSame(t, s, s.(phase := Walk(next)));
  }

  lemma ScanStarts(s: State, i: nat)
    requires Inv(s)
    ensures CleanerRun(s, 0) == s && StillWalking(s, i, s)
  {
  }

  /** One more step of the cleaner, while it scans. */
  lemma ScanStep(s: State, n: nat, i: nat, t: State, u: State) returns (n': nat)
    requires Inv(s) && t == CleanerRun(s, n) && Inv(t) && Sane(t) && Clean(t) == Continue(u) && StillWalking(s, i, t)
    requires t.phase.Scan? && t.phase.seg < |t.segs| && t.phase.k < |Seen(t.segs[t.phase.seg])|
    requires TableOk(t) && ScanSafe(t) && SafeBehind(t, t.segs[t.phase.seg])
    ensures n' == n + 1 && u == CleanerRun(s, n') && Inv(u) && StillWalking(s, i, u)
    ensures TableOk(u) && SafeBehind(u, t.segs[t.phase.seg])
  {
    hide Inv, Walking, Clean, ToClean, CleanerRun, ScanSafe, SafeBehind, TableOk, Current, Objects;
    CleanKeeps(t);
    CleanerRunMore(s, n);
    n' := n + 1;
    InvTable(u);
    SafeBehindSame(t, u, t.segs[t.phase.seg]);
    if Walking(t, i) {
      ScanWalks(t, i, u);
    }
  }

  /** What the step comes to when the entry is copied ... */
  lemma RoomForCopy(s: State, c: nat, k: nat, e: Entry) returns (t: State)
    requires Inv(s) && s.phase == Scan(c, k) && k < |s.segs[c].log| && e == s.segs[c].log[k] && !e.dead
    requires e.id in s.table && s.table[e.id] == Loc(c, k)
    ensures Sane(s) && s.target in s.cleaner && TargetRoom(s, Size(e)) == Result(t, true)
    ensures t.target < |t.segs| && t.target != c && t.targetPos == Bytes(t.segs[t.target].log)
    ensures t.phase == s.phase && t.segs == s.segs && t.targetPos + Size(e) <= DATA_SIZE
    ensures Clean(s) == Continue(CopyToTarget(t, e).(phase := Scan(c, k + 1)))
    ensures var f := CopyToTarget(t, e); c < |f.segs| == |s.segs| && f.segs[c] == s.segs[c] && f.phase == s.phase
  {
    t := TargetReady(s, c, k, e);
    hide Inv, Sane, Shape, Provided, TargetRoom, Clean;
    CleanIsCopy(s, c, k, e, t);
  }

  lemma CleanIsCopy(s: State, c: nat, k: nat, e: Entry, t: State)
    requires Sane(s) && s.phase == Scan(c, k) && k < |s.segs[c].log| && e == s.segs[c].log[k] && !e.dead
    requires e.id in s.table && s.table[e.id] == Loc(c, k) && s.target in s.cleaner
    requires TargetRoom(s, Size(e)) == Result(t, true) && t.target < |t.segs| && SameButTarget(s, t)
    ensures Clean(s) == Continue(CopyToTarget(t, e).(phase := Scan(c, k + 1)))
  {
    var q := TargetRoom(s.(phase := Scan(c, k + 1)), Size(e));
    assert q == Result(t.(phase := Scan(c, k + 1)), true);
  }

  /** ... and when it is not. */
  lemma SkipIs(s: State, c: nat, k: nat, e: Entry)
    requires Sane(s) && TableOk(s) && s.phase == Scan(c, k) && k < |Seen(s.segs[c])| && e == Seen(s.segs[c])[k]
             && Harmless(s, e)
    ensures Clean(s) == Continue(s.(phase := Scan(c, k + 1)))
  {
    hide TargetRoom;
  }

  lemma CleanerTarget(a: nat, b: nat, c: nat, d: nat, n: nat, m: State)
    requires CleanerAt(a, b, c, d, n, m) && !m.phase.Start?
    ensures a == SegmentAddr(m.target) && SegmentOf(a) == m.target && b == m.targetPos
  {
    SegmentOfAddr(m.target);
  }

  lemma CleanerScans(a: nat, b: nat, c: nat, d: nat, n: nat, m: State)
    requires CleanerAt(a, b, c, d, n, m) && m.phase.Scan?
    ensures c == SegmentAddr(m.phase.seg) && SegmentOf(c) == m.phase.seg < |m.segs|
    ensures m.phase.k <= |Seen(m.segs[m.phase.seg])| && d == Pos(Seen(m.segs[m.phase.seg]), m.phase.k)
  {
    SegmentOfAddr(m.phase.seg);
  }

  lemma KeptByTarget(s: State, size: nat, m: State, t: map<nat, nat>, a: nat, b: nat, c: nat, d: nat, n: nat)
    requires s.target in s.cleaner && OffsetTable(t, s) && CleanerAt(a, b, c, d, n, s)
    requires m == NewTarget(CleanerToUsed(s, s.target)).s && NewTarget(CleanerToUsed(s, s.target)).ok
    ensures OffsetTable(t, m) && m.segs == s.segs
    ensures CleanerAt(SegmentAddr(m.target), 0, c, d, n, m)
  {
    OffsetsSame(t, s, m);
  }

  lemma KeptByCopy(s: State, e: Entry, offset: nat, links: seq<nat>, ends: Ends, t: map<nat, nat>, a: nat, b: nat,
      c: nat, d: nat, n: nat)
    returns (m: State)
    requires !s.phase.Start? && s.target < |s.segs| && s.targetPos == Bytes(s.segs[s.target].log)
    requires s.phase.Scan? ==> s.phase.seg != s.target
    requires Chained(links, ends, s) && OffsetTable(t, s) && CleanerAt(a, b, c, d, n, s)
    requires offset == a + SEGMENT_HEADER + b
    ensures m == CopyToTarget(s, e) && m.segs == s.segs[s.target := Written(s.segs[s.target], e)]
    ensures m.headPos == s.headPos && m.reserve == s.reserve
    ensures forall i: nat :: i < |s.segs| ==> m.segs[i].used == s.segs[i].used + if i == s.target then Size(e) else 0
    ensures Chained(links, ends, m) && OffsetTable(t[e.id := offset], m) && CleanerAt(a, b + Size(e), c, d, n, m)
  {
    hide Chained, OffsetTable;
    m := CopyToTarget(s, e);
    var h, w := s.target, WriteEntry(s, s.target, e);
    ChainedSame(links, ends, s, m);
    OffsetsAfterWrite(t, s, h, e);
    OffsetsAfterPoint(t, w, e.id, Loc(h, |s.segs[h].log|));
    PosAppend(s.segs[h].log, e, |s.segs[h].log|);
    PosEnd(s.segs[h].log);
    OffsetsSame(t[e.id := offset], w.(table := w.table[e.id := Loc(h, |s.segs[h].log|)]), m);
    CleanerAfterWrite(a, b, c, d, n, s, h, e);
  }

  lemma KeptByScan(s: State, c: nat, k: nat, e: Entry, links: seq<nat>, ends: Ends, t: map<nat, nat>, a: nat, b: nat,
      d: nat, n: nat)
    requires c < |s.segs| && k < |Seen(s.segs[c])| && Seen(s.segs[c])[k] == e && s.phase == Scan(c, k)
    requires Chained(links, ends, s) && OffsetTable(t, s) && CleanerAt(a, b, d, Pos(Seen(s.segs[c]), k), n, s)
    ensures var m := s.(phase := Scan(c, k + 1));
            Chained(links, ends, m) && OffsetTable(t, m) && CleanerAt(a, b, d, Pos(Seen(s.segs[c]), k) + Size(e), n, m)
  {
    ChainedSame(links, ends, s, s.(phase := Scan(c, k + 1)));
    OffsetsSame(t, s, s.(phase := Scan(c, k + 1)));
    PosStep(Seen(s.segs[c]), k);
  }

  lemma KeptByRecycle(s: State, c: nat, n: State, links: seq<nat>, ends: Ends, t: map<nat, nat>, a: nat, b: nat, d: nat,
      x: nat, y: nat)
    returns (m: State)
    requires c in s.used && c < |s.segs| && (forall x :: x in s.table ==> s.table[x].seg != c)
             && !(s.phase.Scan? && s.phase.seg == c)
    requires n == if s.reserve < RESERVE
                  then s.(used := Remove(s.used, c), emergency := s.emergency + [c], reserve := s.reserve + 1)
                  else s.(used := Remove(s.used, c), free := s.free + [c])
    requires Chained(links, ends, n) && OffsetTable(t, s) && CleanerAt(a, b, d, x, y, s)
    ensures m == Recycle(s, c) && m == n.(segs := n.segs[c := Emptied(s.segs[c])])
    ensures Chained(links, ends, m) && OffsetTable(t, m) && CleanerAt(a, b, d, x, y, m)
  {
    hide Chained, OffsetTable, CleanerAt;
    m := Recycle(s, c);
    ChainedSame(links, ends, n, m);
    OffsetsAfterRecycle(t, s, m, c);
    CleanerSame(a, b, d, x, y, s, m);
  }

  lemma OffsetsAfterRecycle(t: map<nat, nat>, m: State, m': State, c: nat)
    requires OffsetTable(t, m) && m'.table == m.table && c < |m.segs| && m'.segs == m.segs[c := Emptied(m.segs[c])]
    requires forall x :: x in m.table ==> m.table[x].seg != c
    ensures OffsetTable(t, m')
  {
  }

  lemma UsedToReserveDone(nx: seq<nat>, e: Ends, m: State, i: nat, curr: nat, prev: nat)
      returns (nx': seq<nat>, e': Ends, m': State)
    requires Chained(nx, e, m) && SearchAt(m.used, i, curr, prev)
    ensures m.used[i] < |nx| && (i > 0 ==> m.used[i - 1] < |nx|)
            && (m.emergency != [] ==> m.emergency[|m.emergency| - 1] < |nx|)
    ensures m.used[i] in m.used && m' == m.(used := Remove(m.used, m.used[i]), emergency := m.emergency + [m.used[i]])
    ensures nx' == var n1 := if m.emergency == [] then nx else nx[m.emergency[|m.emergency| - 1] := curr];
                   (if i == 0 then n1 else n1[m.used[i - 1] := n1[m.used[i]]])[m.used[i] := 0]
    ensures e' == e.(emergency := if e.lastEmergency == 0 then curr else e.emergency, lastEmergency := curr,
                     used := if i == 0 then nx[m.used[i]] else e.used, lastUsed := LastWithout(e.lastUsed, m.used, i))
    ensures Chained(nx', e', m')
    ensures e.lastEmergency == 0 <==> m.emergency == []
    ensures m.emergency != [] ==> SegmentOf(e.lastEmergency) == m.emergency[|m.emergency| - 1] != m.used[i]
    ensures (SegmentOf(e.used) == m.used[i] <==> i == 0) && (SegmentOf(e.lastUsed) == m.used[i] <==> i + 1 == |m.used|)
    ensures i > 0 ==> SegmentOf(SegmentAddr(m.used[i - 1])) == m.used[i - 1]
    ensures |m.used| == 1 ==> nx[m.used[i]] == 0
  {
    hide Chained, Linked, MovedLinks, SegmentOf, SegmentAddr, InRange, LastWithout;
    Fields(nx, e, m);
    ChainedLists(nx, e, m);
    SearchEnds(nx, e.used, e.lastUsed, m.used, i);
    UsedToEmergencyChained(nx, e, m, i);
    MovedWrites(nx, m.used, i, m.emergency);
    nx', m' := MovedLinks(nx, m.used, i, m.emergency),
        m.(used := Remove(m.used, m.used[i]), emergency := m.emergency + [m.used[i]]);
    e' := e.(emergency := if e.lastEmergency == 0 then curr else e.emergency, lastEmergency := curr,
             used := if i == 0 then nx[m.used[i]] else e.used, lastUsed := LastWithout(e.lastUsed, m.used, i));
  }

  lemma UsedToFreeDone(nx: seq<nat>, e: Ends, m: State, i: nat, curr: nat, prev: nat)
      returns (nx': seq<nat>, e': Ends, m': State)
    requires Chained(nx, e, m) && SearchAt(m.used, i, curr, prev)
    ensures m.used[i] < |nx| && (i > 0 ==> m.used[i - 1] < |nx|) && (m.free != [] ==> m.free[|m.free| - 1] < |nx|)
    ensures m.used[i] in m.used && m' == m.(used := Remove(m.used, m.used[i]), free := m.free + [m.used[i]])
    ensures nx' == var n1 := if m.free == [] then nx else nx[m.free[|m.free| - 1] := curr];
                   (if i == 0 then n1 else n1[m.used[i - 1] := n1[m.used[i]]])[m.used[i] := 0]
    ensures e' == e.(free := if e.lastFree == 0 then curr else e.free, lastFree := curr,
                     used := if i == 0 then nx[m.used[i]] else e.used, lastUsed := LastWithout(e.lastUsed, m.used, i))
    ensures Chained(nx', e', m')
    ensures e.lastFree == 0 <==> m.free == []
    ensures m.free != [] ==> SegmentOf(e.lastFree) == m.free[|m.free| - 1] != m.used[i]
    ensures (SegmentOf(e.used) == m.used[i] <==> i == 0) && (SegmentOf(e.lastUsed) == m.used[i] <==> i + 1 == |m.used|)
    ensures i > 0 ==> SegmentOf(SegmentAddr(m.used[i - 1])) == m.used[i - 1]
    ensures |m.used| == 1 ==> nx[m.used[i]] == 0
  {
    hide Chained, Linked, MovedLinks, SegmentOf, SegmentAddr, InRange, LastWithout;
    Fields(nx, e, m);
    ChainedLists(nx, e, m);
    SearchEnds(nx, e.used, e.lastUsed, m.used, i);
    UsedToFreeChained(nx, e, m, i);
    MovedWrites(nx, m.used, i, m.free);
    nx', m' := MovedLinks(nx, m.used, i, m.free), m.(used := Remove(m.used, m.used[i]), free := m.free + [m.used[i]]);
    e' := e.(free := if e.lastFree == 0 then curr else e.free, lastFree := curr,
             used := if i == 0 then nx[m.used[i]] else e.used, lastUsed := LastWithout(e.lastUsed, m.used, i));
  }

  /** The links, the ends and the state there will be. */
  lemma CleanerToUsedDone(nx: seq<nat>, e: Ends, m: State, i: nat, curr: nat, prev: nat)
      returns (nx': seq<nat>, e': Ends, m': State)
    requires Chained(nx, e, m) && SearchAt(m.cleaner, i, curr, prev)
    ensures m.cleaner[i] < |nx| && (i > 0 ==> m.cleaner[i - 1] < |nx|) && (m.used != [] ==> m.used[|m.used| - 1] < |nx|)
    ensures m.cleaner[i] in m.cleaner && m' == CleanerToUsed(m, m.cleaner[i]) && InRange(m')
    ensures nx' == var n1 := if m.used == [] then nx else nx[m.used[|m.used| - 1] := curr];
                   (if i == 0 then n1 else n1[m.cleaner[i - 1] := n1[m.cleaner[i]]])[m.cleaner[i] := 0]
    ensures e' == e.(used := if e.lastUsed == 0 then curr else e.used, lastUsed := curr,
                     cleaner := if i == 0 then nx[m.cleaner[i]]
                         else e.cleaner, lastCleaner := LastWithout(e.lastCleaner, m.cleaner, i))
    ensures Chained(nx', e', m')
    ensures e.lastUsed == 0 <==> m.used == []
    ensures m.used != [] ==> SegmentOf(e.lastUsed) == m.used[|m.used| - 1] != m.cleaner[i]
    ensures (SegmentOf(e.cleaner) == m.cleaner[i] <==> i == 0)
            && (SegmentOf(e.lastCleaner) == m.cleaner[i] <==> i + 1 == |m.cleaner|)
    ensures i > 0 ==> SegmentOf(SegmentAddr(m.cleaner[i - 1])) == m.cleaner[i - 1]
    ensures |m.cleaner| == 1 ==> nx[m.cleaner[i]] == 0
  {
    hide Chained, Linked, MovedLinks, SegmentOf, SegmentAddr, InRange, LastWithout;
    Fields(nx, e, m);
    ChainedLists(nx, e, m);
    SearchEnds(nx, e.cleaner, e.lastCleaner, m.cleaner, i);
    CleanerToUsedChained(nx, e, m, i);
    MovedWrites(nx, m.cleaner, i, m.used);
    nx', m' := MovedLinks(nx, m.cleaner, i, m.used), CleanerToUsed(m, m.cleaner[i]);
    e' := e.(used := if e.lastUsed == 0 then curr else e.used, lastUsed := curr,
             cleaner := if i == 0 then nx[m.cleaner[i]]
                 else e.cleaner, lastCleaner := LastWithout(e.lastCleaner, m.cleaner, i));
    ChainedInRange(nx', e', m');
  }

  lemma ChainedInRange(nx: seq<nat>, e: Ends, m: State)
    requires Chained(nx, e, m)
    ensures InRange(m)
  {
  }

  lemma OffsetsOk(t: map<nat, nat>, m: State)
    requires OffsetTable(t, m)
    ensures TableOk(m)
  {
  }

  lemma KeptByFree(s: State, id: nat, links: seq<nat>, ends: Ends, t: map<nat, nat>, a: nat, b: nat, c: nat, x: nat,
      n: nat)
    requires Inv(s) && Sane(s) && id in s.table
    requires Chained(links, ends, s) && OffsetTable(t, s) && CleanerAt(a, b, c, x, n, s)
    ensures var f := Free(s, id);
            && Chained(links, ends, f) && OffsetTable(t - {id}, f) && CleanerAt(a, b, c, x, n, f)
  {
    var f := Free(s, id);
    FreeIsFreed(s, id);
    FreedLocated(s, f, id);
    ChainedSame(links, ends, s, f);
    OffsetsAfterFree(t, s, f, id);
    CleanerAfterFree(a, b, c, x, n, s, f, id);
  }

  /** As long as the candidate is not usable, the goal is still ahead. */
  lemma NextCandidate(table: map<nat, nat>, from: nat, d: nat, goal: nat)
    requires from < TWO_64 && Usable(table, goal) && d <= Distance(from, goal) && !Usable(table, Candidate(from, d))
    ensures d + 1 <= Distance(from, goal) && Candidate(from, d + 1) == (Candidate(from, d) + 1) % TWO_64
  {
    CandidateDistance(from, goal);
    CandidateStep(from, d);
  }

  lemma InvParts(m: State)
    requires Inv(m)
    ensures Shape(m) && Sized(m) && Sane(m) && InRange(m)
  {
    InvIsSane(m);
  }

  lemma SameKeys(t: map<nat, nat>, m: State)
    requires OffsetTable(t, m)
    ensures t.Keys == m.table.Keys
  {
  }

  lemma KeptByDiscount(s: State, id: nat, d: State, links: seq<nat>, ends: Ends, t: map<nat, nat>, a: nat, b: nat,
      c: nat, x: nat, n: nat)
    requires Inv(s) && id in s.table && d == Discount(s, s.table[id])
    requires Chained(links, ends, s) && OffsetTable(t, s) && CleanerAt(a, b, c, x, n, s)
    ensures Chained(links, ends, d) && OffsetTable(t, d) && CleanerAt(a, b, c, x, n, d)
    ensures Shape(d) && Sized(d)
  {
    DiscountNoUnderflow(s, id);
    DiscountedShape(s, d, id);
    ChainedSame(links, ends, s, d);
    OffsetsAfterDiscount(t, s, s.table[id]);
    CleanerSame(a, b, c, x, n, s, d);
  }

  lemma PublishIs(d: State, e: Entry)
    requires InRange(d)
    ensures var r := MakeRoom(d, Size(e));
            && Publish(d, e).ok == r.ok
            && (!r.ok ==> Publish(d, e) == r)
            && forall n, offset :: r.ok && Appended(r.s, e, n, offset) ==>
                 Publish(d, e).s == n.(table := n.table[e.id := Loc(r.s.head.value, |r.s.segs[r.s.head.value].log|)])
  {
  }

  lemma KeptByPoint(r: State, e: Entry, n: State, p: State, offset: nat, links: seq<nat>, ends: Ends, t: map<nat, nat>,
                    a: nat, b: nat, c: nat, d: nat, x: nat)
    requires Appended(r, e, n, offset)
    requires p == n.(table := n.table[e.id := Loc(r.head.value, |r.segs[r.head.value].log|)])
    requires Chained(links, ends, n) && OffsetTable(t, n) && CleanerAt(a, b, c, d, x, n)
    ensures Chained(links, ends, p) && OffsetTable(t[e.id := offset], p) && CleanerAt(a, b, c, d, x, p)
  {
    ChainedSame(links, ends, n, p);
    OffsetsAfterPoint(t, n, e.id, Loc(r.head.value, |r.segs[r.head.value].log|));
    CleanerSame(a, b, c, d, x, n, p);
  }

  lemma KeptByHead(m: State, r: State, t: map<nat, nat>, a: nat, b: nat, c: nat, d: nat, n: nat)
    requires SameButHead(m, r) && OffsetTable(t, m) && CleanerAt(a, b, c, d, n, m)
    requires m.phase.Scan? && m.phase.seg < |m.segs| ==> r.segs[m.phase.seg] == m.segs[m.phase.seg]
    ensures OffsetTable(t, r) && CleanerAt(a, b, c, d, n, r)
  {
    OffsetsSame(t, m, r);
    CleanerSame(a, b, c, d, n, m, r);
  }

  lemma KeptByWrite(r: State, h: nat, e: Entry, w: State, links: seq<nat>, ends: Ends, t: map<nat, nat>, a: nat, b: nat,
      c: nat, d: nat, n: nat)
    requires h < |r.segs| && w == WriteEntry(r, h, e).(headPos := w.headPos) && (r.phase.Scan? ==> r.phase.seg != h)
    requires Chained(links, ends, r) && OffsetTable(t, r) && CleanerAt(a, b, c, d, n, r)
    ensures Chained(links, ends, w) && OffsetTable(t, w) && CleanerAt(a, b, c, d, n, w)
  {
    ChainedSame(links, ends, r, w);
    OffsetsAfterWrite(t, r, h, e);
    OffsetsSame(t, WriteEntry(r, h, e), w);
    CleanerAfterWrite(a, b, c, d, n, r, h, e);
    CleanerSame(a, b, c, d, n, WriteEntry(r, h, e), w);
  }

  lemma HeadPosIs(m: State)
    requires Shape(m) && m.head.Some? && m.head.value < |m.segs|
    ensures m.headPos == Bytes(m.segs[m.head.value].log) && (m.phase.Scan? ==> m.phase.seg != m.head.value)
  {
  }

  /** Making room changes nothing where the cleaner is. */
  lemma ScanElsewhere(m: State, size: nat)
    requires Shape(m)
    ensures m.phase.Scan? && m.phase.seg < |m.segs| ==>
              var r := MakeRoom(m, size).s; m.phase.seg < |r.segs| && r.segs[m.phase.seg] == m.segs[m.phase.seg]
  {
    if m.phase.Scan? {
      MakeRoomElsewhere(m, size, m.phase.seg);
    }
  }

  /** `n` is `r` with `e` written behind the entries of its head, at this offset. */
  ghost predicate Appended(r: State, e: Entry, n: State, offset: nat) {
    && r.head.Some? && r.head.value < |r.segs|
    && n == WriteEntry(r, r.head.value, e).(headPos := r.headPos + Size(e))
    && offset == EntryAddr(r.head.value, n.segs[r.head.value].log, |r.segs[r.head.value].log|)
  }

  lemma HeadPosBound(m: State)
    requires Shape(m) && Sized(m)
    ensures m.head.Some? ==> m.headPos <= DATA_SIZE
  {
  }
}
