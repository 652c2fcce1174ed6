/** Offsets of segments and entries from the start of the mapping. */
module Addresses {
  import opened Layout
  import opened LogState
  import opened LogInvariant

  /** Offset of segment `i`. */
  function SegmentAddr(i: nat): (a: nat) {
    LOG_HEADER + i * SEGMENT_SIZE
  }

  /** Offset of the header of entry `k` in segment `i`, which holds `log`. */
  function EntryAddr(i: nat, log: seq<Entry>, k: nat): (a: nat)
    requires k <= |log|
  {
    SegmentAddr(i) + SEGMENT_HEADER + Pos(log, k)
  }

  /** The division by which a freed or updated entry's segment is found. */
  function SegmentOf(a: nat): nat {
    if a < LOG_HEADER then 0 else (a - LOG_HEADER) / SEGMENT_SIZE
  }

  /** Which entry begins at position `pos` of the data area: what a pointer to it refers to. */
  function IndexAt(log: seq<Entry>, pos: nat): nat
    decreases |log|
  {
    if log == [] || Bytes(log[..|log| - 1]) == pos then (if log == [] then 0 else |log| - 1)
    else IndexAt(log[..|log| - 1], pos)
  }

  lemma {:induction false} IndexAtPos(log: seq<Entry>, k: nat)
    requires k < |log|
    ensures IndexAt(log, Pos(log, k)) == k
    decreases |log|
  {
    var n := |log| - 1;
    if k < n {
      PosMonotone(log, k, n);
      assert log[..n][..k] == log[..k];
      IndexAtPos(log[..n], k);
    }
  }

  /** Dividing recovers the segment, and the remainder the position. */
  lemma AddrDivides(i: nat, log: seq<Entry>, k: nat)
    requires k < |log| && Bytes(log) <= DATA_SIZE
    ensures var a := EntryAddr(i, log, k);
            && SegmentOf(a) == i
            && (a - LOG_HEADER) % SEGMENT_SIZE == SEGMENT_HEADER + Pos(log, k)
  {
    PosMonotone(log, k, |log|);
    PosEnd(log);
    var d := SEGMENT_HEADER + Pos(log, k);
    assert EntryAddr(i, log, k) - LOG_HEADER == i * SEGMENT_SIZE + d && d < SEGMENT_SIZE;
  }

  ghost function Start(s: State, l: Loc): nat
    requires ValidLoc(s, l)
  {
    EntryAddr(l.seg, s.segs[l.seg].log, l.idx)
  }

  ghost function End(s: State, l: Loc): nat
    requires ValidLoc(s, l)
  {
    Start(s, l) + Size(At(s, l))
  }

  /** Every entry lies wholly in the data area of its segment, of which its offset is never null. */
  lemma EntryInSegment(s: State, l: Loc)
    requires Inv(s) && ValidLoc(s, l)
    ensures SegmentAddr(l.seg) + SEGMENT_HEADER <= Start(s, l) < End(s, l) <= SegmentAddr(l.seg + 1)
    ensures 0 < Start(s, l) && SegmentOf(Start(s, l)) == l.seg
    ensures IndexAt(s.segs[l.seg].log, (Start(s, l) - LOG_HEADER) % SEGMENT_SIZE - SEGMENT_HEADER) == l.idx
  {
    assert SizedSegment(s.segs[l.seg]);
    hide Inv, SizedSegment, SegmentOf, IndexAt, EntryAddr, SegmentAddr, Bytes;
    EntryWithin(l.seg, s.segs[l.seg].log, l.idx);
  }

  lemma EntryWithin(i: nat, log: seq<Entry>, k: nat)
    requires k < |log| && Bytes(log) <= DATA_SIZE
    ensures var a := EntryAddr(i, log, k);
            && SegmentAddr(i) + SEGMENT_HEADER <= a < a + Size(log[k]) <= SegmentAddr(i + 1)
            && 0 < a && SegmentOf(a) == i
            && IndexAt(log, (a - LOG_HEADER) % SEGMENT_SIZE - SEGMENT_HEADER) == k
  {
    hide SegmentOf, IndexAt, Bytes;
    PosMonotone(log, k, |log|);
    PosEnd(log);
    AddrDivides(i, log, k);
    IndexAtPos(log, k);
  }

  /** The bytes of two entries never overlap; so the table's offsets are as good as places. */
  lemma EntriesDisjoint(s: State, a: Loc, b: Loc)
    requires Inv(s) && ValidLoc(s, a) && ValidLoc(s, b) && a != b
    ensures End(s, a) <= Start(s, b) || End(s, b) <= Start(s, a)
  {
    if a.seg == b.seg {
      if a.idx < b.idx {
        PosMonotone(s.segs[a.seg].log, a.idx, b.idx);
      } else {
        PosMonotone(s.segs[a.seg].log, b.idx, a.idx);
      }
    } else {
      EntryInSegment(s, a);
      EntryInSegment(s, b);
      if a.seg < b.seg {
        assert SegmentAddr(a.seg + 1) <= SegmentAddr(b.seg);
      } else {
        assert SegmentAddr(b.seg + 1) <= SegmentAddr(a.seg);
      }
    }
  }
}
