/** The table of offsets against the table of places, and the cleaner's pointers against its phase. */
module Offsets {
  import opened Layout
  import opened LogState
  import opened LiveBytes
  import opened LogInvariant
  import opened ClientSteps
  import opened Addresses

  /** Each object's offset is that of the entry which `m` has as its newest version. */
  ghost predicate OffsetTable(t: map<nat, nat>, m: State) {
    && TableOk(m) && t.Keys == m.table.Keys
    && forall id :: id in m.table ==> t[id] == EntryAddr(m.table[id].seg, m.segs[m.table[id].seg].log, m.table[id].idx)
  }

  /** The cleaner's local variables say what `m` says about it. */
  ghost predicate CleanerAt(cleanerSeg: nat, cleanerPos: nat, currSeg: nat, scanPos: nat, nextSeg: nat, m: State) {
    && (m.phase.Start? || (cleanerSeg == SegmentAddr(m.target) && cleanerPos == m.targetPos))
    && match m.phase
       case Start => true
       case Walk(at) => currSeg == if at.Some? then SegmentAddr(at.value) else 0
       case Scan(c, k) => currSeg == SegmentAddr(c) && c < |m.segs| && k <= |Seen(m.segs[c])|
           && scanPos == Pos(Seen(m.segs[c]), k)
       case Retire(c, n) => currSeg == SegmentAddr(c) && nextSeg == if n.Some? then SegmentAddr(n.value) else 0
  }

  lemma PosAppend(log: seq<Entry>, e: Entry, k: nat)
    requires k <= |log|
    ensures Pos(log + [e], k) == Pos(log, k)
  {
    assert (log + [e])[..k] == log[..k];
  }

  /** Marking an entry moves none. */
  lemma PosMark(log: seq<Entry>, i: nat, e: Entry, k: nat)
    requires i < |log| && k <= |log| && Size(e) == Size(log[i])
    ensures Pos(log[i := e], k) == Pos(log, k)
  {
    if i < k {
      assert log[i := e][..k] == log[..k][i := e];
      BytesReplace(log[..k], i, e);
    } else {
      assert log[i := e][..k] == log[..k];
    }
  }

  lemma OffsetsAfterWrite(t: map<nat, nat>, m: State, h: nat, e: Entry)
    requires OffsetTable(t, m) && h < |m.segs|
    ensures OffsetTable(t, WriteEntry(m, h, e))
  {
    forall id | id in m.table
      ensures t[id] == EntryAddr(m.table[id].seg, WriteEntry(m, h, e).segs[m.table[id].seg].log, m.table[id].idx)
    {
      if m.table[id].seg == h {
        PosAppend(m.segs[h].log, e, m.table[id].idx);
      }
    }
  }

  lemma OffsetsAfterPoint(t: map<nat, nat>, m: State, id: nat, l: Loc)
    requires OffsetTable(t, m) && ValidLoc(m, l) && At(m, l).id == id
    ensures OffsetTable(t[id := EntryAddr(l.seg, m.segs[l.seg].log, l.idx)], m.(table := m.table[id := l]))
  {
  }

  lemma OffsetsAfterDiscount(t: map<nat, nat>, m: State, l: Loc)
    requires OffsetTable(t, m) && ValidLoc(m, l)
    ensures OffsetTable(t, Discount(m, l))
  {
  }

  lemma OffsetsAfterFree(t: map<nat, nat>, m: State, f: State, id: nat)
    requires OffsetTable(t, m) && id in m.table && Freed(m, f, id) && TableOk(f)
    ensures OffsetTable(t - {id}, f)
  {
    var l := m.table[id];
    forall x | x in f.table
      ensures t[x] == EntryAddr(f.table[x].seg, f.segs[f.table[x].seg].log, f.table[x].idx)
    {
      if f.table[x].seg == l.seg {
        PosMark(m.segs[l.seg].log, l.idx, At(m, l).(dead := true), f.table[x].idx);
      }
    }
  }

  /** What is not an entry, or the table, does not matter. */
  lemma OffsetsSame(t: map<nat, nat>, m: State, m': State)
    requires OffsetTable(t, m) && m'.table == m.table && |m'.segs| == |m.segs|
    requires forall i :: 0 <= i < |m.segs| ==> m'.segs[i].log == m.segs[i].log
    ensures OffsetTable(t, m')
  {
  }

  /** The entries of each segment fit it. */
  ghost predicate Fitting(m: State) {
    forall i: nat :: i < |m.segs| ==> Bytes(m.segs[i].log) <= DATA_SIZE
  }

  lemma SizedFits(m: State)
    requires Sized(m)
    ensures Fitting(m)
  {
    hide Bytes;
    forall i: nat | i < |m.segs|
      ensures Bytes(m.segs[i].log) <= DATA_SIZE
    {
      assert SizedSegment(m.segs[i]);
    }
  }

  lemma FittingSame(m: State, n: State)
    requires Fitting(m) && n.segs == m.segs
    ensures Fitting(n)
  {
  }

  /** Dividing the offset finds the segment, and what is left over the position of the entry. */
  lemma OffsetFinds(t: map<nat, nat>, m: State, id: nat)
    requires OffsetTable(t, m) && id in t && Fitting(m)
    ensures id in m.table && ValidLoc(m, m.table[id]) && At(m, m.table[id]).id == id
    ensures t[id] >= LOG_HEADER && SegmentOf(t[id]) == m.table[id].seg
    ensures (t[id] - LOG_HEADER) % SEGMENT_SIZE
            == SEGMENT_HEADER + Pos(m.segs[m.table[id].seg].log, m.table[id].idx)
  {
    var l := m.table[id];
    AddrDivides(l.seg, m.segs[l.seg].log, l.idx);
  }

  /** A write elsewhere than where the cleaner scans. */
  lemma CleanerAfterWrite(a: nat, b: nat, c: nat, d: nat, n: nat, m: State, h: nat, e: Entry)
    requires CleanerAt(a, b, c, d, n, m) && h < |m.segs| && !(m.phase.Scan? && m.phase.seg == h)
    ensures CleanerAt(a, b, c, d, n, WriteEntry(m, h, e))
  {
  }

  lemma CleanerAfterFree(a: nat, b: nat, c: nat, d: nat, n: nat, m: State, f: State, id: nat)
    requires CleanerAt(a, b, c, d, n, m) && TableOk(m) && id in m.table && Freed(m, f, id)
    ensures CleanerAt(a, b, c, d, n, f)
  {
    if m.phase.Scan? {
      var l := m.table[id];
      if m.phase.seg == l.seg {
        var g, e := m.segs[l.seg], At(m, l).(dead := true);
        assert Seen(f.segs[l.seg]) == Seen(g)[l.idx := e];
        PosMark(Seen(g), l.idx, e, m.phase.k);
      } else {
        assert f.segs[m.phase.seg].log == m.segs[m.phase.seg].log;
      }
    }
  }

  lemma CleanerSame(a: nat, b: nat, c: nat, d: nat, n: nat, m: State, m': State)
    requires CleanerAt(a, b, c, d, n, m)
    requires m'.phase == m.phase && m'.target == m.target && m'.targetPos == m.targetPos && |m'.segs| == |m.segs|
    requires m.phase.Scan? && m.phase.seg < |m.segs| ==> Seen(m'.segs[m.phase.seg]) == Seen(m.segs[m.phase.seg])
    ensures CleanerAt(a, b, c, d, n, m')
  {
  }

  /** There is one table of offsets for a state. */
  lemma OffsetsUnique(t: map<nat, nat>, u: map<nat, nat>, m: State)
    requires OffsetTable(t, m) && OffsetTable(u, m)
    ensures t == u
  {
    forall id
      ensures id in t <==> id in u
      ensures id in t ==> t[id] == u[id]
    {
      assert id in t.Keys <==> id in u.Keys;
    }
  }
}
