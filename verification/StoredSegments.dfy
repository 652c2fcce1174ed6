/** The bytes of all the segments, and what each operation on the log makes of them. */
module StoredSegments {
  import opened Layout
  import opened LogState
  import opened LiveBytes
  import opened LogInvariant
  import opened ClientSteps
  import opened SegmentBytes
  import opened SegmentReads
  import opened SegmentWrites

  /** The entries of the segment fit it, and their fields fit the words they are kept in. */
  ghost predicate WholeSegment(g: Segment) {
    AllStorable(Seen(g)) && Bytes(Seen(g)) <= DATA_SIZE
  }

  ghost predicate Whole(segs: seq<Segment>) {
    forall i :: 0 <= i < |segs| ==> WholeSegment(segs[i])
  }

  /** The bytes of each segment's data area are those of its entries and, behind these, of what is known to be there. */
  ghost predicate Holding(segs: seq<Segment>, bs: seq<seq<byte>>) {
    |segs| <= |bs| && forall i :: 0 <= i < |segs| ==> Described(bs[i], segs[i].log, segs[i].behind)
  }

  /** What the bytes behind the known entries are taken for, segment by segment. */
  ghost function Tails(segs: seq<Segment>, bs: seq<seq<byte>>): (tails: seq<seq<Entry>>)
    requires Holding(segs, bs)
    ensures |tails| == |segs|
  {
    seq(|segs|, i requires 0 <= i < |segs| =>
      assert Described(bs[i], segs[i].log, segs[i].behind);
      Tail(bs[i], segs[i]))
  }

  /** Together with what is known, this is what is read out of a segment; nothing, where a scan is known to end. */
  lemma TailsAre(segs: seq<Segment>, bs: seq<seq<byte>>, i: nat)
    requires Holding(segs, bs) && i < |segs|
    ensures |bs[i]| == DATA_SIZE && ReadOut(bs[i], 0) == Seen(segs[i]) + Tails(segs, bs)[i]
    ensures EndKnown(segs[i]) ==> Tails(segs, bs)[i] == []
  {
    hide Described, ReadOut, Tail, EndKnown;
    ReadOutSeen(bs[i], segs[i]);
  }

  lemma DescribedWhole(b: seq<byte>, g: Segment)
    requires Described(b, g.log, g.behind)
    ensures WholeSegment(g) && |b| == DATA_SIZE
  {
  }

  lemma HoldingWhole(segs: seq<Segment>, bs: seq<seq<byte>>)
    requires Holding(segs, bs)
    ensures Whole(segs)
  {
    hide Described, WholeSegment;
    forall i | 0 <= i < |segs|
      ensures WholeSegment(segs[i])
    {
      DescribedWhole(bs[i], segs[i]);
    }
  }

  /** There are bytes for any whole segments, and where no end is known they may go on with any entry. */
  lemma BytesForAll(segs: seq<Segment>, odd: nat, e: Entry) returns (bs: seq<seq<byte>>)
    requires Whole(segs)
    requires odd < |segs| ==> !EndKnown(segs[odd]) && Storable(e) && |e.data| == 1
    ensures Holding(segs, bs) && (odd < |segs| ==> Tails(segs, bs)[odd] != [] && Tails(segs, bs)[odd][0] == e)
  {
    hide Described, Tail, EndKnown, Storable, Bytes, AllStorable;
    bs := [];
    var i := 0;
    while i < |segs|
      invariant i == |bs| <= |segs|
      invariant forall j :: 0 <= j < i ==> Described(bs[j], segs[j].log, segs[j].behind)
      invariant odd < i ==> |bs[odd]| == DATA_SIZE && Tail(bs[odd], segs[odd]) != []
                            && Tail(bs[odd], segs[odd])[0] == e
    {
      assert WholeSegment(segs[i]);
      var b;
      if i == odd {
        b := DescribedWith(segs[i], e);
      } else {
        b := DescribedBy(segs[i]);
      }
      bs := bs + [b];
      i := i + 1;
    }
  }

  // ---------- what is written ----------

  lemma StoreHolding(segs: seq<Segment>, bs: seq<seq<byte>>, h: nat, g: Segment, c: seq<byte>)
    requires Holding(segs, bs) && h < |segs| && Described(c, g.log, g.behind)
    ensures Holding(segs[h := g], bs[h := c])
  {
    hide Described;
  }

  /** Counts are not among the bytes of the data areas. */
  lemma SameHolding(segs: seq<Segment>, gs: seq<Segment>, bs: seq<seq<byte>>)
    requires Holding(segs, bs) && |gs| == |segs|
    requires forall i :: 0 <= i < |segs| ==> gs[i].log == segs[i].log && gs[i].behind == segs[i].behind
    ensures Holding(gs, bs)
  {
    hide Described;
  }

  function Written(g: Segment, e: Entry): Segment {
    Segment(g.log + [e], g.used + Size(e), Past(g.behind, Size(e)))
  }

  lemma WrittenFits(g: Segment, e: Entry)
    requires WholeSegment(Written(g, e))
    ensures Storable(e) && Bytes(g.log) + Size(e) <= DATA_SIZE
  {
    hide Past;
    var s := Seen(Written(g, e));
    assert s[|g.log|] == e;
    BytesAppend(g.log, e);
    BytesConcat(g.log + [e], Past(g.behind, Size(e)).es);
  }

  /** An entry behind those of a segment, unless it runs over the end, or a field of it over its word. */
  lemma WriteHolding(segs: seq<Segment>, bs: seq<seq<byte>>, h: nat, e: Entry, pad: seq<byte>)
    requires Holding(segs, bs) && h < |segs| && |pad| == ENTRY_HEADER - BYTES_AT
    ensures var w := segs[h := Written(segs[h], e)];
            Whole(w) ==> Holding(w, bs[h := Splice(bs[h], Bytes(segs[h].log), Encode(e, pad))])
  {
    hide Described, Splice, Encode, Past, Bytes, AllStorable, Storable;
    var g := segs[h];
    var w := segs[h := Written(g, e)];
    if Whole(w) {
      assert WholeSegment(w[h]);
      WrittenFits(g, e);
      WriteDescribed(bs[h], g.log, g.behind, e, pad);
      StoreHolding(segs, bs, h, Written(g, e), Splice(bs[h], Bytes(g.log), Encode(e, pad)));
    }
  }

  /** Entry `k` of what is known of segment `c`, copied behind those of segment `h`. */
  lemma CopyHolding(segs: seq<Segment>, bs: seq<seq<byte>>, c: nat, k: nat, h: nat, e: Entry)
    requires Holding(segs, bs) && h < |segs| && c < |segs| && k < |Seen(segs[c])| && e == Seen(segs[c])[k]
    requires Bytes(segs[h].log) + Size(e) <= DATA_SIZE
    ensures |bs[c]| == DATA_SIZE && Pos(Seen(segs[c]), k) + Size(e) <= DATA_SIZE
    ensures var p := Pos(Seen(segs[c]), k);
            Holding(segs[h := Written(segs[h], e)],
                    bs[h := Splice(bs[h], Bytes(segs[h].log), bs[c][p..p + Size(e)])])
  {
    hide Described, Splice, Holds, Bytes, Pos, Storable, AllStorable, Past, Seen, Size;
    HoldsKnown(bs[c], segs[c], k);
    var g, p := segs[h], Pos(Seen(segs[c]), k);
    CopyDescribed(bs[c], p, bs[h], g.log, g.behind, e);
    StoreHolding(segs, bs, h, Written(g, e), Splice(bs[h], Bytes(g.log), bs[c][p..p + Size(e)]));
  }

  /** Every entry that is known of lies where the entries before it end. */
  lemma HoldsKnown(b: seq<byte>, g: Segment, k: nat)
    requires Described(b, g.log, g.behind) && k < |Seen(g)|
    ensures Storable(Seen(g)[k]) && Holds(b, Pos(Seen(g), k), Seen(g)[k])
    ensures |b| == DATA_SIZE && Pos(Seen(g), k) + Size(Seen(g)[k]) <= DATA_SIZE
  {
    HoldsNth(b, Seen(g), k);
    HoldsWithin(b, Pos(Seen(g), k), Seen(g)[k]);
  }

  /** A zero length behind the entries. */
  lemma EndHolding(segs: seq<Segment>, bs: seq<seq<byte>>, h: nat)
    requires Holding(segs, bs) && h < |segs| && Bytes(segs[h].log) + ENTRY_HEADER <= DATA_SIZE
    ensures Holding(segs[h := segs[h].(behind := Behind([], Stops))],
                    bs[h := Splice(bs[h], Bytes(segs[h].log) + LENGTH_AT, ZERO_LENGTH)])
  {
    hide Described, Splice, Bytes;
    var g := segs[h];
    EndDescribed(bs[h], g.log, g.behind);
    StoreHolding(segs, bs, h, g.(behind := Behind([], Stops)), Splice(bs[h], Bytes(g.log) + LENGTH_AT, ZERO_LENGTH));
  }

  /** A mark set. */
  lemma MarkHolding(segs: seq<Segment>, bs: seq<seq<byte>>, h: nat, k: nat)
    requires Holding(segs, bs) && h < |segs| && k < |segs[h].log|
    ensures |bs[h]| == DATA_SIZE && Pos(segs[h].log, k) + MARK_AT < DATA_SIZE
    ensures var log := segs[h].log;
            Holding(segs[h := segs[h].(log := log[k := log[k].(dead := true)])],
                    bs[h := bs[h][Pos(log, k) + MARK_AT := 1]])
  {
    var g := segs[h];
    DescribedLength(bs[h], g.log, g.behind);
    MarkBefore(g.log, k);
    hide Described, Bytes, Pos, HoldsAll;
    var c := bs[h][Pos(g.log, k) + MARK_AT := 1];
    MarkDescribed(bs[h], c, g.log, g.behind, k);
    StoreHolding(segs, bs, h, g.(log := g.log[k := g.log[k].(dead := true)]), c);
  }

  /** Recycling writes nothing there. */
  lemma EmptiedHolding(segs: seq<Segment>, bs: seq<seq<byte>>, c: nat)
    requires Holding(segs, bs) && c < |segs|
    ensures Holding(segs[c := Emptied(segs[c])], bs)
  {
    hide Described;
    EmptiedDescribed(bs[c], segs[c]);
    StoreHolding(segs, bs, c, Emptied(segs[c]), bs[c]);
    assert bs[c := bs[c]] == bs;
  }

  // ---------- what is read ----------

  lemma HoldsLogged(segs: seq<Segment>, bs: seq<seq<byte>>, h: nat, k: nat)
    requires Holding(segs, bs) && h < |segs| && k < |segs[h].log|
    ensures |bs[h]| == DATA_SIZE && Holds(bs[h], Pos(segs[h].log, k), segs[h].log[k])
  {
    hide Described, Holds, Pos;
    HoldsKnown(bs[h], segs[h], k);
    PosBefore(segs[h].log, segs[h].behind.es, k);
  }

  lemma HoldsScanned(segs: seq<Segment>, bs: seq<seq<byte>>, h: nat, k: nat)
    requires Holding(segs, bs) && h < |segs| && k < |Seen(segs[h])|
    ensures |bs[h]| == DATA_SIZE && Holds(bs[h], Pos(Seen(segs[h]), k), Seen(segs[h])[k])
  {
    hide Described, Holds, Pos;
    HoldsKnown(bs[h], segs[h], k);
  }

  /** At the position of entry `k` of those that are known, a scan goes on exactly if there is such an entry. */
  lemma ScanGoesOn(b: seq<byte>, g: Segment, k: nat)
    requires Described(b, g.log, g.behind) && k <= |Seen(g)| && (k == |Seen(g)| ==> EndKnown(g))
    ensures var p := Pos(Seen(g), k);
            |b| == DATA_SIZE && (k < |Seen(g)| <==> p < DATA_SIZE - ENTRY_HEADER && Word(b, p + LENGTH_AT) != 0)
  {
    hide Described, HoldsAll, Bytes, Word, EndKnown;
    if k < |Seen(g)| {
      HoldsKnown(b, g, k);
    } else {
      PosEnd(Seen(g));
      EndsWhereKnown(b, g);
    }
  }

  lemma HeaderSame(b: seq<byte>, c: seq<byte>, p: nat)
    requires |b| == |c| == DATA_SIZE && p < DATA_SIZE - ENTRY_HEADER && forall i :: p <= i < |b| ==> c[i] == b[i]
    ensures Word(c, p) == Word(b, p) && Word(c, p + 8) == Word(b, p + 8)
    ensures Word(c, p + LENGTH_AT) == Word(b, p + LENGTH_AT) && c[p + MARK_AT] == b[p + MARK_AT]
  {
    assert c[p..p + 8] == b[p..p + 8] && c[p + 8..p + 16] == b[p + 8..p + 16];
    assert c[p + LENGTH_AT..p + LENGTH_AT + 8] == b[p + LENGTH_AT..p + LENGTH_AT + 8];
  }

  lemma BytesSame(b: seq<byte>, c: seq<byte>, p: nat, from: nat, to: nat)
    requires |b| == |c| && p <= from <= to <= |b| && forall i :: p <= i < |b| ==> c[i] == b[i]
    ensures c[from..to] == b[from..to]
  {
  }

  /** The entry there, whole or cut off. */
  lemma EntrySame(b: seq<byte>, c: seq<byte>, p: nat)
    requires |b| == |c| == DATA_SIZE && p < DATA_SIZE - ENTRY_HEADER && forall i :: p <= i < |b| ==> c[i] == b[i]
    ensures Cut(c, p) == Cut(b, p) && Word(c, p + LENGTH_AT) == Word(b, p + LENGTH_AT)
    ensures p + ENTRY_HEADER + Word(b, p + LENGTH_AT) <= DATA_SIZE ==> Decode(c, p) == Decode(b, p)
  {
    HeaderSame(b, c, p);
    hide Word;
    BytesSame(b, c, p, p + BYTES_AT, DATA_SIZE - ENTRY_HEADER + BYTES_AT);
    if p + ENTRY_HEADER + Word(b, p + LENGTH_AT) <= DATA_SIZE {
      BytesSame(b, c, p, p + BYTES_AT, p + BYTES_AT + Word(b, p + LENGTH_AT));
    }
  }

  /** What is read out from a position on depends on no byte before it. */
  lemma {:induction false} ReadOutSame(b: seq<byte>, c: seq<byte>, p: nat)
    requires |b| == |c| == DATA_SIZE && forall i :: p <= i < |b| ==> c[i] == b[i]
    ensures ReadOut(c, p) == ReadOut(b, p)
    decreases DATA_SIZE - p
  {
    hide Word, Cut, Decode;
    if p < DATA_SIZE - ENTRY_HEADER {
      EntrySame(b, c, p);
      var length := Word(b, p + LENGTH_AT);
      if 0 < length && p + ENTRY_HEADER + length <= DATA_SIZE {
        ReadOutSame(b, c, p + ENTRY_HEADER + length);
      }
    }
  }

  /** A mark changes nothing of what is read behind the entries. */
  lemma MarkTail(b: seq<byte>, g: Segment, k: nat)
    requires Described(b, g.log, g.behind) && k < |g.log|
    ensures |b| == DATA_SIZE && Pos(g.log, k) + MARK_AT < DATA_SIZE
    ensures var c, marked := b[Pos(g.log, k) + MARK_AT := 1], g.(log := g.log[k := g.log[k].(dead := true)]);
            Tail(c, marked) == Tail(b, g)
  {
    DescribedLength(b, g.log, g.behind);
    MarkBefore(g.log, k);
    var marked := g.(log := g.log[k := g.log[k].(dead := true)]);
    BytesConcat(g.log, g.behind.es);
    BytesConcat(marked.log, g.behind.es);
    BytesOfMarked(g.log, k);
    hide HoldsAll, Pos, Bytes, Described, ReadOut;
    ReadOutSame(b, b[Pos(g.log, k) + MARK_AT := 1], Bytes(Seen(g)));
  }

  lemma MarkTails(segs: seq<Segment>, bs: seq<seq<byte>>, h: nat, k: nat)
    requires Holding(segs, bs) && h < |segs| && k < |segs[h].log|
    ensures |bs[h]| == DATA_SIZE && Pos(segs[h].log, k) + MARK_AT < DATA_SIZE
    ensures var gs := segs[h := segs[h].(log := segs[h].log[k := segs[h].log[k].(dead := true)])];
            var cs := bs[h := bs[h][Pos(segs[h].log, k) + MARK_AT := 1]];
            Holding(gs, cs) && Tails(gs, cs) == Tails(segs, bs)
  {
    hide Described, Tail, Pos, Bytes;
    MarkHolding(segs, bs, h, k);
    MarkTail(bs[h], segs[h], k);
  }

  lemma SameTails(segs: seq<Segment>, gs: seq<Segment>, bs: seq<seq<byte>>)
    requires Holding(segs, bs) && |gs| == |segs|
    requires forall i :: 0 <= i < |segs| ==> gs[i].log == segs[i].log && gs[i].behind == segs[i].behind
    ensures Holding(gs, bs) && Tails(gs, bs) == Tails(segs, bs)
  {
    hide Described, ReadOut;
  }

  // ---------- freeing ----------

  /** The bytes after the mark of this object's entry was set. */
  ghost function WithMark(m: State, id: nat, bs: seq<seq<byte>>): seq<seq<byte>>
    requires TableOk(m) && id in m.table && Holding(m.segs, bs)
  {
    var l := m.table[id];
    MarkHolding(m.segs, bs, l.seg, l.idx);
    bs[l.seg := bs[l.seg][Pos(m.segs[l.seg].log, l.idx) + MARK_AT := 1]]
  }

  function MarkedSegments(m: State, id: nat): seq<Segment>
    requires TableOk(m) && id in m.table
  {
    var l := m.table[id];
    var g := m.segs[l.seg];
    m.segs[l.seg := g.(log := g.log[l.idx := g.log[l.idx].(dead := true)])]
  }

  lemma FreedSegments(m: State, f: State, id: nat)
    requires TableOk(m) && id in m.table && Freed(m, f, id)
    ensures var gs := MarkedSegments(m, id);
            |f.segs| == |gs| == |m.segs|
            && forall i :: 0 <= i < |gs| ==> f.segs[i].log == gs[i].log && f.segs[i].behind == gs[i].behind
  {
    hide Share;
  }

  /** Freeing sets the mark, and changes nothing of what unknown bytes are taken for. */
  lemma FreeHolding(m: State, id: nat, bs: seq<seq<byte>>)
    requires Inv(m) && TableOk(m) && id in m.table && Holding(m.segs, bs)
    ensures Sane(m) && Holding(Free(m, id).segs, WithMark(m, id, bs))
    ensures Tails(Free(m, id).segs, WithMark(m, id, bs)) == Tails(m.segs, bs)
  {
    hide Inv, Sane, TableOk, Holding, Tails, Free, Freed, WithMark, MarkedSegments;
    FreeIsFreed(m, id);
    MarkedTails(m, id, bs);
    FreedSegments(m, Free(m, id), id);
    SameTails(MarkedSegments(m, id), Free(m, id).segs, WithMark(m, id, bs));
  }

  lemma MarkedTails(m: State, id: nat, bs: seq<seq<byte>>)
    requires TableOk(m) && id in m.table && Holding(m.segs, bs)
    ensures Holding(MarkedSegments(m, id), WithMark(m, id, bs))
    ensures Tails(MarkedSegments(m, id), WithMark(m, id, bs)) == Tails(m.segs, bs)
  {
    hide Holding, Tails, Pos;
    MarkTails(m.segs, bs, m.table[id].seg, m.table[id].idx);
  }
}
