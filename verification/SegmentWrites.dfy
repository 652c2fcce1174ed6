/** What is written into a segment's bytes, one copy at a time, and what is known of them afterwards. */
module SegmentWrites {
  import opened Layout
  import opened LogState
  import opened SegmentBytes
  import opened SegmentReads

  /** The bytes after `x` was copied to `p`; what would lie outside of the area is lost. */
  function Splice(b: seq<byte>, p: nat, x: seq<byte>): (c: seq<byte>)
    ensures |c| == |b|
  {
    if p + |x| <= |b| then b[..p] + x + b[p + |x|..]
    else if p <= |b| then b[..p] + x[..|b| - p]
    else b
  }

  lemma SpliceIs(b: seq<byte>, p: nat, x: seq<byte>)
    requires p + |x| <= |b|
    ensures var c := Splice(b, p, x);
            c[p..p + |x|] == x && forall i :: (0 <= i < p || p + |x| <= i < |b|) ==> c[i] == b[i]
  {
  }

  /** memcpy of an entry behind those there are. */
  lemma WriteDescribed(b: seq<byte>, log: seq<Entry>, behind: Behind, e: Entry, pad: seq<byte>)
    requires Described(b, log, behind) && Bytes(log) + Size(e) <= DATA_SIZE && Storable(e)
    requires |pad| == ENTRY_HEADER - BYTES_AT
    ensures Described(Splice(b, Bytes(log), Encode(e, pad)), log + [e], Past(behind, Size(e)))
  {
    hide HoldsAll, Holds, Encode, Splice, Past;
    var c := Splice(b, Bytes(log), Encode(e, pad));
    DescribedLength(b, log, behind);
    SpliceIs(b, Bytes(log), Encode(e, pad));
    EncodedHolds(c, Bytes(log), e, pad);
    AppendDescribed(b, c, log, behind, e);
  }

  lemma DescribedLength(b: seq<byte>, log: seq<Entry>, behind: Behind)
    requires Described(b, log, behind)
    ensures |b| == DATA_SIZE && Bytes(log) + Bytes(behind.es) <= DATA_SIZE && HoldsAll(b, log)
  {
    HoldsConcat(b, log, behind.es);
    BytesConcat(log, behind.es);
  }

  /** The same bytes elsewhere are read as the same entry. */
  lemma CopyHolds(b: seq<byte>, p: nat, c: seq<byte>, q: nat, e: Entry)
    requires Holds(b, p, e) && q + Size(e) <= |c| && c[q..q + Size(e)] == b[p..p + Size(e)]
    ensures Holds(c, q, e)
  {
    var n := Size(e);
    hide FromBytes;
    SliceOfSlice(b, p, n, 0, 8);
    SliceOfSlice(c, q, n, 0, 8);
    SliceOfSlice(b, p, n, 8, 16);
    SliceOfSlice(c, q, n, 8, 16);
    SliceOfSlice(b, p, n, 16, 24);
    SliceOfSlice(c, q, n, 16, 24);
    SliceOfSlice(b, p, n, BYTES_AT, BYTES_AT + |e.data|);
    SliceOfSlice(c, q, n, BYTES_AT, BYTES_AT + |e.data|);
    assert b[p..p + n][MARK_AT] == b[p + MARK_AT] && c[q..q + n][MARK_AT] == c[q + MARK_AT];
  }

  /** memcpy of an entry from one segment to another. */
  lemma CopyDescribed(a: seq<byte>, p: nat, b: seq<byte>, log: seq<Entry>, behind: Behind, e: Entry)
    requires Holds(a, p, e) && Storable(e)
    requires Described(b, log, behind) && Bytes(log) + Size(e) <= DATA_SIZE
    ensures p + Size(e) <= |a|
    ensures Described(Splice(b, Bytes(log), a[p..p + Size(e)]), log + [e], Past(behind, Size(e)))
  {
    HoldsWithin(a, p, e);
    hide HoldsAll, Holds, Splice, Past;
    var c := Splice(b, Bytes(log), a[p..p + Size(e)]);
    DescribedLength(b, log, behind);
    SpliceIs(b, Bytes(log), a[p..p + Size(e)]);
    CopyHolds(a, p, c, Bytes(log), e);
    AppendDescribed(b, c, log, behind, e);
  }

  const ZERO_LENGTH: seq<byte> := [0, 0, 0, 0, 0, 0, 0, 0]

  /** A zero length behind the entries. */
  lemma EndDescribed(b: seq<byte>, log: seq<Entry>, behind: Behind)
    requires Described(b, log, behind) && Bytes(log) + ENTRY_HEADER <= DATA_SIZE
    ensures Described(Splice(b, Bytes(log) + LENGTH_AT, ZERO_LENGTH), log, Behind([], Stops))
  {
    hide Splice, HoldsAll, Described, Bytes;
    var c := Splice(b, Bytes(log) + LENGTH_AT, ZERO_LENGTH);
    DescribedLength(b, log, behind);
    SpliceIs(b, Bytes(log) + LENGTH_AT, ZERO_LENGTH);
    HoldsAllSame(b, c, log);
    ZeroLengthEnds(c, log);
  }

  // ---------- bytes that are as described ----------

  ghost predicate AllStorable(log: seq<Entry>) {
    forall k :: 0 <= k < |log| ==> Storable(log[k])
  }

  lemma ZerosEmpty(b: seq<byte>)
    requires |b| == DATA_SIZE
    ensures HoldsAll(b, [])
  {
  }

  /** There are bytes for any entries that fit, with nothing but zeros behind them. */
  lemma {:induction false} BytesFor(log: seq<Entry>) returns (b: seq<byte>)
    requires AllStorable(log) && Bytes(log) <= DATA_SIZE
    ensures HoldsAll(b, log) && ZerosFrom(b, Bytes(log))
    decreases |log|
  {
    hide HoldsAll, Holds, Encode, Splice, Storable;
    if log == [] {
      b := seq(DATA_SIZE, _ => 0);
      ZerosEmpty(b);
    } else {
      var n := |log| - 1;
      var front, e := log[..n], log[n];
      assert log == front + [e];
      BytesAppend(front, e);
      var a := BytesFor(front);
      HoldsLength(a, front);
      var pad: seq<byte> := seq(ENTRY_HEADER - BYTES_AT, _ => 0);
      b := Splice(a, Bytes(front), Encode(e, pad));
      SpliceIs(a, Bytes(front), Encode(e, pad));
      EncodedHolds(b, Bytes(front), e, pad);
      AppendHolds(a, b, front, e);
    }
  }

  /** There are bytes for any description. */
  lemma DescribedBy(g: Segment) returns (b: seq<byte>)
    requires AllStorable(Seen(g)) && Bytes(Seen(g)) <= DATA_SIZE
    ensures Described(b, g.log, g.behind)
  {
    b := BytesFor(Seen(g));
    HoldsLength(b, Seen(g));
    hide HoldsAll, Word, Bytes;
    if Bytes(Seen(g)) < DATA_SIZE - ENTRY_HEADER {
      ZerosStop(b, Bytes(Seen(g)));
    }
  }

  /** Where no end is known, an entry may be read out behind the known ones. */
  lemma DescribedWith(g: Segment, e: Entry) returns (b: seq<byte>)
    requires AllStorable(Seen(g)) && !EndKnown(g) && Storable(e) && |e.data| == 1
    ensures Described(b, g.log, g.behind) && |b| == DATA_SIZE && Tail(b, g) != [] && Tail(b, g)[0] == e
  {
    var all := Seen(g) + [e];
    BytesAppend(Seen(g), e);
    b := BytesFor(all);
    hide Word, Decode;
    HoldsConcat(b, Seen(g), [e]);
    HoldsLength(b, all);
    HoldsNth(b, all, |Seen(g)|);
    PosBefore(Seen(g), [e], |Seen(g)|);
    PosEnd(Seen(g));
    hide HoldsAll, Bytes, Holds, ReadOut;
    ReadOutOne(b, Bytes(Seen(g)), e);
  }
}
