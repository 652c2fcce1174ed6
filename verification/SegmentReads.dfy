/** What the passes of recovery read out of a segment's bytes, whatever they are. */
module SegmentReads {
  import opened Layout
  import opened LogState
  import opened SegmentBytes

  /** The entry whose header begins at `p`, when its length takes it out of the segment: recovery looks at no byte of
      the object, and moves beyond the end. Of its bytes there are here those that are left. */
  function Cut(b: seq<byte>, p: nat): (e: Entry)
    requires |b| == DATA_SIZE && p < DATA_SIZE - ENTRY_HEADER
    ensures Size(e) == DATA_SIZE - p
  {
    Entry(Word(b, p), Word(b, p + 8), b[p + BYTES_AT..DATA_SIZE - ENTRY_HEADER + BYTES_AT], b[p + MARK_AT] != 0)
  }

  /** The entries that are met from `p` on, up to a zero length or lack of space. */
  function ReadOut(b: seq<byte>, p: nat): (es: seq<Entry>)
    requires |b| == DATA_SIZE
    decreases DATA_SIZE - p
  {
    if p >= DATA_SIZE - ENTRY_HEADER then []
    else
      var length := Word(b, p + LENGTH_AT);
      if length == 0 then []
      else if p + ENTRY_HEADER + length > DATA_SIZE then [Cut(b, p)]
      else [Decode(b, p)] + ReadOut(b, p + ENTRY_HEADER + length)
  }

  /** The header at `p` is that of the entry. */
  ghost predicate HeaderAt(b: seq<byte>, p: nat, e: Entry) {
    && p + ENTRY_HEADER <= |b|
    && Word(b, p) == e.id && Word(b, p + 8) == e.version && (b[p + MARK_AT] != 0) == e.dead
  }

  /** A header is found at the beginning of what is read out. */
  lemma ReadOutFirst(b: seq<byte>, p: nat)
    requires |b| == DATA_SIZE && ReadOut(b, p) != []
    ensures p < DATA_SIZE - ENTRY_HEADER && Word(b, p + LENGTH_AT) != 0
    ensures var e := ReadOut(b, p)[0];
            && HeaderAt(b, p, e) && e.data != [] && p + Size(e) <= DATA_SIZE
            && ReadOut(b, p)[1..] == ReadOut(b, p + Size(e))
            && p + Size(e) <= p + ENTRY_HEADER + Word(b, p + LENGTH_AT)
            && (p + Size(e) < p + ENTRY_HEADER + Word(b, p + LENGTH_AT) ==> p + Size(e) == DATA_SIZE)
  {
    hide Word;
  }

  lemma ReadOutNothing(b: seq<byte>, p: nat)
    requires |b| == DATA_SIZE
    ensures ReadOut(b, p) == [] <==> p >= DATA_SIZE - ENTRY_HEADER || Word(b, p + LENGTH_AT) == 0
  {
  }

  /** Entry `k` of what is read out lies where the entries before it end. */
  lemma {:induction false} ReadOutFrom(b: seq<byte>, p: nat, k: nat)
    requires |b| == DATA_SIZE && p <= DATA_SIZE && k <= |ReadOut(b, p)|
    ensures p + Pos(ReadOut(b, p), k) <= DATA_SIZE
    ensures ReadOut(b, p + Pos(ReadOut(b, p), k)) == ReadOut(b, p)[k..]
    decreases k
  {
    hide ReadOut, Word;
    var es := ReadOut(b, p);
    if k == 0 {
      assert es[..0] == [] && es[0..] == es;
    } else {
      ReadOutFirst(b, p);
      var q := p + Size(es[0]);
      ReadOutFrom(b, q, k - 1);
      assert es == [es[0]] + es[1..] && es[..k] == [es[0]] + es[1..][..k - 1];
      BytesOne(es[0]);
      BytesConcat([es[0]], es[1..][..k - 1]);
      assert es[1..][k - 1..] == es[k..];
    }
  }

  /** What is read out lies within the area, and every entry has bytes. */
  lemma {:induction false} ReadOutSized(b: seq<byte>, p: nat)
    requires |b| == DATA_SIZE && p <= DATA_SIZE
    ensures p + Bytes(ReadOut(b, p)) <= DATA_SIZE
    ensures forall k :: 0 <= k < |ReadOut(b, p)| ==> ReadOut(b, p)[k].data != []
  {
    hide ReadOut, Word;
    var es := ReadOut(b, p);
    ReadOutFrom(b, p, |es|);
    PosEnd(es);
    forall k | 0 <= k < |es|
      ensures es[k].data != []
    {
      ReadOutFrom(b, p, k);
      ReadOutFirst(b, p + Pos(es, k));
    }
  }

  lemma ReadOutOne(b: seq<byte>, p: nat, e: Entry)
    requires |b| == DATA_SIZE && Storable(e) && Holds(b, p, e)
    ensures ReadOut(b, p) == [e] + ReadOut(b, p + Size(e))
  {
    hide Word, Decode;
  }

  /** From entry `k` of the log on, the rest of it is read out, and then what the bytes behind it are taken for. */
  lemma {:induction false} ReadOutLog(b: seq<byte>, log: seq<Entry>, k: nat)
    requires HoldsAll(b, log) && k <= |log|
    ensures ReadOut(b, Pos(log, k)) == log[k..] + ReadOut(b, Bytes(log))
    decreases |log| - k
  {
    hide HoldsAll, ReadOut, Holds;
    HoldsLength(b, log);
    PosEnd(log);
    if k < |log| {
      HoldsNth(b, log, k);
      PosStep(log, k);
      ReadOutOne(b, Pos(log, k), log[k]);
      ReadOutLog(b, log, k + 1);
      assert [log[k]] + (log[k + 1..] + ReadOut(b, Bytes(log))) == log[k..] + ReadOut(b, Bytes(log));
    } else {
      assert log[k..] + ReadOut(b, Bytes(log)) == ReadOut(b, Bytes(log));
    }
  }

  lemma HoldsNth(b: seq<byte>, log: seq<Entry>, k: nat)
    requires HoldsAll(b, log) && k < |log|
    ensures Storable(log[k]) && Holds(b, Pos(log, k), log[k])
  {
  }

  /** What is read out behind the entries that are known. */
  function Tail(b: seq<byte>, g: Segment): seq<Entry>
    requires |b| == DATA_SIZE
  {
    ReadOut(b, Bytes(Seen(g)))
  }

  /** Of a segment there are read all the entries that are known, and what the bytes behind them are taken for:
      nothing, where a scan is known to end. */
  lemma ReadOutSeen(b: seq<byte>, g: Segment)
    requires Described(b, g.log, g.behind)
    ensures |b| == DATA_SIZE && ReadOut(b, 0) == Seen(g) + Tail(b, g)
    ensures EndKnown(g) ==> Tail(b, g) == []
  {
    hide HoldsAll, ReadOut, Word, ZerosFrom, Bytes, EndKnown;
    HoldsLength(b, Seen(g));
    ReadOutLog(b, Seen(g), 0);
    assert Seen(g)[..0] == [] && Seen(g)[0..] == Seen(g);
    BytesNone();
    ReadOutNothing(b, Bytes(Seen(g)));
    if EndKnown(g) {
      EndsWhereKnown(b, g);
    }
  }
}
