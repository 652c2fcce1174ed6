/** How large the numbers in the entries' headers get: a version grows by at most one with each step. */
module Numbering {
  import opened Layout
  import opened LogState
  import opened LogInvariant
  import opened LogRuns
  import opened SegmentBytes
  import opened StoredSegments

  ghost predicate NumberedEntry(e: Entry, n: nat) {
    e.id < TWO_64 && e.version <= n
  }

  ghost predicate NumberedSegment(g: Segment, n: nat) {
    && (forall e :: e in g.log ==> NumberedEntry(e, n))
    && (forall e :: e in g.behind.es ==> NumberedEntry(e, n))
  }

  /** No version is higher than `n`, and every id is a 64-bit word. */
  ghost predicate Numbered(segs: seq<Segment>, n: nat) {
    forall i :: 0 <= i < |segs| ==> NumberedSegment(segs[i], n)
  }

  /** Then, as long as `n` is a word too, the bytes of the segments are those of their entries. */
  lemma NumberedWhole(m: State, n: nat)
    requires Sized(m) && Numbered(m.segs, n) && n < TWO_64
    ensures Whole(m.segs)
  {
    hide Bytes;
    forall i | 0 <= i < |m.segs|
      ensures WholeSegment(m.segs[i])
    {
      assert SizedSegment(m.segs[i]) && NumberedSegment(m.segs[i], n);
      SegmentWhole(m.segs[i], n);
    }
  }

  lemma SegmentWhole(g: Segment, n: nat)
    requires SizedSegment(g) && NumberedSegment(g, n) && n < TWO_64
    ensures WholeSegment(g)
  {
    BytesConcat(g.log, g.behind.es);
    hide Bytes;
    forall k | 0 <= k < |Seen(g)|
      ensures Storable(Seen(g)[k])
    {
      if k < |g.log| {
        assert g.log[k] in g.log;
      } else {
        assert g.behind.es[k - |g.log|] in g.behind.es;
      }
      SizeBound(Seen(g), k);
    }
  }

  lemma SizeBound(log: seq<Entry>, k: nat)
    requires k < |log|
    ensures Size(log[k]) <= Bytes(log)
  {
    PosMonotone(log, k, |log|);
    PosEnd(log);
  }

  lemma NumberedMore(segs: seq<Segment>, n: nat, p: nat)
    requires Numbered(segs, n) && n <= p
    ensures Numbered(segs, p)
  {
    forall i | 0 <= i < |segs|
      ensures NumberedSegment(segs[i], p)
    {
      assert NumberedSegment(segs[i], n);
    }
  }

  lemma {:induction false} PastOf(b: Behind, n: nat)
    ensures forall e :: e in Past(b, n).es ==> e in b.es
    decreases |b.es|
  {
    if n > 0 && b.es != [] && Size(b.es[0]) <= n {
      PastOf(Behind(b.es[1..], b.end), n - Size(b.es[0]));
    }
  }

  lemma NumberedOne(segs: seq<Segment>, i: nat, g: Segment, n: nat)
    requires Numbered(segs, n) && i < |segs| && NumberedSegment(g, n)
    ensures Numbered(segs[i := g], n)
  {
    hide NumberedSegment;
  }

  lemma WriteNumbered(s: State, i: nat, e: Entry, n: nat)
    requires Numbered(s.segs, n) && i < |s.segs| && NumberedEntry(e, n)
    ensures Numbered(WriteEntry(s, i, e).segs, n)
  {
    var g := s.segs[i];
    assert NumberedSegment(g, n);
    PastOf(g.behind, Size(e));
    NumberedOne(s.segs, i, Segment(g.log + [e], g.used + Size(e), Past(g.behind, Size(e))), n);
  }

  lemma MakeRoomNumbered(s: State, size: nat, n: nat)
    requires InRange(s) && Numbered(s.segs, n)
    ensures Numbered(MakeRoom(s, size).s.segs, n)
  {
    var r := if s.head.None? then NextHead(s) else Result(s, true);
    if r.ok && DATA_SIZE - r.s.headPos < size && r.s.head.value < |r.s.segs| {
      var h := r.s.head.value;
      assert NumberedSegment(r.s.segs[h], n);
      NumberedOne(r.s.segs, h, r.s.segs[h].(behind := Behind([], Stops)), n);
    }
  }

  lemma PublishNumbered(s: State, e: Entry, n: nat)
    requires InRange(s) && Numbered(s.segs, n) && NumberedEntry(e, n)
    ensures Numbered(Publish(s, e).s.segs, n)
  {
    MakeRoomNumbered(s, Size(e), n);
    var r := MakeRoom(s, Size(e));
    if r.ok {
      WriteNumbered(r.s, r.s.head.value, e, n);
    }
  }

  lemma EntryNumbered(s: State, l: Loc, n: nat)
    requires Numbered(s.segs, n) && ValidLoc(s, l)
    ensures NumberedEntry(At(s, l), n) && Numbered(Discount(s, l).segs, n) && Numbered(Mark(s, l).segs, n)
  {
    var g := s.segs[l.seg];
    assert NumberedSegment(g, n) && g.log[l.idx] in g.log;
    NumberedOne(s.segs, l.seg, g.(used := Sub64(g.used, Size(At(s, l)))), n);
    var log := g.log[l.idx := g.log[l.idx].(dead := true)];
    assert forall e :: e in log ==> e == g.log[l.idx].(dead := true) || e in g.log;
    NumberedOne(s.segs, l.seg, g.(log := log), n);
  }

  lemma UpdateNumbered(s: State, id: nat, data: seq<byte>, n: nat)
    requires Sane(s) && Numbered(s.segs, n)
    ensures Numbered(Update(s, id, data).s.segs, n + 1)
  {
    hide Sane, Numbered, Update;
    NumberedMore(s.segs, n, n + 1);
    if data != [] && id in s.table {
      var d, e := UpdatePublishes(s, id, data);
      EntryNumbered(s, s.table[id], n);
      EntryNumbered(s, s.table[id], n + 1);
      PublishNumbered(d, e.(version := e.version + 1, data := data), n + 1);
    } else {
      NothingToUpdate(s, id, data);
    }
  }

  lemma FreeNumbered(s: State, id: nat, n: nat)
    requires Sane(s) && Numbered(s.segs, n)
    ensures Numbered(Free(s, id).segs, n)
  {
    if id in s.table {
      EntryNumbered(s, s.table[id], n);
      EntryNumbered(Mark(s, s.table[id]), s.table[id], n);
    }
  }

  lemma CleanNumbered(s: State, n: nat)
    requires Sane(s) && Numbered(s.segs, n) && Clean(s).Continue?
    ensures Numbered(Clean(s).s.segs, n)
  {
    hide Numbered, NumberedSegment, Bytes;
    match s.phase {
      case Scan(c, k) =>
        if k < |Seen(s.segs[c])| {
          SeenNumbered(s.segs, c, k, n);
          CopyNumbered(s, c, k, n);
        }
      case Retire(c, _) =>
        EmptiedNumbered(s.segs, c, n);
      case _ =>
    }
  }

  lemma EmptiedNumbered(segs: seq<Segment>, c: nat, n: nat)
    requires Numbered(segs, n) && c < |segs|
    ensures Numbered(segs[c := Emptied(segs[c])], n)
  {
    assert NumberedSegment(segs[c], n);
    assert forall e :: e in Seen(segs[c]) ==> e in segs[c].log || e in segs[c].behind.es;
    NumberedOne(segs, c, Emptied(segs[c]), n);
  }

  lemma SeenNumbered(segs: seq<Segment>, c: nat, k: nat, n: nat)
    requires Numbered(segs, n) && c < |segs| && k < |Seen(segs[c])|
    ensures NumberedEntry(Seen(segs[c])[k], n)
  {
    assert NumberedSegment(segs[c], n);
    assert Seen(segs[c])[k] in segs[c].log || Seen(segs[c])[k] in segs[c].behind.es;
  }

  lemma CopyNumbered(s: State, c: nat, k: nat, n: nat)
    requires Sane(s) && Numbered(s.segs, n) && s.phase == Scan(c, k) && k < |Seen(s.segs[c])|
    requires NumberedEntry(Seen(s.segs[c])[k], n) && CleanEntry(s, c, k).Continue?
    ensures Numbered(CleanEntry(s, c, k).s.segs, n)
  {
    hide Numbered, Past;
    var e := Seen(s.segs[c])[k];
    var r := TargetRoom(s.(phase := Scan(c, k + 1)), Size(e));
    if CleanEntry(s, c, k).s != s.(phase := Scan(c, k + 1)) {
      WriteNumbered(r.s, r.s.target, e, n);
    }
  }

  /** The id of a new object is a word. */
  predicate IdIsWord(op: Op) {
    op.Palloc? || op.PallocWithId? ==> op.id < TWO_64
  }

  lemma StepNumbered(s: State, op: Op, n: nat)
    requires Sane(s) && Numbered(s.segs, n) && IdIsWord(op) && Step(s, op).0.Continue?
    ensures Numbered(Step(s, op).0.s.segs, n + 1)
  {
    NumberedMore(s.segs, n, n + 1);
    hide Numbered, Publish, Clean, Free, Update;
    match op
    case Palloc(id, data) =>
      PublishNumbered(s, Entry(id, 1, data, false), n + 1);
    case PallocWithId(id, data) =>
      PublishNumbered(s, Entry(id, 1, data, false), n + 1);
      UpdateNumbered(s, id, data, n);
    case UpdateData(id, data) => UpdateNumbered(s, id, data, n);
    case Pfree(id) => FreeNumbered(s, id, n + 1);
    case CleanerStep => CleanNumbered(s, n + 1);
  }

  lemma FormattedNumbered(ends: seq<End>)
    requires |ends| >= 2
    ensures Numbered(Formatted(ends).segs, 0)
  {
  }
}
