/** A segment's data area as bytes: what appending writes there, and what a scan reads back.

    An entry header is three 64-bit words, little end first, for the id, the version and the length, and a byte for the
    mark. The bytes of the object follow the mark at once, though the next entry begins a whole header and the length
    further on.
 */
module SegmentBytes {
  import opened Layout
  import opened LogState

  const LENGTH_AT: nat := 16
  const MARK_AT: nat := 24
  const BYTES_AT: nat := 25

  // ---------- words ----------

  function Pow256(n: nat): (p: nat)
    ensures p > 0
  {
    if n == 0 then 1 else 256 * Pow256(n - 1)
  }

  /** The `n` low bytes of `x`, lowest first. */
  function ToBytes(x: nat, n: nat): (b: seq<byte>)
    ensures |b| == n
  {
    if n == 0 then [] else [x % 256] + ToBytes(x / 256, n - 1)
  }

  function FromBytes(b: seq<byte>): nat {
    if b == [] then 0 else b[0] + 256 * FromBytes(b[1..])
  }

  lemma {:induction false} WordRoundTrip(x: nat, n: nat)
    requires x < Pow256(n)
    ensures FromBytes(ToBytes(x, n)) == x
  {
    if n > 0 {
      assert x / 256 < Pow256(n - 1);
      WordRoundTrip(x / 256, n - 1);
      assert ToBytes(x, n)[1..] == ToBytes(x / 256, n - 1);
    }
  }

  /** Byte `k` of a word is its digit of that weight. */
  lemma {:induction false} ByteOfWord(x: nat, n: nat, k: nat)
    requires k < n
    ensures ToBytes(x, n)[k] == x / Pow256(k) % 256
    decreases n
  {
    if k > 0 {
      ByteOfWord(x / 256, n - 1, k - 1);
      DivideTwice(x, Pow256(k - 1));
    } else {
      assert Pow256(0) == 1;
    }
  }

  lemma DivideTwice(x: nat, p: nat)
    requires p > 0
    ensures x / 256 / p == x / (256 * p)
  {
    var q, r := x / 256 / p, x / 256 % p;
    assert x == 256 * (q * p + r) + x % 256;
    assert x == 256 * p * q + (256 * r + x % 256) && 256 * r + x % 256 < 256 * p;
    QuotientIs(x, 256 * p, q, 256 * r + x % 256);
  }

  lemma QuotientIs(x: nat, n: nat, q: nat, r: nat)
    requires x == n * q + r && r < n
    ensures x / n == q
  {
    var z := x / n - q;
    assert n * z == r - x % n;
    SmallMultiple(n, z);
  }

  lemma SmallMultiple(n: nat, z: int)
    ensures z >= 1 ==> n * z >= n
    ensures z <= -1 ==> n * z + n <= 0
  {
  }

  lemma WordSize()
    ensures Pow256(8) == TWO_64
  {
    assert Pow256(4) == 0x1_0000_0000;
    assert Pow256(8) == 256 * (256 * (256 * (256 * Pow256(4))));
  }

  lemma {:induction false} WordIsZero(b: seq<byte>)
    ensures FromBytes(b) == 0 <==> forall i :: 0 <= i < |b| ==> b[i] == 0
  {
    if b != [] {
      WordIsZero(b[1..]);
      assert forall i :: 0 < i < |b| ==> b[i] == b[1..][i - 1];
      assert forall i :: 0 <= i < |b| - 1 ==> b[1..][i] == b[i + 1];
    }
  }

  function Word(b: seq<byte>, p: nat): nat
    requires p + 8 <= |b|
  {
    FromBytes(b[p..p + 8])
  }

  // ---------- entries ----------

  /** The fields of an entry fit the words they are kept in. */
  ghost predicate Storable(e: Entry) {
    e.id < TWO_64 && e.version < TWO_64 && 0 < |e.data| < TWO_64
  }

  /** The header as it is built before it is copied into the log; `pad` is whatever lies behind the bytes. */
  function Encode(e: Entry, pad: seq<byte>): (b: seq<byte>)
    requires |pad| == ENTRY_HEADER - BYTES_AT
    ensures |b| == Size(e)
  {
    ToBytes(e.id, 8) + ToBytes(e.version, 8) + ToBytes(|e.data|, 8) + [if e.dead then 1 else 0] + e.data + pad
  }

  /** The entry that the bytes at `p` are read as. */
  function Decode(b: seq<byte>, p: nat): Entry
    requires p + ENTRY_HEADER <= |b| && p + BYTES_AT + Word(b, p + LENGTH_AT) <= |b|
  {
    Entry(Word(b, p), Word(b, p + 8), b[p + BYTES_AT..p + BYTES_AT + Word(b, p + LENGTH_AT)], b[p + MARK_AT] != 0)
  }

  /** The bytes at `p` are read as `e`, all within the data area. */
  ghost predicate Holds(b: seq<byte>, p: nat, e: Entry) {
    && p + Size(e) <= |b|
    && Word(b, p + LENGTH_AT) == |e.data|
    && Decode(b, p) == e
  }

  lemma WordOf(b: seq<byte>, p: nat, x: nat)
    requires p + 8 <= |b| && b[p..p + 8] == ToBytes(x, 8) && x < TWO_64
    ensures Word(b, p) == x
  {
    WordSize();
    WordRoundTrip(x, 8);
  }

  lemma EncodeParts(e: Entry, pad: seq<byte>)
    requires |pad| == ENTRY_HEADER - BYTES_AT
    ensures var c := Encode(e, pad);
            && c[0..8] == ToBytes(e.id, 8) && c[8..16] == ToBytes(e.version, 8) && c[16..24] == ToBytes(|e.data|, 8)
            && c[24] == (if e.dead then 1 else 0) && c[25..25 + |e.data|] == e.data
  {
  }

  lemma SliceOfSlice(b: seq<byte>, p: nat, n: nat, i: nat, j: nat)
    requires p + n <= |b| && i <= j <= n
    ensures b[p..p + n][i..j] == b[p + i..p + j]
  {
    var l, r := b[p..p + n][i..j], b[p + i..p + j];
    assert |l| == |r| && forall k :: 0 <= k < |l| ==> l[k] == r[k];
  }

  /** Bytes that are those of the encoded entry are read as the entry. */
  lemma EncodedHolds(b: seq<byte>, p: nat, e: Entry, pad: seq<byte>)
    requires Storable(e) && |pad| == ENTRY_HEADER - BYTES_AT
    requires p + Size(e) <= |b| && b[p..p + Size(e)] == Encode(e, pad)
    ensures Holds(b, p, e)
  {
    hide ToBytes, Encode;
    EncodeParts(e, pad);
    var w := b[p..p + Size(e)];
    SliceOfSlice(b, p, Size(e), 0, 8);
    SliceOfSlice(b, p, Size(e), 8, 16);
    SliceOfSlice(b, p, Size(e), 16, 24);
    SliceOfSlice(b, p, Size(e), BYTES_AT, BYTES_AT + |e.data|);
    assert b[p + MARK_AT] == w[24];
    WordOf(b, p, e.id);
    WordOf(b, p + 8, e.version);
    WordOf(b, p + LENGTH_AT, |e.data|);
  }

  lemma HoldsSame(b: seq<byte>, c: seq<byte>, p: nat, e: Entry)
    requires Holds(b, p, e) && |c| == |b|
    requires forall i :: p <= i < p + Size(e) ==> c[i] == b[i]
    ensures Holds(c, p, e)
  {
    assert c[p..p + 8] == b[p..p + 8];
    assert c[p + 8..p + 16] == b[p + 8..p + 16];
    assert c[p + 16..p + 24] == b[p + 16..p + 24];
    assert c[p + BYTES_AT..p + BYTES_AT + |e.data|] == b[p + BYTES_AT..p + BYTES_AT + |e.data|];
  }

  /** The data area begins with these entries, one behind the other. */
  ghost predicate HoldsAll(b: seq<byte>, log: seq<Entry>) {
    && |b| == DATA_SIZE && Bytes(log) <= DATA_SIZE
    && forall k :: 0 <= k < |log| ==> Storable(log[k]) && Holds(b, Pos(log, k), log[k])
  }

  // ---------- scanning ----------

  /** What a scan makes of the bytes: entries up to a zero length or the end, or entries and then one whose length would
      take it out of the segment. */
  datatype Parsed = Ended(entries: seq<Entry>) | Overrun(entries: seq<Entry>)

  function Parse(b: seq<byte>, p: nat): Parsed
    requires |b| == DATA_SIZE
    decreases DATA_SIZE - p
  {
    if p >= DATA_SIZE - ENTRY_HEADER then Ended([])
    else
      var length := Word(b, p + LENGTH_AT);
      if length == 0 then Ended([])
      else if p + ENTRY_HEADER + length > DATA_SIZE then Overrun([])
      else
        var rest := Parse(b, p + ENTRY_HEADER + length);
        rest.(entries := [Decode(b, p)] + rest.entries)
  }

  /** A scan stops where the entries of `log` end: there is no room for another one, or a zero length. */
  ghost predicate EndsThere(b: seq<byte>, log: seq<Entry>)
    requires |b| == DATA_SIZE
  {
    Bytes(log) >= DATA_SIZE - ENTRY_HEADER || Word(b, Bytes(log) + LENGTH_AT) == 0
  }

  /** Entries put in front of what a scan yields. */
  function Prepend(log: seq<Entry>, r: Parsed): Parsed {
    r.(entries := log + r.entries)
  }

  /** A scan that comes to an entry of the log reads it, and comes to the next. */
  lemma ParseStep(b: seq<byte>, log: seq<Entry>, k: nat)
    requires HoldsAll(b, log) && k < |log|
    ensures Parse(b, Pos(log, k)) == Prepend([log[k]], Parse(b, Pos(log, k + 1)))
  {
    hide Word, Decode;
    assert Holds(b, Pos(log, k), log[k]);
    PosEnd(log);
    PosMonotone(log, k, |log|);
    PosStep(log, k);
    ParseOne(b, Pos(log, k), log[k]);
  }

  lemma ParseOne(b: seq<byte>, p: nat, e: Entry)
    requires |b| == DATA_SIZE && Storable(e) && Holds(b, p, e)
    ensures Parse(b, p) == Prepend([e], Parse(b, p + Size(e)))
  {
    hide Word, Decode;
  }

  /** From entry `k` on, a scan reads the rest of the log, and then what it makes of the bytes behind it. */
  lemma {:induction false} ParseSuffix(b: seq<byte>, log: seq<Entry>, k: nat)
    requires HoldsAll(b, log) && k <= |log|
    ensures Parse(b, Pos(log, k)) == Prepend(log[k..], Parse(b, Bytes(log)))
    decreases |log| - k
  {
    hide HoldsAll, Parse;
    HoldsLength(b, log);
    PosEnd(log);
    var rest := Parse(b, Bytes(log));
    if k < |log| {
      ParseStep(b, log, k);
      ParseSuffix(b, log, k + 1);
      assert [log[k]] + (log[k + 1..] + rest.entries) == log[k..] + rest.entries;
    } else {
      assert log[k..] + rest.entries == rest.entries;
    }
  }

  lemma HoldsLength(b: seq<byte>, log: seq<Entry>)
    requires HoldsAll(b, log)
    ensures |b| == DATA_SIZE && Bytes(log) <= DATA_SIZE
  {
  }

  lemma ParseAtEnd(b: seq<byte>, p: nat)
    requires |b| == DATA_SIZE
    ensures Parse(b, p) == Ended([]) <==> p >= DATA_SIZE - ENTRY_HEADER || Word(b, p + LENGTH_AT) == 0
    ensures Parse(b, p).Ended? && Parse(b, p).entries == [] ==>
            p >= DATA_SIZE - ENTRY_HEADER || Word(b, p + LENGTH_AT) == 0
  {
  }

  /** A scan yields exactly the entries that were appended if and only if it stops where they end. */
  lemma ScanIsExact(b: seq<byte>, log: seq<Entry>)
    requires HoldsAll(b, log)
    ensures Parse(b, 0) == Ended(log) <==> EndsThere(b, log)
  {
    hide HoldsAll, Parse, Word;
    HoldsLength(b, log);
    ParseSuffix(b, log, 0);
    assert log[0..] == log;
    var rest := Parse(b, Bytes(log));
    ParseAtEnd(b, Bytes(log));
    assert log + [] == log;
    if Parse(b, 0) == Ended(log) {
      assert |log + rest.entries| == |log|;
    }
  }

  // ---------- what is known of an area ----------

  /** The bytes are those of the entries and, behind them, of what `behind` says. */
  ghost predicate Described(b: seq<byte>, log: seq<Entry>, behind: Behind) {
    && HoldsAll(b, log + behind.es)
    && match behind.end
       case Zeros => ZerosFrom(b, Bytes(log + behind.es))
       case Stops => EndsThere(b, log + behind.es)
       case Unknown => true
  }

  ghost predicate ZerosFrom(b: seq<byte>, p: nat) {
    forall i :: p <= i < |b| ==> b[i] == 0
  }

  lemma ZerosStop(b: seq<byte>, p: nat)
    requires |b| == DATA_SIZE && ZerosFrom(b, p) && p < DATA_SIZE - ENTRY_HEADER
    ensures Word(b, p + LENGTH_AT) == 0
  {
    WordIsZero(b[p + LENGTH_AT..p + LENGTH_AT + 8]);
  }

  /** Where a scan of the segment is known to end, the bytes end it. */
  lemma EndsWhereKnown(b: seq<byte>, g: Segment)
    requires Described(b, g.log, g.behind) && EndKnown(g)
    ensures HoldsAll(b, Seen(g)) && |b| == DATA_SIZE && EndsThere(b, Seen(g))
  {
    hide Word, ZerosFrom, Bytes;
    HoldsLength(b, Seen(g));
    hide HoldsAll;
    if g.behind.end.Zeros? && Bytes(Seen(g)) < DATA_SIZE - ENTRY_HEADER {
      ZerosStop(b, Bytes(Seen(g)));
    }
  }

  /** There a scan yields all that `Seen` says, and nothing else. */
  lemma ScanIsSeen(b: seq<byte>, g: Segment)
    requires Described(b, g.log, g.behind) && EndKnown(g)
    ensures |b| == DATA_SIZE && Parse(b, 0) == Ended(Seen(g))
  {
    hide HoldsAll, Parse, EndsThere, Described;
    EndsWhereKnown(b, g);
    ScanIsExact(b, Seen(g));
  }

  /** A new mapping is all zero. */
  lemma ZerosDescribed(b: seq<byte>)
    requires |b| == DATA_SIZE && ZerosFrom(b, 0)
    ensures Described(b, [], Behind([], Zeros))
  {
  }

  /** Recycling changes no byte, but the entries are old ones from then on. */
  lemma EmptiedDescribed(b: seq<byte>, g: Segment)
    requires Described(b, g.log, g.behind)
    ensures Described(b, Emptied(g).log, Emptied(g).behind)
  {
    assert [] + Seen(g) == Seen(g);
  }

  // ---------- the area that is written ----------

  lemma PosOfAppend(log: seq<Entry>, e: Entry, k: nat)
    requires k <= |log|
    ensures Pos(log + [e], k) == Pos(log, k)
  {
    assert (log + [e])[..k] == log[..k];
  }

  lemma AppendHolds(b: seq<byte>, c: seq<byte>, log: seq<Entry>, e: Entry)
    requires HoldsAll(b, log) && |c| == |b| && Bytes(log) + Size(e) <= DATA_SIZE && Storable(e)
    requires (forall i :: 0 <= i < Bytes(log) ==> c[i] == b[i]) && Holds(c, Bytes(log), e)
    ensures HoldsAll(c, log + [e])
  {
    BytesAppend(log, e);
    forall k | 0 <= k < |log + [e]|
      ensures Holds(c, Pos(log + [e], k), (log + [e])[k])
    {
      PosOfAppend(log, e, k);
      PosEnd(log);
      if k < |log| {
        PosMonotone(log, k, |log|);
        HoldsSame(b, c, Pos(log, k), log[k]);
      }
    }
  }

  /** From `p` on the area has these entries. */
  ghost predicate HoldsAt(b: seq<byte>, p: nat, es: seq<Entry>) {
    && |b| == DATA_SIZE && p + Bytes(es) <= DATA_SIZE
    && forall k :: 0 <= k < |es| ==> Storable(es[k]) && Holds(b, p + Pos(es, k), es[k])
  }

  lemma PosBehind(x: seq<Entry>, y: seq<Entry>, k: nat)
    requires k <= |y|
    ensures Pos(x + y, |x| + k) == Bytes(x) + Pos(y, k)
  {
    assert (x + y)[..|x| + k] == x + y[..k];
    BytesConcat(x, y[..k]);
  }

  lemma PosBefore(x: seq<Entry>, y: seq<Entry>, k: nat)
    requires k <= |x|
    ensures Pos(x + y, k) == Pos(x, k)
  {
    assert (x + y)[..k] == x[..k];
  }

  /** Entries in two runs. */
  lemma HoldsConcat(b: seq<byte>, x: seq<Entry>, y: seq<Entry>)
    ensures HoldsAll(b, x + y) <==> HoldsAll(b, x) && HoldsAt(b, Bytes(x), y)
  {
    BytesConcat(x, y);
    if HoldsAll(b, x + y) {
      HoldsFront(b, x, y);
      HoldsBack(b, x, y);
    }
    if HoldsAll(b, x) && HoldsAt(b, Bytes(x), y) {
      HoldsBoth(b, x, y);
    }
  }

  lemma HoldsFront(b: seq<byte>, x: seq<Entry>, y: seq<Entry>)
    requires HoldsAll(b, x + y) && Bytes(x) <= DATA_SIZE
    ensures HoldsAll(b, x)
  {
    hide Holds, Storable, Bytes, Pos;
    forall k | 0 <= k < |x|
      ensures Storable(x[k]) && Holds(b, Pos(x, k), x[k])
    {
      PosBefore(x, y, k);
      assert (x + y)[k] == x[k];
    }
  }

  lemma HoldsBack(b: seq<byte>, x: seq<Entry>, y: seq<Entry>)
    requires HoldsAll(b, x + y) && Bytes(x) + Bytes(y) <= DATA_SIZE
    ensures HoldsAt(b, Bytes(x), y)
  {
    hide Holds, Storable, Bytes, Pos;
    forall k | 0 <= k < |y|
      ensures Storable(y[k]) && Holds(b, Bytes(x) + Pos(y, k), y[k])
    {
      PosBehind(x, y, k);
      assert (x + y)[|x| + k] == y[k];
    }
  }

  lemma HoldsBoth(b: seq<byte>, x: seq<Entry>, y: seq<Entry>)
    requires HoldsAll(b, x) && HoldsAt(b, Bytes(x), y) && Bytes(x + y) <= DATA_SIZE
    ensures HoldsAll(b, x + y)
  {
    hide Holds, Storable, Bytes, Pos;
    forall k | 0 <= k < |x + y|
      ensures Storable((x + y)[k]) && Holds(b, Pos(x + y, k), (x + y)[k])
    {
      if k < |x| {
        PosBefore(x, y, k);
      } else {
        PosBehind(x, y, k - |x|);
      }
    }
  }

  lemma HoldsWithin(b: seq<byte>, p: nat, e: Entry)
    requires Holds(b, p, e)
    ensures p + Size(e) <= |b|
  {
  }

  /** The entries from number `j` on, where the bytes from there on are the same. */
  lemma HoldsRest(b: seq<byte>, c: seq<byte>, p: nat, es: seq<Entry>, j: nat)
    requires HoldsAt(b, p, es) && j <= |es| && |c| == |b|
    requires forall i :: p + Bytes(es[..j]) <= i < |b| ==> c[i] == b[i]
    ensures HoldsAt(c, p + Bytes(es[..j]), es[j..])
  {
    hide Holds, Storable, Bytes, Pos;
    assert es[..j] + es[j..] == es;
    BytesConcat(es[..j], es[j..]);
    forall k | 0 <= k < |es[j..]|
      ensures Storable(es[j..][k]) && Holds(c, p + Bytes(es[..j]) + Pos(es[j..], k), es[j..][k])
    {
      PosBehind(es[..j], es[j..], k);
      HoldsWithin(b, p + Pos(es, j + k), es[j + k]);
      HoldsSame(b, c, p + Pos(es, j + k), es[j + k]);
    }
  }

  /** What writing leaves of the old entries: either those from number `j` on, or none. */
  ghost predicate Leaves(behind: Behind, n: nat, j: nat, c: Behind) {
    && j <= |behind.es|
    && (|| (Bytes(behind.es[..j]) == n && c == Behind(behind.es[j..], behind.end))
        || (c == Behind([], Zeros) && behind.end.Zeros? && Bytes(behind.es) <= n)
        || c == Behind([], Unknown))
  }

  lemma {:induction false} PastLeaves(behind: Behind, n: nat) returns (j: nat)
    ensures Leaves(behind, n, j, Past(behind, n))
    decreases |behind.es|
  {
    var es := behind.es;
    j := 0;
    BytesNone();
    assert es[..0] == [];
    if n > 0 && es != [] && Size(es[0]) <= n {
      var rest := Behind(es[1..], behind.end);
      j := PastLeaves(rest, n - Size(es[0]));
      LeavesMore(behind, n, j, Past(rest, n - Size(es[0])));
      j := j + 1;
    }
  }

  lemma LeavesMore(behind: Behind, n: nat, j: nat, c: Behind)
    requires behind.es != [] && Size(behind.es[0]) <= n
    requires Leaves(Behind(behind.es[1..], behind.end), n - Size(behind.es[0]), j, c)
    ensures Leaves(behind, n, j + 1, c)
  {
    hide Bytes;
    var es := behind.es;
    BytesOne(es[0]);
    assert es == [es[0]] + es[1..];
    BytesConcat([es[0]], es[1..]);
    assert es[..j + 1] == [es[0]] + es[1..][..j];
    BytesConcat([es[0]], es[1..][..j]);
    assert es[1..][j..] == es[j + 1..];
  }

  lemma ZeroLengthEnds(b: seq<byte>, log: seq<Entry>)
    requires HoldsAll(b, log) && Bytes(log) + ENTRY_HEADER <= |b|
    requires b[Bytes(log) + LENGTH_AT..Bytes(log) + LENGTH_AT + 8] == [0, 0, 0, 0, 0, 0, 0, 0]
    ensures EndsThere(b, log) && Described(b, log, Behind([], Stops))
  {
    WordIsZero([0, 0, 0, 0, 0, 0, 0, 0]);
    assert log + [] == log;
  }

  /** Writing an entry behind the others: what is known of the area afterwards. */
  lemma AppendDescribed(b: seq<byte>, c: seq<byte>, log: seq<Entry>, behind: Behind, e: Entry)
    requires Described(b, log, behind) && |c| == |b| && Bytes(log) + Size(e) <= DATA_SIZE && Storable(e)
    requires Holds(c, Bytes(log), e)
    requires forall i :: (0 <= i < Bytes(log) || Bytes(log) + Size(e) <= i < |b|) ==> c[i] == b[i]
    ensures Described(c, log + [e], Past(behind, Size(e)))
  {
    hide Holds, Past, Storable, Bytes, HoldsAll, HoldsAt;
    HoldsConcat(b, log, behind.es);
    HoldsLength(b, log);
    AppendHolds(b, c, log, e);
    BytesAppend(log, e);
    BytesConcat(log, behind.es);
    var past := Past(behind, Size(e));
    var j := PastLeaves(behind, Size(e));
    if Bytes(behind.es[..j]) == Size(e) && past == Behind(behind.es[j..], behind.end) {
      RestDescribed(b, c, log, behind, e, j);
    } else {
      assert log + [e] + [] == log + [e];
    }
  }

  lemma RestDescribed(b: seq<byte>, c: seq<byte>, log: seq<Entry>, behind: Behind, e: Entry, j: nat)
    requires Described(b, log, behind) && |b| == DATA_SIZE && HoldsAt(b, Bytes(log), behind.es) && |c| == |b|
    requires HoldsAll(c, log + [e]) && j <= |behind.es| && Bytes(behind.es[..j]) == Size(e)
    requires forall i :: Bytes(log) + Size(e) <= i < |b| ==> c[i] == b[i]
    ensures Described(c, log + [e], Behind(behind.es[j..], behind.end))
  {
    hide Holds, Storable, Bytes, HoldsAll, HoldsAt, ZerosFrom, EndsThere;
    var rest := behind.es[j..];
    HoldsRest(b, c, Bytes(log), behind.es, j);
    BytesAppend(log, e);
    HoldsConcat(c, log + [e], rest);
    assert behind.es[..j] + rest == behind.es;
    BytesConcat(behind.es[..j], rest);
    BytesConcat(log + [e], rest);
    BytesConcat(log, behind.es);
    EndSame(b, c, log + behind.es, log + [e] + rest, behind.end, Bytes(log) + Size(e));
  }

  /** The bytes behind a run of entries, unchanged, end a scan as they did. */
  lemma EndSame(b: seq<byte>, c: seq<byte>, x: seq<Entry>, y: seq<Entry>, end: End, p: nat)
    requires |b| == |c| == DATA_SIZE && Bytes(x) == Bytes(y) >= p && forall i :: p <= i < |b| ==> c[i] == b[i]
    ensures end.Zeros? && ZerosFrom(b, Bytes(x)) ==> ZerosFrom(c, Bytes(y))
    ensures end.Stops? && EndsThere(b, x) ==> EndsThere(c, y)
  {
    if Bytes(x) < DATA_SIZE - ENTRY_HEADER {
      assert b[Bytes(x) + LENGTH_AT..Bytes(x) + LENGTH_AT + 8] == c[Bytes(y) + LENGTH_AT..Bytes(y) + LENGTH_AT + 8];
    }
  }

  /** Writing behind the entries changes none of them. */
  lemma HoldsAllSame(b: seq<byte>, c: seq<byte>, log: seq<Entry>)
    requires HoldsAll(b, log) && |c| == |b| && forall i :: 0 <= i < Bytes(log) ==> c[i] == b[i]
    ensures HoldsAll(c, log)
  {
    PosEnd(log);
    forall k | 0 <= k < |log|
      ensures Holds(c, Pos(log, k), log[k])
    {
      PosMonotone(log, k, |log|);
      HoldsSame(b, c, Pos(log, k), log[k]);
    }
  }

  lemma {:induction false} BytesOfMarked(log: seq<Entry>, k: nat)
    requires k < |log|
    ensures Bytes(log[k := log[k].(dead := true)]) == Bytes(log)
    decreases |log|
  {
    var n := |log| - 1;
    var marked := log[k := log[k].(dead := true)];
    if k < n {
      assert marked[..n] == log[..n][k := log[k].(dead := true)];
      BytesOfMarked(log[..n], k);
    } else {
      assert marked[..n] == log[..n];
    }
  }

  lemma PosOfMarked(log: seq<Entry>, k: nat, j: nat)
    requires k < |log| && j <= |log|
    ensures Pos(log[k := log[k].(dead := true)], j) == Pos(log, j)
  {
    var marked := log[k := log[k].(dead := true)];
    if k < j {
      assert marked[..j] == log[..j][k := log[k].(dead := true)];
      BytesOfMarked(log[..j], k);
    } else {
      assert marked[..j] == log[..j];
    }
  }

  /** Setting the mark changes that entry and no other. */
  lemma MarkHolds(b: seq<byte>, c: seq<byte>, log: seq<Entry>, k: nat)
    requires HoldsAll(b, log) && k < |log| && Pos(log, k) + MARK_AT < |b| && c == b[Pos(log, k) + MARK_AT := 1]
    ensures HoldsAll(c, log[k := log[k].(dead := true)])
    ensures Bytes(log[k := log[k].(dead := true)]) == Bytes(log)
  {
    var p, marked := Pos(log, k), log[k := log[k].(dead := true)];
    BytesOfMarked(log, k);
    forall j | 0 <= j < |log|
      ensures Storable(marked[j]) && Holds(c, Pos(marked, j), marked[j])
    {
      PosOfMarked(log, k, j);
      if j == k {
        assert Holds(b, p, log[k]);
        MarkedHolds(b, c, p, log[k]);
      } else {
        if j < k {
          PosMonotone(log, j, k);
        } else {
          PosMonotone(log, k, j);
        }
        HoldsSame(b, c, Pos(log, j), log[j]);
      }
    }
  }

  lemma MarkDescribed(b: seq<byte>, c: seq<byte>, log: seq<Entry>, behind: Behind, k: nat)
    requires Described(b, log, behind) && k < |log| && Pos(log, k) + MARK_AT < |b| && c == b[Pos(log, k) + MARK_AT := 1]
    ensures Described(c, log[k := log[k].(dead := true)], behind)
  {
    hide HoldsAll, Bytes, Pos, ZerosFrom, EndsThere;
    var all, marked := log + behind.es, log[k := log[k].(dead := true)];
    PosBefore(log, behind.es, k);
    HoldsLength(b, all);
    MarkHolds(b, c, all, k);
    assert all[k := all[k].(dead := true)] == marked + behind.es;
    MarkBefore(all, k);
    EndSame(b, c, all, marked + behind.es, behind.end, Bytes(all));
  }

  lemma MarkBefore(log: seq<Entry>, k: nat)
    requires k < |log|
    ensures Pos(log, k) + MARK_AT < Bytes(log)
  {
    PosMonotone(log, k, |log|);
    PosEnd(log);
  }

  lemma HoldsEntry(b: seq<byte>, log: seq<Entry>, k: nat)
    requires HoldsAll(b, log) && k < |log|
    ensures Pos(log, k) + Size(log[k]) <= |b|
  {
    assert Holds(b, Pos(log, k), log[k]);
  }

  lemma MarkedHolds(b: seq<byte>, c: seq<byte>, p: nat, e: Entry)
    requires Holds(b, p, e) && c == b[p + MARK_AT := 1]
    ensures Holds(c, p, e.(dead := true))
  {
    assert c[p..p + 8] == b[p..p + 8];
    assert c[p + 8..p + 16] == b[p + 8..p + 16];
    assert c[p + 16..p + 24] == b[p + 16..p + 24];
    assert c[p + BYTES_AT..p + BYTES_AT + |e.data|] == b[p + BYTES_AT..p + BYTES_AT + |e.data|];
  }

  lemma Regroup(a: seq<Entry>, e: Entry, b: seq<Entry>)
    ensures a + ([e] + b) == a + [e] + b
  {
  }

  class Area {
    const buf: array<byte>
    var pos: nat
    ghost var log: seq<Entry>
    ghost var behind: Behind

    ghost predicate Valid()
      reads this, buf
    {
      HoldsAll(buf[..], log) && pos == Bytes(log) && Described(buf[..], log, behind)
    }

    /** A segment to be written to from its beginning, with whatever bytes it has. */
    constructor (buf: array<byte>)
      requires buf.Length == DATA_SIZE
      ensures Valid() && this.buf == buf && log == [] && behind == Behind([], Unknown)
    {
      this.buf := buf;
      pos := 0;
      log := [];
      behind := Behind([], Unknown);
    }

    /** The same after a use of which we know: no byte is changed. */
    constructor Reuse(a: Area)
      requires a.Valid()
      ensures Valid() && buf == a.buf
      ensures var g := Emptied(Segment(a.log, 0, a.behind)); log == g.log && behind == g.behind
    {
      EmptiedDescribed(a.buf[..], Segment(a.log, 0, a.behind));
      buf := a.buf;
      pos := 0;
      log := [];
      behind := Behind(a.log + a.behind.es, a.behind.end);
      HoldsLength(a.buf[..], a.log);
    }

    /** memcpy into the data area. */
    method CopyIn(bytes: seq<byte>, p: nat)
      requires p + |bytes| <= buf.Length
      modifies buf
      ensures buf[p..p + |bytes|] == bytes
      ensures forall i :: (0 <= i < p || p + |bytes| <= i < buf.Length) ==> buf[i] == old(buf[i])
    {
      var i := 0;
      while i < |bytes|
        invariant i <= |bytes|
        invariant buf[p..p + i] == bytes[..i]
        invariant forall j :: (0 <= j < p || p + |bytes| <= j < buf.Length) ==> buf[j] == old(buf[j])
      {
        buf[p + i] := bytes[i];
        i := i + 1;
      }
    }

    /** The part of append_to_log that copies the entry behind the others. */
    method Append(e: Entry, pad: seq<byte>)
      requires Valid() && Storable(e) && |pad| == ENTRY_HEADER - BYTES_AT && DATA_SIZE - pos >= Size(e)
      modifies this, buf
      ensures Valid() && log == old(log) + [e] && behind == Past(old(behind), Size(e))
      ensures forall i :: (0 <= i < old(pos) || pos <= i < buf.Length) ==> buf[i] == old(buf[i])
    {
      hide HoldsAll, Holds, Encode, Described, Past;
      HoldsLength(buf[..], log);
      ghost var was := buf[..];
      CopyIn(Encode(e, pad), pos);
      assert buf[..][pos..pos + Size(e)] == Encode(e, pad);
      EncodedHolds(buf[..], pos, e, pad);
      AppendHolds(was, buf[..], log, e);
      AppendDescribed(was, buf[..], log, behind, e);
      BytesAppend(log, e);
      log := log + [e];
      behind := Past(behind, Size(e));
      pos := pos + Size(e);
    }

    /** The part of append_to_log that gives up the head: a zero length marks the end, if a header fits there.
        What is known of the bytes behind is then what LogState.EndHead says. */
    method Retire()
      requires Valid()
      modifies this`behind, buf
      ensures Valid() && EndsThere(buf[..], log)
      ensures behind == if DATA_SIZE - pos >= ENTRY_HEADER then Behind([], Stops) else old(behind)
    {
      hide HoldsAll, Described, Bytes;
      HoldsLength(buf[..], log);
      ghost var was := buf[..];
      if DATA_SIZE - pos >= ENTRY_HEADER {
        CopyIn([0, 0, 0, 0, 0, 0, 0, 0], pos + LENGTH_AT);
        assert buf[..][pos + LENGTH_AT..pos + LENGTH_AT + 8] == [0, 0, 0, 0, 0, 0, 0, 0];
        HoldsAllSame(was, buf[..], log);
        ZeroLengthEnds(buf[..], log);
        behind := Behind([], Stops);
      }
    }

    /** Mark entry `k`, which begins at `p`, as freed. */
    method MarkDead(p: nat, ghost k: nat)
      requires Valid() && k < |log| && p == Pos(log, k)
      modifies this`log, buf
      ensures Valid() && log == old(log)[k := old(log)[k].(dead := true)]
    {
      hide HoldsAll, Described;
      HoldsEntry(buf[..], log, k);
      ghost var was := buf[..];
      buf[p + MARK_AT] := 1;
      assert buf[..] == was[p + MARK_AT := 1];
      MarkHolds(was, buf[..], log, k);
      MarkDescribed(was, buf[..], log, behind, k);
      log := log[k := log[k].(dead := true)];
    }

    /** The scan that the cleaner and recovery make. */
    method Scan() returns (r: Parsed)
      requires buf.Length == DATA_SIZE
      ensures r == Parse(buf[..], 0)
    {
      hide Decode, Word;
      var p, found := 0, [];
      assert [] + Parse(buf[..], 0).entries == Parse(buf[..], 0).entries;
      while p < DATA_SIZE - ENTRY_HEADER
        invariant Parse(buf[..], 0) == var rest := Parse(buf[..], p); rest.(entries := found + rest.entries)
        decreases DATA_SIZE - p
      {
        var length := Word(buf[..], p + LENGTH_AT);
        if length == 0 {
          assert found + [] == found;
          return Ended(found);
        }
        if p + ENTRY_HEADER + length > DATA_SIZE {
          assert found + [] == found;
          return Overrun(found);
        }
        Regroup(found, Decode(buf[..], p), Parse(buf[..], p + ENTRY_HEADER + length).entries);
        found := found + [Decode(buf[..], p)];
        p := p + ENTRY_HEADER + length;
      }
      assert found + [] == found;
      r := Ended(found);
    }
  }

  /** A segment that was the head, with two entries, is used again by the cleaner for one entry as long as the first,
      and is given up without a zero length: a scan then yields the old second entry. */
  method StaleEntryIsScanned(buf: array<byte>, first: Entry, second: Entry, again: Entry, pad: seq<byte>)
      returns (r: Parsed)
    requires buf.Length == DATA_SIZE && |pad| == ENTRY_HEADER - BYTES_AT
    requires Storable(first) && Storable(second) && Storable(again)
    requires Size(first) + Size(second) <= DATA_SIZE && Size(again) == Size(first)
    modifies buf
    ensures |r.entries| >= 2 && r.entries[..2] == [again, second]
    ensures Size(first) + Size(second) + ENTRY_HEADER <= DATA_SIZE ==> r == Ended([again, second])
  {
    hide HoldsAll, Described, Past, Parse;
    BytesOne(first);
    BytesAppend([first], second);
    BytesOne(again);
    assert [] + [first] == [first] && [first] + [second] == [first, second] && [] + [again] == [again];
    var head := new Area(buf);
    head.Append(first, pad);
    head.Append(second, pad);
    head.Retire();
    var target := new Area.Reuse(head);
    target.Append(again, pad);
    OldSecond(head.behind, target.behind, first, second);
    r := target.Scan();
    StaleParse(buf[..], again, second, target.behind);
  }

  lemma OldSecond(was: Behind, now: Behind, first: Entry, second: Entry)
    requires now == Past(Behind([first, second] + was.es, was.end), Size(first))
    ensures now == Behind([second] + was.es, was.end)
  {
    var es := [first, second] + was.es;
    assert es[1..] == [second] + was.es;
    assert Past(Behind(es[1..], was.end), 0) == Behind(es[1..], was.end);
  }

  lemma StaleParse(b: seq<byte>, again: Entry, second: Entry, behind: Behind)
    requires Described(b, [again], behind) && behind.es != [] && behind.es[0] == second
    ensures |b| == DATA_SIZE
    ensures var r := Parse(b, 0);
            && |r.entries| >= 2 && r.entries[..2] == [again, second]
            && (behind == Behind([second], Stops) ==> r == Ended([again, second]))
  {
    hide HoldsAll, Parse, EndsThere;
    var log := [again] + behind.es;
    HoldsLength(b, log);
    ParseSuffix(b, log, 0);
    assert log[0..] == log;
    if behind == Behind([second], Stops) {
      assert log == [again, second];
      ScanIsExact(b, log);
    }
  }
}
