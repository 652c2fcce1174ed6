/** Sizes, addresses and log entries of the log-structured heap.

    The numbers are those the structures have on a 64-bit machine: a mapping is a log header, followed by equally long
    segments, each a segment header followed by a data area in which entries lie back to back.
 */
module Layout {
  const LOG_HEADER: nat := 128
  const SEGMENT_SIZE: nat := 4096
  const SEGMENT_HEADER: nat := 24
  const ENTRY_HEADER: nat := 32

  /** Bytes a segment has for entries. */
  const DATA_SIZE: nat := SEGMENT_SIZE - SEGMENT_HEADER

  /** A used segment counting fewer bytes than this is worth cleaning. */
  const HALF_SEGMENT: nat := SEGMENT_SIZE / 2

  /** How many segments are kept back for the cleaner. */
  const RESERVE: nat := 1

  const TWO_64: nat := 0x1_0000_0000_0000_0000

  type byte = x: int | 0 <= x < 256

  /** One version of one object. `dead` is the mark set when the object is freed. */
  datatype Entry = Entry(id: nat, version: nat, data: seq<byte>, dead: bool)

  function Size(e: Entry): nat {
    ENTRY_HEADER + |e.data|
  }

  /** Total size of a run of entries. */
  function Bytes(log: seq<Entry>): nat {
    if log == [] then 0 else Bytes(log[..|log| - 1]) + Size(log[|log| - 1])
  }

  /** Position, in the data area, of entry `k`. */
  function Pos(log: seq<Entry>, k: nat): nat
    requires k <= |log|
  {
    Bytes(log[..k])
  }

  /** Subtraction as `size_t` does it. */
  function Sub64(a: nat, b: nat): nat {
    if b <= a then a - b else (a - b) % TWO_64
  }

  lemma BytesAppend(log: seq<Entry>, e: Entry)
    ensures Bytes(log + [e]) == Bytes(log) + Size(e)
  {
    assert (log + [e])[..|log|] == log;
  }

  lemma BytesNone()
    ensures Bytes([]) == 0
  {
  }

  lemma BytesOne(e: Entry)
    ensures Bytes([e]) == Size(e)
  {
    assert [e][..0] == [];
  }

  lemma {:induction false} BytesConcat(a: seq<Entry>, b: seq<Entry>)
    ensures Bytes(a + b) == Bytes(a) + Bytes(b)
    decreases |b|
  {
    if b == [] {
      assert a + b == a;
    } else {
      var n := |b| - 1;
      assert (a + b)[..|a + b| - 1] == a + b[..n];
      BytesConcat(a, b[..n]);
    }
  }

  lemma PosStep(log: seq<Entry>, k: nat)
    requires k < |log|
    ensures Pos(log, k + 1) == Pos(log, k) + Size(log[k])
  {
    assert log[..k + 1][..k] == log[..k];
  }

  /** Entries lie back to back: an earlier one ends where, or before, a later one starts. */
  lemma {:induction false} PosMonotone(log: seq<Entry>, j: nat, k: nat)
    requires j < k <= |log|
    ensures Pos(log, j) + Size(log[j]) <= Pos(log, k)
    decreases k
  {
    PosStep(log, k - 1);
    if j < k - 1 {
      PosMonotone(log, j, k - 1);
    }
  }

  lemma PosEnd(log: seq<Entry>)
    ensures Pos(log, |log|) == Bytes(log)
  {
    assert log[..|log|] == log;
  }
}
