/** Why the headers have the sizes they have: the structures as a compiler for a 64-bit machine lays them out. */
module Structs {
  import opened Layout
  import opened SegmentBytes

  /** A member takes so many bytes, and begins at a multiple of its alignment. */
  datatype Member = Member(size: nat, align: nat)

  const WORD := Member(8, 8)
  const FLAG := Member(1, 1)

  /** LOG_SIGNATURE with the zero behind it. */
  const SIGNATURE := Member(|"log is initialized"| + 1, 1)

  function RoundUp(n: nat, align: nat): nat {
    if align == 0 then n else (n + align - 1) / align * align
  }

  /** Where the first `k` members end. */
  function End(members: seq<Member>, k: nat): nat
    requires k <= |members|
  {
    if k == 0 then 0 else RoundUp(End(members, k - 1), members[k - 1].align) + members[k - 1].size
  }

  /** Where a member begins that comes behind them. */
  function Offset(members: seq<Member>, k: nat, align: nat): nat
    requires k <= |members|
  {
    RoundUp(End(members, k), align)
  }

  /** All these structures have words, so their size is a multiple of a word's. */
  function SizeOf(members: seq<Member>): nat {
    Offset(members, |members|, WORD.align)
  }

  /** id, version, length, to_delete; then the bytes. */
  const LOG_ENTRY: seq<Member> := [WORD, WORD, WORD, FLAG]

  /** id, next_segment, used_space; then the entries. */
  const SEGMENT: seq<Member> := [WORD, WORD, WORD]

  /** signature, regular_termination, nine offsets of segments, current_id, head_position and two counts. */
  const LOG: seq<Member> := [SIGNATURE, FLAG] + Words(13)

  function Words(n: nat): (w: seq<Member>)
    ensures |w| == n && forall i :: 0 <= i < n ==> w[i] == WORD
  {
    if n == 0 then [] else Words(n - 1) + [WORD]
  }

  /** Words lie one behind the other. */
  lemma {:induction false} WordsEnd(members: seq<Member>, from: nat, k: nat)
    requires from + k <= |members| && forall i :: from <= i < from + k ==> members[i] == WORD
    ensures k > 0 ==> End(members, from + k) == RoundUp(End(members, from), 8) + 8 * k
  {
    if k > 1 {
      WordsEnd(members, from, k - 1);
      assert End(members, from + k) == RoundUp(End(members, from + k - 1), 8) + 8;
      RoundedUp(End(members, from), k - 1);
    } else if k == 1 {
      assert End(members, from + 1) == RoundUp(End(members, from), 8) + 8;
    }
  }

  lemma RoundedUp(n: nat, k: nat)
    ensures RoundUp(RoundUp(n, 8) + 8 * k, 8) == RoundUp(n, 8) + 8 * k
  {
  }

  /** The header of an entry, and where its fields and the object's bytes are. */
  lemma EntryLayout()
    ensures SizeOf(LOG_ENTRY) == ENTRY_HEADER
    ensures Offset(LOG_ENTRY, 0, WORD.align) == 0 && Offset(LOG_ENTRY, 1, WORD.align) == 8
    ensures Offset(LOG_ENTRY, 2, WORD.align) == LENGTH_AT && Offset(LOG_ENTRY, 3, FLAG.align) == MARK_AT
    ensures Offset(LOG_ENTRY, 4, 1) == BYTES_AT
  {
    assert End(LOG_ENTRY, 0) == 0;
    WordsEnd(LOG_ENTRY, 0, 1);
    WordsEnd(LOG_ENTRY, 0, 2);
    WordsEnd(LOG_ENTRY, 0, 3);
    assert End(LOG_ENTRY, 4) == RoundUp(End(LOG_ENTRY, 3), 1) + 1;
  }

  /** The headers of a segment and of the log; the entries of a segment begin right behind its header, and the first
      segment right behind that of the log. */
  lemma HeaderSizes()
    ensures SizeOf(SEGMENT) == SEGMENT_HEADER && SizeOf(LOG) == LOG_HEADER
    ensures DATA_SIZE == SEGMENT_SIZE - SizeOf(SEGMENT)
  {
    assert End(SEGMENT, 0) == 0 && End(LOG, 0) == 0;
    WordsEnd(SEGMENT, 0, 3);
    assert |"log is initialized"| == 18;
    assert LOG[0] == SIGNATURE && LOG[1] == FLAG;
    assert End(LOG, 1) == RoundUp(End(LOG, 0), 1) + 19;
    assert End(LOG, 2) == RoundUp(End(LOG, 1), 1) + 1;
    WordsEnd(LOG, 2, 13);
  }
}
