/** How many segments a log of a given size is divided into. */
module LogSize {
  import opened Layout

  /** What is left of a mapping for the log: the header is taken off once. */
  const MIN_LOG_LENGTH: nat := 5 * SEGMENT_SIZE

  /** Segments that initialisation carves: its loop counts up to the size less the reserve and one more segment. */
  function Carved(size: nat): (n: nat)
    requires size >= MIN_LOG_LENGTH
    ensures 4 <= n <= size / SEGMENT_SIZE
  {
    (size - (RESERVE + 1) * SEGMENT_SIZE + SEGMENT_SIZE - 1) / SEGMENT_SIZE + RESERVE
  }

  /** Segments that the consistency check expects, which takes the header off once more. */
  function Expected(size: nat): nat
    requires size >= MIN_LOG_LENGTH
  {
    (size - LOG_HEADER) / SEGMENT_SIZE
  }

  /** All segments that are carved lie within the mapping. */
  lemma CarvedInBounds(size: nat)
    requires size >= MIN_LOG_LENGTH
    ensures LOG_HEADER + Carved(size) * SEGMENT_SIZE <= LOG_HEADER + size
  {
  }

  /** The two counts agree unless the log exceeds a whole number of segments by less than a header. */
  lemma CarvedAsExpected(size: nat)
    requires size >= MIN_LOG_LENGTH
    ensures Carved(size) == Expected(size) <==> size % SEGMENT_SIZE == 0 || LOG_HEADER <= size % SEGMENT_SIZE
  {
    var q, r := size / SEGMENT_SIZE, size % SEGMENT_SIZE;
    assert size == q * SEGMENT_SIZE + r;
    assert Carved(size) == if r == 0 then q - 1 else q;
    assert Expected(size) == if r < LOG_HEADER then q - 1 else q;
  }

  /** So they agree for every mapping that is a whole number of pages. */
  lemma PagesAreConsistent(pages: nat)
    requires pages * SEGMENT_SIZE >= LOG_HEADER + MIN_LOG_LENGTH
    ensures var size := pages * SEGMENT_SIZE - LOG_HEADER; Carved(size) == Expected(size) == pages - 1
  {
    var size := pages * SEGMENT_SIZE - LOG_HEADER;
    assert size == (pages - 1) * SEGMENT_SIZE + (SEGMENT_SIZE - LOG_HEADER);
    CarvedAsExpected(size);
  }
}
