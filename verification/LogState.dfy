/** The heap as a value, and what each operation makes of it.

    Lists of segments are sequences of segment numbers, a segment is the sequence of entries written in its present use,
    with what a scan would find behind them, and the table gives the place of the newest version of every object. The
    state includes what the cleaner thread keeps in its local variables.
 */
module LogState {
  import opened Wrappers
  import opened Layout
  import opened Lists

  /** What is known of the bytes behind a run of entries: all zero, or at their beginning something that ends a scan (a
      zero length, or too little space for a header), or nothing at all. */
  datatype End = Zeros | Stops | Unknown

  /** What a scan comes to behind the entries of a segment: entries from an earlier use, and then `end`. */
  datatype Behind = Behind(es: seq<Entry>, end: End)

  datatype Segment = Segment(log: seq<Entry>, used: nat, behind: Behind)

  /** All that a scan of the segment reads. */
  function Seen(g: Segment): seq<Entry> {
    g.log + g.behind.es
  }

  /** Behind that the scan is known to end. */
  predicate EndKnown(g: Segment) {
    g.behind.end != Unknown || Bytes(Seen(g)) >= DATA_SIZE - ENTRY_HEADER
  }

  /** A scan reads the segment's own entries, and ends. */
  predicate Terminated(g: Segment) {
    g.behind.es == [] && EndKnown(g)
  }

  /** What is behind when the next `n` bytes have been written over: old entries whose beginning survives at the place
      where a scan will go on. */
  function Past(b: Behind, n: nat): (c: Behind)
    decreases |b.es|
  {
    if n == 0 then b
    else if b.es == [] then Behind([], if b.end == Zeros then Zeros else Unknown)
    else if Size(b.es[0]) <= n then Past(Behind(b.es[1..], b.end), n - Size(b.es[0]))
    else Behind([], Unknown)
  }

  /** Entry number `idx` of segment `seg`. */
  datatype Loc = Loc(seg: nat, idx: nat)

  /** Where the cleaner thread is. */
  datatype Phase =
    | Start                                   // has no target segment yet
    | Walk(at: Option<nat>)                   // about to look at a used segment
    | Scan(seg: nat, k: nat)                  // about to look at entry `k` of `seg`
    | Retire(seg: nat, next: Option<nat>)     // about to recycle `seg`, then to walk on

  datatype State = State(
    segs: seq<Segment>,
    head: Option<nat>,
    headPos: nat,
    free: seq<nat>,
    used: seq<nat>,
    cleaner: seq<nat>,
    emergency: seq<nat>,
    reserve: nat,
    table: map<nat, Loc>,
    phase: Phase,
    target: nat,
    targetPos: nat)

  ghost predicate ValidLoc(s: State, l: Loc) {
    l.seg < |s.segs| && l.idx < |s.segs[l.seg].log|
  }

  function At(s: State, l: Loc): Entry
    requires ValidLoc(s, l)
  {
    s.segs[l.seg].log[l.idx]
  }

  /** Every number the lists mention is a segment. */
  ghost predicate InRange(s: State) {
    && (s.head.Some? ==> s.head.value < |s.segs|)
    && (forall x :: x in s.free ==> x < |s.segs|)
    && (forall x :: x in s.used ==> x < |s.segs|)
    && (forall x :: x in s.cleaner ==> x < |s.segs|)
    && (forall x :: x in s.emergency ==> x < |s.segs|)
  }

  /** What the operations need in order not to go through a wild pointer. */
  ghost predicate Sane(s: State) {
    && InRange(s)
    && (forall id :: id in s.table ==> ValidLoc(s, s.table[id]))
    && (!s.phase.Start? ==> s.target < |s.segs| && s.target in s.cleaner)
    && (match s.phase
        case Start => true
        case Walk(at) => at.Some? ==> at.value in s.used
        case Scan(c, k) => c in s.used && c < |s.segs| && k <= |Seen(s.segs[c])| && s.target != c
        case Retire(c, _) => c in s.used)
  }

  /** The newest version of each object. */
  ghost function Current(s: State): map<nat, Entry>
    requires forall id :: id in s.table ==> ValidLoc(s, s.table[id])
  {
    map id | id in s.table :: At(s, s.table[id])
  }

  ghost function DataOf(c: map<nat, Entry>): map<nat, seq<byte>> {
    map id | id in c :: c[id].data
  }

  /** Objects and their bytes: all that clients see. */
  ghost function Objects(s: State): map<nat, seq<byte>>
    requires forall id :: id in s.table ==> ValidLoc(s, s.table[id])
  {
    DataOf(Current(s))
  }

  lemma DataOfChanged(c: map<nat, Entry>, id: nat, e: Entry)
    ensures DataOf(c[id := e]) == DataOf(c)[id := e.data] && DataOf(c - {id}) == DataOf(c) - {id}
  {
  }

  // ---------- the log ----------

  datatype Result = Result(s: State, ok: bool)

  /** The head segment, if any, joins the used list and a free segment, if any, becomes the head. */
  function NextHead(s: State): (r: Result)
    ensures InRange(s) ==> InRange(r.s)
    ensures r.ok ==> r.s.head.Some?
  {
    var used := if s.head.Some? then s.used + [s.head.value] else s.used;
    if s.free == [] then
      Result(s.(used := used, head := None), false)
    else
      assert s.free[0] in s.free && forall x :: x in s.free[1..] ==> x in s.free;
      Result(s.(used := used, head := Some(s.free[0]), free := s.free[1..], headPos := 0), true)
  }

  /** Before the head is given up, a zero length is written behind its entries, if a header fits there. */
  function EndHead(s: State): (t: State)
    ensures InRange(s) ==> InRange(t)
  {
    if s.head.Some? && s.head.value < |s.segs| && DATA_SIZE - s.headPos >= ENTRY_HEADER then
      var h := s.head.value;
      s.(segs := s.segs[h := s.segs[h].(behind := Behind([], Stops))])
    else s
  }

  /** A head segment with room for `size` more bytes, changing the head when there is need to. */
  function MakeRoom(s: State, size: nat): (r: Result)
    ensures InRange(s) ==> InRange(r.s)
    ensures r.ok ==> r.s.head.Some?
  {
    var r := if s.head.None? then NextHead(s) else Result(s, true);
    if r.ok && DATA_SIZE - r.s.headPos < size then NextHead(EndHead(r.s)) else r
  }

  function WriteEntry(s: State, i: nat, e: Entry): State
    requires i < |s.segs|
  {
    var g := s.segs[i];
    s.(segs := s.segs[i := Segment(g.log + [e], g.used + Size(e), Past(g.behind, Size(e)))])
  }

  /** Write `e` at the end of the log and let the table point to it. */
  function Publish(s: State, e: Entry): Result
    requires InRange(s)
  {
    var r := MakeRoom(s, Size(e));
    if !r.ok then r
    else
      var h := r.s.head.value;
      var w := WriteEntry(r.s, h, e);
      Result(w.(headPos := w.headPos + Size(e), table := w.table[e.id := Loc(h, |r.s.segs[h].log|)]), true)
  }

  // ---------- client operations ----------

  function New(s: State, id: nat, data: seq<byte>): Result
    requires InRange(s)
  {
    if data == [] then Result(s, false) else Publish(s, Entry(id, 1, data, false))
  }

  /** Take the size of the entry at `l` off its segment's count. */
  function Discount(s: State, l: Loc): State
    requires ValidLoc(s, l)
  {
    var g := s.segs[l.seg];
    s.(segs := s.segs[l.seg := g.(used := Sub64(g.used, Size(At(s, l))))])
  }

  function Update(s: State, id: nat, data: seq<byte>): Result
    requires Sane(s)
  {
    if data == [] || id !in s.table then Result(s, false)
    else
      var e := At(s, s.table[id]);
      Publish(Discount(s, s.table[id]), e.(version := e.version + 1, data := data))
  }

  function Put(s: State, id: nat, data: seq<byte>): Result
    requires Sane(s)
  {
    if data != [] && id in s.table then Update(s, id, data) else New(s, id, data)
  }

  function Mark(s: State, l: Loc): State
    requires ValidLoc(s, l)
  {
    var g := s.segs[l.seg];
    s.(segs := s.segs[l.seg := g.(log := g.log[l.idx := g.log[l.idx].(dead := true)])])
  }

  function Free(s: State, id: nat): (r: State)
    requires Sane(s)
    ensures forall x :: x in r.table ==> ValidLoc(r, r.table[x])
  {
    if id !in s.table then s
    else
      var m := Discount(Mark(s, s.table[id]), s.table[id]);
      m.(table := m.table - {id})
  }

  // ---------- the cleaner ----------

  /** Take a segment for the cleaner: a free one, failing that one of the reserve. */
  function NewTarget(s: State): (r: Result)
    ensures InRange(s) && r.ok ==> r.s.target < |r.s.segs|
  {
    if s.free != [] then
      assert s.free[0] in s.free;
      Result(s.(cleaner := s.cleaner + [s.free[0]], free := s.free[1..], target := s.free[0], targetPos := 0), true)
    else if s.emergency != [] then
      assert s.emergency[0] in s.emergency;
      Result(s.(cleaner := s.cleaner + [s.emergency[0]], emergency := s.emergency[1..],
                reserve := Sub64(s.reserve, 1), target := s.emergency[0], targetPos := 0), true)
    else
      Result(s, false)
  }

  /** The cleaner segment `c` joins the used list. */
  function CleanerToUsed(s: State, c: nat): (t: State)
    requires c in s.cleaner
    ensures InRange(s) ==> InRange(t)
  {
    s.(cleaner := Remove(s.cleaner, c), used := s.used + [c])
  }

  function Emptied(g: Segment): Segment {
    Segment([], 0, Behind(Seen(g), g.behind.end))
  }

  /** The used segment `c` is emptied and goes to the reserve, or to the free list if that is full. Its bytes stay. */
  function Recycle(s: State, c: nat): State
    requires c in s.used && c < |s.segs|
  {
    var t := s.(used := Remove(s.used, c), segs := s.segs[c := Emptied(s.segs[c])]);
    if s.reserve < RESERVE then
      t.(emergency := t.emergency + [c], reserve := t.reserve + 1)
    else
      t.(free := t.free + [c])
  }

  predicate WorthCleaning(s: State, c: nat)
    requires c < |s.segs|
  {
    s.segs[c].used < HALF_SEGMENT
  }

  datatype Outcome =
    | Continue(s: State)
    | NullEntry       // dereferences the table's answer for an id that the table does not have
    | NoTarget        // waits for a target segment while holding the mutex that frees need
    | OldBytes        // reads bytes behind the entries of which nothing is known

  /** The target with room for `size` bytes, changing it when there is need to. */
  function TargetRoom(s: State, size: nat): Result
    requires s.target in s.cleaner
  {
    if DATA_SIZE - s.targetPos < size then NewTarget(CleanerToUsed(s, s.target)) else Result(s, true)
  }

  /** Copy entry `e` behind what the target holds, and let the table point to the copy. */
  function CopyToTarget(s: State, e: Entry): State
    requires s.target < |s.segs|
  {
    var w := WriteEntry(s, s.target, e);
    w.(targetPos := w.targetPos + Size(e), table := w.table[e.id := Loc(s.target, |s.segs[s.target].log|)])
  }

  /** The cleaner's work on one entry, done under the update/move mutex. */
  function CleanEntry(s: State, c: nat, k: nat): Outcome
    requires Sane(s) && s.phase == Scan(c, k) && k < |Seen(s.segs[c])|
  {
    var e := Seen(s.segs[c])[k];
    var skip := s.(phase := Scan(c, k + 1));
    if e.dead then Continue(skip)
    else if e.id !in s.table then NullEntry
    else if e.version < At(s, s.table[e.id]).version then Continue(skip)
    else
      var r := TargetRoom(skip, Size(e));
      if !r.ok then NoTarget
      else Continue(CopyToTarget(r.s, e))
  }

  /** One step of the cleaner thread. */
  function Clean(s: State): Outcome
    requires Sane(s)
  {
    match s.phase
    case Start =>
      var r := NewTarget(s);
      Continue(if r.ok then r.s.(phase := Walk(None)) else s)
    case Walk(None) =>
      Continue(s.(phase := Walk(if s.used == [] then None else Some(s.used[0]))))
    case Walk(Some(c)) =>
      if !WorthCleaning(s, c) then Continue(s.(phase := Walk(After(s.used, c))))
      else if s.segs[c].used != 0 then Continue(s.(phase := Scan(c, 0)))
      else Continue(s.(phase := Retire(c, After(s.used, c))))
    case Scan(c, k) =>
      if k < |Seen(s.segs[c])| then CleanEntry(s, c, k)
      else if EndKnown(s.segs[c]) then Continue(s.(phase := Retire(c, After(s.used, c))))
      else OldBytes
    case Retire(c, next) =>
      Continue(Recycle(s, c).(phase := Walk(next)))
  }
}
