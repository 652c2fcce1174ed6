/** The mutexes: every operation takes them in one order and gives them all back, so no threads can wait for each other
    in a circle; and whatever it does to what threads share it does while it holds the mutex that is for that. */
module LockOrder {
  import opened Wrappers
  import opened Layout
  import opened Lists
  import opened LogState
  import opened LogInvariant
  import opened LogRuns

  datatype Mutex = UpdateMove | CleanerSegs | UsedSegs | FreeSegs | EmergencySegs | CurrCleaned

  /** What is done to what threads share: a segment is moved from one list to another; the cleaner follows the used list
      or claims a segment for cleaning; an object that there is already is changed: its table entry, its mark, the count
      of its segment. */
  datatype Effect =
    | HeadToUsed | FreeToHead | FreeToCleaner | ReserveToCleaner | TargetToUsed | UsedToReserve | UsedToFree
    | NextUsed | Claim | Object

  /** The mutexes that must be held: those of both lists. */
  function Guard(e: Effect): set<Mutex> {
    match e
    case HeadToUsed => {UsedSegs}
    case FreeToHead => {FreeSegs}
    case FreeToCleaner => {CleanerSegs, FreeSegs}
    case ReserveToCleaner => {CleanerSegs, EmergencySegs}
    case TargetToUsed => {CleanerSegs, UsedSegs}
    case UsedToReserve => {UsedSegs, EmergencySegs}
    case UsedToFree => {UsedSegs, FreeSegs}
    case NextUsed => {UsedSegs}
    case Claim => {CurrCleaned}
    case Object => {UpdateMove}
  }

  datatype Act = Lock(m: Mutex) | Unlock(m: Mutex) | Do(e: Effect)

  const TOP := 4

  function Rank(m: Mutex): (r: nat)
    ensures r <= TOP
  {
    match m
    case UpdateMove => 0
    case CleanerSegs => 1
    case UsedSegs => 2
    case FreeSegs => 3
    case EmergencySegs => 3
    case CurrCleaned => 4
  }

  /** All that is held ranks below `m`. */
  predicate Below(held: set<Mutex>, m: Mutex) {
    forall x :: x in held ==> Rank(x) < Rank(m)
  }

  /** What is held after this act, if it is in order: a mutex is taken above all held ones, only held ones are given
      back, and everything is done under its mutexes. */
  function Acted(held: set<Mutex>, a: Act): Option<set<Mutex>> {
    match a
    case Lock(m) => if Below(held, m) then Some(held + {m}) else None
    case Unlock(m) => if m in held then Some(held - {m}) else None
    case Do(e) => if Guard(e) <= held then Some(held) else None
  }

  /** What is held after these acts, if all are in order. */
  function Held(held: set<Mutex>, acts: seq<Act>): Option<set<Mutex>>
    decreases |acts|
  {
    if acts == [] then Some(held)
    else match Acted(held, acts[0])
         case Some(h) => Held(h, acts[1..])
         case None => None
  }

  // ---------- the paths through the code ----------

  /** append_head_to_used_segments_and_get_new_head_segment: whether there is a head is read without a mutex, and so is
      whether there is a free segment. */
  datatype HeadChange = HeadChange(head: bool, free: bool)

  /** get_new_cleaner_segment: it finds none, or a free one, or one of the reserve. */
  datatype Attempt = FindsNone | TakesFree | TakesReserve

  /** A way through one operation, whatever other threads make its tests come to on the way. */
  datatype Path =
    | Nothing                                                      // returns before it takes a mutex
    | Append(changes: seq<HeadChange>)                             // palloc, or storing under a new id
    | Missing                                                      // update_data or pfree, and there is no such object
    | Change(changes: seq<HeadChange>, appended: bool)             // update_data, or storing under an old id
    | Mark                                                         // pfree
    | AwaitTarget(attempts: seq<Attempt>)                          // the start of the cleaner
    | WalkOn                                                       // on to the next used segment
    | Enter(scan: bool)                                            // a segment worth cleaning
    | Copy(copy: bool, change: bool, attempts: seq<Attempt>)       // one entry
    | Leave                                                        // the end of a scan
    | Return(found: bool, refill: bool)                            // recycling

  /** Done under one mutex. */
  function Under(m: Mutex, e: Effect): seq<Act> {
    [Lock(m), Do(e), Unlock(m)]
  }

  /** Done under two, given back in the reverse order. */
  function Nested(m: Mutex, n: Mutex, e: Effect): seq<Act> {
    [Lock(m), Lock(n), Do(e), Unlock(n), Unlock(m)]
  }

  /** Done under two, given back in the order in which they were taken. */
  function Crossed(m: Mutex, n: Mutex, e: Effect): seq<Act> {
    [Lock(m), Lock(n), Do(e), Unlock(m), Unlock(n)]
  }

  function ChangeActs(c: HeadChange): seq<Act> {
    (if c.head then Under(UsedSegs, HeadToUsed) else []) + (if c.free then Under(FreeSegs, FreeToHead) else [])
  }

  function ChangesActs(cs: seq<HeadChange>): seq<Act> {
    if cs == [] then [] else ChangeActs(cs[0]) + ChangesActs(cs[1..])
  }

  function AttemptActs(a: Attempt): seq<Act> {
    match a
    case FindsNone => []
    case TakesFree => Nested(CleanerSegs, FreeSegs, FreeToCleaner)
    case TakesReserve => Nested(CleanerSegs, EmergencySegs, ReserveToCleaner)
  }

  function AttemptsActs(attempts: seq<Attempt>): seq<Act> {
    if attempts == [] then [] else AttemptActs(attempts[0]) + AttemptsActs(attempts[1..])
  }

  /** Between taking the update/move mutex and giving it back. */
  function UnderMove(acts: seq<Act>): seq<Act> {
    [Lock(UpdateMove)] + acts + [Unlock(UpdateMove)]
  }

  /** What is done on the way, and with which mutexes. Recycling that does not find its segment returns without giving
      one back. */
  function Acts(p: Path): seq<Act> {
    match p
    case Nothing => []
    case Append(changes) => ChangesActs(changes)
    case Missing => UnderMove([])
    case Change(changes, appended) =>
      UnderMove([Do(Object)] + ChangesActs(changes) + if appended then [Do(Object)] else [])
    case Mark => UnderMove([Do(Object)])
    case AwaitTarget(attempts) => AttemptsActs(attempts)
    case WalkOn => Under(UsedSegs, NextUsed)
    case Enter(scan) => Under(CurrCleaned, Claim) + if scan then [] else Under(UsedSegs, NextUsed)
    case Copy(copy, change, attempts) =>
      UnderMove(if copy then TargetActs(change, attempts) + [Do(Object)] else [])
    case Leave => Under(UsedSegs, NextUsed)
    case Return(found, refill) =>
      if !found then [Lock(UsedSegs)]
      else if refill then Nested(UsedSegs, EmergencySegs, UsedToReserve)
      else Crossed(UsedSegs, FreeSegs, UsedToFree)
  }

  function TargetActs(change: bool, attempts: seq<Attempt>): seq<Act> {
    if change then Crossed(CleanerSegs, UsedSegs, TargetToUsed) + AttemptsActs(attempts) else []
  }

  /** Whatever is recycled is found. */
  predicate Complete(p: Path) {
    p.Return? ==> p.found
  }

  // ---------- the path an operation takes when nothing interferes ----------

  function ChangeFrom(s: State): HeadChange {
    HeadChange(s.head.Some?, s.free != [])
  }

  function ChangesFor(s: State, size: nat): seq<HeadChange> {
    var r := if s.head.None? then NextHead(s) else Result(s, true);
    (if s.head.None? then [ChangeFrom(s)] else [])
        + (if r.ok && DATA_SIZE - r.s.headPos < size then [ChangeFrom(EndHead(r.s))] else [])
  }

  function AttemptFrom(s: State): Attempt {
    if s.free != [] then TakesFree else if s.emergency != [] then TakesReserve else FindsNone
  }

  function UpdatePath(s: State, id: nat, data: seq<byte>): Path
    requires Sane(s)
  {
    if data == [] then Nothing
    else if id !in s.table then Missing
    else Change(ChangesFor(Discount(s, s.table[id]), ENTRY_HEADER + |data|), Update(s, id, data).ok)
  }

  function NewPath(s: State, data: seq<byte>): Path {
    if data == [] then Nothing else Append(ChangesFor(s, ENTRY_HEADER + |data|))
  }

  function CleanEntryPath(s: State, c: nat, k: nat): Path
    requires Sane(s) && s.phase == Scan(c, k) && k < |Seen(s.segs[c])|
  {
    var e := Seen(s.segs[c])[k];
    if e.dead || (e.id in s.table && e.version < At(s, s.table[e.id]).version) then Copy(false, false, [])
    else if DATA_SIZE - s.targetPos < Size(e) then Copy(true, true, [AttemptFrom(CleanerToUsed(s, s.target))])
    else Copy(true, false, [])
  }

  function CleanPath(s: State): Path
    requires Sane(s)
  {
    match s.phase
    case Start => AwaitTarget([AttemptFrom(s)])
    case Walk(None) => Nothing
    case Walk(Some(c)) => if !WorthCleaning(s, c) then WalkOn else Enter(s.segs[c].used != 0)
    case Scan(c, k) => if k < |Seen(s.segs[c])| then CleanEntryPath(s, c, k) else Leave
    case Retire(c, _) => Return(c in s.used, s.reserve < RESERVE)
  }

  function PathOf(s: State, op: Op): Path
    requires Sane(s)
  {
    match op
    case Palloc(_, data) => NewPath(s, data)
    case PallocWithId(id, data) => if data != [] && id in s.table then UpdatePath(s, id, data) else NewPath(s, data)
    case UpdateData(id, data) => UpdatePath(s, id, data)
    case Pfree(id) => if id in s.table then Mark else Missing
    case CleanerStep => CleanPath(s)
  }

  // ---------- every path keeps to the order ----------

  lemma {:induction false} HeldConcat(held: set<Mutex>, a: seq<Act>, b: seq<Act>)
    ensures Held(held, a + b) == match Held(held, a) { case Some(h) => Held(h, b) case None => None }
    decreases |a|
  {
    if a == [] {
      assert a + b == b;
    } else {
      assert (a + b)[1..] == a[1..] + b;
      if Acted(held, a[0]).Some? {
        HeldConcat(Acted(held, a[0]).value, a[1..], b);
      }
    }
  }

  lemma HeldNone(held: set<Mutex>)
    ensures Held(held, []) == Some(held)
  {
  }

  lemma HeldOne(held: set<Mutex>, a: Act)
    ensures Held(held, [a]) == Acted(held, a)
  {
    assert [a][1..] == [];
  }

  /** Two acts that are in order one after the other. */
  lemma Then(held: set<Mutex>, a: seq<Act>, mid: set<Mutex>, b: seq<Act>, end: set<Mutex>)
    requires Held(held, a) == Some(mid) && Held(mid, b) == Some(end)
    ensures Held(held, a + b) == Some(end)
  {
    HeldConcat(held, a, b);
  }

  /** A mutex above all held ones may be taken, for what it is for, and given back. */
  lemma UnderHeld(held: set<Mutex>, m: Mutex, e: Effect)
    requires Below(held, m) && Guard(e) == {m}
    ensures Held(held, Under(m, e)) == Some(held)
  {
    hide Held;
    HeldOne(held, Lock(m));
    HeldOne(held + {m}, Do(e));
    HeldOne(held + {m}, Unlock(m));
    Then(held, [Lock(m)], held + {m}, [Do(e)], held + {m});
    Then(held, [Lock(m)] + [Do(e)], held + {m}, [Unlock(m)], held + {m} - {m});
    assert Under(m, e) == [Lock(m)] + [Do(e)] + [Unlock(m)] && held + {m} - {m} == held;
  }

  /** Two mutexes, taken one after the other, may be given back in either order. */
  lemma BothHeld(held: set<Mutex>, m: Mutex, n: Mutex, e: Effect)
    requires Below(held, m) && Rank(m) < Rank(n) && Guard(e) == {m, n}
    ensures Held(held, Nested(m, n, e)) == Some(held) && Held(held, Crossed(m, n, e)) == Some(held)
  {
    hide Held;
    var h, l := held + {m} + {n}, [Lock(m)] + [Lock(n)] + [Do(e)];
    HeldOne(held, Lock(m));
    HeldOne(held + {m}, Lock(n));
    HeldOne(h, Do(e));
    HeldOne(h, Unlock(m));
    HeldOne(h - {m}, Unlock(n));
    HeldOne(h, Unlock(n));
    HeldOne(h - {n}, Unlock(m));
    Then(held, [Lock(m)], held + {m}, [Lock(n)], h);
    Then(held, [Lock(m)] + [Lock(n)], h, [Do(e)], h);
    Then(held, l, h, [Unlock(m)], h - {m});
    Then(held, l + [Unlock(m)], h - {m}, [Unlock(n)], h - {m} - {n});
    Then(held, l, h, [Unlock(n)], h - {n});
    Then(held, l + [Unlock(n)], h - {n}, [Unlock(m)], h - {n} - {m});
    assert h - {m} - {n} == held && h - {n} - {m} == held;
    assert Nested(m, n, e) == l + [Unlock(n)] + [Unlock(m)] && Crossed(m, n, e) == l + [Unlock(m)] + [Unlock(n)];
  }

  lemma ChangeHeld(held: set<Mutex>, c: HeadChange)
    requires held <= {UpdateMove}
    ensures Held(held, ChangeActs(c)) == Some(held)
  {
    hide Held, Under;
    HeldNone(held);
    UnderHeld(held, UsedSegs, HeadToUsed);
    UnderHeld(held, FreeSegs, FreeToHead);
    HeldConcat(held, if c.head then Under(UsedSegs, HeadToUsed) else [],
        if c.free then Under(FreeSegs, FreeToHead) else []);
  }

  lemma {:induction false} ChangesHeld(held: set<Mutex>, cs: seq<HeadChange>)
    requires held <= {UpdateMove}
    ensures Held(held, ChangesActs(cs)) == Some(held)
  {
    hide Held, ChangeActs;
    HeldNone(held);
    if cs != [] {
      ChangeHeld(held, cs[0]);
      ChangesHeld(held, cs[1..]);
      HeldConcat(held, ChangeActs(cs[0]), ChangesActs(cs[1..]));
    }
  }

  lemma {:induction false} AttemptsHeld(held: set<Mutex>, attempts: seq<Attempt>)
    requires held <= {UpdateMove}
    ensures Held(held, AttemptsActs(attempts)) == Some(held)
  {
    hide Held, Nested;
    HeldNone(held);
    if attempts != [] {
      BothHeld(held, CleanerSegs, FreeSegs, FreeToCleaner);
      BothHeld(held, CleanerSegs, EmergencySegs, ReserveToCleaner);
      AttemptsHeld(held, attempts[1..]);
      HeldConcat(held, AttemptActs(attempts[0]), AttemptsActs(attempts[1..]));
    }
  }

  lemma TargetHeld(held: set<Mutex>, change: bool, attempts: seq<Attempt>)
    requires held <= {UpdateMove}
    ensures Held(held, TargetActs(change, attempts)) == Some(held)
  {
    hide Held, Crossed;
    HeldNone(held);
    BothHeld(held, CleanerSegs, UsedSegs, TargetToUsed);
    AttemptsHeld(held, attempts);
    HeldConcat(held, Crossed(CleanerSegs, UsedSegs, TargetToUsed), AttemptsActs(attempts));
  }

  lemma UnderMoveHeld(acts: seq<Act>)
    requires Held({UpdateMove}, acts) == Some({UpdateMove})
    ensures Held({}, UnderMove(acts)) == Some({})
  {
    hide Held;
    HeldOne({}, Lock(UpdateMove));
    HeldOne({UpdateMove}, Unlock(UpdateMove));
    assert {} + {UpdateMove} == {UpdateMove};
    Then({}, [Lock(UpdateMove)], {UpdateMove}, acts, {UpdateMove});
    Then({}, [Lock(UpdateMove)] + acts, {UpdateMove}, [Unlock(UpdateMove)], {});
  }

  lemma ChangedHeld(changes: seq<HeadChange>, appended: bool)
    ensures var acts := [Do(Object)] + ChangesActs(changes) + if appended then [Do(Object)] else [];
            Held({UpdateMove}, acts) == Some({UpdateMove})
  {
    hide Held, ChangesActs;
    var h := {UpdateMove};
    HeldNone(h);
    HeldOne(h, Do(Object));
    ChangesHeld(h, changes);
    Then(h, [Do(Object)], h, ChangesActs(changes), h);
    Then(h, [Do(Object)] + ChangesActs(changes), h, if appended then [Do(Object)] else [], h);
  }

  lemma CopyHeld(copy: bool, change: bool, attempts: seq<Attempt>)
    ensures var acts := if copy then TargetActs(change, attempts) + [Do(Object)] else [];
            Held({UpdateMove}, acts) == Some({UpdateMove})
  {
    hide Held, TargetActs;
    var h := {UpdateMove};
    HeldNone(h);
    HeldOne(h, Do(Object));
    TargetHeld(h, change, attempts);
    Then(h, TargetActs(change, attempts), h, [Do(Object)], h);
  }

  /** Recycling gives back what it took exactly when the segment is found on the used list. */
  lemma ReturnHeld(found: bool, refill: bool)
    ensures Held({}, Acts(Return(found, refill))) == Some({}) <==> found
    ensures !found ==> Held({}, Acts(Return(found, refill))) == Some({UsedSegs})
  {
    hide Held, Nested, Crossed;
    HeldOne({}, Lock(UsedSegs));
    assert {} + {UsedSegs} == {UsedSegs};
    BothHeld({}, UsedSegs, EmergencySegs, UsedToReserve);
    BothHeld({}, UsedSegs, FreeSegs, UsedToFree);
  }

  /** Every complete path takes its mutexes in order, does everything under its mutexes, and gives them all back. */
  lemma PathHeld(p: Path)
    requires Complete(p)
    ensures Held({}, Acts(p)) == Some({})
  {
    hide Held, ChangesActs, AttemptsActs, TargetActs, Under, UnderMove;
    HeldNone({});
    HeldNone({UpdateMove});
    UnderHeld({}, UsedSegs, NextUsed);
    UnderHeld({}, CurrCleaned, Claim);
    HeldConcat({}, Under(CurrCleaned, Claim), Under(UsedSegs, NextUsed));
    match p
    case Append(changes) => ChangesHeld({}, changes);
    case Missing => UnderMoveHeld([]);
    case Change(changes, appended) =>
      ChangedHeld(changes, appended);
      UnderMoveHeld([Do(Object)] + ChangesActs(changes) + if appended then [Do(Object)] else []);
    case Mark =>
      HeldOne({UpdateMove}, Do(Object));
      UnderMoveHeld([Do(Object)]);
    case AwaitTarget(attempts) => AttemptsHeld({}, attempts);
    case Enter(scan) => assert !scan || Under(CurrCleaned, Claim) + [] == Under(CurrCleaned, Claim);
    case Copy(copy, change, attempts) =>
      CopyHeld(copy, change, attempts);
      UnderMoveHeld(if copy then TargetActs(change, attempts) + [Do(Object)] else []);
    case Return(found, refill) => ReturnHeld(found, refill);
    case _ =>
  }

  /** In every reachable state the path that an operation takes is complete: the segment that is recycled is a used one.
      */
  lemma StepHeld(s: State, op: Op)
    requires Inv(s)
    ensures Sane(s) && Complete(PathOf(s, op)) && Held({}, Acts(PathOf(s, op))) == Some({})
  {
    InvIsSane(s);
    hide Inv, Held, Acts;
    StepComplete(s, op);
    PathHeld(PathOf(s, op));
  }

  lemma StepComplete(s: State, op: Op)
    requires Sane(s)
    ensures Complete(PathOf(s, op))
  {
  }

  // ---------- what an operation changes is on its path ----------

  /** The operation stores under an id that the table does not have: it does so without the update/move mutex. */
  predicate Adds(s: State, op: Op) {
    op.Palloc? || (op.PallocWithId? && op.id !in s.table)
  }

  /** All that differs after the step is among what the acts say is done. */
  ghost predicate Covered(s: State, t: State, acts: seq<Act>) {
    && (t.used != s.used ==>
          Do(HeadToUsed) in acts || Do(TargetToUsed) in acts || Do(UsedToReserve) in acts || Do(UsedToFree) in acts)
    && (t.free != s.free ==> Do(FreeToHead) in acts || Do(FreeToCleaner) in acts || Do(UsedToFree) in acts)
    && (t.cleaner != s.cleaner ==>
          Do(FreeToCleaner) in acts || Do(ReserveToCleaner) in acts || Do(TargetToUsed) in acts)
    && (t.emergency != s.emergency || t.reserve != s.reserve ==>
          Do(ReserveToCleaner) in acts || Do(UsedToReserve) in acts)
    && (s.phase.Walk? && (t.phase.Scan? || t.phase.Retire?) ==> Do(Claim) in acts)
    && (Follows(s, t) ==> Do(NextUsed) in acts)
  }

  /** The cleaner has gone on to the segment behind, or noted which it is. */
  ghost predicate Follows(s: State, t: State) {
    t.phase != s.phase && ((t.phase.Walk? && s.phase.Walk? && s.phase.at.Some?) || t.phase.Retire?)
  }

  /** Entries, marks, counts or the table are changed, other than by adding an object or recycling a segment. */
  ghost predicate Alters(s: State, op: Op, t: State) {
    && !Adds(s, op) && !(op.CleanerStep? && s.phase.Retire?)
    && (t.segs != s.segs || t.table != s.table)
  }

  lemma {:induction false} InChanges(cs: seq<HeadChange>, i: nat, a: Act)
    requires i < |cs| && a in ChangeActs(cs[i])
    ensures a in ChangesActs(cs)
  {
    if i > 0 {
      InChanges(cs[1..], i - 1, a);
    }
  }

  lemma ChangeCovered(s: State, cs: seq<HeadChange>, i: nat)
    requires i < |cs| && cs[i] == ChangeFrom(s)
    ensures NextHead(s).s.used != s.used ==> Do(HeadToUsed) in ChangesActs(cs)
    ensures NextHead(s).s.free != s.free ==> Do(FreeToHead) in ChangesActs(cs)
  {
    hide ChangesActs;
    if s.head.Some? {
      assert Under(UsedSegs, HeadToUsed)[1] == Do(HeadToUsed);
      InChanges(cs, i, Do(HeadToUsed));
    }
    if s.free != [] {
      assert Under(FreeSegs, FreeToHead)[1] == Do(FreeToHead);
      InChanges(cs, i, Do(FreeToHead));
    }
  }

  lemma MakeRoomCovered(s: State, size: nat)
    requires InRange(s)
    ensures MakeRoom(s, size).s.used != s.used ==> Do(HeadToUsed) in ChangesActs(ChangesFor(s, size))
    ensures MakeRoom(s, size).s.free != s.free ==> Do(FreeToHead) in ChangesActs(ChangesFor(s, size))
    ensures SameOwn(s, MakeRoom(s, size).s) && MakeRoom(s, size).s.table == s.table
  {
    hide ChangesActs;
    var cs := ChangesFor(s, size);
    if s.head.None? {
      ChangeCovered(s, cs, 0);
    }
    var r := if s.head.None? then NextHead(s) else Result(s, true);
    if r.ok && DATA_SIZE - r.s.headPos < size {
      ChangeCovered(EndHead(r.s), cs, |cs| - 1);
    }
  }

  /** What clients leave alone. */
  ghost predicate SameOwn(s: State, t: State) {
    t.cleaner == s.cleaner && t.emergency == s.emergency && t.reserve == s.reserve && t.phase == s.phase
  }

  lemma PublishCovered(s: State, e: Entry)
    requires InRange(s)
    ensures var t, acts := Publish(s, e).s, ChangesActs(ChangesFor(s, Size(e)));
            && SameOwn(s, t) && (t.used != s.used ==> Do(HeadToUsed) in acts)
            && (t.free != s.free ==> Do(FreeToHead) in acts)
            && (forall id :: id in s.table && id != e.id ==> id in t.table && t.table[id] == s.table[id])
  {
    MakeRoomCovered(s, Size(e));
    hide MakeRoom, ChangesActs, ChangesFor, Past, Bytes;
  }

  lemma NewCovered(s: State, id: nat, data: seq<byte>)
    requires Sane(s)
    ensures Covered(s, New(s, id, data).s, Acts(NewPath(s, data)))
    ensures forall x :: x in s.table && x != id ==>
              x in New(s, id, data).s.table && New(s, id, data).s.table[x] == s.table[x]
    ensures data == [] ==> New(s, id, data).s == s
  {
    PublishCovered(s, Entry(id, 1, data, false));
    hide Publish, ChangesActs, ChangesFor, Sane, InRange;
  }

  lemma UpdateCovered(s: State, id: nat, data: seq<byte>)
    requires Sane(s)
    ensures var t, acts := Update(s, id, data).s, Acts(UpdatePath(s, id, data));
            Covered(s, t, acts) && (t.segs != s.segs || t.table != s.table ==> Do(Object) in acts)
  {
    if data != [] && id in s.table {
      var d, e := UpdatePublishes(s, id, data);
      var f := e.(version := e.version + 1, data := data);
      PublishCovered(d, f);
      DiscountLists(s, id);
      hide *;
      ChangedCovered(s, d, Update(s, id, data).s, ChangesFor(d, ENTRY_HEADER + |data|), Update(s, id, data).ok);
      PathOfUpdate(s, id, data);
    } else {
      hide Publish, Sane;
    }
  }

  lemma PathOfUpdate(s: State, id: nat, data: seq<byte>)
    requires Sane(s) && data != [] && id in s.table && ValidLoc(s, s.table[id])
    ensures UpdatePath(s, id, data)
         == Change(ChangesFor(Discount(s, s.table[id]), ENTRY_HEADER + |data|), Update(s, id, data).ok)
  {
    hide Sane, ChangesFor, Update, Discount;
  }

  lemma ChangedCovered(s: State, d: State, t: State, cs: seq<HeadChange>, appended: bool)
    requires d == s.(segs := d.segs) && SameOwn(d, t)
    requires t.used != d.used ==> Do(HeadToUsed) in ChangesActs(cs)
    requires t.free != d.free ==> Do(FreeToHead) in ChangesActs(cs)
    ensures Covered(s, t, Acts(Change(cs, appended))) && Do(Object) in Acts(Change(cs, appended))
  {
    ChangeActsAre(cs, appended);
    hide ChangesActs, Acts;
  }

  lemma DiscountLists(s: State, id: nat)
    requires id in s.table && ValidLoc(s, s.table[id])
    ensures var d := Discount(s, s.table[id]); d == s.(segs := d.segs)
  {
  }

  lemma ChangeActsAre(cs: seq<HeadChange>, appended: bool)
    ensures Do(Object) in Acts(Change(cs, appended))
    ensures forall a :: a in ChangesActs(cs) ==> a in Acts(Change(cs, appended))
  {
    hide ChangesActs;
    var mid := [Do(Object)] + ChangesActs(cs) + if appended then [Do(Object)] else [];
    assert mid[0] == Do(Object);
    assert forall a :: a in mid ==> a in UnderMove(mid);
  }

  lemma AttemptCovered(s: State)
    requires InRange(s)
    ensures var t, acts := NewTarget(s).s, AttemptsActs([AttemptFrom(s)]);
            && t.used == s.used && t.segs == s.segs && t.table == s.table && t.phase == s.phase
            && (t.free != s.free ==> Do(FreeToCleaner) in acts)
            && (t.cleaner != s.cleaner ==> Do(FreeToCleaner) in acts || Do(ReserveToCleaner) in acts)
            && (t.emergency != s.emergency || t.reserve != s.reserve ==> Do(ReserveToCleaner) in acts)
  {
    var a := AttemptFrom(s);
    assert [a][1..] == [];
    assert AttemptsActs([a]) == AttemptActs(a) + [];
    if a.TakesFree? {
      assert AttemptActs(a)[2] == Do(FreeToCleaner);
    } else if a.TakesReserve? {
      assert AttemptActs(a)[2] == Do(ReserveToCleaner);
    }
  }

  lemma FreeCovered(s: State, id: nat)
    requires Sane(s)
    ensures var t, acts := Free(s, id), Acts(if id in s.table then Mark else Missing);
            Covered(s, t, acts) && (t.segs != s.segs || t.table != s.table ==> Do(Object) in acts)
  {
    assert UnderMove([Do(Object)])[1] == Do(Object);
  }

  lemma StartCovered(s: State)
    requires Sane(s) && s.phase.Start?
    ensures Clean(s).Continue? && Covered(s, Clean(s).s, Acts(CleanPath(s)))
    ensures Clean(s).s.segs == s.segs && Clean(s).s.table == s.table
  {
    AttemptCovered(s);
    hide NewTarget, AttemptsActs, AttemptFrom;
  }

  lemma WalkCovered(s: State)
    requires Sane(s) && s.phase.Walk?
    ensures Clean(s).Continue? && Covered(s, Clean(s).s, Acts(CleanPath(s)))
    ensures Clean(s).s.segs == s.segs && Clean(s).s.table == s.table
  {
    assert Under(UsedSegs, NextUsed)[1] == Do(NextUsed) && Under(CurrCleaned, Claim)[1] == Do(Claim);
  }

  lemma RecycleCovered(s: State)
    requires Sane(s) && s.phase.Retire?
    ensures Clean(s).Continue? && Covered(s, Clean(s).s, Acts(CleanPath(s)))
  {
    hide Remove;
    assert Acts(CleanPath(s))[2] == if s.reserve < RESERVE then Do(UsedToReserve) else Do(UsedToFree);
  }

  lemma LeaveCovered(s: State)
    requires Sane(s) && s.phase.Scan? && s.phase.k >= |Seen(s.segs[s.phase.seg])| && Clean(s).Continue?
    ensures Covered(s, Clean(s).s, Acts(CleanPath(s))) && Clean(s).s.segs == s.segs && Clean(s).s.table == s.table
  {
    assert Under(UsedSegs, NextUsed)[1] == Do(NextUsed);
  }

  /** A change of the target is all that making room for a copy does. */
  lemma TargetCovered(s: State, size: nat)
    requires InRange(s) && s.target in s.cleaner
    ensures var r, change := TargetRoom(s, size), DATA_SIZE - s.targetPos < size;
            var acts := TargetActs(change, [AttemptFrom(CleanerToUsed(s, s.target))]);
            && r.s.segs == s.segs && r.s.table == s.table && r.s.phase == s.phase
            && (r.s.used != s.used || r.s.cleaner != s.cleaner ==> Do(TargetToUsed) in acts)
            && (r.s.free != s.free ==> Do(FreeToCleaner) in acts)
            && (r.s.emergency != s.emergency || r.s.reserve != s.reserve ==> Do(ReserveToCleaner) in acts)
  {
    var u := CleanerToUsed(s, s.target);
    AttemptCovered(u);
    hide Remove, NewTarget, AttemptsActs, AttemptFrom;
    assert Crossed(CleanerSegs, UsedSegs, TargetToUsed)[2] == Do(TargetToUsed);
  }

  lemma CopyActsAre(change: bool, attempts: seq<Attempt>)
    ensures Do(Object) in Acts(Copy(true, change, attempts))
    ensures forall a :: a in TargetActs(change, attempts) ==> a in Acts(Copy(true, change, attempts))
  {
    hide TargetActs;
    var mid := TargetActs(change, attempts) + [Do(Object)];
    assert mid[|mid| - 1] == Do(Object);
    assert forall a :: a in mid ==> a in UnderMove(mid);
  }

  lemma EntryCovered(s: State, c: nat, k: nat)
    requires Sane(s) && s.phase == Scan(c, k) && k < |Seen(s.segs[c])| && CleanEntry(s, c, k).Continue?
    ensures var t, acts := CleanEntry(s, c, k).s, Acts(CleanEntryPath(s, c, k));
            Covered(s, t, acts) && (t.segs != s.segs || t.table != s.table ==> Do(Object) in acts)
  {
    var e := Seen(s.segs[c])[k];
    var skip := s.(phase := Scan(c, k + 1));
    TargetCovered(skip, Size(e));
    var change := DATA_SIZE - s.targetPos < Size(e);
    SameAttempt(s, skip);
    CopyActsAre(change, [AttemptFrom(CleanerToUsed(s, s.target))]);
    CopyActsAre(false, []);
    hide TargetRoom, TargetActs, AttemptFrom, CleanerToUsed, Acts, Past, Bytes;
    if !change {
      NoTargetActs([AttemptFrom(CleanerToUsed(s, s.target))]);
    }
  }

  lemma SameAttempt(s: State, t: State)
    requires s.target in s.cleaner && t == s.(phase := t.phase)
    ensures AttemptFrom(CleanerToUsed(t, t.target)) == AttemptFrom(CleanerToUsed(s, s.target))
  {
    hide Remove;
  }

  lemma NoTargetActs(attempts: seq<Attempt>)
    ensures TargetActs(false, attempts) == []
  {
  }

  lemma CleanCovered(s: State)
    requires Sane(s) && Clean(s).Continue?
    ensures var t, acts := Clean(s).s, Acts(CleanPath(s));
            Covered(s, t, acts)
            && (!s.phase.Retire? && (t.segs != s.segs || t.table != s.table) ==> Do(Object) in acts)
  {
    hide Covered, Acts;
    match s.phase
    case Start => StartCovered(s);
    case Walk(_) => WalkCovered(s);
    case Scan(c, k) =>
      if k < |Seen(s.segs[c])| {
        EntryCovered(s, c, k);
      } else {
        LeaveCovered(s);
      }
    case Retire(_, _) => RecycleCovered(s);
  }

  /** Whatever a step changes is done on the path that the operation takes: segments are moved from list to list, under
      the mutexes of both, and, unless an object is added or a segment recycled, entries, marks, counts and table are
      changed under the update/move mutex. An addition leaves all other objects where they are. */
  lemma StepCovered(s: State, op: Op)
    requires Sane(s) && Step(s, op).0.Continue?
    ensures var t, acts := Step(s, op).0.s, Acts(PathOf(s, op));
            && (t.used != s.used ==>
                  || Do(HeadToUsed) in acts || Do(TargetToUsed) in acts
                  || Do(UsedToReserve) in acts || Do(UsedToFree) in acts)
            && (t.free != s.free ==> Do(FreeToHead) in acts || Do(FreeToCleaner) in acts || Do(UsedToFree) in acts)
            && (t.cleaner != s.cleaner ==>
                  Do(FreeToCleaner) in acts || Do(ReserveToCleaner) in acts || Do(TargetToUsed) in acts)
            && (t.emergency != s.emergency || t.reserve != s.reserve ==>
                  Do(ReserveToCleaner) in acts || Do(UsedToReserve) in acts)
            && (s.phase.Walk? && (t.phase.Scan? || t.phase.Retire?) ==> Do(Claim) in acts)
            && (Follows(s, t) ==> Do(NextUsed) in acts)
            && (Alters(s, op, t) ==> Do(Object) in acts)
            && (Adds(s, op) ==> forall x :: x in s.table && x != op.id ==> x in t.table && t.table[x] == s.table[x])
  {
    hide New, Update, Free, Clean, Acts, Sane;
    match op
    case Palloc(id, data) => NewCovered(s, id, data);
    case PallocWithId(id, data) =>
      NewCovered(s, id, data);
      UpdateCovered(s, id, data);
    case UpdateData(id, data) => UpdateCovered(s, id, data);
    case Pfree(id) => FreeCovered(s, id);
    case CleanerStep => CleanCovered(s);
  }

  /** Where something is done on a path, its mutexes are held. */
  lemma {:induction false} DoneUnderGuard(held: set<Mutex>, acts: seq<Act>, k: nat)
    requires Held(held, acts).Some? && k < |acts| && acts[k].Do?
    ensures Held(held, acts[..k]).Some? && Guard(acts[k].e) <= Held(held, acts[..k]).value
    decreases k
  {
    if k > 0 {
      assert acts[1..][k - 1] == acts[k] && acts[..k][1..] == acts[1..][..k - 1];
      DoneUnderGuard(Acted(held, acts[0]).value, acts[1..], k - 1);
    }
  }

  // ---------- any number of threads ----------

  /** A thread: what it holds, and what it still has to do with the mutexes. */
  datatype Thread = Thread(held: set<Mutex>, rest: seq<Act>)

  /** Every thread keeps to the order and ends with nothing, and no mutex is held twice. */
  ghost predicate Sound(ts: seq<Thread>) {
    && (forall i :: 0 <= i < |ts| ==> Held(ts[i].held, ts[i].rest) == Some({}))
    && (forall i, j :: 0 <= i < j < |ts| ==> ts[i].held !! ts[j].held)
  }

  ghost predicate Done(ts: seq<Thread>) {
    forall i :: 0 <= i < |ts| ==> ts[i].rest == []
  }

  ghost predicate Unheld(ts: seq<Thread>, m: Mutex) {
    forall i :: 0 <= i < |ts| ==> m !in ts[i].held
  }

  /** The thread has something to do, and does not have to wait. */
  ghost predicate CanMove(ts: seq<Thread>, i: nat) {
    i < |ts| && ts[i].rest != [] && (ts[i].rest[0].Lock? ==> Unheld(ts, ts[i].rest[0].m))
  }

  function Moved(t: Thread): Thread
    requires t.rest != []
  {
    match t.rest[0]
    case Lock(m) => Thread(t.held + {m}, t.rest[1..])
    case Unlock(m) => Thread(t.held - {m}, t.rest[1..])
    case Do(_) => Thread(t.held, t.rest[1..])
  }

  function Move(ts: seq<Thread>, i: nat): seq<Thread>
    requires i < |ts| && ts[i].rest != []
  {
    ts[i := Moved(ts[i])]
  }

  lemma MoveSound(ts: seq<Thread>, i: nat)
    requires Sound(ts) && CanMove(ts, i)
    ensures Sound(Move(ts, i))
  {
    var us := Move(ts, i);
    forall j | 0 <= j < |us|
      ensures Held(us[j].held, us[j].rest) == Some({})
    {
      assert Held(ts[j].held, ts[j].rest) == Some({});
    }
    forall j, k | 0 <= j < k < |us|
      ensures us[j].held !! us[k].held
    {
      assert ts[j].held !! ts[k].held;
    }
  }

  /** The mutex the thread waits for ranks above all it holds. */
  lemma WaitsAbove(t: Thread, m: Mutex)
    requires Held(t.held, t.rest) == Some({}) && m in t.held
    ensures t.rest != []
    ensures t.rest[0].Lock? ==> Rank(m) < Rank(t.rest[0].m)
  {
  }

  /** Following who waits for whom, ranks only go up: at the end is a thread that can move. */
  lemma {:induction false} SomeoneMoves(ts: seq<Thread>, i: nat) returns (k: nat)
    requires Sound(ts) && i < |ts| && ts[i].rest != []
    ensures CanMove(ts, k)
    decreases if ts[i].rest[0].Lock? then TOP + 1 - Rank(ts[i].rest[0].m) else 0
  {
    k := i;
    if !CanMove(ts, i) {
      var m := ts[i].rest[0].m;
      var j: nat :| j < |ts| && m in ts[j].held;
      WaitsAbove(ts[j], m);
      k := SomeoneMoves(ts, j);
    }
  }

  /** The state after the threads of the schedule moved, one after the other. */
  ghost predicate Leads(ts: seq<Thread>, schedule: seq<nat>, us: seq<Thread>)
    decreases |schedule|
  {
    if schedule == [] then us == ts
    else CanMove(ts, schedule[0]) && Leads(Move(ts, schedule[0]), schedule[1..], us)
  }

  lemma {:induction false} LeadsSound(ts: seq<Thread>, schedule: seq<nat>, us: seq<Thread>)
    requires Sound(ts) && Leads(ts, schedule, us)
    ensures Sound(us)
    decreases |schedule|
  {
    if schedule != [] {
      MoveSound(ts, schedule[0]);
      LeadsSound(Move(ts, schedule[0]), schedule[1..], us);
    }
  }

  function ToDo(ts: seq<Thread>): nat {
    if ts == [] then 0 else |ts[0].rest| + ToDo(ts[1..])
  }

  lemma {:induction false} MoveShortens(ts: seq<Thread>, i: nat)
    requires i < |ts| && ts[i].rest != []
    ensures ToDo(Move(ts, i)) == ToDo(ts) - 1
    decreases |ts|
  {
    if i == 0 {
      assert Move(ts, i)[1..] == ts[1..];
    } else {
      assert Move(ts, i)[1..] == Move(ts[1..], i - 1);
      MoveShortens(ts[1..], i - 1);
    }
  }

  lemma {:induction false} ScheduleLength(ts: seq<Thread>, schedule: seq<nat>, us: seq<Thread>)
    requires Leads(ts, schedule, us)
    ensures |schedule| + ToDo(us) == ToDo(ts)
    decreases |schedule|
  {
    if schedule != [] {
      MoveShortens(ts, schedule[0]);
      ScheduleLength(Move(ts, schedule[0]), schedule[1..], us);
    }
  }

  /** No state that sound threads can reach is a deadlock, every run ends, and at its end every mutex is free. */
  lemma NoDeadlock(ts: seq<Thread>, schedule: seq<nat>, us: seq<Thread>)
    requires Sound(ts) && Leads(ts, schedule, us)
    ensures Done(us) || exists k :: CanMove(us, k)
    ensures |schedule| <= ToDo(ts)
    ensures Done(us) ==> forall m :: Unheld(us, m)
  {
    LeadsSound(ts, schedule, us);
    ScheduleLength(ts, schedule, us);
    if !Done(us) {
      var i: nat :| i < |us| && us[i].rest != [];
      var k := SomeoneMoves(us, i);
    }
  }

  // ---------- threads that use the heap ----------

  ghost predicate AllComplete(paths: seq<Path>) {
    forall i :: 0 <= i < |paths| ==> Complete(paths[i])
  }

  /** One operation after the other. */
  function Program(paths: seq<Path>): seq<Act> {
    if paths == [] then [] else Acts(paths[0]) + Program(paths[1..])
  }

  lemma {:induction false} ProgramHeld(paths: seq<Path>)
    requires AllComplete(paths)
    ensures Held({}, Program(paths)) == Some({})
  {
    hide Held, Acts, Complete;
    HeldNone({});
    if paths != [] {
      PathHeld(paths[0]);
      ProgramHeld(paths[1..]);
      HeldConcat({}, Acts(paths[0]), Program(paths[1..]));
    }
  }

  /** Threads that do nothing but operations on the heap never deadlock, however they interleave, and whatever they find
      where they test something that other threads change. */
  lemma HeapNeverDeadlocks(programs: seq<seq<Path>>, ts: seq<Thread>, schedule: seq<nat>, us: seq<Thread>)
    requires forall i :: 0 <= i < |programs| ==> AllComplete(programs[i])
    requires |ts| == |programs| && forall i :: 0 <= i < |ts| ==> ts[i] == Thread({}, Program(programs[i]))
    requires Leads(ts, schedule, us)
    ensures Done(us) || exists k :: CanMove(us, k)
    ensures Done(us) ==> forall m :: Unheld(us, m)
  {
    forall i | 0 <= i < |ts|
      ensures Held(ts[i].held, ts[i].rest) == Some({})
    {
      ProgramHeld(programs[i]);
    }
    NoDeadlock(ts, schedule, us);
  }

  /** However they interleave, no two of them hold a mutex at once, and whoever is about to do something holds the
      mutexes for it: so no two are ever about to do things that one mutex guards. */
  lemma HeapExcludes(programs: seq<seq<Path>>, ts: seq<Thread>, schedule: seq<nat>, us: seq<Thread>, i: nat, j: nat)
    requires forall k :: 0 <= k < |programs| ==> AllComplete(programs[k])
    requires |ts| == |programs| && forall k :: 0 <= k < |ts| ==> ts[k] == Thread({}, Program(programs[k]))
    requires Leads(ts, schedule, us) && i < |us| && j < |us| && i != j
    ensures us[i].held !! us[j].held
    ensures us[i].rest != [] && us[i].rest[0].Do? ==> Guard(us[i].rest[0].e) <= us[i].held
    ensures us[i].rest != [] && us[i].rest[0].Do? && us[j].rest != [] && us[j].rest[0].Do? ==>
              Guard(us[i].rest[0].e) !! Guard(us[j].rest[0].e)
  {
    forall k | 0 <= k < |ts|
      ensures Held(ts[k].held, ts[k].rest) == Some({})
    {
      ProgramHeld(programs[k]);
    }
    LeadsSound(ts, schedule, us);
    assert Held(us[i].held, us[i].rest) == Some({}) && Held(us[j].held, us[j].rest) == Some({});
    assert if i < j then us[i].held !! us[j].held else us[j].held !! us[i].held;
  }
}
