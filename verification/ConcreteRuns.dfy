/** Putting runs together step by step, and what single steps come to. */
module ConcreteRuns {
  import opened Wrappers
  import opened Layout
  import opened Lists
  import opened LogState
  import opened LiveBytes
  import opened LogInvariant
  import opened ClientSteps
  import opened CleanerSteps
  import opened LogRuns

  /** The steps lead from `s` to `t`; if the run is said to be proper, each is allowed. */
  ghost predicate Leads(s: State, ops: seq<Op>, t: State, proper: bool)
    decreases |ops|
  {
    if ops == [] then s == t
    else
      && Sane(s) && Step(s, ops[0]).0.Continue?
      && (proper ==> TableOk(s) && Allowed(s, ops[0]))
      && Leads(Step(s, ops[0]).0.s, ops[1..], t, proper)
  }

  ghost predicate Ready(s: State) {
    Inv(s) && Sane(s) && TableOk(s)
  }

  lemma ReadySane(s: State)
    requires Ready(s)
    ensures Sane(s) && TableOk(s)
  {
  }

  lemma FreshReady(n: nat)
    requires n >= 2
    ensures Ready(Fresh(n))
  {
    FormattedInv(seq(n, _ => Zeros));
    InvIsSane(Fresh(n));
    InvTable(Fresh(n));
  }

  /** An allowed step leads on to a heap that is in order. */
  lemma Proper(s: State, op: Op, t: State)
    requires Ready(s) && Allowed(s, op) && Step(s, op).0 == Continue(t)
    ensures Ready(t) && Leads(s, [op], t, true)
  {
    StepRefines(s, op);
    InvIsSane(t);
    InvTable(t);
    hide Inv, Sane, TableOk, Allowed, Step;
    assert [op][1..] == [];
  }

  lemma Improper(s: State, op: Op, t: State)
    requires Sane(s) && Step(s, op).0 == Continue(t)
    ensures Leads(s, [op], t, false)
  {
    hide Sane, Step;
    assert [op][1..] == [];
  }

  lemma {:induction false} Join(s: State, a: seq<Op>, t: State, b: seq<Op>, u: State, proper: bool)
    requires Leads(s, a, t, proper) && Leads(t, b, u, proper)
    ensures Leads(s, a + b, u, proper)
    decreases |a|
  {
    hide Sane, Step, TableOk, Allowed;
    if a == [] {
      assert a + b == b;
    } else {
      assert (a + b)[1..] == a[1..] + b;
      Join(Step(s, a[0]).0.s, a[1..], t, b, u, proper);
    }
  }

  lemma {:induction false} Loosen(s: State, ops: seq<Op>, t: State)
    requires Leads(s, ops, t, true)
    ensures Leads(s, ops, t, false)
    decreases |ops|
  {
    hide Sane, Step, TableOk, Allowed;
    if ops != [] {
      Loosen(Step(s, ops[0]).0.s, ops[1..], t);
    }
  }

  lemma {:induction false} LeadsExecutes(s: State, ops: seq<Op>, t: State, proper: bool)
    requires Leads(s, ops, t, proper)
    ensures Execute(s, ops).Completed? && Execute(s, ops).s == t
    ensures proper ==> Admissible(s, ops)
    decreases |ops|
  {
    hide Sane, Step, TableOk, Allowed;
    if ops != [] {
      LeadsExecutes(Step(s, ops[0]).0.s, ops[1..], t, proper);
    }
  }

  lemma {:induction false} LeadsStuck(s: State, ops: seq<Op>, t: State, op: Op, proper: bool)
    requires Leads(s, ops, t, proper) && Sane(t) && !Step(t, op).0.Continue?
    ensures Execute(s, ops + [op]) == Stuck(Step(t, op).0)
    decreases |ops|
  {
    hide Sane, Step, TableOk, Allowed;
    if ops == [] {
      assert ops + [op] == [op];
    } else {
      assert (ops + [op])[1..] == ops[1..] + [op];
      LeadsStuck(Step(s, ops[0]).0.s, ops[1..], t, op, proper);
    }
  }

  /** Four steps of the cleaner. */
  lemma Four(s: State, a: State, b: State, c: State, d: State)
    requires Leads(s, [CleanerStep], a, true) && Leads(a, [CleanerStep], b, true)
    requires Leads(b, [CleanerStep], c, true) && Leads(c, [CleanerStep], d, true)
    ensures Leads(s, [CleanerStep] + ([CleanerStep] + ([CleanerStep] + [CleanerStep])), d, true)
  {
    hide Leads;
    Join(b, [CleanerStep], c, [CleanerStep], d, true);
    Join(a, [CleanerStep], b, [CleanerStep] + [CleanerStep], d, true);
    Join(s, [CleanerStep], a, [CleanerStep] + ([CleanerStep] + [CleanerStep]), d, true);
  }

  // ---------- segments, entries and single steps ----------

  function Marked(e: Entry): Entry {
    e.(dead := true)
  }

  /** A segment never written to, */
  const NEW := Segment([], 0, Behind([], Zeros))

  /** in its first use, */
  function Open(log: seq<Entry>, used: nat): Segment {
    Segment(log, used, Behind([], Zeros))
  }

  /** and given up as head with space left. */
  function Closed(log: seq<Entry>, used: nat): Segment {
    Segment(log, used, Behind([], Stops))
  }

  /** Storing an object where the head has room. */
  lemma Store(s: State, id: nat, data: seq<byte>, h: nat, t: State)
    requires Ready(s) && id !in s.table && data != [] && s.head == Some(h) && h < |s.segs|
    requires s.headPos + ENTRY_HEADER + |data| <= DATA_SIZE
    requires var e := Entry(id, 1, data, false);
             t == WriteEntry(s, h, e).(headPos := s.headPos + Size(e), table := s.table[id := Loc(h, |s.segs[h].log|)])
    ensures Step(s, Palloc(id, data)) == (Continue(t), true)
    ensures Ready(t) && Leads(s, [Palloc(id, data)], t, true)
  {
    hide Past, Inv, Sane, TableOk;
    assert InRange(s) by { ReadyInRange(s); }
    Proper(s, Palloc(id, data), t);
  }

  /** Storing an object where the head has no room, but there is a free segment. */
  lemma StoreInNext(s: State, id: nat, data: seq<byte>, f: nat, t: State)
    requires Ready(s) && id !in s.table && data != [] && s.head.Some? && s.free != [] && s.free[0] == f && f < |s.segs|
    requires DATA_SIZE - s.headPos < ENTRY_HEADER + |data| <= DATA_SIZE
    requires var r, e := NextHead(EndHead(s)).s, Entry(id, 1, data, false);
             && f < |r.segs|
             && t == WriteEntry(r, f, e).(headPos := Size(e), table := s.table[id := Loc(f, |r.segs[f].log|)])
    ensures Step(s, Palloc(id, data)) == (Continue(t), true)
    ensures Ready(t) && Leads(s, [Palloc(id, data)], t, true)
  {
    hide Past, Inv, Sane, TableOk;
    assert InRange(s) by { ReadyInRange(s); }
    Proper(s, Palloc(id, data), t);
  }

  lemma ReadyInRange(s: State)
    requires Ready(s)
    ensures InRange(s)
  {
  }

  lemma Release(s: State, id: nat, t: State)
    requires Ready(s) && id in s.table && OnlyVersion(s, id) && t == Free(s, id)
    ensures Ready(t) && Leads(s, [Pfree(id)], t, true)
  {
    hide Inv, Sane, TableOk, OnlyVersion, Free;
    Proper(s, Pfree(id), t);
  }

  lemma Starts(s: State, t: State)
    requires Ready(s) && s.phase.Start? && s.free != []
    requires t == s.(cleaner := s.cleaner + [s.free[0]], free := s.free[1..], target := s.free[0], targetPos := 0,
             phase := Walk(None))
    ensures Ready(t) && Leads(s, [CleanerStep], t, true)
  {
    hide Inv, Sane, TableOk;
    Proper(s, CleanerStep, t);
  }

  lemma Begins(s: State, t: State)
    requires Ready(s) && s.phase == Walk(None) && s.used != [] && t == s.(phase := Walk(Some(s.used[0])))
    ensures Ready(t) && Leads(s, [CleanerStep], t, true)
  {
    hide Inv, Sane, TableOk;
    Proper(s, CleanerStep, t);
  }

  lemma Enters(s: State, c: nat, t: State)
    requires Ready(s) && s.phase == Walk(Some(c)) && c < |s.segs| && 0 < s.segs[c].used < HALF_SEGMENT
             && t == s.(phase := Scan(c, 0))
    ensures Ready(t) && Leads(s, [CleanerStep], t, true)
  {
    hide Inv, Sane, TableOk;
    Proper(s, CleanerStep, t);
  }

  /** A marked entry is passed over. */
  lemma Skips(s: State, c: nat, k: nat, t: State)
    requires Ready(s) && s.phase == Scan(c, k) && c < |s.segs| && k < |s.segs[c].log| && s.segs[c].log[k].dead
    requires t == s.(phase := Scan(c, k + 1))
    ensures Ready(t) && Leads(s, [CleanerStep], t, true)
  {
    hide Inv, Sane, TableOk, TargetRoom;
    Proper(s, CleanerStep, t);
  }

  /** The newest version of an object is copied, to a target `r` with room. */
  lemma Copies(s: State, c: nat, k: nat, e: Entry, r: State, t: State)
    requires Ready(s) && s.phase == Scan(c, k) && c < |s.segs| && k < |s.segs[c].log| && s.segs[c].log[k] == e
             && !e.dead
    requires e.id in s.table && s.table[e.id] == Loc(c, k)
    requires s.target in s.cleaner && TargetRoom(s, Size(e)) == Result(r, true) && r.target < |r.segs|
             && SameButTarget(s, r)
    requires t == CopyToTarget(r, e).(phase := Scan(c, k + 1))
    ensures Ready(t) && Leads(s, [CleanerStep], t, true)
  {
    hide Inv, TableOk, TargetRoom;
    var f := CleanCopies(s, c, k, e, r);
    hide Sane;
    Proper(s, CleanerStep, t);
  }

  lemma Leaves(s: State, c: nat, t: State)
    requires Ready(s) && c < |s.segs| && s.phase == Scan(c, |s.segs[c].log|) && Terminated(s.segs[c])
    requires t == s.(phase := Retire(c, After(s.used, c)))
    ensures Ready(t) && Leads(s, [CleanerStep], t, true)
  {
    hide Inv, Sane, TableOk;
    assert Seen(s.segs[c]) == s.segs[c].log;
    Proper(s, CleanerStep, t);
  }

  lemma Recycles(s: State, c: nat, t: State)
    requires Ready(s) && s.phase.Retire? && s.phase.seg == c && c in s.used && c < |s.segs|
    requires t == Recycle(s, c).(phase := Walk(s.phase.next))
    ensures Ready(t) && Leads(s, [CleanerStep], t, true)
  {
    hide Inv, Sane, TableOk, Recycle;
    Proper(s, CleanerStep, t);
  }
}
