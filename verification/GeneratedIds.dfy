/** The ids that palloc generates in the course of a run. */
module GeneratedIds {
  import opened Layout
  import opened LogState
  import opened LiveBytes
  import opened LogRuns
  import opened IdGen

  /** palloc takes an id from the counter, unless it has nothing to store. */
  predicate Generates(op: Op) {
    op.Palloc? && op.data != []
  }

  function NextCounter(from: nat, op: Op): nat {
    if Generates(op) then (op.id + 1) % TWO_64 else from
  }

  /** With the counter at `from` in the beginning, every id that is generated is the first usable one from the counter
      on, which is then set behind it, and nothing else moves the counter; in the end it is `to`. */
  ghost predicate Counted(s: State, from: nat, ops: seq<Op>, to: nat)
    decreases |ops|
  {
    if ops == [] then to == from
    else
      && Sane(s) && TableOk(s) && Step(s, ops[0]).0.Continue?
      && (Generates(ops[0]) ==> FirstUsable(s.table, from, ops[0].id))
      && Counted(Step(s, ops[0]).0.s, NextCounter(from, ops[0]), ops[1..], to)
  }

  // ---------- which ids there can be ----------

  /** The only id that a call can bring into the table. */
  function Added(op: Op): set<nat> {
    if op.Palloc? || op.PallocWithId? then {op.id} else {}
  }

  lemma StepKeys(s: State, op: Op)
    requires Sane(s) && TableOk(s) && Step(s, op).0.Continue?
    ensures Step(s, op).0.s.table.Keys <= s.table.Keys + Added(op)
  {
    hide Publish, Clean, Sane, TableOk;
    match op
    case Palloc(id, data) => PublishKeys(s, Entry(id, 1, data, false));
    case PallocWithId(id, data) => PutKeys(s, id, data);
    case UpdateData(id, data) => UpdateKeys(s, id, data);
    case Pfree(id) => FreeKeys(s, id);
    case CleanerStep => CleanKeys(s);
  }

  lemma PublishKeys(s: State, e: Entry)
    requires Sane(s)
    ensures Publish(s, e).s.table.Keys <= s.table.Keys + {e.id}
  {
    hide Past, Bytes;
  }

  lemma UpdateKeys(s: State, id: nat, data: seq<byte>)
    requires Sane(s) && TableOk(s)
    ensures Update(s, id, data).s.table.Keys <= s.table.Keys
  {
    hide Past, Bytes;
  }

  lemma PutKeys(s: State, id: nat, data: seq<byte>)
    requires Sane(s) && TableOk(s)
    ensures Put(s, id, data).s.table.Keys <= s.table.Keys + {id}
  {
    UpdateKeys(s, id, data);
    PublishKeys(s, Entry(id, 1, data, false));
    hide Publish, Update, Sane, TableOk;
  }

  lemma FreeKeys(s: State, id: nat)
    requires Sane(s)
    ensures Free(s, id).table.Keys <= s.table.Keys
  {
  }

  lemma CleanKeys(s: State)
    requires Sane(s) && Clean(s).Continue?
    ensures Clean(s).s.table.Keys <= s.table.Keys
  {
    hide Past, Bytes;
  }

  // ---------- counting ----------

  ghost function Between(w: set<nat>, a: nat, b: nat): set<nat> {
    set x | x in w && a <= x < b
  }

  /** A set with all numbers from `a` to `b` has as many elements at least. */
  lemma {:induction false} BetweenSize(w: set<nat>, a: nat, b: nat)
    requires a <= b && forall x: nat :: a <= x < b ==> x in w
    ensures |Between(w, a, b)| == b - a
    decreases b - a
  {
    if a < b {
      BetweenSize(w, a, b - 1);
      assert Between(w, a, b) == Between(w, a, b - 1) + {b - 1};
    } else {
      assert Between(w, a, b) == {};
    }
  }

  lemma BetweenSplit(w: set<nat>, b: nat, c: nat)
    requires b <= c
    ensures |Between(w, 0, c)| == |Between(w, 0, b)| + |Between(w, b, c)|
  {
    assert Between(w, 0, c) == Between(w, 0, b) + Between(w, b, c);
    assert Between(w, 0, b) !! Between(w, b, c);
  }

  lemma BetweenBound(w: set<nat>, b: nat, c: nat)
    ensures |Between(w, b, c)| <= |w|
  {
    SubsetSize(Between(w, b, c), w);
  }

  lemma BetweenMore(w: set<nat>, x: nat, c: nat)
    ensures |Between(w, 0, c)| <= |Between(w + {x}, 0, c)|
  {
    SubsetSize(Between(w, 0, c), Between(w + {x}, 0, c));
  }

  /** How far the counter can have come: past the ids it generated (`a` of them at most), and past such as clients
      chose, all of which are in `w`. */
  ghost predicate CounterAt(keys: set<nat>, from: nat, a: nat, w: set<nat>) {
    && from <= 1 + a + |Between(w, 0, from)|
    && forall x :: x in keys ==> x < from || x in w
  }

  lemma CandidateFrom(from: nat, x: nat)
    requires from <= x < TWO_64
    ensures Candidate(from, x - from) == x
  {
  }

  /** What the counter passes over before it comes to a usable id, clients have chosen. */
  lemma PassedOver<V>(table: map<nat, V>, from: nat, id: nat, a: nat, w: set<nat>, x: nat)
    requires FirstUsable(table, from, id) && CounterAt(table.Keys, from, a, w)
    requires from <= x < TWO_64 && x != 0 && x - from < Distance(from, id)
    ensures x in w
  {
    CandidateFrom(from, x);
    assert !Usable(table, Candidate(from, x - from));
  }

  /** So it does not wrap around while there were fewer calls than ids. */
  lemma NoWrap<V>(table: map<nat, V>, from: nat, id: nat, a: nat, w: set<nat>)
    requires FirstUsable(table, from, id) && CounterAt(table.Keys, from, a, w) && a + |w| < TWO_64 - 1
    ensures from <= id
  {
    if id < from {
      forall x: nat | from <= x < TWO_64
        ensures x in w
      {
        PassedOver(table, from, id, a, w, x);
      }
      BetweenSize(w, from, TWO_64);
      BetweenSplit(w, from, TWO_64);
      BetweenBound(w, 0, TWO_64);
    }
  }

  lemma Generated<V>(table: map<nat, V>, from: nat, id: nat, a: nat, w: set<nat>, keys: set<nat>)
    requires FirstUsable(table, from, id) && CounterAt(table.Keys, from, a, w) && a + 1 + |w| < TWO_64 - 1
    requires keys <= table.Keys + {id}
    ensures from <= id && (id + 1) % TWO_64 == id + 1 && CounterAt(keys, id + 1, a + 1, w)
  {
    NoWrap(table, from, id, a, w);
    var b := if from == 0 then 1 else from;
    forall x: nat | b <= x < id
      ensures x in w
    {
      PassedOver(table, from, id, a, w, x);
    }
    BetweenSize(w, b, id);
    BetweenSplit(w, b, id);
    BetweenSplit(w, id, id + 1);
    BetweenBound(w, 0, id + 1);
    if from == 0 {
      assert Between(w, 0, from) == {};
    }
    BetweenAgree(w, from, b);
  }

  lemma BetweenAgree(w: set<nat>, from: nat, b: nat)
    requires b == if from == 0 then 1 else from
    ensures |Between(w, 0, from)| <= |Between(w, 0, b)|
  {
    SubsetSize(Between(w, 0, from), Between(w, 0, b));
  }

  lemma OtherCounted(keys: set<nat>, from: nat, a: nat, w: set<nat>, op: Op, after: set<nat>)
    requires CounterAt(keys, from, a, w) && after <= keys + Added(op)
    ensures |w + Added(op)| <= |w| + 1 && CounterAt(after, from, a, w + Added(op))
  {
    if Added(op) != {} {
      BetweenMore(w, op.id, from);
    } else {
      assert w + Added(op) == w;
    }
  }

  // ---------- runs ----------

  ghost predicate Increasing(from: nat, ops: seq<Op>) {
    && (forall i :: 0 <= i < |ops| && Generates(ops[i]) ==> from <= ops[i].id)
    && (forall i, j :: 0 <= i < j < |ops| && Generates(ops[i]) && Generates(ops[j]) ==> ops[i].id < ops[j].id)
  }

  lemma IncreasingMore(from: nat, next: nat, ops: seq<Op>)
    requires ops != [] && from <= next && Increasing(next, ops[1..])
    requires Generates(ops[0]) ==> from <= ops[0].id < next
    ensures Increasing(from, ops)
  {
    forall i | 0 < i < |ops|
      ensures ops[i] == ops[1..][i - 1]
    {
    }
    forall i, j | 0 <= i < j < |ops| && Generates(ops[i]) && Generates(ops[j])
      ensures ops[i].id < ops[j].id
    {
      assert ops[j] == ops[1..][j - 1];
      if i > 0 {
        assert ops[i] == ops[1..][i - 1];
      }
    }
  }

  lemma {:induction false} CountedIncreases(s: State, from: nat, ops: seq<Op>, to: nat, a: nat, w: set<nat>)
    requires Counted(s, from, ops, to) && CounterAt(s.table.Keys, from, a, w) && a + |w| + |ops| < TWO_64 - 1
    ensures Increasing(from, ops)
    decreases |ops|
  {
    if ops != [] {
      var t, next := Step(s, ops[0]).0.s, NextCounter(from, ops[0]);
      StepKeys(s, ops[0]);
      hide Sane, Step, FirstUsable, CounterAt, TableOk;
      if Generates(ops[0]) {
        Generated(s.table, from, ops[0].id, a, w, t.table.Keys);
        CountedIncreases(t, next, ops[1..], to, a + 1, w);
      } else {
        OtherCounted(s.table.Keys, from, a, w, ops[0], t.table.Keys);
        CountedIncreases(t, next, ops[1..], to, a, w + Added(ops[0]));
      }
      IncreasingMore(from, next, ops);
    }
  }

  /** From a new log on, with fewer calls than there are ids, whatever ids clients choose themselves and whatever they
      free: every id that is generated is higher than all that were generated before. */
  lemma NeverAgain(s: State, ops: seq<Op>, to: nat)
    requires s.table == map[] && Counted(s, 0, ops, to) && |ops| < TWO_64 - 1
    ensures forall i, j :: 0 <= i < j < |ops| && Generates(ops[i]) && Generates(ops[j]) ==> ops[i].id < ops[j].id
  {
    CountedIncreases(s, 0, ops, to, 0, {});
  }
}
