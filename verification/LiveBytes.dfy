/** How many bytes of a segment the table still points into. */
module LiveBytes {
  import opened Layout
  import opened LogState

  ghost predicate IsLive(t: map<nat, Loc>, i: nat, j: nat, e: Entry) {
    e.id in t && t[e.id] == Loc(i, j)
  }

  /** Bytes of the entries of segment `i`, from entry `k` on, that table `t` points to. */
  ghost function LiveFrom(t: map<nat, Loc>, i: nat, log: seq<Entry>, k: nat): nat
    decreases |log| - k
  {
    if k >= |log| then 0
    else (if IsLive(t, i, k, log[k]) then Size(log[k]) else 0) + LiveFrom(t, i, log, k + 1)
  }

  ghost function Live(s: State, i: nat): nat
    requires i < |s.segs|
  {
    LiveFrom(s.table, i, s.segs[i].log, 0)
  }

  lemma {:induction false} LiveSame(t: map<nat, Loc>, t': map<nat, Loc>, i: nat, log: seq<Entry>, log': seq<Entry>,
      k: nat)
    requires |log| == |log'|
    requires forall j :: k <= j < |log| ==>
               Size(log[j]) == Size(log'[j]) && (IsLive(t, i, j, log[j]) <==> IsLive(t', i, j, log'[j]))
    ensures LiveFrom(t, i, log, k) == LiveFrom(t', i, log', k)
    decreases |log| - k
  {
    if k < |log| {
      LiveSame(t, t', i, log, log', k + 1);
    }
  }

  lemma {:induction false} LiveAppend(t: map<nat, Loc>, i: nat, log: seq<Entry>, e: Entry, k: nat)
    requires k <= |log|
    ensures LiveFrom(t, i, log + [e], k)
         == LiveFrom(t, i, log, k) + if IsLive(t, i, |log|, e) then Size(e) else 0
    decreases |log| - k
  {
    if k < |log| {
      LiveAppend(t, i, log, e, k + 1);
    } else {
      assert LiveFrom(t, i, log + [e], |log| + 1) == 0;
    }
  }

  /** When one entry stops being live, its size is what goes missing. */
  lemma {:induction false} LiveDrop(t: map<nat, Loc>, t': map<nat, Loc>, i: nat, log: seq<Entry>, k: nat, d: nat)
    requires k <= d < |log| && IsLive(t, i, d, log[d]) && !IsLive(t', i, d, log[d])
    requires forall j :: k <= j < |log| && j != d ==> (IsLive(t, i, j, log[j]) <==> IsLive(t', i, j, log[j]))
    ensures LiveFrom(t, i, log, k) == LiveFrom(t', i, log, k) + Size(log[d])
    decreases d - k
  {
    if k < d {
      LiveDrop(t, t', i, log, k + 1, d);
    } else {
      LiveSame(t, t', i, log, log, k + 1);
    }
  }

  lemma {:induction false} LiveAtLeast(t: map<nat, Loc>, i: nat, log: seq<Entry>, k: nat, d: nat)
    requires k <= d < |log| && IsLive(t, i, d, log[d])
    ensures Size(log[d]) <= LiveFrom(t, i, log, k)
    decreases d - k
  {
    if k < d {
      LiveAtLeast(t, i, log, k + 1, d);
    }
  }

  lemma {:induction false} LiveSuffix(t: map<nat, Loc>, i: nat, log: seq<Entry>, j: nat, k: nat)
    requires j <= k
    ensures LiveFrom(t, i, log, k) <= LiveFrom(t, i, log, j)
    decreases k - j
  {
    if j < k {
      LiveSuffix(t, i, log, j + 1, k);
    }
  }

  /** Each object's table entry points to an entry of that object. */
  ghost predicate TableOk(s: State) {
    forall id :: id in s.table ==> ValidLoc(s, s.table[id]) && At(s, s.table[id]).id == id
  }

  /** Bytes of segment `i` that the current version of object `id` takes. */
  ghost function Share(s: State, id: nat, i: nat): nat
    requires TableOk(s)
  {
    if id in s.table && s.table[id].seg == i then Size(At(s, s.table[id])) else 0
  }

  lemma ShareAtMostLive(s: State, id: nat, i: nat)
    requires TableOk(s) && i < |s.segs|
    ensures Share(s, id, i) <= Live(s, i)
  {
    if id in s.table && s.table[id].seg == i {
      LiveAtLeast(s.table, i, s.segs[i].log, 0, s.table[id].idx);
    }
  }

  /** Forgetting an object takes its share out of the live bytes; all else stays. */
  lemma LiveForget(s: State, t': map<nat, Loc>, id: nat, i: nat, k: nat)
    requires TableOk(s) && i < |s.segs|
    requires forall x :: x in s.table && x != id ==> x in t' && t'[x] == s.table[x]
    requires forall x :: x in t' && x != id ==> x in s.table
    requires id in t' ==> t'[id].seg != i || t'[id].idx >= |s.segs[i].log|
    ensures LiveFrom(t', i, s.segs[i].log, k)
         == LiveFrom(s.table, i, s.segs[i].log, k)
          - if id in s.table && s.table[id].seg == i && k <= s.table[id].idx then Share(s, id, i) else 0
  {
    var log := s.segs[i].log;
    if id in s.table && s.table[id].seg == i && k <= s.table[id].idx {
      LiveDrop(s.table, t', i, log, k, s.table[id].idx);
    } else {
      LiveSame(s.table, t', i, log, log, k);
    }
  }
}
