/** Rebuilding the table after a crash, from the entries in the used segments and the head. */
module Recovery {
  import opened Wrappers
  import opened Layout
  import opened Lists
  import opened LogState
  import opened LiveBytes
  import opened LogInvariant
  import opened ClientSteps

  /** The heap as a scan reads it: the entries of a used segment are all those before the scan ends, its own, old ones,
      and in the end what the bytes behind these, of which nothing is known, are taken for (`tails`).
      The head is read up to the write position only. */
  ghost function AsRead(m: State, tails: seq<seq<Entry>>): State
    requires |tails| == |m.segs|
  {
    m.(segs := seq(|m.segs|, i requires 0 <= i < |m.segs| =>
      if i in m.used then Segment(Seen(m.segs[i]) + tails[i], m.segs[i].used, Behind([], Stops)) else m.segs[i]))
  }

  /** A table that may be looked up. */
  ghost predicate Usable(m: State, t: map<nat, Loc>) {
    forall id :: id in t ==> ValidLoc(m, t[id]) && At(m, t[id]).id == id
  }

  /** The table after the entry at `l` was met: unmarked, it is entered unless one at least as new is there. */
  function Meet(m: State, t: map<nat, Loc>, l: Loc): (t': map<nat, Loc>)
    requires ValidLoc(m, l) && Usable(m, t)
    ensures Usable(m, t')
  {
    var e := At(m, l);
    if e.dead || (e.id in t && e.version <= At(m, t[e.id]).version) then t else t[e.id := l]
  }

  ghost predicate ValidLocs(m: State, ls: seq<Loc>) {
    forall k :: 0 <= k < |ls| ==> ValidLoc(m, ls[k])
  }

  /** The table after all these entries were met, in this order. */
  function MeetAll(m: State, ls: seq<Loc>): (t: map<nat, Loc>)
    requires ValidLocs(m, ls)
    ensures Usable(m, t)
  {
    if ls == [] then map[] else Meet(m, MeetAll(m, ls[..|ls| - 1]), ls[|ls| - 1])
  }

  lemma MeetAllMore(m: State, ls: seq<Loc>, l: Loc)
    requires ValidLocs(m, ls) && ValidLoc(m, l)
    ensures ValidLocs(m, ls + [l]) && MeetAll(m, ls + [l]) == Meet(m, MeetAll(m, ls), l)
  {
    assert (ls + [l])[..|ls|] == ls;
  }

  /** The first `k` entries of segment `i`. */
  function LocsUpTo(i: nat, k: nat): (ls: seq<Loc>)
    ensures |ls| == k && forall j :: 0 <= j < k ==> ls[j] == Loc(i, j)
  {
    if k == 0 then [] else LocsUpTo(i, k - 1) + [Loc(i, k - 1)]
  }

  function LocsIn(m: State, i: nat): seq<Loc>
    requires i < |m.segs|
  {
    LocsUpTo(i, |m.segs[i].log|)
  }

  /** The entries of the first `n` segments of the list. */
  function ListLocs(m: State, l: seq<nat>, n: nat): seq<Loc>
    requires n <= |l| && forall k :: 0 <= k < |l| ==> l[k] < |m.segs|
  {
    if n == 0 then [] else ListLocs(m, l, n - 1) + LocsIn(m, l[n - 1])
  }

  ghost predicate Readable(m: State) {
    && (forall k :: 0 <= k < |m.used| ==> m.used[k] < |m.segs|)
    && (m.head.Some? ==> m.head.value < |m.segs|)
  }

  /** All entries that recovery meets: those of the used list, then those of the head. */
  function Met(m: State): seq<Loc>
    requires Readable(m)
  {
    ListLocs(m, m.used, |m.used|) + if m.head.Some? then LocsIn(m, m.head.value) else []
  }

  lemma {:induction false} ListLocsAre(m: State, l: seq<nat>, n: nat, x: Loc)
    requires n <= |l| && forall k :: 0 <= k < |l| ==> l[k] < |m.segs|
    ensures x in ListLocs(m, l, n) <==> ValidLoc(m, x) && x.seg in l[..n]
  {
    if n > 0 {
      ListLocsAre(m, l, n - 1, x);
      assert l[..n] == l[..n - 1] + [l[n - 1]];
      LocsInAre(m, l[n - 1], x);
    }
  }

  lemma LocsInAre(m: State, i: nat, x: Loc)
    requires i < |m.segs|
    ensures x in LocsIn(m, i) <==> ValidLoc(m, x) && x.seg == i
  {
    if ValidLoc(m, x) && x.seg == i {
      assert LocsIn(m, i)[x.idx] == x;
    }
  }

  lemma MetAre(m: State, x: Loc)
    requires Readable(m)
    ensures x in Met(m) <==> ValidLoc(m, x) && (x.seg in m.used || m.head == Some(x.seg))
  {
    ListLocsAre(m, m.used, |m.used|, x);
    assert m.used[..|m.used|] == m.used;
    if m.head.Some? {
      LocsInAre(m, m.head.value, x);
    }
  }

  lemma MetValid(m: State)
    requires Readable(m)
    ensures ValidLocs(m, Met(m))
  {
    forall k | 0 <= k < |Met(m)|
      ensures ValidLoc(m, Met(m)[k])
    {
      MetAre(m, Met(m)[k]);
    }
  }

  /** Recovery comes to the one place before it comes to the other: the used list goes before the head, segments are
      taken in the order of the list, and entries as they lie. */
  ghost predicate MetBefore(m: State, a: Loc, b: Loc) {
    if a.seg == b.seg then a.idx < b.idx
    else a.seg in m.used && (b.seg in m.used ==> IndexOf(m.used, a.seg) < IndexOf(m.used, b.seg))
  }

  lemma {:induction false} ListOrder(m: State, l: seq<nat>, n: nat, j: nat, k: nat)
    requires n <= |l| && (forall x :: 0 <= x < |l| ==> l[x] < |m.segs|) && Distinct(l)
    requires j < k < |ListLocs(m, l, n)|
    ensures var a, b := ListLocs(m, l, n)[j], ListLocs(m, l, n)[k];
            && a.seg in l[..n] && b.seg in l[..n]
            && if a.seg == b.seg then a.idx < b.idx else IndexOf(l, a.seg) < IndexOf(l, b.seg)
  {
    var ls, front := ListLocs(m, l, n), ListLocs(m, l, n - 1);
    var a, b := ls[j], ls[k];
    ListLocsAre(m, l, n, a);
    ListLocsAre(m, l, n, b);
    if k < |front| {
      ListOrder(m, l, n - 1, j, k);
    } else if j < |front| {
      ListLocsAre(m, l, n - 1, a);
      assert front[j] == a;
      var x :| 0 <= x < n - 1 && l[x] == a.seg;
      assert b.seg == l[n - 1];
      IndexOfAt(l, x);
      IndexOfAt(l, n - 1);
    }
  }

  lemma IndexOfAt(l: seq<nat>, x: nat)
    requires Distinct(l) && x < |l|
    ensures IndexOf(l, l[x]) == x
  {
  }

  /** The order in which entries are met, which decides between entries that are equally new. */
  lemma MetInOrder(m: State, j: nat, k: nat)
    requires Readable(m) && Distinct(m.used) && (m.head.Some? ==> m.head.value !in m.used) && j < k < |Met(m)|
    ensures MetBefore(m, Met(m)[j], Met(m)[k])
  {
    var used := ListLocs(m, m.used, |m.used|);
    assert m.used[..|m.used|] == m.used;
    if k < |used| {
      ListOrder(m, m.used, |m.used|, j, k);
    } else if j < |used| {
      ListLocsAre(m, m.used, |m.used|, Met(m)[j]);
      assert used[j] == Met(m)[j];
    }
  }

  function Recover(m: State): (t: map<nat, Loc>)
    requires Readable(m)
    ensures Usable(m, t)
  {
    MetValid(m);
    MeetAll(m, Met(m))
  }

  // ---------- what is recovered ----------

  /** Entry `j` of the sequence is unmarked and belongs to object `id`. */
  ghost predicate Candidate(m: State, ls: seq<Loc>, id: nat, j: nat)
    requires ValidLocs(m, ls)
  {
    j < |ls| && At(m, ls[j]).id == id && !At(m, ls[j]).dead
  }

  /** Entry `j` is newer than all candidates met before it, and not older than those met after it. */
  ghost predicate FirstNewest(m: State, ls: seq<Loc>, id: nat, j: nat)
    requires ValidLocs(m, ls)
  {
    && Candidate(m, ls, id, j)
    && (forall x :: 0 <= x < j && Candidate(m, ls, id, x) ==> At(m, ls[x]).version < At(m, ls[j]).version)
    && (forall x :: j <= x < |ls| && Candidate(m, ls, id, x) ==> At(m, ls[x]).version <= At(m, ls[j]).version)
  }

  lemma CandidatePrefix(m: State, ls: seq<Loc>, id: nat, j: nat)
    requires ValidLocs(m, ls) && ls != [] && j < |ls| - 1
    ensures Candidate(m, ls, id, j) <==> Candidate(m, ls[..|ls| - 1], id, j)
  {
  }

  /** An object is in the table exactly if an unmarked entry of it was met; the table then has the first met of those
      with the highest version. */
  ghost predicate Found(m: State, ls: seq<Loc>, id: nat, t: map<nat, Loc>) {
    && ValidLocs(m, ls)
    && (id in t ==> exists j: nat :: FirstNewest(m, ls, id, j) && ls[j] == t[id])
    && (id !in t ==> forall j: nat :: !Candidate(m, ls, id, j))
  }

  lemma {:induction false} MeetAllFinds(m: State, ls: seq<Loc>, id: nat)
    requires ValidLocs(m, ls)
    ensures Found(m, ls, id, MeetAll(m, ls))
  {
    if ls != [] {
      var n := |ls| - 1;
      MeetAllFinds(m, ls[..n], id);
      MeetFinds(m, ls, id, MeetAll(m, ls[..n]));
    }
  }

  lemma MeetFinds(m: State, ls: seq<Loc>, id: nat, t: map<nat, Loc>)
    requires ValidLocs(m, ls) && ls != [] && Usable(m, t) && Found(m, ls[..|ls| - 1], id, t)
    ensures Found(m, ls, id, Meet(m, t, ls[|ls| - 1]))
  {
    var n := |ls| - 1;
    var front := ls[..n];
    var t' := Meet(m, t, ls[n]);
    hide Usable;
    assert forall x: nat :: x < n ==> front[x] == ls[x];
    forall x: nat | x < n
      ensures Candidate(m, ls, id, x) <==> Candidate(m, front, id, x)
    {
      CandidatePrefix(m, ls, id, x);
    }
    var e := At(m, ls[n]);
    if e.id != id || e.dead {
      assert !Candidate(m, ls, id, n);
      MeetOther(m, ls, id, t, t');
    } else if id in t {
      var j: nat :| FirstNewest(m, front, id, j) && front[j] == t[id];
      assert Candidate(m, front, id, j) && Candidate(m, ls, id, n);
      if e.version <= At(m, t[id]).version {
        assert FirstNewest(m, ls, id, j) && ls[j] == t'[id];
      } else {
        assert FirstNewest(m, ls, id, n) && ls[n] == t'[id];
      }
    } else {
      assert FirstNewest(m, ls, id, n) && ls[n] == t'[id];
    }
  }

  lemma MeetOther(m: State, ls: seq<Loc>, id: nat, t: map<nat, Loc>, t': map<nat, Loc>)
    requires ValidLocs(m, ls) && ls != [] && Found(m, ls[..|ls| - 1], id, t)
    requires id in t <==> id in t'
    requires id in t ==> t'[id] == t[id]
    requires !Candidate(m, ls, id, |ls| - 1)
    requires forall x: nat :: x < |ls| - 1 ==> (Candidate(m, ls, id, x) <==> Candidate(m, ls[..|ls| - 1], id, x))
    ensures Found(m, ls, id, t')
  {
    if id in t {
      var j: nat :| FirstNewest(m, ls[..|ls| - 1], id, j) && ls[..|ls| - 1][j] == t[id];
      assert FirstNewest(m, ls, id, j) && ls[j] == t'[id];
    }
  }

  /** The same for the whole of recovery. */
  lemma RecoverFinds(m: State, id: nat)
    requires Readable(m)
    ensures Found(m, Met(m), id, Recover(m))
  {
    MetValid(m);
    MeetAllFinds(m, Met(m), id);
  }

  // ---------- before and after a crash ----------

  /** Entry `k` of those that are met does not keep the table's entry of its object from being recovered:
      it is older, or as new but met later. */
  ghost predicate Outdone(r: State, ls: seq<Loc>, table: map<nat, Loc>, k: nat)
    requires ValidLocs(r, ls) && Usable(r, table) && k < |ls|
  {
    var e := At(r, ls[k]);
    e.id in table &&
    (|| e.version < At(r, table[e.id]).version
     || (e.version == At(r, table[e.id]).version && exists j: nat :: j <= k && ls[j] == table[e.id]))
  }

  /** What it takes for an object to be recovered where it was, or for there to be none. */
  ghost predicate Survives(r: State, ls: seq<Loc>, table: map<nat, Loc>, id: nat)
    requires ValidLocs(r, ls) && Usable(r, table)
  {
    && (id in table && !At(r, table[id]).dead ==> table[id] in ls)
    && forall k: nat :: Candidate(r, ls, id, k) ==> Outdone(r, ls, table, k)
  }

  ghost predicate SamePlace(t: map<nat, Loc>, u: map<nat, Loc>, id: nat) {
    (id in t <==> id in u) && (id in t ==> t[id] == u[id])
  }

  lemma FoundExactly(r: State, ls: seq<Loc>, table: map<nat, Loc>, id: nat, t: map<nat, Loc>)
    requires ValidLocs(r, ls) && Usable(r, table) && Found(r, ls, id, t)
    requires id in table ==> !At(r, table[id]).dead
    ensures SamePlace(t, table, id) <==> Survives(r, ls, table, id)
  {
    hide ValidLocs, Usable;
    if id in t {
      var j: nat :| FirstNewest(r, ls, id, j) && ls[j] == t[id];
      assert Candidate(r, ls, id, j);
      if SamePlace(t, table, id) {
        OthersOutdone(r, ls, table, id, j);
      } else if Survives(r, ls, table, id) {
        FirstIsTable(r, ls, table, id, j);
      }
    } else if id in table && table[id] in ls {
      var k: nat :| k < |ls| && ls[k] == table[id];
      TableIsCandidate(r, ls, table, id, k);
    }
  }

  lemma TableIsCandidate(r: State, ls: seq<Loc>, table: map<nat, Loc>, id: nat, k: nat)
    requires ValidLocs(r, ls) && Usable(r, table) && id in table && !At(r, table[id]).dead && k < |ls|
             && ls[k] == table[id]
    ensures Candidate(r, ls, id, k)
  {
  }

  lemma OthersOutdone(r: State, ls: seq<Loc>, table: map<nat, Loc>, id: nat, j: nat)
    requires ValidLocs(r, ls) && Usable(r, table) && id in table && FirstNewest(r, ls, id, j) && ls[j] == table[id]
    ensures Survives(r, ls, table, id)
  {
    forall k: nat | Candidate(r, ls, id, k)
      ensures Outdone(r, ls, table, k)
    {
      if k < j {
        assert At(r, ls[k]).version < At(r, ls[j]).version;
      } else {
        assert At(r, ls[k]).version <= At(r, ls[j]).version;
      }
    }
  }

  lemma FirstIsTable(r: State, ls: seq<Loc>, table: map<nat, Loc>, id: nat, j: nat)
    requires ValidLocs(r, ls) && Usable(r, table) && Survives(r, ls, table, id) && FirstNewest(r, ls, id, j)
    requires id in table ==> !At(r, table[id]).dead
    ensures id in table && ls[j] == table[id]
  {
    assert Outdone(r, ls, table, j);
    var k: nat :| k < |ls| && ls[k] == table[id];
    TableIsCandidate(r, ls, table, id, k);
    if At(r, ls[j]).version == At(r, table[id]).version {
      var i: nat :| i <= j && ls[i] == table[id];
      TableIsCandidate(r, ls, table, id, i);
    }
  }

  lemma ShapeReadable(m: State)
    requires Shape(m)
    ensures Readable(m)
  {
    forall k | 0 <= k < |m.used|
      ensures m.used[k] < |m.segs|
    {
      assert m.used[k] in m.used;
    }
  }

  /** The entries of the heap are where they were, and what they were. */
  lemma AsReadAt(m: State, l: Loc, tails: seq<seq<Entry>>)
    requires |tails| == |m.segs| && ValidLoc(m, l)
    ensures ValidLoc(AsRead(m, tails), l) && At(AsRead(m, tails), l) == At(m, l)
  {
  }

  lemma AsReadTable(m: State, tails: seq<seq<Entry>>)
    requires |tails| == |m.segs| && TableOk(m)
    ensures Usable(AsRead(m, tails), m.table)
    ensures forall id :: id in m.table ==> At(AsRead(m, tails), m.table[id]) == At(m, m.table[id])
  {
    forall id | id in m.table
      ensures ValidLoc(AsRead(m, tails), m.table[id]) && At(AsRead(m, tails), m.table[id]) == At(m, m.table[id])
    {
      AsReadAt(m, m.table[id], tails);
    }
  }

  /** What is met beyond the entries the invariant speaks of: those the cleaner is done with, and old ones behind. */
  ghost predicate Extra(m: State, l: Loc) {
    l.seg < |m.segs| && (|m.segs[l.seg].log| <= l.idx || Scanned(m.phase, l.seg, l.idx))
  }

  /** No object lives in the cleaner's target, and no unmarked entry that is met in spite of being done with, or old,
      gets in the way of its object. */
  ghost predicate CrashSafe(m: State, tails: seq<seq<Entry>>)
    requires |tails| == |m.segs| && TableOk(m) && Readable(AsRead(m, tails))
  {
    var r, ls := AsRead(m, tails), Met(AsRead(m, tails));
    MetValid(r);
    AsReadTable(m, tails);
    && (forall id :: id in m.table ==> m.phase.Start? || m.table[id].seg != m.target)
    && (forall k: nat :: k < |ls| && Extra(m, ls[k]) && !At(r, ls[k]).dead ==> Outdone(r, ls, m.table, k))
  }

  /** After a crash the table that is rebuilt is the one there was, place for place, if and only if that is so. */
  lemma RecoveryIsExact(m: State, tails: seq<seq<Entry>>)
    requires |tails| == |m.segs| && Inv(m)
    ensures TableOk(m) && Readable(AsRead(m, tails))
    ensures Recover(AsRead(m, tails)) == m.table <==> CrashSafe(m, tails)
  {
    InvTable(m);
    ShapeReadable(m);
    var r := AsRead(m, tails);
    var ls, t := Met(r), Recover(r);
    MetValid(r);
    AsReadTable(m, tails);
    forall id
      ensures SamePlace(t, m.table, id) <==> Survives(r, ls, m.table, id)
    {
      RecoverFinds(r, id);
      FoundExactly(r, ls, m.table, id, t);
    }
    hide Inv, Recover, Met, AsRead, Survives;
    SameEverywhere(t, m.table);
    SurvivalIsSafety(m, tails);
  }

  lemma SameEverywhere(t: map<nat, Loc>, u: map<nat, Loc>)
    ensures t == u <==> forall id :: SamePlace(t, u, id)
  {
    if forall id :: SamePlace(t, u, id) {
      forall id
        ensures id in t <==> id in u
        ensures id in t ==> t[id] == u[id]
      {
        assert SamePlace(t, u, id);
      }
    }
  }

  /** An entry of the heap is met unless it is the cleaner's. */
  lemma TableIsMet(m: State, id: nat, tails: seq<seq<Entry>>)
    requires |tails| == |m.segs| && Inv(m) && Readable(AsRead(m, tails)) && id in m.table
    ensures m.table[id] in Met(AsRead(m, tails)) <==> m.phase.Start? || m.table[id].seg != m.target
  {
    var l := m.table[id];
    InvTable(m);
    AsReadAt(m, l, tails);
    MetAre(AsRead(m, tails), l);
    WhereLive(m, l);
  }

  /** A segment with entries is used, the head, or the cleaner's target. */
  lemma WhereLive(m: State, l: Loc)
    requires Shape(m) && ValidLoc(m, l)
    ensures l.seg in m.used || m.head == Some(l.seg) <==> m.phase.Start? || l.seg != m.target
  {
    assert l.seg !in m.free && l.seg !in m.emergency;
    if !m.phase.Start? {
      assert m.target in m.cleaner;
    }
  }

  /** All other entries are known. */
  lemma MetIsOutdone(m: State, k: nat, tails: seq<seq<Entry>>)
    requires |tails| == |m.segs| && Inv(m) && TableOk(m) && Readable(AsRead(m, tails)) && k < |Met(AsRead(m, tails))|
    requires ValidLocs(AsRead(m, tails), Met(AsRead(m, tails))) && Usable(AsRead(m, tails), m.table)
    requires !Extra(m, Met(AsRead(m, tails))[k]) && !At(AsRead(m, tails), Met(AsRead(m, tails))[k]).dead
    ensures Outdone(AsRead(m, tails), Met(AsRead(m, tails)), m.table, k)
  {
    var l := Met(AsRead(m, tails))[k];
    assert ValidLoc(m, l);
    AsReadAt(m, l, tails);
    AsReadTable(m, tails);
    assert Known(m, l.seg, l.idx);
  }

  lemma SurvivalIsSafety(m: State, tails: seq<seq<Entry>>)
    requires |tails| == |m.segs| && Inv(m) && TableOk(m) && Readable(AsRead(m, tails))
    requires ValidLocs(AsRead(m, tails), Met(AsRead(m, tails))) && Usable(AsRead(m, tails), m.table)
    ensures (forall id :: Survives(AsRead(m, tails), Met(AsRead(m, tails)), m.table, id)) <==> CrashSafe(m, tails)
  {
    var r, ls := AsRead(m, tails), Met(AsRead(m, tails));
    forall id | id in m.table
      ensures !At(r, m.table[id]).dead
      ensures m.table[id] in ls <==> m.phase.Start? || m.table[id].seg != m.target
    {
      AsReadTable(m, tails);
      TableIsMet(m, id, tails);
    }
    forall k: nat | k < |ls| && !Extra(m, ls[k]) && !At(r, ls[k]).dead
      ensures Outdone(r, ls, m.table, k)
    {
      MetIsOutdone(m, k, tails);
    }
    hide Inv, AsRead, Met, Outdone, Extra, CrashSafe, Survives;
    if CrashSafe(m, tails) {
      SafeSurvives(m, r, ls, tails);
    }
    if forall id :: Survives(r, ls, m.table, id) {
      SurvivedIsSafe(m, r, ls, tails);
    }
  }

  lemma SafeSurvives(m: State, r: State, ls: seq<Loc>, tails: seq<seq<Entry>>)
    requires |tails| == |m.segs| && TableOk(m) && Readable(AsRead(m, tails))
    requires r == AsRead(m, tails) && ls == Met(r) && ValidLocs(r, ls) && Usable(r, m.table)
    requires forall id :: id in m.table ==>
             !At(r, m.table[id]).dead && (m.table[id] in ls <==> m.phase.Start? || m.table[id].seg != m.target)
    requires forall k: nat :: k < |ls| && !Extra(m, ls[k]) && !At(r, ls[k]).dead ==> Outdone(r, ls, m.table, k)
    requires CrashSafe(m, tails)
    ensures forall id :: Survives(r, ls, m.table, id)
  {
    hide AsRead, Met, Outdone, Extra;
  }

  lemma SurvivedIsSafe(m: State, r: State, ls: seq<Loc>, tails: seq<seq<Entry>>)
    requires |tails| == |m.segs| && TableOk(m) && Readable(AsRead(m, tails))
    requires r == AsRead(m, tails) && ls == Met(r) && ValidLocs(r, ls) && Usable(r, m.table)
    requires forall id :: id in m.table ==>
             !At(r, m.table[id]).dead && (m.table[id] in ls <==> m.phase.Start? || m.table[id].seg != m.target)
    requires forall id :: Survives(r, ls, m.table, id)
    ensures CrashSafe(m, tails)
  {
    hide AsRead, Met, Outdone, Extra;
    forall id | id in m.table
      ensures m.phase.Start? || m.table[id].seg != m.target
    {
      assert Survives(r, ls, m.table, id);
    }
    forall k: nat | k < |ls| && !At(r, ls[k]).dead
      ensures Outdone(r, ls, m.table, k)
    {
      assert Survives(r, ls, m.table, At(r, ls[k]).id) && Candidate(r, ls, At(r, ls[k]).id, k);
    }
  }

  // ---------- freed objects ----------

  /** Besides its current entry, no unmarked one of this object is met. */
  ghost predicate OnlyMet(m: State, id: nat, tails: seq<seq<Entry>>)
    requires |tails| == |m.segs| && Readable(AsRead(m, tails)) && id in m.table
  {
    var r, ls := AsRead(m, tails), Met(AsRead(m, tails));
    MetValid(r);
    forall k: nat :: Candidate(r, ls, id, k) ==> ls[k] == m.table[id]
  }

  /** A freed object stays freed over a crash if and only if no other unmarked entry of it is met. */
  lemma FreedStaysFreed(m: State, id: nat, tails: seq<seq<Entry>>)
    requires |tails| == |m.segs| && Inv(m) && Sane(m) && id in m.table
    ensures Readable(AsRead(m, tails)) && Readable(AsRead(Free(m, id), tails))
    ensures id !in Recover(AsRead(Free(m, id), tails)) <==> OnlyMet(m, id, tails)
  {
    FreedIsReadable(m, id, tails);
    hide Inv, Sane, Free, Freed, Recover, AsRead, Readable, TableOk, OnlyMet;
    FreedRecovered(m, Free(m, id), id, tails);
  }

  lemma FreedIsReadable(m: State, id: nat, tails: seq<seq<Entry>>)
    requires |tails| == |m.segs| && Inv(m) && Sane(m) && id in m.table
    ensures TableOk(m) && Freed(m, Free(m, id), id) && !At(m, m.table[id]).dead
    ensures Readable(AsRead(m, tails)) && Readable(AsRead(Free(m, id), tails))
  {
    FreeIsFreed(m, id);
    InvTable(m);
    ShapeReadable(m);
    FreedShape(m, Free(m, id), id);
    ShapeReadable(Free(m, id));
  }

  lemma FreedRecovered(m: State, f: State, id: nat, tails: seq<seq<Entry>>)
    requires |tails| == |m.segs| && TableOk(m) && id in m.table && Freed(m, f, id) && !At(m, m.table[id]).dead
    requires Readable(AsRead(m, tails)) && Readable(AsRead(f, tails))
    ensures id !in Recover(AsRead(f, tails)) <==> OnlyMet(m, id, tails)
  {
    RecoverFinds(AsRead(f, tails), id);
    MetValid(AsRead(f, tails));
    MetValid(AsRead(m, tails));
    FreedMet(m, f, id, tails);
    hide Recover, Met, AsRead, Freed, Readable, TableOk, ValidLocs, Found, OnlyMet, Candidate;
    FoundIfMet(AsRead(f, tails), Met(AsRead(f, tails)), id, Recover(AsRead(f, tails)));
    FreedCandidates(m, f, id, tails);
  }

  /** Freeing an object changes no place. */
  lemma FreedMet(m: State, f: State, id: nat, tails: seq<seq<Entry>>)
    requires |tails| == |m.segs| && TableOk(m) && id in m.table && Freed(m, f, id)
    requires Readable(AsRead(m, tails)) && Readable(AsRead(f, tails))
    ensures Met(AsRead(f, tails)) == Met(AsRead(m, tails))
  {
    forall i: nat | i < |m.segs|
      ensures |AsRead(f, tails).segs[i].log| == |AsRead(m, tails).segs[i].log|
    {
      assert |f.segs[i].log| == |m.segs[i].log| && |Seen(f.segs[i])| == |Seen(m.segs[i])|;
    }
    hide AsRead, Freed;
    SameListLocs(AsRead(m, tails), AsRead(f, tails), m.used, |m.used|);
  }

  lemma {:induction false} SameListLocs(m: State, f: State, l: seq<nat>, n: nat)
    requires |f.segs| == |m.segs| && forall i: nat :: i < |m.segs| ==> |f.segs[i].log| == |m.segs[i].log|
    requires n <= |l| && forall k :: 0 <= k < |l| ==> l[k] < |m.segs|
    ensures ListLocs(f, l, n) == ListLocs(m, l, n)
  {
    if n > 0 {
      SameListLocs(m, f, l, n - 1);
    }
  }

  /** An object is recovered if and only if an unmarked entry of it is met. */
  lemma FoundIfMet(r: State, ls: seq<Loc>, id: nat, t: map<nat, Loc>)
    requires ValidLocs(r, ls) && Found(r, ls, id, t)
    ensures id in t <==> exists k: nat :: Candidate(r, ls, id, k)
  {
  }

  lemma FreedCandidates(m: State, f: State, id: nat, tails: seq<seq<Entry>>)
    requires |tails| == |m.segs| && TableOk(m) && id in m.table && Freed(m, f, id)
    requires Readable(AsRead(m, tails)) && Readable(AsRead(f, tails))
    requires Met(AsRead(f, tails)) == Met(AsRead(m, tails)) && ValidLocs(AsRead(m, tails), Met(AsRead(m, tails)))
             && ValidLocs(AsRead(f, tails), Met(AsRead(f, tails)))
    requires !At(m, m.table[id]).dead
    ensures OnlyMet(m, id, tails) <==> !exists k: nat :: Candidate(AsRead(f, tails), Met(AsRead(f, tails)), id, k)
  {
    var ls := Met(AsRead(m, tails));
    hide Met, AsRead, Freed;
    forall k: nat
      ensures Candidate(AsRead(f, tails), ls, id, k) <==> Candidate(AsRead(m, tails), ls, id, k) && ls[k] != m.table[id]
    {
      if k < |ls| {
        FreedEntry(m, f, id, ls[k], tails);
      }
    }
  }

  lemma FreedEntry(m: State, f: State, id: nat, l: Loc, tails: seq<seq<Entry>>)
    requires |tails| == |m.segs| && TableOk(m) && id in m.table && Freed(m, f, id) && ValidLoc(AsRead(m, tails), l)
    ensures ValidLoc(AsRead(f, tails), l)
    ensures At(AsRead(f, tails), l) == if l == m.table[id] then At(m, l).(dead := true) else At(AsRead(m, tails), l)
  {
    assert l == m.table[id] || f.segs[l.seg].log == m.segs[l.seg].log || l.seg == m.table[id].seg;
  }
}
