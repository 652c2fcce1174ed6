/** What callers can know of versions: enough to tell when an object may be freed. */
module Versions {
  import opened Layout
  import opened LogState
  import opened LiveBytes
  import opened LogInvariant
  import opened ClientSteps
  import opened CleanerSteps
  import opened LogRuns

  ghost function VersionsOf(s: State): map<nat, nat>
    requires TableOk(s)
  {
    VersionsIn(Current(s))
  }

  ghost function VersionsIn(c: map<nat, Entry>): map<nat, nat> {
    map id | id in c :: c[id].version
  }

  /** What the call does to the versions: it starts one, raises it, or ends it. */
  ghost function OnVersions(v: map<nat, nat>, op: Op, ok: bool): map<nat, nat> {
    match op
    case Palloc(id, _) => if ok then v[id := 1] else v
    case PallocWithId(id, _) => if ok then v[id := if id in v then v[id] + 1 else 1] else v
    case UpdateData(id, _) => if ok && id in v then v[id := v[id] + 1] else v
    case Pfree(id) => v - {id}
    case CleanerStep => v
  }

  ghost function VersionsAfter(v: map<nat, nat>, ops: seq<Op>, oks: seq<bool>): map<nat, nat>
    requires |ops| == |oks|
    decreases |ops|
  {
    if ops == [] then v else VersionsAfter(OnVersions(v, ops[0], oks[0]), ops[1..], oks[1..])
  }

  lemma StoredVersions(c: map<nat, Entry>, c': map<nat, Entry>, id: nat, e: Entry, ok: bool)
    requires c' == if ok then c[id := e] else c
    ensures VersionsIn(c') == if ok then VersionsIn(c)[id := e.version] else VersionsIn(c)
  {
  }

  lemma FreedVersions(c: map<nat, Entry>, id: nat)
    ensures VersionsIn(c - {id}) == VersionsIn(c) - {id}
  {
  }

  lemma NewerVersion(s: State, id: nat, data: seq<byte>)
    requires TableOk(s)
    ensures id in VersionsOf(s) <==> id in s.table
    ensures Newer(s, id, data).version == if id in VersionsOf(s) then VersionsOf(s)[id] + 1 else 1
  {
  }

  lemma NewVersions(s: State, id: nat, data: seq<byte>)
    requires Inv(s) && TableOk(s) && id !in s.table && CanStore(s, data)
    ensures InRange(s) && TableOk(New(s, id, data).s)
    ensures var r := New(s, id, data);
            VersionsOf(r.s) == if r.ok then VersionsOf(s)[id := 1] else VersionsOf(s)
  {
    EmptyFits(s, data);
    NewKeeps(s, id, data);
    var r := New(s, id, data);
    InvTable(r.s);
    StoredVersions(Current(s), Current(r.s), id, Entry(id, 1, data, false), r.ok);
    hide *;
  }

  lemma PutVersions(s: State, id: nat, data: seq<byte>)
    requires Inv(s) && TableOk(s) && Sane(s) && CanStore(s, data)
    ensures TableOk(Put(s, id, data).s)
    ensures var r := Put(s, id, data);
            VersionsOf(r.s) == if r.ok
                then VersionsOf(s)[id := if id in VersionsOf(s) then VersionsOf(s)[id] + 1 else 1] else VersionsOf(s)
  {
    EmptyFits(s, data);
    PutKeeps(s, id, data);
    var r, e := Put(s, id, data), Newer(s, id, data);
    StoredVersions(Current(s), Current(r.s), id, e, r.ok);
    NewerVersion(s, id, data);
    hide *;
  }

  lemma UpdateVersions(s: State, id: nat, data: seq<byte>)
    requires Inv(s) && TableOk(s) && Sane(s) && id in s.table && data != [] && CanStore(s, data)
    ensures TableOk(Update(s, id, data).s)
    ensures var r := Update(s, id, data);
            && id in VersionsOf(s)
            && VersionsOf(r.s) == if r.ok then VersionsOf(s)[id := VersionsOf(s)[id] + 1] else VersionsOf(s)
  {
    EmptyFits(s, data);
    UpdateKeeps(s, id, data);
    var r, e := Update(s, id, data), Newer(s, id, data);
    StoredVersions(Current(s), Current(r.s), id, e, r.ok);
    NewerVersion(s, id, data);
    hide *;
  }

  lemma FreeVersions(s: State, id: nat)
    requires Inv(s) && TableOk(s) && Sane(s)
    ensures TableOk(Free(s, id)) && VersionsOf(Free(s, id)) == VersionsOf(s) - {id}
  {
    NewerVersion(s, id, []);
    if id in s.table {
      FreeKeeps(s, id);
      FreedVersions(Current(s), id);
      FreeIsFreed(s, id);
      FreedLocated(s, Free(s, id), id);
    } else {
      NothingToFree(s, id);
    }
    hide *;
  }

  lemma StepVersions(s: State, op: Op)
    requires Inv(s) && TableOk(s) && Sane(s) && Allowed(s, op) && Step(s, op).0.Continue?
    ensures TableOk(Step(s, op).0.s)
    ensures VersionsOf(Step(s, op).0.s) == OnVersions(VersionsOf(s), op, Step(s, op).1)
  {
    hide Inv, Sane, TableOk, Current, New, Put, Update, Free, Clean, VersionsOf, CanStore, CanReplace, OnlyVersion,
         ScanSafe;
    match op
    case Palloc(id, data) => NewVersions(s, id, data);
    case PallocWithId(id, data) => PutVersions(s, id, data);
    case UpdateData(id, data) =>
      if id in s.table && data != [] {
        UpdateVersions(s, id, data);
      } else {
        NothingToUpdate(s, id, data);
      }
    case Pfree(id) => FreeVersions(s, id);
    case CleanerStep => CleanVersions(s);
  }

  lemma CleanVersions(s: State)
    requires Inv(s) && TableOk(s) && Sane(s) && ScanSafe(s)
    ensures Clean(s).Continue? && TableOk(Clean(s).s) && VersionsOf(Clean(s).s) == VersionsOf(s)
  {
    CleanKeeps(s);
    InvTable(Clean(s).s);
    hide Inv, Clean, Sane, ScanSafe, Current, VersionsIn;
  }

  lemma {:induction false} RunVersions(s: State, ops: seq<Op>)
    requires Inv(s) && Admissible(s, ops)
    ensures var r := Execute(s, ops);
            && r.Completed? && |r.oks| == |ops| && TableOk(s) && TableOk(r.s)
            && VersionsOf(r.s) == VersionsAfter(VersionsOf(s), ops, r.oks)
    decreases |ops|
  {
    InvTable(s);
    RunRefines(s, ops);
    if ops != [] {
      var t, ok := NextState(s, ops);
      StepVersions(s, ops[0]);
      RunVersions(t, ops[1..]);
      hide Inv, Sane, Admissible, VersionsOf, OnVersions, Allowed, Step, TableOk;
      assert ([ok] + Execute(t, ops[1..]).oks)[1..] == Execute(t, ops[1..]).oks;
    }
  }

  /** By the calls alone: an object that was stored and has not been updated since may be freed. */
  lemma NotUpdatedMayBeFreed(ends: seq<End>, ops: seq<Op>, id: nat)
    requires |ends| >= 2 && Admissible(Formatted(ends), ops)
    ensures var r := Execute(Formatted(ends), ops);
            && r.Completed? && |r.oks| == |ops| && TableOk(r.s)
            && var v := VersionsAfter(map[], ops, r.oks);
               (id in v && v[id] == 1) || id !in v ==> Allowed(r.s, Pfree(id))
  {
    FormattedInv(ends);
    RunRefines(Formatted(ends), ops);
    RunVersions(Formatted(ends), ops);
    var r := Execute(Formatted(ends), ops);
    assert VersionsOf(Formatted(ends)) == map[];
    FirstMayBeFreed(r.s, id);
  }

  lemma FirstMayBeFreed(s: State, id: nat)
    requires Inv(s) && TableOk(s)
    ensures id in VersionsOf(s) <==> id in s.table
    ensures id !in VersionsOf(s) || VersionsOf(s)[id] == 1 ==> Allowed(s, Pfree(id))
  {
    if id in s.table && At(s, s.table[id]).version == 1 {
      FirstVersionIsOnly(s, id);
    }
  }
}
