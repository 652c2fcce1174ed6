/** The two trees refine the same finite map: after the same insertions, every read gives the same answer. */
module TreesAgree {
  import opened Wrappers
  import opened Pairs
  import P = BPlusTree
  import B = BTree

  /** The map after these insertions, later ones overwriting earlier ones. */
  function Inserted(m: map<nat, Value>, ops: seq<Pair>): map<nat, Value> {
    if ops == [] then m else Inserted(m, ops[..|ops| - 1])[ops[|ops| - 1].key := ops[|ops| - 1].value]
  }

  function At(m: map<nat, Value>, k: nat): Option<Value> {
    if k in m then Some(m[k]) else None
  }

  /** The sequence is the map, in the order of its keys. */
  ghost predicate Represents(s: seq<Pair>, m: map<nat, Value>) {
    Sorted(s) && forall k: nat :: Lookup(s, k) == At(m, k)
  }

  lemma EmptyRepresents()
    ensures Represents([], map[])
  {
  }

  lemma UpsertRepresents(s: seq<Pair>, m: map<nat, Value>, k: nat, v: Value)
    requires Represents(s, m)
    ensures Represents(Upsert(s, k, v), m[k := v])
  {
    hide Sorted, Lookup, Upsert;
    UpsertSorted(s, k, v);
    forall x: nat
      ensures Lookup(Upsert(s, k, v), x) == At(m[k := v], x)
    {
      UpsertLookup(s, k, v, x);
    }
  }

  /** One map has one such sequence, so trees that represent it hold the same pairs in the same order. */
  lemma RepresentsOne(s: seq<Pair>, t: seq<Pair>, m: map<nat, Value>)
    requires Represents(s, m) && Represents(t, m)
    ensures s == t
  {
    hide Sorted, Lookup;
    LookupsDetermine(s, t);
  }

  /** The trees have nothing in common. */
  ghost predicate Separate(a: P.BPlusTree, b: B.BTree)
    reads a`repr, b`repr
  {
    a !in b.repr && b !in a.repr && a.repr !! b.repr
  }

  /** One workload on both trees. */
  method InsertAll(a: P.BPlusTree, b: B.BTree, ops: seq<Pair>, ghost m: map<nat, Value>)
    requires a.Valid() && b.Valid() && Separate(a, b) && Represents(a.Contents(), m) && Represents(b.Contents(), m)
    modifies a, a.repr, b, b.repr
    ensures a.Valid() && b.Valid() && Separate(a, b)
    ensures Represents(a.Contents(), Inserted(m, ops)) && Represents(b.Contents(), Inserted(m, ops))
    ensures ops != [] ==> a.root != null && b.root != null
  {
    hide Represents, a.Valid, b.Valid;
    var i := 0;
    while i < |ops|
      invariant i <= |ops| && a.Valid() && b.Valid() && Separate(a, b)
      invariant forall o :: o in a.repr ==> o in old(a.repr) || fresh(o)
      invariant forall o :: o in b.repr ==> o in old(b.repr) || fresh(o)
      invariant Represents(a.Contents(), Inserted(m, ops[..i])) && Represents(b.Contents(), Inserted(m, ops[..i]))
      invariant i > 0 ==> a.root != null && b.root != null
    {
      ghost var n := Inserted(m, ops[..i]);
      assert ops[..i + 1][..i] == ops[..i];
      UpsertRepresents(a.Contents(), n, ops[i].key, ops[i].value);
      UpsertRepresents(b.Contents(), n, ops[i].key, ops[i].value);
      a.Insert(ops[i].key, ops[i].value);
      b.Insert(ops[i].key, ops[i].value);
      i := i + 1;
    }
    assert ops[..|ops|] == ops;
  }

  /** After the same insertions into two new trees, both answer every read like the map. */
  method SameAnswers(d: nat, ops: seq<Pair>, key: nat) returns (x: Option<Value>, y: Option<Value>)
    requires d >= 2 && ops != []
    ensures x == y == At(Inserted(map[], ops), key)
  {
    hide Represents;
    var a := new P.BPlusTree(d);
    var b := new B.BTree(d);
    EmptyRepresents();
    InsertAll(a, b, ops, map[]);
    Answers(a.Contents(), Inserted(map[], ops), key);
    Answers(b.Contents(), Inserted(map[], ops), key);
    x := a.Read(key);
    y := b.Read(key);
  }

  lemma Answers(s: seq<Pair>, m: map<nat, Value>, k: nat)
    requires Represents(s, m)
    ensures Lookup(s, k) == At(m, k)
  {
  }
}
