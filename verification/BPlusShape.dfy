/** B+ trees as values over the nodes that hold them, and what splitting and inserting do to their shape. */
module BPlusShape {
  import opened Pairs

  /** A node as it is allocated: room for all keys and children it may ever have. */
  class Node {
    const leaf: bool
    var nk: nat
    const entries: array<Pair>
    const children: array<Node?>
    var next: Node?
    var previous: Node?

    /** create_node */
    constructor (d: nat, leaf: bool)
      requires d >= 2
      ensures this.leaf == leaf && nk == 0 && next == null && previous == null
      ensures entries.Length == 2 * d - 1 && children.Length == 2 * d && fresh(entries) && fresh(children)
    {
      this.leaf := leaf;
      nk := 0;
      entries := new Pair[2 * d - 1](_ => Pair(0, ""));
      children := new Node?[2 * d](_ => null);
      next := null;
      previous := null;
    }
  }

  datatype Tree =
    | Leaf(node: Node, es: seq<Pair>)
    | Inner(node: Node, keys: seq<nat>, kids: seq<Tree>)

  // ---------- contents ----------

  /** The pairs in the leaves, from left to right. */
  ghost function Flat(t: Tree): seq<Pair>
    decreases t, 1
  {
    match t
    case Leaf(_, es) => es
    case Inner(_, _, kids) => FlatAll(kids)
  }

  ghost function FlatAll(kids: seq<Tree>): seq<Pair>
    decreases kids, 0
  {
    if kids == [] then [] else Flat(kids[0]) + FlatAll(kids[1..])
  }

  /** The leaf nodes, from left to right. */
  ghost function Leaves(t: Tree): seq<Node>
    decreases t, 1
  {
    match t
    case Leaf(n, _) => [n]
    case Inner(_, _, kids) => LeavesAll(kids)
  }

  ghost function LeavesAll(kids: seq<Tree>): seq<Node>
    decreases kids, 0
  {
    if kids == [] then [] else Leaves(kids[0]) + LeavesAll(kids[1..])
  }

  ghost function Nodes(t: Tree): set<Node>
    decreases t, 1
  {
    match t
    case Leaf(n, _) => {n}
    case Inner(n, _, kids) => {n} + NodesAll(kids)
  }

  ghost function NodesAll(kids: seq<Tree>): set<Node>
    decreases kids, 0
  {
    if kids == [] then {} else Nodes(kids[0]) + NodesAll(kids[1..])
  }

  lemma Assoc<T>(a: seq<T>, b: seq<T>, c: seq<T>)
    ensures a + (b + c) == a + b + c
  {
  }

  lemma FlatHead(kids: seq<Tree>)
    requires kids != []
    ensures FlatAll(kids) == Flat(kids[0]) + FlatAll(kids[1..])
    ensures LeavesAll(kids) == Leaves(kids[0]) + LeavesAll(kids[1..])
    ensures NodesAll(kids) == Nodes(kids[0]) + NodesAll(kids[1..])
  {
  }

  lemma Parted<T>(s: seq<T>, j: nat)
    requires j < |s|
    ensures s == s[..j] + ([s[j]] + s[j + 1..])
  {
  }

  lemma {:induction false} FlatAllConcat(a: seq<Tree>, b: seq<Tree>)
    ensures FlatAll(a + b) == FlatAll(a) + FlatAll(b)
    ensures LeavesAll(a + b) == LeavesAll(a) + LeavesAll(b)
    ensures NodesAll(a + b) == NodesAll(a) + NodesAll(b)
  {
    if a == [] {
      assert a + b == b;
    } else {
      assert (a + b)[1..] == a[1..] + b;
      FlatAllConcat(a[1..], b);
      FlatHead(a + b);
      FlatHead(a);
      hide FlatAll, LeavesAll, NodesAll, Flat, Leaves, Nodes;
      Assoc(Flat(a[0]), FlatAll(a[1..]), FlatAll(b));
      Assoc(Leaves(a[0]), LeavesAll(a[1..]), LeavesAll(b));
    }
  }

  lemma FlatOne(t: Tree)
    ensures FlatAll([t]) == Flat(t) && LeavesAll([t]) == Leaves(t) && NodesAll([t]) == Nodes(t)
  {
    assert [t][1..] == [];
  }

  /** The contents of the children around child `j`. */
  lemma FlatAround(kids: seq<Tree>, j: nat)
    requires j < |kids|
    ensures FlatAll(kids) == FlatAll(kids[..j]) + Flat(kids[j]) + FlatAll(kids[j + 1..])
    ensures LeavesAll(kids) == LeavesAll(kids[..j]) + Leaves(kids[j]) + LeavesAll(kids[j + 1..])
    ensures NodesAll(kids) == NodesAll(kids[..j]) + Nodes(kids[j]) + NodesAll(kids[j + 1..])
  {
    hide FlatAll, LeavesAll, NodesAll, Flat, Leaves, Nodes;
    Parted(kids, j);
    FlatAllConcat(kids[..j], [kids[j]] + kids[j + 1..]);
    FlatAllConcat([kids[j]], kids[j + 1..]);
    FlatOne(kids[j]);
    Assoc(FlatAll(kids[..j]), Flat(kids[j]), FlatAll(kids[j + 1..]));
    Assoc(LeavesAll(kids[..j]), Leaves(kids[j]), LeavesAll(kids[j + 1..]));
  }

  // ---------- shape ----------

  /** Child `i + 1` is not empty, and its smallest key is separator `i`. */
  ghost predicate Separates(keys: seq<nat>, kids: seq<Tree>, i: nat)
    requires i < |keys| && |kids| == |keys| + 1
  {
    Flat(kids[i + 1]) != [] && Flat(kids[i + 1])[0].key == keys[i]
  }

  /** A tree of height `h` and minimum degree `d` whose topmost node holds at least `min` keys. */
  ghost predicate WellFormed(d: nat, min: nat, t: Tree, h: nat)
    decreases h
  {
    match t
    case Leaf(_, es) => h == 0 && min <= |es| < 2 * d
    case Inner(_, keys, kids) =>
      && h > 0 && min <= |keys| < 2 * d && |kids| == |keys| + 1
      && (forall i :: 0 <= i < |kids| ==> WellFormed(d, d - 1, kids[i], h - 1))
      && (forall i :: 0 <= i < |keys| ==> Separates(keys, kids, i))
  }

  lemma {:induction false} NotEmpty(d: nat, min: nat, t: Tree, h: nat)
    requires d >= 2 && WellFormed(d, min, t, h) && (t.Leaf? ==> min >= 1)
    ensures Flat(t) != [] && Leaves(t) != []
    decreases h
  {
    if t.Inner? {
      NotEmpty(d, d - 1, t.kids[0], h - 1);
    }
  }

  ghost predicate Full(d: nat, t: Tree) {
    match t
    case Leaf(_, es) => |es| + 1 == 2 * d
    case Inner(_, keys, _) => |keys| + 1 == 2 * d
  }

  /** No node occurs twice. */
  ghost predicate Tidy(t: Tree)
    decreases t, 1
  {
    match t
    case Leaf(_, _) => true
    case Inner(n, _, kids) => n !in NodesAll(kids) && TidyAll(kids)
  }

  ghost predicate TidyAll(kids: seq<Tree>)
    decreases kids, 0
  {
    kids == [] || (Tidy(kids[0]) && TidyAll(kids[1..]) && Nodes(kids[0]) !! NodesAll(kids[1..]))
  }

  lemma {:induction false} TidyConcat(a: seq<Tree>, b: seq<Tree>)
    ensures TidyAll(a + b) <==> TidyAll(a) && TidyAll(b) && NodesAll(a) !! NodesAll(b)
  {
    if a == [] {
      assert a + b == b;
    } else {
      assert (a + b)[1..] == a[1..] + b;
      FlatAllConcat(a[1..], b);
      TidyConcat(a[1..], b);
    }
  }

  lemma TidyOne(t: Tree)
    ensures TidyAll([t]) <==> Tidy(t)
  {
    assert [t][1..] == [];
  }

  lemma TidyAround(kids: seq<Tree>, j: nat)
    requires j < |kids|
    ensures TidyAll(kids) <==>
              && TidyAll(kids[..j]) && Tidy(kids[j]) && TidyAll(kids[j + 1..])
              && NodesAll(kids[..j]) !! Nodes(kids[j]) && NodesAll(kids[..j]) !! NodesAll(kids[j + 1..])
                   && Nodes(kids[j]) !! NodesAll(kids[j + 1..])
  {
    assert kids == kids[..j] + ([kids[j]] + kids[j + 1..]);
    TidyConcat(kids[..j], [kids[j]] + kids[j + 1..]);
    TidyConcat([kids[j]], kids[j + 1..]);
    FlatAllConcat([kids[j]], kids[j + 1..]);
    TidyOne(kids[j]);
    FlatOne(kids[j]);
  }

  // ---------- descending ----------

  /** The keys lie on either side of child `j`. */
  ghost predicate LeadsTo(keys: seq<nat>, j: nat, k: nat) {
    && j <= |keys|
    && (j > 0 ==> keys[j - 1] <= k)
    && (j < |keys| ==> k < keys[j])
  }

  /** All that is left of child `j` is smaller than its smallest key, all that is right of it not less than the next
      separator. */
  lemma Divided(d: nat, min: nat, t: Tree, h: nat, j: nat)
    requires d >= 2 && t.Inner? && WellFormed(d, min, t, h) && Sorted(Flat(t)) && j < |t.kids|
    ensures Flat(t) == FlatAll(t.kids[..j]) + Flat(t.kids[j]) + FlatAll(t.kids[j + 1..])
    ensures Sorted(Flat(t.kids[j]))
    ensures j > 0 ==> AllBelow(FlatAll(t.kids[..j]), t.keys[j - 1])
    ensures j < |t.keys| ==> AllFrom(FlatAll(t.kids[j + 1..]), t.keys[j])
    ensures j == 0 ==> FlatAll(t.kids[..j]) == []
    ensures j == |t.keys| ==> FlatAll(t.kids[j + 1..]) == []
  {
    var a, b, c := FlatAll(t.kids[..j]), Flat(t.kids[j]), FlatAll(t.kids[j + 1..]);
    FlatAround(t.kids, j);
    SortedParts(a + b, c);
    SortedParts(a, b);
    if j > 0 {
      assert Separates(t.keys, t.kids, j - 1);
    }
    if j < |t.keys| {
      assert Separates(t.keys, t.kids, j);
      assert c == Flat(t.kids[j + 1]) + FlatAll(t.kids[j + 2..]) by {
        assert t.kids[j + 1..][1..] == t.kids[j + 2..];
      }
      assert c[0].key == t.keys[j];
    }
  }

  /** What concerns a key is decided in the child to which the separators lead. */
  lemma Descend(d: nat, min: nat, t: Tree, h: nat, j: nat, k: nat, v: Value)
    requires d >= 2 && t.Inner? && WellFormed(d, min, t, h) && Sorted(Flat(t)) && j < |t.kids| && LeadsTo(t.keys, j, k)
    ensures Sorted(Flat(t.kids[j]))
    ensures Lookup(Flat(t), k) == Lookup(Flat(t.kids[j]), k)
    ensures HasKey(Flat(t), k) <==> HasKey(Flat(t.kids[j]), k)
    ensures Upsert(Flat(t), k, v) == FlatAll(t.kids[..j]) + Upsert(Flat(t.kids[j]), k, v) + FlatAll(t.kids[j + 1..])
  {
    Divided(d, min, t, h, j);
    Around(FlatAll(t.kids[..j]), Flat(t.kids[j]), FlatAll(t.kids[j + 1..]), k, v);
  }

  // ---------- replacing a child ----------

  ghost function WithKid(t: Tree, j: nat, kid: Tree): Tree
    requires t.Inner? && j < |t.kids|
  {
    Inner(t.node, t.keys, t.kids[j := kid])
  }

  lemma WithKidFlat(t: Tree, j: nat, kid: Tree)
    requires t.Inner? && j < |t.kids|
    ensures Flat(WithKid(t, j, kid)) == FlatAll(t.kids[..j]) + Flat(kid) + FlatAll(t.kids[j + 1..])
    ensures Leaves(WithKid(t, j, kid)) == LeavesAll(t.kids[..j]) + Leaves(kid) + LeavesAll(t.kids[j + 1..])
    ensures Nodes(WithKid(t, j, kid)) == {t.node} + NodesAll(t.kids[..j]) + Nodes(kid) + NodesAll(t.kids[j + 1..])
    ensures Tidy(t) && Tidy(kid) && Nodes(kid) !! {t.node} && Nodes(kid) !! NodesAll(t.kids[..j])
            && Nodes(kid) !! NodesAll(t.kids[j + 1..])
            ==> Tidy(WithKid(t, j, kid))
  {
    var kids := t.kids[j := kid];
    assert kids[..j] == t.kids[..j] && kids[j + 1..] == t.kids[j + 1..];
    FlatAround(kids, j);
    FlatAround(t.kids, j);
    TidyAround(kids, j);
    TidyAround(t.kids, j);
  }

  /** A child may be replaced by one with the same smallest key, or the leftmost one by any. */
  lemma WithKidWellFormed(d: nat, min: nat, t: Tree, h: nat, j: nat, kid: Tree)
    requires d >= 2 && t.Inner? && WellFormed(d, min, t, h) && j < |t.kids| && WellFormed(d, d - 1, kid, h - 1)
    requires j > 0 ==> Flat(kid) != [] && Flat(t.kids[j]) != [] && Flat(kid)[0].key == Flat(t.kids[j])[0].key
    ensures WellFormed(d, min, WithKid(t, j, kid), h)
  {
    var kids := t.kids[j := kid];
    forall i | 0 <= i < |t.keys|
      ensures Separates(t.keys, kids, i)
    {
      assert Separates(t.keys, t.kids, i);
    }
  }

  /** Putting a key behind the smallest one leaves the smallest one. */
  lemma UpsertFirst(s: seq<Pair>, k: nat, v: Value)
    requires s != [] && s[0].key <= k
    ensures Upsert(s, k, v) != [] && Upsert(s, k, v)[0].key == s[0].key
  {
  }

  // ---------- splitting ----------

  /** The separator and the two halves of a full node, the right one in node `s`. */
  ghost function LeftHalf(d: nat, t: Tree): Tree
    requires d >= 2 && Full(d, t) && (t.Inner? ==> |t.kids| == 2 * d)
  {
    match t
    case Leaf(n, es) => Leaf(n, es[..d - 1])
    case Inner(n, keys, kids) => Inner(n, keys[..d - 1], kids[..d])
  }

  ghost function RightHalf(d: nat, t: Tree, s: Node): Tree
    requires d >= 2 && Full(d, t) && (t.Inner? ==> |t.kids| == 2 * d)
  {
    match t
    case Leaf(n, es) => Leaf(s, es[d - 1..])
    case Inner(n, keys, kids) => Inner(s, keys[d..], kids[d..])
  }

  ghost function Middle(d: nat, t: Tree): nat
    requires d >= 2 && Full(d, t)
  {
    match t
    case Leaf(_, es) => es[d - 1].key
    case Inner(_, keys, _) => keys[d - 1]
  }

  /** The leaves after a split: a split leaf is followed by its new sibling. */
  ghost function LeavesAfterSplit(t: Tree, s: Node): seq<Node> {
    if t.Leaf? then [t.node, s] else Leaves(t)
  }

  lemma HalvesFlat(d: nat, t: Tree, s: Node)
    requires d >= 2 && Full(d, t) && (t.Inner? ==> |t.kids| == 2 * d)
    ensures Flat(t) == Flat(LeftHalf(d, t)) + Flat(RightHalf(d, t, s))
    ensures Leaves(LeftHalf(d, t)) + Leaves(RightHalf(d, t, s)) == LeavesAfterSplit(t, s)
    ensures Nodes(LeftHalf(d, t)) + Nodes(RightHalf(d, t, s)) == Nodes(t) + {s}
    ensures Tidy(t) && s !in Nodes(t) ==>
              Tidy(LeftHalf(d, t)) && Tidy(RightHalf(d, t, s)) && Nodes(LeftHalf(d, t)) !! Nodes(RightHalf(d, t, s))
  {
    if t.Inner? {
      assert t.kids == t.kids[..d] + t.kids[d..];
      FlatAllConcat(t.kids[..d], t.kids[d..]);
      TidyConcat(t.kids[..d], t.kids[d..]);
    }
  }

  lemma HalvesWellFormed(d: nat, t: Tree, h: nat, s: Node)
    requires d >= 2 && Full(d, t) && WellFormed(d, d - 1, t, h)
    ensures WellFormed(d, d - 1, LeftHalf(d, t), h) && WellFormed(d, d - 1, RightHalf(d, t, s), h)
    ensures Flat(LeftHalf(d, t)) != [] && Flat(RightHalf(d, t, s)) != []
            && Flat(RightHalf(d, t, s))[0].key == Middle(d, t)
    ensures !Full(d, LeftHalf(d, t)) && !Full(d, RightHalf(d, t, s))
    ensures t.Leaf? ==> |LeftHalf(d, t).es| == d - 1 && |RightHalf(d, t, s).es| == d
    ensures t.Inner? ==> |LeftHalf(d, t).keys| == |RightHalf(d, t, s).keys| == d - 1
  {
    var l, r := LeftHalf(d, t), RightHalf(d, t, s);
    if t.Inner? {
      forall i | 0 <= i < |l.keys|
        ensures Separates(l.keys, l.kids, i)
      {
        assert Separates(t.keys, t.kids, i);
      }
      forall i | 0 <= i < |r.keys|
        ensures Separates(r.keys, r.kids, i)
      {
        assert Separates(t.keys, t.kids, d + i);
      }
      assert Separates(t.keys, t.kids, d - 1);
      assert r.kids[0] == t.kids[d];
    }
    NotEmpty(d, d - 1, l, h);
    NotEmpty(d, d - 1, r, h);
  }

  /** The parent after child `j` was split. */
  ghost function WithSplit(t: Tree, j: nat, l: Tree, r: Tree, sep: nat): Tree
    requires t.Inner? && j < |t.kids| == |t.keys| + 1
  {
    Inner(t.node, t.keys[..j] + [sep] + t.keys[j..], t.kids[..j] + [l, r] + t.kids[j + 1..])
  }

  lemma WithSplitFlat(t: Tree, j: nat, l: Tree, r: Tree, sep: nat)
    requires t.Inner? && j < |t.kids| == |t.keys| + 1
    ensures Flat(WithSplit(t, j, l, r, sep)) == FlatAll(t.kids[..j]) + (Flat(l) + Flat(r)) + FlatAll(t.kids[j + 1..])
    ensures Leaves(WithSplit(t, j, l, r, sep))
            == LeavesAll(t.kids[..j]) + (Leaves(l) + Leaves(r)) + LeavesAll(t.kids[j + 1..])
    ensures Nodes(WithSplit(t, j, l, r, sep))
            == {t.node} + NodesAll(t.kids[..j]) + (Nodes(l) + Nodes(r)) + NodesAll(t.kids[j + 1..])
  {
    FlatAllConcat(t.kids[..j] + [l, r], t.kids[j + 1..]);
    FlatAllConcat(t.kids[..j], [l, r]);
    assert [l, r] == [l] + [r];
    FlatAllConcat([l], [r]);
    FlatOne(l);
    FlatOne(r);
  }

  lemma WithSplitTidy(t: Tree, j: nat, l: Tree, r: Tree, sep: nat, s: Node)
    requires t.Inner? && j < |t.kids| == |t.keys| + 1 && Tidy(t) && s !in Nodes(t)
    requires Tidy(l) && Tidy(r) && Nodes(l) !! Nodes(r) && Nodes(l) + Nodes(r) == Nodes(t.kids[j]) + {s}
    ensures Tidy(WithSplit(t, j, l, r, sep))
  {
    FlatAround(t.kids, j);
    TidyAround(t.kids, j);
    var kids := t.kids[..j] + [l, r] + t.kids[j + 1..];
    WithSplitFlat(t, j, l, r, sep);
    TidyConcat(t.kids[..j] + [l, r], t.kids[j + 1..]);
    TidyConcat(t.kids[..j], [l, r]);
    FlatAllConcat(t.kids[..j], [l, r]);
    assert [l, r] == [l] + [r];
    TidyConcat([l], [r]);
    FlatAllConcat([l], [r]);
    FlatOne(l);
    FlatOne(r);
    TidyOne(l);
    TidyOne(r);
    assert NodesAll(kids)
           == NodesAll(t.kids[..j] + [l, r])
           + NodesAll(t.kids[j + 1..]) by { FlatAllConcat(t.kids[..j] + [l, r], t.kids[j + 1..]); }
  }

  lemma WithSplitWellFormed(d: nat, min: nat, t: Tree, h: nat, j: nat, l: Tree, r: Tree, sep: nat)
    requires d >= 2 && t.Inner? && WellFormed(d, min, t, h) && j < |t.kids| && |t.keys| + 1 < 2 * d
    requires WellFormed(d, d - 1, l, h - 1) && WellFormed(d, d - 1, r, h - 1)
    requires Flat(l) != [] && Flat(r) != [] && Flat(t.kids[j]) == Flat(l) + Flat(r) && sep == Flat(r)[0].key
    ensures WellFormed(d, min + 1, WithSplit(t, j, l, r, sep), h)
  {
    var u := WithSplit(t, j, l, r, sep);
    forall i | 0 <= i < |u.keys|
      ensures Separates(u.keys, u.kids, i)
    {
      if i < j {
        assert Separates(t.keys, t.kids, i);
        assert u.kids[i + 1] == if i + 1 == j then l else t.kids[i + 1];
      } else if i == j {
        assert u.kids[i + 1] == r;
      } else {
        assert Separates(t.keys, t.kids, i - 1);
        assert u.kids[i + 1] == t.kids[i];
      }
    }
    forall i | 0 <= i < |u.kids|
      ensures WellFormed(d, d - 1, u.kids[i], h - 1)
    {
      assert u.kids[i] == if i < j then t.kids[i] else if i == j then l else if i == j + 1 then r else t.kids[i - 1];
    }
  }

  // ---------- height ----------

  function Power(b: nat, e: nat): nat {
    if e == 0 then 1 else b * Power(b, e - 1)
  }

  /** A subtree of height `h` holds at least (d-1)*d^h pairs. */
  lemma {:induction false} MinSize(d: nat, t: Tree, h: nat)
    requires d >= 2 && WellFormed(d, d - 1, t, h)
    ensures |Flat(t)| >= (d - 1) * Power(d, h)
    decreases h, 0
  {
    if t.Inner? {
      MinSizeAll(d, t.kids, h - 1);
      Gather(d, |t.kids|, |Flat(t)|, Power(d, h - 1));
    }
  }

  lemma Gather(d: nat, n: nat, size: nat, p: nat)
    requires 1 <= d <= n && n * ((d - 1) * p) <= size
    ensures (d - 1) * (d * p) <= size
  {
    var x := (d - 1) * p;
    Product(d, n, d, x);
    assert (d - 1) * (d * p) == d * x;
  }

  lemma Twice(d: nat, n: nat, size: nat, p: nat)
    requires 1 <= d && 2 <= n && n * ((d - 1) * p) <= size
    ensures 2 * (d - 1) * p <= size
  {
    var x := (d - 1) * p;
    Product(d, n, 2, x);
    assert 2 * (d - 1) * p == 2 * x;
  }

  lemma Product(d: nat, n: nat, m: nat, x: nat)
    requires m <= n
    ensures m * x <= n * x
  {
  }

  lemma {:induction false} MinSizeAll(d: nat, kids: seq<Tree>, h: nat)
    requires d >= 2 && forall i :: 0 <= i < |kids| ==> WellFormed(d, d - 1, kids[i], h)
    ensures |FlatAll(kids)| >= |kids| * ((d - 1) * Power(d, h))
    decreases h, 1, |kids|
  {
    if kids != [] {
      MinSize(d, kids[0], h);
      MinSizeAll(d, kids[1..], h);
      var x := (d - 1) * Power(d, h);
      assert |kids| * x == (|kids| - 1) * x + x;
    }
  }

  /** A tree with `h` internal levels holds at least 2*(d-1)*d^(h-1) pairs: its height is logarithmic. */
  lemma HeightIsLogarithmic(d: nat, t: Tree, h: nat)
    requires d >= 2 && h >= 1 && WellFormed(d, 1, t, h)
    ensures |Flat(t)| >= 2 * (d - 1) * Power(d, h - 1)
  {
    hide Power, FlatAll;
    MinSizeAll(d, t.kids, h - 1);
    Twice(d, |t.kids|, |Flat(t)|, Power(d, h - 1));
  }
}
