/** B-trees as values over the nodes that hold them: pairs sit in every node, between the children. */
module BTreeShape {
  import opened Wrappers
  import opened Pairs

  class Node {
    const leaf: bool
    var nk: nat
    const entries: array<Pair>
    const children: array<Node?>

    /** create_node */
    constructor (d: nat, leaf: bool)
      requires d >= 2
      ensures this.leaf == leaf && nk == 0
      ensures entries.Length == 2 * d - 1 && children.Length == 2 * d && fresh(entries) && fresh(children)
    {
      this.leaf := leaf;
      nk := 0;
      entries := new Pair[2 * d - 1](_ => Pair(0, ""));
      children := new Node?[2 * d](_ => null);
    }
  }

  /** A leaf is a tree without children. */
  datatype Tree = Tree(node: Node, es: seq<Pair>, kids: seq<Tree>)

  // ---------- contents ----------

  /** All pairs, by increasing key. */
  ghost function Flat(t: Tree): seq<Pair>
    decreases t, 1
  {
    if t.kids == [] then t.es else Flat(t.kids[0]) + After(t.es, t.kids[1..])
  }

  /** Each pair followed by the child right of it. */
  ghost function After(es: seq<Pair>, kids: seq<Tree>): seq<Pair>
    decreases kids, 0
  {
    if es == [] || kids == [] then [] else [es[0]] + Flat(kids[0]) + After(es[1..], kids[1..])
  }

  /** Each child followed by the pair right of it. */
  ghost function Before(es: seq<Pair>, kids: seq<Tree>): seq<Pair>
    decreases kids, 0
  {
    if es == [] || kids == [] then [] else Flat(kids[0]) + [es[0]] + Before(es[1..], kids[1..])
  }

  ghost function Nodes(t: Tree): set<Node>
    decreases t, 1
  {
    {t.node} + NodesAll(t.kids)
  }

  ghost function NodesAll(kids: seq<Tree>): set<Node>
    decreases kids, 0
  {
    if kids == [] then {} else Nodes(kids[0]) + NodesAll(kids[1..])
  }

  lemma Assoc(a: seq<Pair>, b: seq<Pair>, c: seq<Pair>, e: seq<Pair>)
    ensures a + b + (c + e) == a + b + c + e
  {
  }

  lemma {:induction false} BeforeConcat(a: seq<Pair>, b: seq<Pair>, x: seq<Tree>, y: seq<Tree>)
    requires |a| == |x|
    ensures Before(a + b, x + y) == Before(a, x) + Before(b, y)
  {
    if a == [] {
      assert a + b == b && x + y == y;
    } else {
      assert (a + b)[1..] == a[1..] + b && (x + y)[1..] == x[1..] + y;
      BeforeConcat(a[1..], b, x[1..], y);
      BeforeSplitOff(a + b, x + y);
      BeforeSplitOff(a, x);
      hide Before, Flat;
      Assoc(Flat(x[0]), [a[0]], Before(a[1..], x[1..]), Before(b, y));
    }
  }

  lemma BeforeOne(p: Pair, t: Tree)
    ensures Before([p], [t]) == Flat(t) + [p] && After([p], [t]) == [p] + Flat(t)
  {
    assert [p][1..] == [] && [t][1..] == [];
  }

  /** One more child and pair on the left. */
  lemma BeforeNext(es: seq<Pair>, kids: seq<Tree>, j: nat)
    requires j < |es| && j < |kids|
    ensures Before(es[..j + 1], kids[..j + 1]) == Before(es[..j], kids[..j]) + (Flat(kids[j]) + [es[j]])
  {
    hide Before, Flat;
    assert es[..j + 1] == es[..j] + [es[j]] && kids[..j + 1] == kids[..j] + [kids[j]];
    BeforeConcat(es[..j], [es[j]], kids[..j], [kids[j]]);
    BeforeOne(es[j], kids[j]);
  }

  /** One pair and child less on the right. */
  lemma AfterNext(es: seq<Pair>, kids: seq<Tree>, j: nat)
    requires j < |es| && j + 1 < |kids|
    ensures After(es[j..], kids[j + 1..]) == [es[j]] + Flat(kids[j + 1]) + After(es[j + 1..], kids[j + 2..])
  {
    hide After, Flat;
    AfterSplitOff(es[j..], kids[j + 1..]);
    assert es[j..][1..] == es[j + 1..] && kids[j + 1..][0] == kids[j + 1] && kids[j + 1..][1..] == kids[j + 2..];
  }

  /** The contents around child `j`. */
  lemma {:induction false} FlatAround(t: Tree, j: nat)
    requires j < |t.kids| == |t.es| + 1
    ensures Flat(t) == Before(t.es[..j], t.kids[..j]) + Flat(t.kids[j]) + After(t.es[j..], t.kids[j + 1..])
  {
    if j == 0 {
      assert t.es[0..] == t.es;
    } else {
      hide Before, After, Flat;
      FlatAround(t, j - 1);
      BeforeNext(t.es, t.kids, j - 1);
      AfterNext(t.es, t.kids, j - 1);
      Across(Before(t.es[..j - 1], t.kids[..j - 1]), Flat(t.kids[j - 1]), [t.es[j - 1]], Flat(t.kids[j]),
          After(t.es[j..], t.kids[j + 1..]));
    }
  }

  lemma Across(a: seq<Pair>, b: seq<Pair>, p: seq<Pair>, c: seq<Pair>, e: seq<Pair>)
    ensures a + b + (p + c + e) == a + (b + p) + c + e
  {
  }

  lemma AfterSplitOff(es: seq<Pair>, kids: seq<Tree>)
    requires es != [] && kids != []
    ensures After(es, kids) == [es[0]] + Flat(kids[0]) + After(es[1..], kids[1..])
  {
  }

  lemma BeforeSplitOff(es: seq<Pair>, kids: seq<Tree>)
    requires es != [] && kids != []
    ensures Before(es, kids) == Flat(kids[0]) + [es[0]] + Before(es[1..], kids[1..])
  {
  }

  lemma {:induction false} NodesConcat(a: seq<Tree>, b: seq<Tree>)
    ensures NodesAll(a + b) == NodesAll(a) + NodesAll(b)
  {
    if a == [] {
      assert a + b == b;
    } else {
      assert (a + b)[1..] == a[1..] + b;
      NodesConcat(a[1..], b);
    }
  }

  lemma NodesOne(t: Tree)
    ensures NodesAll([t]) == Nodes(t)
  {
    assert [t][1..] == [];
  }

  lemma NodesAround(kids: seq<Tree>, j: nat)
    requires j < |kids|
    ensures NodesAll(kids) == NodesAll(kids[..j]) + Nodes(kids[j]) + NodesAll(kids[j + 1..])
  {
    hide NodesAll, Nodes;
    assert kids == kids[..j] + ([kids[j]] + kids[j + 1..]);
    NodesConcat(kids[..j], [kids[j]] + kids[j + 1..]);
    NodesConcat([kids[j]], kids[j + 1..]);
    NodesOne(kids[j]);
  }

  // ---------- shape ----------

  /** A tree of height `h` and minimum degree `d` whose topmost node holds at least `min` pairs. */
  ghost predicate WellFormed(d: nat, min: nat, t: Tree, h: nat)
    decreases h
  {
    && min <= |t.es| < 2 * d
    && if h == 0 then t.kids == []
       else |t.kids| == |t.es| + 1 && forall i :: 0 <= i < |t.kids| ==> WellFormed(d, d - 1, t.kids[i], h - 1)
  }

  ghost predicate Full(d: nat, t: Tree) {
    |t.es| + 1 == 2 * d
  }

  /** No node occurs twice. */
  ghost predicate Tidy(t: Tree)
    decreases t, 1
  {
    t.node !in NodesAll(t.kids) && TidyAll(t.kids)
  }

  ghost predicate TidyAll(kids: seq<Tree>)
    decreases kids, 0
  {
    kids == [] || (Tidy(kids[0]) && TidyAll(kids[1..]) && Nodes(kids[0]) !! NodesAll(kids[1..]))
  }

  lemma {:induction false} TidyConcat(a: seq<Tree>, b: seq<Tree>)
    ensures TidyAll(a + b) <==> TidyAll(a) && TidyAll(b) && NodesAll(a) !! NodesAll(b)
  {
    if a == [] {
      assert a + b == b;
    } else {
      assert (a + b)[1..] == a[1..] + b;
      NodesConcat(a[1..], b);
      TidyConcat(a[1..], b);
    }
  }

  lemma TidyOne(t: Tree)
    ensures TidyAll([t]) <==> Tidy(t)
  {
    assert [t][1..] == [];
  }

  lemma TidyAround(kids: seq<Tree>, j: nat)
    requires j < |kids|
    ensures TidyAll(kids) <==>
              && TidyAll(kids[..j]) && Tidy(kids[j]) && TidyAll(kids[j + 1..])
              && NodesAll(kids[..j]) !! Nodes(kids[j]) && NodesAll(kids[..j]) !! NodesAll(kids[j + 1..])
                   && Nodes(kids[j]) !! NodesAll(kids[j + 1..])
  {
    assert kids == kids[..j] + ([kids[j]] + kids[j + 1..]);
    TidyConcat(kids[..j], [kids[j]] + kids[j + 1..]);
    TidyConcat([kids[j]], kids[j + 1..]);
    NodesConcat([kids[j]], kids[j + 1..]);
    TidyOne(kids[j]);
    NodesOne(kids[j]);
  }

  lemma OtherKid(kids: seq<Tree>, i: nat, j: nat)
    requires i < |kids| && j < |kids| && i != j && TidyAll(kids)
    ensures Nodes(kids[i]) !! Nodes(kids[j])
  {
    hide Tidy;
    TidyAround(kids, j);
    if i < j {
      NodesAround(kids[..j], i);
      assert kids[..j][i] == kids[i];
    } else {
      NodesAround(kids[j + 1..], i - j - 1);
      assert kids[j + 1..][i - j - 1] == kids[i];
    }
  }

  // ---------- descending ----------

  /** The keys beside child `j` lie on either side of `k`. */
  ghost predicate LeadsTo(es: seq<Pair>, j: nat, k: nat) {
    && j <= |es|
    && (j > 0 ==> es[j - 1].key < k)
    && (j < |es| ==> k < es[j].key)
  }

  lemma {:induction false} BeforeEnds(es: seq<Pair>, kids: seq<Tree>)
    requires |es| == |kids| > 0
    ensures Before(es, kids) != [] && Before(es, kids)[|Before(es, kids)| - 1] == es[|es| - 1]
  {
    var n := |es| - 1;
    assert es == es[..n] + [es[n]] && kids == kids[..n] + [kids[n]];
    BeforeConcat(es[..n], [es[n]], kids[..n], [kids[n]]);
    BeforeOne(es[n], kids[n]);
  }

  /** All that is left of child `j` is smaller, all that is right of it greater. */
  lemma Divided(t: Tree, j: nat, k: nat)
    requires j < |t.kids| == |t.es| + 1 && Sorted(Flat(t)) && LeadsTo(t.es, j, k)
    ensures Flat(t) == Before(t.es[..j], t.kids[..j]) + Flat(t.kids[j]) + After(t.es[j..], t.kids[j + 1..])
    ensures AllBelow(Before(t.es[..j], t.kids[..j]), k) && AllAbove(After(t.es[j..], t.kids[j + 1..]), k)
    ensures Sorted(Flat(t.kids[j]))
  {
    hide Before, After;
    var a, b, c := Before(t.es[..j], t.kids[..j]), Flat(t.kids[j]), After(t.es[j..], t.kids[j + 1..]);
    FlatAround(t, j);
    SortedParts(a + b, c);
    SortedParts(a, b);
    if j > 0 {
      BeforeEnds(t.es[..j], t.kids[..j]);
      assert a[|a| - 1] == t.es[j - 1];
    } else {
      BeforeNone(t.es[..j], t.kids[..j]);
    }
    if j < |t.es| {
      AfterSplitOff(t.es[j..], t.kids[j + 1..]);
      assert c[0] == t.es[j];
    } else {
      BeforeNone(t.es[j..], t.kids[j + 1..]);
    }
  }

  lemma BeforeNone(es: seq<Pair>, kids: seq<Tree>)
    requires es == []
    ensures Before(es, kids) == [] && After(es, kids) == []
  {
  }

  /** What concerns a key that is not in the node itself is decided in the child to which the pairs beside it lead. */
  lemma Descend(t: Tree, j: nat, k: nat, v: Value)
    requires j < |t.kids| == |t.es| + 1 && Sorted(Flat(t)) && LeadsTo(t.es, j, k)
    ensures Sorted(Flat(t.kids[j]))
    ensures Lookup(Flat(t), k) == Lookup(Flat(t.kids[j]), k)
    ensures HasKey(Flat(t), k) <==> HasKey(Flat(t.kids[j]), k)
    ensures Upsert(Flat(t), k, v)
            == Before(t.es[..j], t.kids[..j]) + Upsert(Flat(t.kids[j]), k, v) + After(t.es[j..], t.kids[j + 1..])
  {
    hide Lookup, Upsert, HasKey, Before, After;
    Divided(t, j, k);
    Around(Before(t.es[..j], t.kids[..j]), Flat(t.kids[j]), After(t.es[j..], t.kids[j + 1..]), k, v);
  }

  // ---------- a pair of the node itself ----------

  /** Where pair `i` of the topmost node is among all pairs. */
  ghost function PlaceOf(t: Tree, i: nat): nat
    requires i < |t.es| && (t.kids != [] ==> |t.kids| == |t.es| + 1)
  {
    if t.kids == [] then i else |Before(t.es[..i], t.kids[..i])| + |Flat(t.kids[i])|
  }

  ghost function WithPair(t: Tree, i: nat, p: Pair): Tree
    requires i < |t.es|
  {
    Tree(t.node, t.es[i := p], t.kids)
  }

  /** The contents around pair `i`. */
  lemma FlatAtPair(t: Tree, i: nat)
    requires i < |t.es| && |t.kids| == |t.es| + 1
    ensures Flat(t) == Before(t.es[..i], t.kids[..i]) + Flat(t.kids[i])
            + ([t.es[i]] + Flat(t.kids[i + 1]) + After(t.es[i + 1..], t.kids[i + 2..]))
  {
    hide Before, After, Flat;
    FlatAround(t, i);
    AfterNext(t.es, t.kids, i);
  }

  lemma OwnPair(t: Tree, i: nat, p: Pair)
    requires i < |t.es| && (t.kids != [] ==> |t.kids| == |t.es| + 1)
    ensures PlaceOf(t, i) < |Flat(t)| && Flat(t)[PlaceOf(t, i)] == t.es[i]
    ensures Flat(WithPair(t, i, p)) == Flat(t)[PlaceOf(t, i) := p]
  {
    if t.kids != [] {
      hide Before, After, Flat;
      var u := WithPair(t, i, p);
      assert u.es[..i] == t.es[..i] && u.es[i + 1..] == t.es[i + 1..];
      FlatAtPair(t, i);
      FlatAtPair(u, i);
      Replaced(Before(t.es[..i], t.kids[..i]), Flat(t.kids[i]), t.es[i], p, Flat(t.kids[i + 1]),
          After(t.es[i + 1..], t.kids[i + 2..]), Flat(t), Flat(u));
    }
  }

  lemma Replaced(a: seq<Pair>, b: seq<Pair>, x: Pair, y: Pair, c: seq<Pair>, e: seq<Pair>, s: seq<Pair>, t: seq<Pair>)
    requires s == a + b + ([x] + c + e) && t == a + b + ([y] + c + e)
    ensures |a| + |b| < |s| && s[|a| + |b|] == x && t == s[|a| + |b| := y]
  {
  }

  /** A key in the topmost node itself is found and replaced there. */
  lemma OwnKey(t: Tree, i: nat, v: Value)
    requires i < |t.es| && (t.kids != [] ==> |t.kids| == |t.es| + 1) && Sorted(Flat(t))
    ensures Lookup(Flat(t), t.es[i].key) == Some(t.es[i].value) && HasKey(Flat(t), t.es[i].key)
    ensures Flat(WithPair(t, i, Pair(t.es[i].key, v))) == Upsert(Flat(t), t.es[i].key, v)
  {
    hide Flat, WithPair, PlaceOf;
    OwnPair(t, i, Pair(t.es[i].key, v));
    RankIs(Flat(t), t.es[i].key, PlaceOf(t, i));
    LookupIs(Flat(t), t.es[i].key);
  }

  // ---------- replacing a child ----------

  ghost function WithKid(t: Tree, j: nat, kid: Tree): Tree
    requires j < |t.kids|
  {
    Tree(t.node, t.es, t.kids[j := kid])
  }

  lemma WithKidFlat(t: Tree, j: nat, kid: Tree)
    requires j < |t.kids| == |t.es| + 1
    ensures Flat(WithKid(t, j, kid)) == Before(t.es[..j], t.kids[..j]) + Flat(kid) + After(t.es[j..], t.kids[j + 1..])
    ensures Nodes(WithKid(t, j, kid)) == {t.node} + NodesAll(t.kids[..j]) + Nodes(kid) + NodesAll(t.kids[j + 1..])
    ensures Tidy(t) && Tidy(kid) && Nodes(kid) !! {t.node} && Nodes(kid) !! NodesAll(t.kids[..j])
            && Nodes(kid) !! NodesAll(t.kids[j + 1..])
            ==> Tidy(WithKid(t, j, kid))
  {
    hide Flat, Before, After, TidyAll, NodesAll;
    var kids := t.kids[j := kid];
    assert kids[..j] == t.kids[..j] && kids[j + 1..] == t.kids[j + 1..];
    FlatAround(WithKid(t, j, kid), j);
    NodesAround(kids, j);
    NodesAround(t.kids, j);
    TidyAround(kids, j);
    TidyAround(t.kids, j);
  }

  // ---------- splitting ----------

  ghost predicate Splittable(d: nat, t: Tree) {
    d >= 2 && Full(d, t) && (t.kids != [] ==> |t.kids| == 2 * d)
  }

  ghost function LeftHalf(d: nat, t: Tree): Tree
    requires Splittable(d, t)
  {
    Tree(t.node, t.es[..d - 1], if t.kids == [] then [] else t.kids[..d])
  }

  ghost function RightHalf(d: nat, t: Tree, s: Node): Tree
    requires Splittable(d, t)
  {
    Tree(s, t.es[d..], if t.kids == [] then [] else t.kids[d..])
  }

  ghost function Middle(d: nat, t: Tree): Pair
    requires Splittable(d, t)
  {
    t.es[d - 1]
  }

  lemma LeftFlat(d: nat, t: Tree)
    requires Splittable(d, t) && t.kids != []
    ensures Flat(LeftHalf(d, t)) == Before(t.es[..d - 1], t.kids[..d - 1]) + Flat(t.kids[d - 1])
  {
    hide Flat, Before, After;
    var l := LeftHalf(d, t);
    FlatAround(l, d - 1);
    assert l.es[..d - 1] == t.es[..d - 1] && l.kids[..d - 1] == t.kids[..d - 1] && l.kids[d - 1] == t.kids[d - 1];
    BeforeNone(l.es[d - 1..], l.kids[d..]);
  }

  lemma RightFlat(d: nat, t: Tree, s: Node)
    requires Splittable(d, t) && t.kids != []
    ensures Flat(RightHalf(d, t, s)) == Flat(t.kids[d]) + After(t.es[d..], t.kids[d + 1..])
  {
    hide Flat, Before, After;
    var r := RightHalf(d, t, s);
    FlatAround(r, 0);
    assert r.es[0..] == t.es[d..] && r.kids[1..] == t.kids[d + 1..];
    BeforeNone(r.es[..0], r.kids[..0]);
  }

  /** The halves and the median make up what was split. */
  lemma HalvesFlat(d: nat, t: Tree, s: Node)
    requires Splittable(d, t)
    ensures Flat(t) == Flat(LeftHalf(d, t)) + [Middle(d, t)] + Flat(RightHalf(d, t, s))
  {
    if t.kids != [] {
      hide Flat, Before, After, LeftHalf, RightHalf;
      LeftFlat(d, t);
      RightFlat(d, t, s);
      FlatAtPair(t, d - 1);
      Halfway(Before(t.es[..d - 1], t.kids[..d - 1]), Flat(t.kids[d - 1]), [t.es[d - 1]], Flat(t.kids[d]),
          After(t.es[d..], t.kids[d + 1..]));
    }
  }

  lemma Halfway(a: seq<Pair>, b: seq<Pair>, p: seq<Pair>, x: seq<Pair>, c: seq<Pair>)
    ensures a + b + (p + x + c) == (a + b) + p + (x + c)
  {
  }

  lemma HalvesTidy(d: nat, t: Tree, s: Node)
    requires Splittable(d, t)
    ensures Nodes(LeftHalf(d, t)) + Nodes(RightHalf(d, t, s)) == Nodes(t) + {s}
    ensures Tidy(t) && s !in Nodes(t) ==>
              Tidy(LeftHalf(d, t)) && Tidy(RightHalf(d, t, s)) && Nodes(LeftHalf(d, t)) !! Nodes(RightHalf(d, t, s))
  {
    if t.kids != [] {
      assert t.kids == t.kids[..d] + t.kids[d..];
      NodesConcat(t.kids[..d], t.kids[d..]);
      TidyConcat(t.kids[..d], t.kids[d..]);
    }
  }

  lemma HalvesWellFormed(d: nat, min: nat, t: Tree, h: nat, s: Node)
    requires d >= 2 && Full(d, t) && WellFormed(d, min, t, h)
    ensures Splittable(d, t)
    ensures WellFormed(d, d - 1, LeftHalf(d, t), h) && WellFormed(d, d - 1, RightHalf(d, t, s), h)
    ensures !Full(d, LeftHalf(d, t)) && !Full(d, RightHalf(d, t, s))
  {
  }

  /** The parent after child `j` was split: the median moves up. */
  ghost function WithSplit(t: Tree, j: nat, l: Tree, r: Tree, m: Pair): Tree
    requires j < |t.kids| == |t.es| + 1
  {
    Tree(t.node, t.es[..j] + [m] + t.es[j..], t.kids[..j] + [l, r] + t.kids[j + 1..])
  }

  lemma WithSplitFlat(t: Tree, j: nat, l: Tree, r: Tree, m: Pair)
    requires j < |t.kids| == |t.es| + 1 && Flat(t.kids[j]) == Flat(l) + [m] + Flat(r)
    ensures Flat(WithSplit(t, j, l, r, m)) == Flat(t)
  {
    hide Flat, Before, After;
    var w := WithSplit(t, j, l, r, m);
    FlatAround(t, j);
    FlatAround(w, j);
    assert w.es[..j] == t.es[..j] && w.kids[..j] == t.kids[..j] && w.kids[j] == l;
    AfterSplitOff(w.es[j..], w.kids[j + 1..]);
    assert w.es[j..][0] == m && w.es[j..][1..] == t.es[j..] && w.kids[j + 1..][0] == r
           && w.kids[j + 1..][1..] == t.kids[j + 1..];
    var a, c := Before(t.es[..j], t.kids[..j]), After(t.es[j..], t.kids[j + 1..]);
    assert Flat(w) == a + Flat(l) + ([m] + Flat(r) + c);
    assert Flat(t) == a + (Flat(l) + [m] + Flat(r)) + c;
  }

  lemma WithSplitTidy(t: Tree, j: nat, l: Tree, r: Tree, m: Pair, s: Node)
    requires j < |t.kids| == |t.es| + 1 && Tidy(t) && s !in Nodes(t)
    requires Tidy(l) && Tidy(r) && Nodes(l) !! Nodes(r) && Nodes(l) + Nodes(r) == Nodes(t.kids[j]) + {s}
    ensures Tidy(WithSplit(t, j, l, r, m)) && Nodes(WithSplit(t, j, l, r, m)) == Nodes(t) + {s}
  {
    NodesAround(t.kids, j);
    TidyAround(t.kids, j);
    var a, b := t.kids[..j], t.kids[j + 1..];
    PairTidy(l, r);
    TidyConcat(a + [l, r], b);
    TidyConcat(a, [l, r]);
    NodesConcat(a, [l, r]);
    NodesConcat(a + [l, r], b);
  }

  lemma PairTidy(l: Tree, r: Tree)
    ensures NodesAll([l, r]) == Nodes(l) + Nodes(r)
    ensures Tidy(l) && Tidy(r) && Nodes(l) !! Nodes(r) ==> TidyAll([l, r])
  {
    assert [l, r] == [l] + [r];
    TidyConcat([l], [r]);
    NodesConcat([l], [r]);
    NodesOne(l);
    NodesOne(r);
    TidyOne(l);
    TidyOne(r);
  }

  lemma WithSplitWellFormed(d: nat, min: nat, t: Tree, h: nat, j: nat, l: Tree, r: Tree, m: Pair)
    requires d >= 1 && h > 0 && WellFormed(d, min, t, h) && j < |t.kids|
    requires |t.es| + 1 < 2 * d && WellFormed(d, d - 1, l, h - 1) && WellFormed(d, d - 1, r, h - 1)
    ensures WellFormed(d, min + 1, WithSplit(t, j, l, r, m), h)
  {
    var u := WithSplit(t, j, l, r, m);
    forall i | 0 <= i < |u.kids|
      ensures WellFormed(d, d - 1, u.kids[i], h - 1)
    {
      assert u.kids[i] == if i < j then t.kids[i] else if i == j then l else if i == j + 1 then r else t.kids[i - 1];
    }
  }
}
