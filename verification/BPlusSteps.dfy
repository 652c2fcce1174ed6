/** What one step of an insertion does to a tree and to the store that holds it. */
module BPlusSteps {
  import opened Wrappers
  import opened Pairs
  import opened BPlusShape
  import opened BPlusStore

  /** The store holds the tree `t` between the leaves `pre` and `post`. */
  ghost predicate Here(s: Store, d: nat, min: nat, t: Tree, h: nat, pre: seq<Node>, post: seq<Node>) {
    && d >= 2 && Complete(s) && Models(s.body, t) && Tidy(t) && WellFormed(d, min, t, h) && Sorted(Flat(t))
    && Chained(s, pre + Leaves(t) + post)
  }

  /** `t` became `u`: it kept its topmost node, new nodes are new to the store, and nodes outside `t` hold what they
      held. */
  ghost predicate Became(s: Store, u: Store, t: Tree, t': Tree) {
    && t'.node == t.node && Nodes(t) <= Nodes(t') && u.body.Keys == s.body.Keys + Nodes(t')
    && (forall n :: n in Nodes(t') && n !in Nodes(t) ==> n !in s.body)
    && (forall n :: n in s.body && n !in Nodes(t) ==> n in u.body && u.body[n] == s.body[n])
  }

  lemma BecameTrans(s: Store, u: Store, v: Store, t: Tree, t': Tree, t'': Tree)
    requires Became(s, u, t, t') && Became(u, v, t', t'')
    ensures Became(s, v, t, t'')
  {
  }

  lemma BecameSame(s: Store, t: Tree)
    requires Models(s.body, t)
    ensures Became(s, s, t, t)
  {
    ModelsNodes(s.body, t);
  }

  lemma BecameKeys(s: Store, u: Store, t: Tree, t': Tree)
    requires Became(s, u, t, t') && s.body.Keys == Nodes(t)
    ensures u.body.Keys == Nodes(t') && t'.node == t.node
  {
  }

  // ---------- going down ----------

  lemma KidHere(s: Store, d: nat, min: nat, t: Tree, h: nat, pre: seq<Node>, post: seq<Node>, j: nat)
    requires Here(s, d, min, t, h, pre, post) && t.Inner? && j < |t.kids|
    ensures Here(s, d, d - 1, t.kids[j], h - 1, pre + LeavesAll(t.kids[..j]), LeavesAll(t.kids[j + 1..]) + post)
    ensures h > 0
  {
    hide Chained, Sorted;
    ModelsEach(s.body, t.kids);
    TidyAround(t.kids, j);
    FlatAround(t.kids, j);
    Divided(d, min, t, h, j);
    assert pre + Leaves(t) + post
           == (pre + LeavesAll(t.kids[..j])) + Leaves(t.kids[j]) + (LeavesAll(t.kids[j + 1..]) + post);
  }

  lemma KidModels(s: Store, u: Store, t: Tree, j: nat, kid: Tree)
    requires t.Inner? && j < |t.kids| && Models(s.body, t) && Tidy(t)
    requires Became(s, u, t.kids[j], kid) && Models(u.body, kid)
    ensures Models(u.body, WithKid(t, j, kid))
  {
    var kids := t.kids[j := kid];
    TidyAround(t.kids, j);
    FlatAround(t.kids, j);
    ModelsEach(s.body, t.kids);
    ModelsEach(u.body, kids);
    forall i | 0 <= i < |kids|
      ensures Models(u.body, kids[i])
    {
      if i != j {
        OtherKid(t.kids, i, j);
        ModelsSame(s.body, u.body, t.kids[i]);
      }
    }
    assert NodesOf(kids) == NodesOf(t.kids);
  }

  lemma OtherKid(kids: seq<Tree>, i: nat, j: nat)
    requires i < |kids| && j < |kids| && i != j && TidyAll(kids)
    ensures Nodes(kids[i]) !! Nodes(kids[j])
  {
    hide Tidy;
    TidyAround(kids, j);
    if i < j {
      FlatAround(kids[..j], i);
      assert kids[..j][i] == kids[i];
    } else {
      FlatAround(kids[j + 1..], i - j - 1);
      assert kids[j + 1..][i - j - 1] == kids[i];
    }
  }

  lemma KidBecame(s: Store, u: Store, t: Tree, j: nat, kid: Tree)
    requires t.Inner? && j < |t.kids| && Tidy(t) && Models(s.body, t)
    requires Became(s, u, t.kids[j], kid)
    ensures Became(s, u, t, WithKid(t, j, kid)) && Tidy(kid) ==> Tidy(WithKid(t, j, kid))
    ensures Became(s, u, t, WithKid(t, j, kid))
  {
    FlatAround(t.kids, j);
    TidyAround(t.kids, j);
    WithKidFlat(t, j, kid);
    ModelsNodes(s.body, t);
  }

  /** When a child has taken in a new key, so has the tree. */
  lemma KidGrown(s: Store, u: Store, d: nat, min: nat, t: Tree, h: nat, pre: seq<Node>, post: seq<Node>, j: nat,
      kid: Tree, k: nat, v: Value)
    requires Here(s, d, min, t, h, pre, post) && t.Inner? && j < |t.kids| && LeadsTo(t.keys, j, k)
    requires Here(u, d, d - 1, kid, h - 1, pre + LeavesAll(t.kids[..j]), LeavesAll(t.kids[j + 1..]) + post)
    requires Became(s, u, t.kids[j], kid) && Flat(kid) == Upsert(Flat(t.kids[j]), k, v)
    ensures Here(u, d, min, WithKid(t, j, kid), h, pre, post) && Became(s, u, t, WithKid(t, j, kid))
    ensures Flat(WithKid(t, j, kid)) == Upsert(Flat(t), k, v)
  {
    hide Chained, Sorted, Upsert, Models, Tidy, Became, WellFormed;
    KidModels(s, u, t, j, kid);
    KidBecame(s, u, t, j, kid);
    WithKidFlat(t, j, kid);
    Descend(d, min, t, h, j, k, v);
    KidWellFormed(d, min, t, h, j, kid, k, v);
    UpsertSorted(Flat(t), k, v);
    assert pre + Leaves(WithKid(t, j, kid)) + post
           == (pre + LeavesAll(t.kids[..j])) + Leaves(kid) + (LeavesAll(t.kids[j + 1..]) + post);
  }

  lemma KidWellFormed(d: nat, min: nat, t: Tree, h: nat, j: nat, kid: Tree, k: nat, v: Value)
    requires d >= 2 && WellFormed(d, min, t, h) && t.Inner? && j < |t.kids| && LeadsTo(t.keys, j, k)
    requires WellFormed(d, d - 1, kid, h - 1) && Flat(kid) == Upsert(Flat(t.kids[j]), k, v)
    ensures WellFormed(d, min, WithKid(t, j, kid), h)
  {
    if j > 0 {
      assert Separates(t.keys, t.kids, j - 1);
      UpsertFirst(Flat(t.kids[j]), k, v);
    }
    WithKidWellFormed(d, min, t, h, j, kid);
  }

  // ---------- splitting ----------

  lemma SplitBodies(d: nat, t: Tree, idx: nat, sibling: Node)
    requires d >= 2 && t.Inner? && |t.kids| == |t.keys| + 1 && idx < |t.kids| && |t.keys| + 1 < 2 * d
             && Full(d, t.kids[idx])
    requires t.kids[idx].Inner? ==> |t.kids[idx].kids| == 2 * d
    ensures var kid := t.kids[idx];
            var l, r := LeftHalf(d, kid), RightHalf(d, kid, sibling);
            && FullBody(d, BodyOf(kid)) && RoomAt(d, BodyOf(t), idx)
            && LowerHalf(d, BodyOf(kid)) == BodyOf(l) && UpperHalf(d, BodyOf(kid)) == BodyOf(r)
            && WithChild(d, BodyOf(t), idx, MiddleKey(d, BodyOf(kid)), sibling)
                 == BodyOf(WithSplit(t, idx, l, r, Middle(d, kid)))
  {
    var kid := t.kids[idx];
    var l, r := LeftHalf(d, kid), RightHalf(d, kid, sibling);
    var w := WithSplit(t, idx, l, r, Middle(d, kid));
    if kid.Inner? {
      assert NodesOf(l.kids) == NodesOf(kid.kids)[..d];
      assert NodesOf(r.kids) == NodesOf(kid.kids)[d..];
    }
    assert NodesOf(w.kids) == NodesOf(t.kids)[..idx + 1] + [sibling] + NodesOf(t.kids)[idx + 1..];
  }

  /** The halves hold what the split node held. */
  lemma HalvesModel(s: map<Node, Body>, u: map<Node, Body>, d: nat, kid: Tree, sibling: Node)
    requires d >= 2 && Full(d, kid) && (kid.Inner? ==> |kid.kids| == 2 * d) && Models(s, kid) && Tidy(kid)
    requires kid.node in u && u[kid.node] == BodyOf(LeftHalf(d, kid)) && sibling in u
             && u[sibling] == BodyOf(RightHalf(d, kid, sibling))
    requires Agree(s, u, Nodes(kid) - {kid.node})
    ensures Models(u, LeftHalf(d, kid)) && Models(u, RightHalf(d, kid, sibling))
  {
    if kid.Inner? {
      var a, b := kid.kids[..d], kid.kids[d..];
      assert kid.kids == a + b;
      FlatAllConcat(a, b);
      ModelsEach(s, kid.kids);
      ModelsEach(s, a);
      ModelsEach(s, b);
      ModelsSameAll(s, u, a);
      ModelsSameAll(s, u, b);
    }
  }

  lemma SplitModels(s: map<Node, Body>, u: map<Node, Body>, d: nat, t: Tree, idx: nat, l: Tree, r: Tree, sep: nat,
      sibling: Node)
    requires t.Inner? && |t.kids| == |t.keys| + 1 && idx < |t.kids| && Models(s, t) && Tidy(t)
    requires Models(u, l) && Models(u, r)
    requires t.node in u && u[t.node] == BodyOf(WithSplit(t, idx, l, r, sep))
    requires Agree(s, u, s.Keys - {t.node, t.kids[idx].node})
    ensures Models(u, WithSplit(t, idx, l, r, sep))
  {
    hide Tidy, WellFormed;
    var w := WithSplit(t, idx, l, r, sep);
    ModelsEach(s, t.kids);
    ModelsEach(u, w.kids);
    forall i | 0 <= i < |w.kids|
      ensures Models(u, w.kids[i])
    {
      if i == idx {
        assert w.kids[i] == l;
      } else if i == idx + 1 {
        assert w.kids[i] == r;
      } else {
        var i' := if i < idx then i else i - 1;
        assert w.kids[i] == t.kids[i'];
        ModelsNodes(s, t.kids[i']);
        OthersAvoid(t, i', idx);
        ModelsSame(s, u, t.kids[i']);
      }
    }
  }

  lemma OthersAvoid(t: Tree, i: nat, j: nat)
    requires t.Inner? && Tidy(t) && i < |t.kids| && j < |t.kids| && i != j
    ensures t.node !in Nodes(t.kids[i]) && t.kids[j].node !in Nodes(t.kids[i])
  {
    OtherKid(t.kids, i, j);
    FlatAround(t.kids, i);
  }

  lemma ChainNext(s: Store, a: seq<Node>, x: Node, b: seq<Node>)
    requires Chained(s, a + [x] + b)
    ensures x in s.next && s.next[x] == (if b == [] then null else b[0]) && NextIsLeaf(s, x)
  {
    var leaves := a + [x] + b;
    assert leaves[|a|] == x;
    if b != [] {
      assert leaves[|a| + 1] == b[0];
    }
  }

  /** A new leaf `y` is chained in behind `x`. */
  lemma ChainSplit(s: Store, u: Store, a: seq<Node>, x: Node, b: seq<Node>, y: Node)
    requires Chained(s, a + [x] + b) && y !in s.body && x in s.next
    requires u.next == s.next[y := s.next[x]][x := y]
    requires u.previous == (if s.next[x] == null then s.previous else s.previous[s.next[x] := y])[y := x]
    requires AllLeaves(u.body, a + [x, y] + b)
    ensures Chained(u, a + [x, y] + b)
  {
    hide Forward, Backward, DistinctNodes;
    var leaves, i := a + [x] + b, |a|;
    ChainNext(s, a, x, b);
    assert leaves[i] == x && (i + 1 < |leaves| ==> leaves[i + 1] == b[0]);
    assert Inserted(leaves, i, y) == a + [x, y] + b by {
      assert leaves[..i + 1] == a + [x] && leaves[i + 1..] == b;
    }
    assert forall j :: 0 <= j < |leaves| ==> leaves[j] != y;
    ForwardInserted(s.next, leaves, i, y);
    BackwardInserted(s.previous, leaves, i, y);
    InsertedDistinct(leaves, i, y, Inserted(leaves, i, y));
  }

  lemma ChainSame(s: Store, u: Store, leaves: seq<Node>, y: Node)
    requires Chained(s, leaves) && y !in s.body && u.next == s.next[y := null] && u.previous == s.previous[y := null]
    requires AllLeaves(u.body, leaves)
    ensures Chained(u, leaves)
  {
  }

  lemma SplitReady(s: Store, d: nat, min: nat, t: Tree, h: nat, pre: seq<Node>, post: seq<Node>, idx: nat)
    requires Here(s, d, min, t, h, pre, post) && t.Inner? && idx < |t.kids| && |t.keys| + 1 < 2 * d
             && Full(d, t.kids[idx])
    ensures CanSplit(s, d, idx, t.node, t.kids[idx].node) && (t.kids[idx].Inner? ==> |t.kids[idx].kids| == 2 * d)
    ensures s.body[t.node] == BodyOf(t) && s.body[t.kids[idx].node] == BodyOf(t.kids[idx])
  {
    hide Chained, Sorted;
    var kid := t.kids[idx];
    KidHere(s, d, min, t, h, pre, post, idx);
    FlatAround(t.kids, idx);
    SplitBodies(d, t, idx, kid.node);
    if kid.Leaf? {
      ChainNext(s, pre + LeavesAll(t.kids[..idx]), kid.node, LeavesAll(t.kids[idx + 1..]) + post);
    }
  }

  lemma SplitChain(s: Store, d: nat, min: nat, t: Tree, h: nat, pre: seq<Node>, post: seq<Node>, idx: nat,
      sibling: Node)
    requires Here(s, d, min, t, h, pre, post) && t.Inner? && idx < |t.kids| && |t.keys| + 1 < 2 * d
             && Full(d, t.kids[idx]) && sibling !in s.body
    requires CanSplit(s, d, idx, t.node, t.kids[idx].node)
    ensures Chained(SplitStore(s, d, idx, t.node, t.kids[idx].node, sibling),
                    pre + LeavesAll(t.kids[..idx]) + LeavesAfterSplit(t.kids[idx], sibling)
                        + (LeavesAll(t.kids[idx + 1..]) + post))
  {
    hide Chained, Sorted, Tidy;
    var kid, u := t.kids[idx], SplitStore(s, d, idx, t.node, t.kids[idx].node, sibling);
    var a, b := pre + LeavesAll(t.kids[..idx]), LeavesAll(t.kids[idx + 1..]) + post;
    KidHere(s, d, min, t, h, pre, post, idx);
    SplitLeaves(s, d, min, t, h, pre, post, idx, sibling, a, b);
    if kid.Leaf? {
      ChainSplit(s, u, a, kid.node, b, sibling);
    } else {
      ChainSame(s, u, a + Leaves(kid) + b, sibling);
    }
  }

  lemma SplitLeaves(s: Store, d: nat, min: nat, t: Tree, h: nat, pre: seq<Node>, post: seq<Node>, idx: nat,
      sibling: Node, a: seq<Node>, b: seq<Node>)
    requires Here(s, d, min, t, h, pre, post) && t.Inner? && idx < |t.kids| && sibling !in s.body
    requires CanSplit(s, d, idx, t.node, t.kids[idx].node)
    requires Chained(s, a + Leaves(t.kids[idx]) + b)
    ensures AllLeaves(SplitStore(s, d, idx, t.node, t.kids[idx].node, sibling).body,
            a + LeavesAfterSplit(t.kids[idx], sibling) + b)
  {
    var kid, u := t.kids[idx], SplitStore(s, d, idx, t.node, t.kids[idx].node, sibling);
    ModelsEach(s.body, t.kids);
    forall x | x in a + LeavesAfterSplit(kid, sibling) + b
      ensures x in u.body && u.body[x].LeafBody?
    {
      if x != sibling {
        assert x in a + Leaves(kid) + b;
      }
    }
  }

  ghost function AfterSplit(d: nat, t: Tree, idx: nat, sibling: Node): Tree
    requires d >= 2 && t.Inner? && |t.kids| == |t.keys| + 1 && idx < |t.kids| && Full(d, t.kids[idx])
    requires t.kids[idx].Inner? ==> |t.kids[idx].kids| == 2 * d
  {
    var kid := t.kids[idx];
    WithSplit(t, idx, LeftHalf(d, kid), RightHalf(d, kid, sibling), Middle(d, kid))
  }

  lemma SplitStoreModels(s: Store, d: nat, t: Tree, idx: nat, sibling: Node)
    requires d >= 2 && t.Inner? && |t.kids| == |t.keys| + 1 && idx < |t.kids| && |t.keys| + 1 < 2 * d
             && Full(d, t.kids[idx])
    requires t.kids[idx].Inner? ==> |t.kids[idx].kids| == 2 * d
    requires Models(s.body, t) && Tidy(t) && sibling !in s.body && CanSplit(s, d, idx, t.node, t.kids[idx].node)
    ensures Models(SplitStore(s, d, idx, t.node, t.kids[idx].node, sibling).body, AfterSplit(d, t, idx, sibling))
  {
    hide FullBody, RoomAt, LowerHalf, UpperHalf, WithChild, MiddleKey, LeftHalf, RightHalf, Middle, WithSplit, TidyAll;
    var kid := t.kids[idx];
    ModelsEach(s.body, t.kids);
    TidyAround(t.kids, idx);
    SplitBodies(d, t, idx, sibling);
    var u := SplitStore(s, d, idx, t.node, kid.node, sibling);
    assert u.body == SplitBody(s.body, d, idx, t.node, kid.node, sibling);
    FlatAround(t.kids, idx);
    ModelsNodes(s.body, kid);
    HalvesModel(s.body, u.body, d, kid, sibling);
    SplitModels(s.body, u.body, d, t, idx, LeftHalf(d, kid), RightHalf(d, kid, sibling), Middle(d, kid), sibling);
  }

  /** A split changes neither what the tree holds nor its shape. */
  lemma SplitTree(d: nat, min: nat, t: Tree, h: nat, idx: nat, sibling: Node)
    requires d >= 2 && t.Inner? && WellFormed(d, min, t, h) && Tidy(t) && idx < |t.kids| && |t.keys| + 1 < 2 * d
             && Full(d, t.kids[idx])
    requires sibling !in Nodes(t) && (t.kids[idx].Inner? ==> |t.kids[idx].kids| == 2 * d)
    ensures var w := AfterSplit(d, t, idx, sibling);
            && w.Inner? && w.node == t.node && WellFormed(d, min + 1, w, h) && Tidy(w) && Flat(w) == Flat(t)
                 && Nodes(w) == Nodes(t) + {sibling}
            && Leaves(w) == LeavesAll(t.kids[..idx]) + LeavesAfterSplit(t.kids[idx], sibling)
                 + LeavesAll(t.kids[idx + 1..])
            && |w.keys| == |t.keys| + 1 && w.keys[idx] == Middle(d, t.kids[idx]) && w.keys[..idx] == t.keys[..idx]
                 && w.keys[idx + 1..] == t.keys[idx..]
            && !Full(d, w.kids[idx]) && !Full(d, w.kids[idx + 1])
  {
    hide Full, Tidy, LeftHalf, RightHalf, Middle;
    var kid := t.kids[idx];
    HalvesFlat(d, kid, sibling);
    HalvesWellFormed(d, kid, h - 1, sibling);
    FlatAround(t.kids, idx);
    SplitTidy(t, idx, kid);
    var l, r, sep := LeftHalf(d, kid), RightHalf(d, kid, sibling), Middle(d, kid);
    WithSplitFlat(t, idx, l, r, sep);
    WithSplitTidy(t, idx, l, r, sep, sibling);
    WithSplitWellFormed(d, min, t, h, idx, l, r, sep);
  }

  lemma SplitTidy(t: Tree, idx: nat, kid: Tree)
    requires t.Inner? && Tidy(t) && idx < |t.kids| && kid == t.kids[idx]
    ensures Tidy(kid)
  {
    TidyAround(t.kids, idx);
  }

  lemma SplitHere(s: Store, d: nat, min: nat, t: Tree, h: nat, pre: seq<Node>, post: seq<Node>, idx: nat, sibling: Node)
    requires Here(s, d, min, t, h, pre, post) && t.Inner? && idx < |t.kids| && |t.keys| + 1 < 2 * d
             && Full(d, t.kids[idx]) && sibling !in s.body
    requires |t.kids| == |t.keys| + 1 && CanSplit(s, d, idx, t.node, t.kids[idx].node)
             && (t.kids[idx].Inner? ==> |t.kids[idx].kids| == 2 * d)
    ensures var u, w := SplitStore(s, d, idx, t.node, t.kids[idx].node, sibling), AfterSplit(d, t, idx, sibling);
            Here(u, d, min + 1, w, h, pre, post) && Became(s, u, t, w)
  {
    hide Chained, Sorted, WellFormed, Tidy, Models, AfterSplit, SplitStore, CanSplit, Full;
    var kid := t.kids[idx];
    var u, w := SplitStore(s, d, idx, t.node, kid.node, sibling), AfterSplit(d, t, idx, sibling);
    ModelsNodes(s.body, t);
    SplitTree(d, min, t, h, idx, sibling);
    SplitStoreModels(s, d, t, idx, sibling);
    SplitChain(s, d, min, t, h, pre, post, idx, sibling);
    assert pre + Leaves(w) + post
           == pre + LeavesAll(t.kids[..idx]) + LeavesAfterSplit(kid, sibling) + (LeavesAll(t.kids[idx + 1..]) + post);
    SplitBecame(s, d, t, idx, sibling, w);
  }

  lemma SplitBecame(s: Store, d: nat, t: Tree, idx: nat, sibling: Node, w: Tree)
    requires Complete(s) && t.Inner? && idx < |t.kids| && sibling !in s.body && Models(s.body, t)
    requires CanSplit(s, d, idx, t.node, t.kids[idx].node)
    requires Nodes(w) == Nodes(t) + {sibling} && w.node == t.node
    ensures Complete(SplitStore(s, d, idx, t.node, t.kids[idx].node, sibling))
            && Became(s, SplitStore(s, d, idx, t.node, t.kids[idx].node, sibling), t, w)
  {
    hide SplitStore, CanSplit, Complete, Models;
    SplitRecord(s, d, idx, t.node, t.kids[idx].node, sibling);
    ModelsNodes(s.body, t);
    FlatAround(t.kids, idx);
    assert t.kids[idx].node in Nodes(t);
  }

  /** Which half takes the new key: the separator is a key that is present, so the strict comparison decides. */
  lemma HalfForKey(d: nat, min: nat, t: Tree, h: nat, idx: nat, sibling: Node, k: nat, j: nat)
    requires d >= 2 && t.Inner? && WellFormed(d, min, t, h) && Tidy(t) && idx < |t.kids| && |t.keys| + 1 < 2 * d
             && Full(d, t.kids[idx])
    requires sibling !in Nodes(t) && (t.kids[idx].Inner? ==> |t.kids[idx].kids| == 2 * d)
    requires |t.kids| == |t.keys| + 1 && LeadsTo(t.keys, idx, k) && !HasKey(Flat(t), k)
    requires j == if Middle(d, t.kids[idx]) < k then idx + 1 else idx
    ensures LeadsTo(AfterSplit(d, t, idx, sibling).keys, j, k)
  {
    hide AfterSplit, Full, WellFormed, Tidy;
    SplitTree(d, min, t, h, idx, sibling);
    var w := AfterSplit(d, t, idx, sibling);
    SeparatorIsKey(d, min + 1, w, h, idx);
    assert forall i :: 0 <= i < idx ==> w.keys[i] == w.keys[..idx][i];
    assert idx < |t.keys| ==> w.keys[idx + 1] == w.keys[idx + 1..][0];
  }

  /** Each separator is the key of a pair in the tree. */
  lemma SeparatorIsKey(d: nat, min: nat, t: Tree, h: nat, i: nat)
    requires d >= 2 && t.Inner? && WellFormed(d, min, t, h) && i < |t.keys|
    ensures HasKey(Flat(t), t.keys[i])
  {
    assert Separates(t.keys, t.kids, i);
    FlatAround(t.kids, i + 1);
    assert Flat(t)[|FlatAll(t.kids[..i + 1])|].key == t.keys[i];
  }

  // ---------- a leaf ----------

  ghost function WithBody(s: Store, n: Node, b: Body): Store {
    Store(s.body[n := b], s.next, s.previous)
  }

  lemma LeafGrown(s: Store, d: nat, min: nat, t: Tree, h: nat, pre: seq<Node>, post: seq<Node>, k: nat, v: Value)
    requires Here(s, d, min, t, h, pre, post) && t.Leaf? && (HasKey(t.es, k) || |t.es| + 1 < 2 * d)
    ensures var u, t' := WithBody(s, t.node, LeafBody(Upsert(t.es, k, v))), Leaf(t.node, Upsert(t.es, k, v));
            Here(u, d, min, t', h, pre, post) && Became(s, u, t, t') && SameRecord(s, u, {t.node})
                && u.body.Keys == s.body.Keys
  {
    hide Upsert, Sorted, HasKey;
    UpsertSorted(t.es, k, v);
  }

  lemma HereWeaker(s: Store, d: nat, min: nat, low: nat, t: Tree, h: nat, pre: seq<Node>, post: seq<Node>)
    requires Here(s, d, min, t, h, pre, post) && low <= min
    ensures Here(s, d, low, t, h, pre, post)
  {
  }

  lemma HereBasics(s: Store, d: nat, min: nat, t: Tree, h: nat, pre: seq<Node>, post: seq<Node>)
    requires Here(s, d, min, t, h, pre, post)
    ensures d >= 2 && Complete(s) && Models(s.body, t) && t.node in s.body && s.body[t.node] == BodyOf(t)
            && Sorted(Flat(t))
    ensures t.Inner? ==> h > 0 && |t.kids| == |t.keys| + 1 && min <= |t.keys| < 2 * d
    ensures t.Leaf? ==> h == 0 && min <= |t.es| < 2 * d
  {
  }

  /** A full child is split; the half that takes a new key has room for it. */
  lemma SplitStep(s: Store, d: nat, min: nat, t: Tree, h: nat, pre: seq<Node>, post: seq<Node>, idx: nat, sibling: Node,
      k: nat)
    requires Here(s, d, min, t, h, pre, post) && t.Inner? && |t.kids| == |t.keys| + 1 && idx < |t.kids|
             && |t.keys| + 1 < 2 * d
    requires Full(d, t.kids[idx]) && (t.kids[idx].Inner? ==> |t.kids[idx].kids| == 2 * d)
    requires sibling !in s.body && CanSplit(s, d, idx, t.node, t.kids[idx].node) && LeadsTo(t.keys, idx, k)
             && !HasKey(Flat(t), k)
    ensures var u, w := SplitStore(s, d, idx, t.node, t.kids[idx].node, sibling), AfterSplit(d, t, idx, sibling);
            && Here(u, d, min + 1, w, h, pre, post) && Became(s, u, t, w) && Flat(w) == Flat(t)
            && w.Inner? && w.node == t.node && idx + 1 < |w.kids| == |w.keys| + 1 && !Full(d, w.kids[idx])
                 && !Full(d, w.kids[idx + 1])
            && LeadsTo(w.keys, if w.keys[idx] < k then idx + 1 else idx, k)
  {
    hide AfterSplit, SplitStore, CanSplit, Full, HasKey, WellFormed, Tidy, Models, Chained, Sorted, Became;
    ModelsNodes(s.body, t);
    SplitHere(s, d, min, t, h, pre, post, idx, sibling);
    SplitTree(d, min, t, h, idx, sibling);
    var w := AfterSplit(d, t, idx, sibling);
    InnerKids(d, min + 1, w, h);
    HalfForKey(d, min, t, h, idx, sibling, k, if w.keys[idx] < k then idx + 1 else idx);
  }

  lemma InnerKids(d: nat, min: nat, t: Tree, h: nat)
    requires WellFormed(d, min, t, h) && t.Inner?
    ensures |t.kids| == |t.keys| + 1
  {
  }

  lemma KidLacks(s: Store, d: nat, min: nat, t: Tree, h: nat, pre: seq<Node>, post: seq<Node>, j: nat, k: nat)
    requires Here(s, d, min, t, h, pre, post) && t.Inner? && j < |t.kids| && LeadsTo(t.keys, j, k)
    ensures HasKey(Flat(t), k) <==> HasKey(Flat(t.kids[j]), k)
    ensures Lookup(Flat(t), k) == Lookup(Flat(t.kids[j]), k)
  {
    hide Sorted, Chained, Models, Lookup, HasKey, LeadsTo;
    Descend(d, min, t, h, j, k, "");
  }

  // ---------- looking up ----------

  /** The separators increase. */
  lemma KeysIncrease(d: nat, min: nat, t: Tree, h: nat, i: nat)
    requires d >= 2 && t.Inner? && WellFormed(d, min, t, h) && Sorted(Flat(t)) && i + 1 < |t.keys|
    ensures t.keys[i] < t.keys[i + 1]
  {
    var a, b, c := FlatAll(t.kids[..i + 1]), Flat(t.kids[i + 1]), FlatAll(t.kids[i + 2..]);
    Divided(d, min, t, h, i + 1);
    assert Separates(t.keys, t.kids, i) && Separates(t.keys, t.kids, i + 1);
    SortedParts(a + b, c);
    SortedParts(a, b);
    assert t.kids[i + 2..][0] == t.kids[i + 2] && c[0].key == t.keys[i + 1];
    assert (a + b)[|a|] == b[0];
  }

  /** A key equal to a separator is looked for to the right of it. */
  lemma LookRight(s: Store, d: nat, min: nat, t: Tree, h: nat, pre: seq<Node>, post: seq<Node>, i: nat, k: nat)
    requires Here(s, d, min, t, h, pre, post) && t.Inner? && i <= |t.keys|
    requires (forall x :: 0 <= x < i ==> t.keys[x] < k) && (i < |t.keys| ==> k <= t.keys[i])
    ensures LeadsTo(t.keys, if i < |t.keys| && t.keys[i] == k then i + 1 else i, k)
  {
    hide Models, Chained, Tidy, Sorted;
    if i + 1 < |t.keys| {
      KeysIncrease(d, min, t, h, i);
    }
  }

  lemma LeafLookup(es: seq<Pair>, k: nat, i: nat)
    requires Sorted(es) && i <= |es| && (forall x :: 0 <= x < i ==> es[x].key < k) && (i < |es| ==> k <= es[i].key)
    ensures Lookup(es, k) == if i < |es| && es[i].key == k then Some(es[i].value) else None
    ensures HasKey(es, k) <==> i < |es| && es[i].key == k
    ensures i < |es| && es[i].key == k ==> forall v :: Upsert(es, k, v) == es[i := Pair(k, v)]
    ensures From(es, k) == es[i..]
  {
    RankIs(es, k, i);
    LookupIs(es, k);
  }

  // ---------- the root ----------

  ghost function WithNode(s: Store, n: Node, b: Body): Store {
    Store(s.body[n := b], s.next[n := null], s.previous[n := null])
  }

  /** A first node that is a leaf with one pair. */
  lemma FirstLeaf(s: Store, d: nat, n: Node, p: Pair)
    requires d >= 2 && s == Store(map[], map[], map[])
    ensures var u, t := WithNode(s, n, LeafBody([p])), Leaf(n, [p]);
            Here(u, d, 1, t, 0, [], []) && u.body.Keys == Nodes(t)
  {
    assert [] + Leaves(Leaf(n, [p])) + [] == [n];
  }

  lemma WithNodeRecord(s: Store, n: Node, b: Body)
    requires Complete(s) && n !in s.body
    ensures var u := WithNode(s, n, b);
            && Complete(u) && SameRecord(s, u, {n}) && u.body.Keys == s.body.Keys + {n} && u.body[n] == b
            && u.next == s.next[n := null] && u.previous == s.previous[n := null]
            && forall x :: x in s.body ==> u.body[x] == s.body[x]
  {
  }

  lemma WithNodeAt(s: Store, n: Node, b: Body)
    ensures var u := WithNode(s, n, b);
            n in u.body && u.body[n] == b && n in u.next && u.next[n] == null && n in u.previous
            && u.previous[n] == null
  {
  }

  /** A full root gets a parent, which takes no separator yet. */
  lemma NewRoot(s: Store, d: nat, t: Tree, h: nat, n: Node)
    requires Here(s, d, 1, t, h, [], []) && Full(d, t) && n !in s.body && s.body.Keys == Nodes(t)
    ensures var u, t' := WithNode(s, n, InnerBody([], [t.node])), Inner(n, [], [t]);
            Here(u, d, 0, t', h + 1, [], []) && !Full(d, t') && u.body.Keys == Nodes(t') && Flat(t') == Flat(t)
  {
    hide Sorted, Chained, FlatAll, LeavesAll, NodesAll, ModelsAll, TidyAll, WithNode, SameRecord, Complete;
    var u, t' := WithNode(s, n, InnerBody([], [t.node])), Inner(n, [], [t]);
    WithNodeRecord(s, n, InnerBody([], [t.node]));
    FlatOne(t);
    TidyOne(t);
    ModelsSame(s.body, u.body, t);
    ModelsEach(u.body, [t]);
    assert NodesOf([t]) == [t.node];
    assert [] + Leaves(t) + [] == [] + Leaves(t') + [];
    NewRootChained(s, u, [] + Leaves(t) + [], n);
    FullTree(d, t, h);
  }

  lemma NewRootChained(s: Store, u: Store, leaves: seq<Node>, n: Node)
    requires Chained(s, leaves) && n !in s.body && u.next == s.next[n := null] && u.previous == s.previous[n := null]
    requires forall x :: x in s.body ==> x in u.body && u.body[x] == s.body[x]
    ensures Chained(u, leaves)
  {
    ChainSame(s, u, leaves, n);
  }

  lemma FullTree(d: nat, t: Tree, h: nat)
    requires d >= 2 && WellFormed(d, 1, t, h) && Full(d, t)
    ensures WellFormed(d, d - 1, t, h)
  {
  }

  // ---------- scanning ----------

  /** The pairs in these leaves, one leaf after the other. */
  ghost function LeafPairs(body: map<Node, Body>, leaves: seq<Node>): seq<Pair>
    requires AllLeaves(body, leaves)
  {
    if leaves == [] then [] else body[leaves[0]].es + LeafPairs(body, leaves[1..])
  }

  lemma {:induction false} LeafPairsConcat(body: map<Node, Body>, a: seq<Node>, b: seq<Node>)
    requires AllLeaves(body, a) && AllLeaves(body, b)
    ensures AllLeaves(body, a + b) && LeafPairs(body, a + b) == LeafPairs(body, a) + LeafPairs(body, b)
  {
    if a == [] {
      assert a + b == b;
    } else {
      assert (a + b)[1..] == a[1..] + b;
      LeafPairsConcat(body, a[1..], b);
      assert LeafPairs(body, a + b) == body[a[0]].es + LeafPairs(body, a[1..] + b);
    }
  }

  lemma LeafPairsNone(body: map<Node, Body>)
    ensures AllLeaves(body, []) && LeafPairs(body, []) == []
  {
  }

  lemma HereChained(s: Store, d: nat, min: nat, t: Tree, h: nat, pre: seq<Node>, post: seq<Node>)
    requires Here(s, d, min, t, h, pre, post) && t.Leaf?
    ensures Chained(s, pre + [t.node] + post)
  {
  }

  /** The leaves hold what the tree holds. */
  lemma {:induction false} TreeLeafPairs(body: map<Node, Body>, t: Tree)
    requires Models(body, t)
    ensures AllLeaves(body, Leaves(t)) && LeafPairs(body, Leaves(t)) == Flat(t)
    decreases t, 1
  {
    if t.Inner? {
      TreesLeafPairs(body, t.kids);
    } else {
      assert Leaves(t)[1..] == [];
    }
  }

  lemma {:induction false} TreesLeafPairs(body: map<Node, Body>, kids: seq<Tree>)
    requires ModelsAll(body, kids)
    ensures AllLeaves(body, LeavesAll(kids)) && LeafPairs(body, LeavesAll(kids)) == FlatAll(kids)
    decreases kids, 0
  {
    if kids != [] {
      TreeLeafPairs(body, kids[0]);
      TreesLeafPairs(body, kids[1..]);
      LeafPairsConcat(body, Leaves(kids[0]), LeavesAll(kids[1..]));
    }
  }

  /** The pairs from a key on, seen from the child left of the first separator that is not smaller. */
  lemma FromDown(d: nat, min: nat, t: Tree, h: nat, i: nat, k: nat)
    requires d >= 2 && t.Inner? && WellFormed(d, min, t, h) && Sorted(Flat(t)) && i < |t.kids|
    requires (forall x :: 0 <= x < i ==> t.keys[x] < k) && (i < |t.keys| ==> k <= t.keys[i])
    ensures From(Flat(t), k) == From(Flat(t.kids[i]), k) + FlatAll(t.kids[i + 1..])
  {
    hide Rank;
    var a, b, c := FlatAll(t.kids[..i]), Flat(t.kids[i]), FlatAll(t.kids[i + 1..]);
    Divided(d, min, t, h, i);
    AroundRank(a, b, c, k);
    assert (a + b + c)[|a| + Rank(b, k)..] == b[Rank(b, k)..] + c;
  }

  /** A scan goes down to the left of a separator that equals its key, and still misses nothing. */
  lemma ScanDown(s: Store, d: nat, min: nat, t: Tree, h: nat, pre: seq<Node>, post: seq<Node>, i: nat, k: nat)
    requires Here(s, d, min, t, h, pre, post) && t.Inner? && i < |t.kids| && AllLeaves(s.body, post)
    requires (forall x :: 0 <= x < i ==> t.keys[x] < k) && (i < |t.keys| ==> k <= t.keys[i])
    ensures AllLeaves(s.body, LeavesAll(t.kids[i + 1..]) + post)
    ensures From(Flat(t), k) + LeafPairs(s.body, post)
            == From(Flat(t.kids[i]), k) + LeafPairs(s.body, LeavesAll(t.kids[i + 1..]) + post)
  {
    hide Chained, Tidy, WellFormed, Sorted, From, AllLeaves, LeafPairs;
    FromDown(d, min, t, h, i, k);
    ModelsEach(s.body, t.kids);
    ModelsEach(s.body, t.kids[i + 1..]);
    TreesLeafPairs(s.body, t.kids[i + 1..]);
    LeafPairsConcat(s.body, LeavesAll(t.kids[i + 1..]), post);
  }

  /** What a scan still has to visit, at entry `i` of leaf `k`. */
  ghost function Ahead(body: map<Node, Body>, leaves: seq<Node>, k: nat, i: nat): seq<Pair>
    requires k <= |leaves| && AllLeaves(body, leaves) && (k < |leaves| ==> i <= |body[leaves[k]].es|)
  {
    if k == |leaves| then [] else body[leaves[k]].es[i..] + LeafPairs(body, leaves[k + 1..])
  }

  lemma ScanFrom(s: Store, pre: seq<Node>, node: Node, post: seq<Node>, i: nat)
    requires Chained(s, pre + [node] + post) && AllLeaves(s.body, [node] + post) && i <= |s.body[node].es|
    ensures AllLeaves(s.body, pre + [node] + post) && AllLeaves(s.body, post) && (pre + [node] + post)[|pre|] == node
    ensures Ahead(s.body, pre + [node] + post, |pre|, i) == s.body[node].es[i..] + LeafPairs(s.body, post)
  {
    hide LeafPairs;
    var leaves := pre + [node] + post;
    assert leaves[|pre|] == node && leaves[|pre| + 1..] == post;
    assert forall l :: l in post ==> l in [node] + post;
  }

  lemma AheadEntry(body: map<Node, Body>, leaves: seq<Node>, k: nat, i: nat)
    requires k < |leaves| && AllLeaves(body, leaves) && i < |body[leaves[k]].es|
    ensures Ahead(body, leaves, k, i) == [body[leaves[k]].es[i]] + Ahead(body, leaves, k, i + 1)
  {
  }

  lemma AheadNext(body: map<Node, Body>, leaves: seq<Node>, k: nat)
    requires k < |leaves| && AllLeaves(body, leaves)
    ensures Ahead(body, leaves, k, |body[leaves[k]].es|) == Ahead(body, leaves, k + 1, 0)
  {
    var rest := leaves[k + 1..];
    if rest != [] {
      assert rest[1..] == leaves[k + 2..] && rest[0] == leaves[k + 1];
    }
  }

  /** What a scan of `len` pairs yields. */
  function Yield(s: seq<Pair>, len: int): seq<Pair> {
    if len >= 1 then FirstOf(s, len) else s
  }

  /** A scan may stop when it has enough, or when there is no more. */
  lemma YieldIs(done: seq<Pair>, rest: seq<Pair>, len: int)
    requires len == |done| >= 1 || (rest == [] && (len >= 1 ==> |done| < len))
    ensures Yield(done + rest, len) == done
  {
  }

  lemma AheadNone(body: map<Node, Body>, leaves: seq<Node>)
    requires AllLeaves(body, leaves)
    ensures Ahead(body, leaves, |leaves|, 0) == []
  {
  }
}
