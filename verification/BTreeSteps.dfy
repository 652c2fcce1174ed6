/** What the nodes of a B-tree hold, as values, and what one step of an insertion does to a tree and to what holds it.
    */
module BTreeSteps {
  import opened Wrappers
  import opened Pairs
  import opened BTreeShape

  /** What a node holds; a leaf has no children. */
  datatype Body = Body(es: seq<Pair>, kids: seq<Node>)

  type Store = map<Node, Body>

  ghost function BodyOf(t: Tree): Body {
    Body(t.es, NodesOf(t.kids))
  }

  ghost function NodesOf(kids: seq<Tree>): (ns: seq<Node>)
    ensures |ns| == |kids| && forall i :: 0 <= i < |kids| ==> ns[i] == kids[i].node
  {
    seq(|kids|, i requires 0 <= i < |kids| => kids[i].node)
  }

  /** The nodes of `t` hold what `t` says. */
  ghost predicate Models(s: Store, t: Tree)
    decreases t, 1
  {
    t.node in s && s[t.node] == BodyOf(t) && ModelsAll(s, t.kids)
  }

  ghost predicate ModelsAll(s: Store, kids: seq<Tree>)
    decreases kids, 0
  {
    kids == [] || (Models(s, kids[0]) && ModelsAll(s, kids[1..]))
  }

  lemma {:induction false} ModelsEach(s: Store, kids: seq<Tree>)
    ensures ModelsAll(s, kids) <==> forall i :: 0 <= i < |kids| ==> Models(s, kids[i])
  {
    if kids != [] {
      ModelsEach(s, kids[1..]);
      if ModelsAll(s, kids) {
        assert forall i :: 1 <= i < |kids| ==> kids[i] == kids[1..][i - 1];
      } else if Models(s, kids[0]) {
        var i :| 0 <= i < |kids| - 1 && !Models(s, kids[1..][i]);
        assert !Models(s, kids[i + 1]);
      }
    }
  }

  lemma {:induction false} ModelsNodes(s: Store, t: Tree)
    requires Models(s, t)
    ensures Nodes(t) <= s.Keys
    decreases t, 1
  {
    ModelsNodesAll(s, t.kids);
  }

  lemma {:induction false} ModelsNodesAll(s: Store, kids: seq<Tree>)
    requires ModelsAll(s, kids)
    ensures NodesAll(kids) <= s.Keys
    decreases kids, 0
  {
    if kids != [] {
      ModelsNodes(s, kids[0]);
      ModelsNodesAll(s, kids[1..]);
    }
  }

  ghost predicate Agree(a: Store, b: Store, ns: set<Node>) {
    forall n :: n in ns && n in a ==> n in b && a[n] == b[n]
  }

  lemma {:induction false} ModelsSame(a: Store, b: Store, t: Tree)
    requires Models(a, t) && Agree(a, b, Nodes(t))
    ensures Models(b, t)
    decreases t, 1
  {
    ModelsSameAll(a, b, t.kids);
  }

  lemma {:induction false} ModelsSameAll(a: Store, b: Store, kids: seq<Tree>)
    requires ModelsAll(a, kids) && Agree(a, b, NodesAll(kids))
    ensures ModelsAll(b, kids)
    decreases kids, 0
  {
    if kids != [] {
      ModelsSame(a, b, kids[0]);
      ModelsSameAll(a, b, kids[1..]);
    }
  }

  // ---------- what a split does ----------

  ghost predicate CanSplit(s: Store, d: nat, idx: nat, parent: Node, child: Node) {
    && d >= 2 && parent in s && child in s && parent != child && FullBody(d, s[child]) && RoomAt(d, s[parent], idx)
  }

  ghost predicate FullBody(d: nat, b: Body) {
    |b.es| == 2 * d - 1 && (b.kids != [] ==> |b.kids| == 2 * d)
  }

  ghost predicate RoomAt(d: nat, b: Body, idx: nat) {
    |b.es| + 1 < 2 * d && |b.kids| == |b.es| + 1 && idx <= |b.es|
  }

  ghost function LowerHalf(d: nat, b: Body): Body
    requires d >= 2 && FullBody(d, b)
  {
    Body(b.es[..d - 1], if b.kids == [] then [] else b.kids[..d])
  }

  ghost function UpperHalf(d: nat, b: Body): Body
    requires d >= 2 && FullBody(d, b)
  {
    Body(b.es[d..], if b.kids == [] then [] else b.kids[d..])
  }

  ghost function Median(d: nat, b: Body): Pair
    requires d >= 2 && FullBody(d, b)
  {
    b.es[d - 1]
  }

  /** The parent's body with a pair at `idx` and a child to the right of it. */
  ghost function WithChild(d: nat, b: Body, idx: nat, m: Pair, sibling: Node): Body
    requires RoomAt(d, b, idx)
  {
    Body(b.es[..idx] + [m] + b.es[idx..], b.kids[..idx + 1] + [sibling] + b.kids[idx + 1..])
  }

  lemma WithChildAt(d: nat, b: Body, idx: nat, m: Pair, sibling: Node)
    requires RoomAt(d, b, idx)
    ensures var w := WithChild(d, b, idx, m, sibling);
            && |w.es| == |b.es| + 1 && |w.kids| == |b.kids| + 1
            && (forall i {:trigger w.es[i]} :: 0 <= i < |w.es| ==>
                 w.es[i] == if i < idx then b.es[i] else if i == idx then m else b.es[i - 1])
            && (forall i {:trigger w.kids[i]} :: 0 <= i < |w.kids| ==>
                 w.kids[i] == if i <= idx then b.kids[i] else if i == idx + 1 then sibling else b.kids[i - 1])
  {
  }

  ghost function SplitStore(s: Store, d: nat, idx: nat, parent: Node, child: Node, sibling: Node): Store
    requires CanSplit(s, d, idx, parent, child)
  {
    s[child := LowerHalf(d, s[child])][sibling := UpperHalf(d, s[child])]
     [parent := WithChild(d, s[parent], idx, Median(d, s[child]), sibling)]
  }

  /** The stores say the same about all but these nodes. */
  ghost predicate SameRecord(s: Store, u: Store, touched: set<Node>) {
    forall n :: n in u && n !in touched ==> n in s && u[n] == s[n]
  }

  lemma SplitRecord(s: Store, d: nat, idx: nat, parent: Node, child: Node, sibling: Node)
    requires CanSplit(s, d, idx, parent, child) && sibling !in s
    ensures var u := SplitStore(s, d, idx, parent, child, sibling);
            && SameRecord(s, u, {parent, child, sibling}) && u.Keys == s.Keys + {sibling}
            && u[child] == LowerHalf(d, s[child]) && u[sibling] == UpperHalf(d, s[child])
            && u[parent] == WithChild(d, s[parent], idx, Median(d, s[child]), sibling)
  {
    hide LowerHalf, UpperHalf, WithChild, Median, FullBody, RoomAt;
  }

  // ---------- a tree in the store ----------

  ghost predicate Here(s: Store, d: nat, min: nat, t: Tree, h: nat) {
    d >= 2 && Models(s, t) && Tidy(t) && WellFormed(d, min, t, h) && Sorted(Flat(t))
  }

  /** `t` became `t'`: it kept its topmost node, new nodes are new to the store, and nodes outside `t` hold what they
      held. */
  ghost predicate Became(s: Store, u: Store, t: Tree, t': Tree) {
    && t'.node == t.node && Nodes(t) <= Nodes(t') && u.Keys == s.Keys + Nodes(t')
    && (forall n :: n in Nodes(t') && n !in Nodes(t) ==> n !in s)
    && (forall n :: n in s && n !in Nodes(t) ==> n in u && u[n] == s[n])
  }

  lemma BecameTrans(s: Store, u: Store, v: Store, t: Tree, t': Tree, t'': Tree)
    requires Became(s, u, t, t') && Became(u, v, t', t'')
    ensures Became(s, v, t, t'')
  {
  }

  lemma BecameSame(s: Store, t: Tree)
    requires Models(s, t)
    ensures Became(s, s, t, t)
  {
    ModelsNodes(s, t);
  }

  lemma BecameKeys(s: Store, u: Store, t: Tree, t': Tree)
    requires Became(s, u, t, t') && s.Keys == Nodes(t)
    ensures u.Keys == Nodes(t') && t'.node == t.node
  {
  }

  lemma HereBasics(s: Store, d: nat, min: nat, t: Tree, h: nat)
    requires Here(s, d, min, t, h)
    ensures d >= 2 && Models(s, t) && t.node in s && s[t.node] == BodyOf(t) && Sorted(Flat(t))
    ensures min <= |t.es| < 2 * d && (t.kids == [] <==> h == 0) && (h > 0 ==> |t.kids| == |t.es| + 1)
  {
  }

  lemma HereWeaker(s: Store, d: nat, min: nat, low: nat, t: Tree, h: nat)
    requires Here(s, d, min, t, h) && low <= min
    ensures Here(s, d, low, t, h)
  {
  }

  // ---------- going down ----------

  lemma KidHere(s: Store, d: nat, min: nat, t: Tree, h: nat, j: nat)
    requires Here(s, d, min, t, h) && j < |t.kids|
    ensures h > 0 && Here(s, d, d - 1, t.kids[j], h - 1)
  {
    hide Sorted, Before, After;
    ModelsEach(s, t.kids);
    TidyAround(t.kids, j);
    FlatAround(t, j);
    var a, b, c := Before(t.es[..j], t.kids[..j]), Flat(t.kids[j]), After(t.es[j..], t.kids[j + 1..]);
    SortedParts(a + b, c);
    SortedParts(a, b);
  }

  lemma KidModels(s: Store, u: Store, t: Tree, j: nat, kid: Tree)
    requires j < |t.kids| && Models(s, t) && Tidy(t)
    requires Became(s, u, t.kids[j], kid) && Models(u, kid)
    ensures Models(u, WithKid(t, j, kid))
  {
    var kids := t.kids[j := kid];
    TidyAround(t.kids, j);
    NodesAround(t.kids, j);
    ModelsEach(s, t.kids);
    ModelsEach(u, kids);
    forall i | 0 <= i < |kids|
      ensures Models(u, kids[i])
    {
      if i != j {
        OtherKid(t.kids, i, j);
        ModelsSame(s, u, t.kids[i]);
      }
    }
    assert NodesOf(kids) == NodesOf(t.kids);
  }

  lemma KidBecame(s: Store, u: Store, t: Tree, j: nat, kid: Tree)
    requires j < |t.kids| == |t.es| + 1 && Tidy(t) && Models(s, t)
    requires Became(s, u, t.kids[j], kid)
    ensures Tidy(kid) ==> Tidy(WithKid(t, j, kid))
    ensures Became(s, u, t, WithKid(t, j, kid))
  {
    hide Flat, Before, After;
    NodesAround(t.kids, j);
    TidyAround(t.kids, j);
    WithKidFlat(t, j, kid);
    ModelsNodes(s, t);
  }

  lemma KidWellFormed(d: nat, min: nat, t: Tree, h: nat, j: nat, kid: Tree)
    requires h > 0 && d >= 1 && WellFormed(d, min, t, h) && j < |t.kids| && WellFormed(d, d - 1, kid, h - 1)
    ensures WellFormed(d, min, WithKid(t, j, kid), h)
  {
  }

  /** When a child has taken in a key, so has the tree. */
  lemma KidGrown(s: Store, u: Store, d: nat, min: nat, t: Tree, h: nat, j: nat, kid: Tree, k: nat, v: Value)
    requires h > 0 && Here(s, d, min, t, h) && j < |t.kids| == |t.es| + 1 && LeadsTo(t.es, j, k)
    requires Here(u, d, d - 1, kid, h - 1) && Became(s, u, t.kids[j], kid) && Flat(kid) == Upsert(Flat(t.kids[j]), k, v)
    ensures Here(u, d, min, WithKid(t, j, kid), h) && Became(s, u, t, WithKid(t, j, kid))
    ensures Flat(WithKid(t, j, kid)) == Upsert(Flat(t), k, v)
  {
    hide Sorted, Upsert, Models, Tidy, Became, WellFormed, WithKid, Before, After, LeadsTo;
    KidModels(s, u, t, j, kid);
    KidBecame(s, u, t, j, kid);
    WithKidFlat(t, j, kid);
    Descend(t, j, k, v);
    KidWellFormed(d, min, t, h, j, kid);
    UpsertSorted(Flat(t), k, v);
  }

  lemma KidLacks(s: Store, d: nat, min: nat, t: Tree, h: nat, j: nat, k: nat)
    requires Here(s, d, min, t, h) && j < |t.kids| == |t.es| + 1 && LeadsTo(t.es, j, k)
    ensures HasKey(Flat(t), k) <==> HasKey(Flat(t.kids[j]), k)
    ensures Lookup(Flat(t), k) == Lookup(Flat(t.kids[j]), k)
  {
    hide Sorted, Models, Lookup, HasKey, LeadsTo;
    Descend(t, j, k, "");
  }

  // ---------- splitting ----------

  ghost function AfterSplit(d: nat, t: Tree, idx: nat, sibling: Node): Tree
    requires idx < |t.kids| == |t.es| + 1 && Splittable(d, t.kids[idx])
  {
    var kid := t.kids[idx];
    WithSplit(t, idx, LeftHalf(d, kid), RightHalf(d, kid, sibling), Middle(d, kid))
  }

  lemma SplitBodies(d: nat, t: Tree, idx: nat, sibling: Node)
    requires idx < |t.kids| == |t.es| + 1 < 2 * d && Splittable(d, t.kids[idx])
    ensures var kid := t.kids[idx];
            && FullBody(d, BodyOf(kid)) && RoomAt(d, BodyOf(t), idx)
            && LowerHalf(d, BodyOf(kid)) == BodyOf(LeftHalf(d, kid))
                 && UpperHalf(d, BodyOf(kid)) == BodyOf(RightHalf(d, kid, sibling))
            && WithChild(d, BodyOf(t), idx, Median(d, BodyOf(kid)), sibling) == BodyOf(AfterSplit(d, t, idx, sibling))
  {
    var kid := t.kids[idx];
    var l, r, w := LeftHalf(d, kid), RightHalf(d, kid, sibling), AfterSplit(d, t, idx, sibling);
    if kid.kids != [] {
      assert NodesOf(l.kids) == NodesOf(kid.kids)[..d];
      assert NodesOf(r.kids) == NodesOf(kid.kids)[d..];
    }
    assert NodesOf(w.kids) == NodesOf(t.kids)[..idx + 1] + [sibling] + NodesOf(t.kids)[idx + 1..];
  }

  /** The halves hold what the split node held. */
  lemma HalvesModel(s: Store, u: Store, d: nat, kid: Tree, sibling: Node)
    requires Splittable(d, kid) && Models(s, kid) && Tidy(kid)
    requires kid.node in u && u[kid.node] == BodyOf(LeftHalf(d, kid)) && sibling in u
             && u[sibling] == BodyOf(RightHalf(d, kid, sibling))
    requires Agree(s, u, Nodes(kid) - {kid.node})
    ensures Models(u, LeftHalf(d, kid)) && Models(u, RightHalf(d, kid, sibling))
  {
    if kid.kids != [] {
      var a, b := kid.kids[..d], kid.kids[d..];
      assert kid.kids == a + b;
      NodesConcat(a, b);
      ModelsEach(s, kid.kids);
      ModelsEach(s, a);
      ModelsEach(s, b);
      ModelsSameAll(s, u, a);
      ModelsSameAll(s, u, b);
    }
  }

  lemma SplitModels(s: Store, u: Store, t: Tree, idx: nat, l: Tree, r: Tree, m: Pair)
    requires idx < |t.kids| == |t.es| + 1 && Models(s, t) && Tidy(t)
    requires Models(u, l) && Models(u, r)
    requires t.node in u && u[t.node] == BodyOf(WithSplit(t, idx, l, r, m))
    requires Agree(s, u, s.Keys - {t.node, t.kids[idx].node})
    ensures Models(u, WithSplit(t, idx, l, r, m))
  {
    hide Tidy, Nodes, NodesAll, BodyOf, ModelsAll;
    var w := WithSplit(t, idx, l, r, m);
    ModelsEach(s, t.kids);
    ModelsEach(u, w.kids);
    forall i | 0 <= i < |w.kids|
      ensures Models(u, w.kids[i])
    {
      if i == idx {
        assert w.kids[i] == l;
      } else if i == idx + 1 {
        assert w.kids[i] == r;
      } else {
        var i' := if i < idx then i else i - 1;
        assert w.kids[i] == t.kids[i'];
        ModelsNodes(s, t.kids[i']);
        OthersAvoid(t, i', idx);
        ModelsSame(s, u, t.kids[i']);
      }
    }
  }

  lemma OthersAvoid(t: Tree, i: nat, j: nat)
    requires Tidy(t) && i < |t.kids| && j < |t.kids| && i != j
    ensures t.node !in Nodes(t.kids[i]) && t.kids[j].node !in Nodes(t.kids[i])
  {
    OtherKid(t.kids, i, j);
    NodesAround(t.kids, i);
  }

  lemma SplitReady(s: Store, d: nat, min: nat, t: Tree, h: nat, idx: nat)
    requires Here(s, d, min, t, h) && idx < |t.kids| && |t.es| + 1 < 2 * d && Full(d, t.kids[idx])
    ensures h > 0 && |t.kids| == |t.es| + 1 && Splittable(d, t.kids[idx])
            && CanSplit(s, d, idx, t.node, t.kids[idx].node)
    ensures s[t.node] == BodyOf(t) && s[t.kids[idx].node] == BodyOf(t.kids[idx])
  {
    hide Sorted, Flat;
    var kid := t.kids[idx];
    KidHere(s, d, min, t, h, idx);
    NodesAround(t.kids, idx);
    HalvesWellFormed(d, d - 1, kid, h - 1, kid.node);
    SplitBodies(d, t, idx, kid.node);
  }

  lemma SplitStoreModels(s: Store, d: nat, t: Tree, idx: nat, sibling: Node)
    requires idx < |t.kids| == |t.es| + 1 < 2 * d && Splittable(d, t.kids[idx])
    requires Models(s, t) && Tidy(t) && sibling !in s && CanSplit(s, d, idx, t.node, t.kids[idx].node)
    ensures Models(SplitStore(s, d, idx, t.node, t.kids[idx].node, sibling), AfterSplit(d, t, idx, sibling))
  {
    hide FullBody, RoomAt, LowerHalf, UpperHalf, WithChild, Median, LeftHalf, RightHalf, Middle, WithSplit, TidyAll,
         Splittable;
    var kid := t.kids[idx];
    ModelsEach(s, t.kids);
    TidyAround(t.kids, idx);
    SplitBodies(d, t, idx, sibling);
    var u := SplitStore(s, d, idx, t.node, kid.node, sibling);
    NodesAround(t.kids, idx);
    ModelsNodes(s, kid);
    HalvesModel(s, u, d, kid, sibling);
    SplitModels(s, u, t, idx, LeftHalf(d, kid), RightHalf(d, kid, sibling), Middle(d, kid));
  }

  /** A split changes neither what the tree holds nor its shape. */
  lemma SplitTree(d: nat, min: nat, t: Tree, h: nat, idx: nat, sibling: Node)
    requires d >= 2 && h > 0 && WellFormed(d, min, t, h) && Tidy(t) && idx < |t.kids| && |t.es| + 1 < 2 * d
             && Full(d, t.kids[idx])
    requires sibling !in Nodes(t)
    ensures |t.kids| == |t.es| + 1 && Splittable(d, t.kids[idx])
    ensures var w := AfterSplit(d, t, idx, sibling);
            && w.node == t.node && WellFormed(d, min + 1, w, h) && Tidy(w) && Flat(w) == Flat(t)
                 && Nodes(w) == Nodes(t) + {sibling}
            && |w.es| == |t.es| + 1 && |w.kids| == |w.es| + 1 && w.es[idx] == Middle(d, t.kids[idx])
                 && w.es[..idx] == t.es[..idx] && w.es[idx + 1..] == t.es[idx..]
            && !Full(d, w.kids[idx]) && !Full(d, w.kids[idx + 1])
  {
    hide Full, Tidy, LeftHalf, RightHalf, Middle, Flat, Splittable;
    var kid := t.kids[idx];
    HalvesWellFormed(d, d - 1, kid, h - 1, sibling);
    HalvesFlat(d, kid, sibling);
    HalvesTidy(d, kid, sibling);
    NodesAround(t.kids, idx);
    SplitTidy(t, idx, kid);
    var l, r, m := LeftHalf(d, kid), RightHalf(d, kid, sibling), Middle(d, kid);
    WithSplitFlat(t, idx, l, r, m);
    WithSplitTidy(t, idx, l, r, m, sibling);
    WithSplitWellFormed(d, min, t, h, idx, l, r, m);
  }

  lemma SplitTidy(t: Tree, idx: nat, kid: Tree)
    requires Tidy(t) && idx < |t.kids| && kid == t.kids[idx]
    ensures Tidy(kid)
  {
    TidyAround(t.kids, idx);
  }

  lemma SplitBecame(s: Store, d: nat, t: Tree, idx: nat, sibling: Node, w: Tree)
    requires idx < |t.kids| && sibling !in s && Models(s, t) && CanSplit(s, d, idx, t.node, t.kids[idx].node)
    requires Nodes(w) == Nodes(t) + {sibling} && w.node == t.node
    ensures Became(s, SplitStore(s, d, idx, t.node, t.kids[idx].node, sibling), t, w)
  {
    hide SplitStore, CanSplit, Models;
    SplitRecord(s, d, idx, t.node, t.kids[idx].node, sibling);
    ModelsNodes(s, t);
    NodesAround(t.kids, idx);
    assert t.kids[idx].node in Nodes(t);
  }

  /** A full child is split; the median is a pair that is present, so the strict comparison leads to a half with room
      for a new key. */
  lemma SplitStep(s: Store, d: nat, min: nat, t: Tree, h: nat, idx: nat, sibling: Node, k: nat)
    requires Here(s, d, min, t, h) && idx < |t.kids| == |t.es| + 1 < 2 * d && h > 0 && Full(d, t.kids[idx])
             && Splittable(d, t.kids[idx])
    requires sibling !in s && CanSplit(s, d, idx, t.node, t.kids[idx].node) && LeadsTo(t.es, idx, k)
             && !HasKey(Flat(t), k)
    ensures var u, w := SplitStore(s, d, idx, t.node, t.kids[idx].node, sibling), AfterSplit(d, t, idx, sibling);
            && Here(u, d, min + 1, w, h) && Became(s, u, t, w) && Flat(w) == Flat(t)
            && w.node == t.node && idx + 1 < |w.kids| == |w.es| + 1 && !Full(d, w.kids[idx])
                 && !Full(d, w.kids[idx + 1])
            && LeadsTo(w.es, if w.es[idx].key < k then idx + 1 else idx, k)
  {
    hide AfterSplit, SplitStore, CanSplit, Full, HasKey, WellFormed, Tidy, Models, Sorted, Became, Flat, Splittable;
    ModelsNodes(s, t);
    SplitTree(d, min, t, h, idx, sibling);
    SplitStoreModels(s, d, t, idx, sibling);
    var w := AfterSplit(d, t, idx, sibling);
    SplitBecame(s, d, t, idx, sibling, w);
    OwnKeyPresent(w, idx);
    assert idx > 0 ==> w.es[idx - 1] == w.es[..idx][idx - 1] == t.es[idx - 1];
    assert idx < |t.es| ==> w.es[idx + 1] == w.es[idx + 1..][0] == t.es[idx];
  }

  lemma OwnKeyPresent(t: Tree, i: nat)
    requires i < |t.es| && |t.kids| == |t.es| + 1
    ensures HasKey(Flat(t), t.es[i].key)
  {
    hide Flat;
    OwnPair(t, i, t.es[i]);
    assert Flat(t)[PlaceOf(t, i)].key == t.es[i].key;
  }

  // ---------- a node ----------

  lemma LeafLacks(es: seq<Pair>, k: nat, i: nat)
    requires Sorted(es) && i <= |es| && (forall x :: 0 <= x < i ==> es[x].key < k) && (i < |es| ==> k < es[i].key)
    ensures Lookup(es, k) == None && !HasKey(es, k)
  {
    RankIs(es, k, i);
    LookupIs(es, k);
  }

  lemma LeafGrown(s: Store, d: nat, min: nat, t: Tree, k: nat, v: Value)
    requires Here(s, d, min, t, 0) && !HasKey(t.es, k) && |t.es| + 1 < 2 * d
    ensures var u, t' := s[t.node := Body(Upsert(t.es, k, v), [])], Tree(t.node, Upsert(t.es, k, v), []);
            Here(u, d, min, t', 0) && Became(s, u, t, t') && Flat(t') == Upsert(Flat(t), k, v)
  {
    hide Upsert, Sorted, HasKey;
    UpsertSorted(t.es, k, v);
    assert NodesOf([]) == [];
    var u, t' := s[t.node := Body(Upsert(t.es, k, v), [])], Tree(t.node, Upsert(t.es, k, v), []);
    assert Flat(t') == Upsert(Flat(t), k, v);
    assert Models(u, t');
    assert WellFormed(d, min, t', 0);
    assert Tidy(t');
    assert Became(s, u, t, t');
  }

  /** A pair of the topmost node itself is replaced. */
  lemma PairReplaced(s: Store, d: nat, min: nat, t: Tree, h: nat, i: nat, v: Value)
    requires Here(s, d, min, t, h) && i < |t.es|
    ensures var k := t.es[i].key;
            var u, t' := s[t.node := Body(t.es[i := Pair(k, v)], NodesOf(t.kids))], WithPair(t, i, Pair(k, v));
            Here(u, d, min, t', h) && Became(s, u, t, t') && Flat(t') == Upsert(Flat(t), k, v)
  {
    hide Upsert, Sorted, Flat;
    var k := t.es[i].key;
    var u := s[t.node := Body(t.es[i := Pair(k, v)], NodesOf(t.kids))];
    OwnKey(t, i, v);
    UpsertSorted(Flat(t), k, v);
    ModelsNodes(s, t);
    ModelsSameAll(s, u, t.kids);
  }

  // ---------- the root ----------

  lemma FirstLeaf(d: nat, n: Node, p: Pair)
    requires d >= 2
    ensures var u, t := map[n := Body([p], [])], Tree(n, [p], []);
            Here(u, d, 1, t, 0) && u.Keys == Nodes(t) && Flat(t) == [p]
  {
    assert NodesOf([]) == [];
  }

  /** A full root gets a parent, which holds no pair yet. */
  lemma NewRoot(s: Store, d: nat, t: Tree, h: nat, n: Node)
    requires Here(s, d, 1, t, h) && Full(d, t) && n !in s && s.Keys == Nodes(t)
    ensures var u, t' := s[n := Body([], [t.node])], Tree(n, [], [t]);
            && Here(u, d, 0, t', h + 1) && !Full(d, t') && u.Keys == Nodes(t') && Flat(t') == Flat(t)
            && SameRecord(s, u, {n}) && u.Keys == s.Keys + {n}
  {
    hide Sorted;
    var u := s[n := Body([], [t.node])];
    NodesOne(t);
    TidyOne(t);
    ModelsNodes(s, t);
    ModelsSame(s, u, t);
    ModelsEach(u, [t]);
    assert NodesOf([t]) == [t.node];
    FullTree(d, t, h);
    assert Flat(Tree(n, [], [t])) == Flat(t) + After([], [t][1..]);
    BeforeNone([], [t][1..]);
    assert Flat(t) + [] == Flat(t);
  }

  lemma FullTree(d: nat, t: Tree, h: nat)
    requires d >= 2 && WellFormed(d, 1, t, h) && Full(d, t)
    ensures WellFormed(d, d - 1, t, h)
  {
  }

  // ---------- the arrays ----------

  /** No two nodes share an array. */
  ghost predicate Apart(ns: set<Node>) {
    forall n, o :: n in ns && o in ns && n != o ==> n.entries != o.entries && n.children != o.children
  }

  ghost predicate Within(ns: set<Node>, repr: set<object>) {
    forall n :: n in ns ==> n in repr && n.entries in repr && n.children in repr
  }

  /** A new node with new arrays joins. */
  lemma Join(ns: set<Node>, repr: set<object>, s: Node)
    requires Apart(ns) && Within(ns, repr) && s !in repr && s.entries !in repr && s.children !in repr
    ensures s !in ns && Apart(ns + {s}) && Within(ns + {s}, repr + {s, s.entries, s.children})
  {
  }
}
