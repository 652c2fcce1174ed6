/** The B-tree in memory: pairs in all nodes, and a split that moves the median pair up. */
module BTree {
  import opened Wrappers
  import opened Arrays
  import opened Pairs
  import opened BTreeShape
  import opened BTreeSteps

  class BTree {
    const d: nat
    var root: Node?
    ghost var store: Store
    ghost var repr: set<object>
    ghost var tree: Option<Tree>
    ghost var height: nat

    /** The node holds what the body says. */
    ghost predicate Kept(n: Node, b: Body)
      reads n`nk, n.entries, n.children
    {
      && n.entries.Length == 2 * d - 1 && n.children.Length == 2 * d
      && n.leaf == (b.kids == []) && n.nk == |b.es| < 2 * d && n.entries[..|b.es|] == b.es
      && (b.kids != [] ==> |b.kids| == |b.es| + 1 && forall i :: 0 <= i < |b.kids| ==> n.children[i] == b.kids[i])
    }

    ghost predicate Stored()
      reads this`store, this`repr, repr
    {
      && d >= 2 && this !in repr && Apart(store.Keys) && Within(store.Keys, repr)
      && forall n :: n in store ==> Kept(n, store[n])
    }

    /** The ghost record follows a change of `touched` nodes. */
    ghost method Record(u: Store, r: set<object>, touched: set<Node>)
      requires d >= 2 && this !in r && Apart(u.Keys) && Within(u.Keys, r)
      requires SameRecord(store, u, touched)
      requires forall n :: n in store && n !in touched ==> Kept(n, store[n])
      requires forall n :: n in touched ==> n in u && Kept(n, u[n])
      modifies this`store, this`repr
      ensures Stored() && store == u && repr == r
    {
      hide Kept, Apart, Within;
      store := u;
      repr := r;
    }

    lemma KeptNode(n: Node)
      requires Stored() && n in store
      ensures Kept(n, store[n]) && this !in repr && n in repr && n.entries in repr && n.children in repr
    {
    }

    lemma Basics()
      requires Stored()
      ensures d >= 2 && this !in repr && Apart(store.Keys) && Within(store.Keys, repr)
    {
    }

    lemma DistinctFrom(o: Node)
      requires Stored() && o in store
      ensures forall n :: n in store && n != o ==> n.entries != o.entries && n.children != o.children
    {
    }

    /** What a node of the tree shows. */
    lemma NodeIs(t: Tree)
      requires Stored() && t.node in store && store[t.node] == BodyOf(t)
      ensures t.node.leaf == (t.kids == []) && t.node.entries.Length == 2 * d - 1 && t.node.children.Length == 2 * d
      ensures t.node in repr && t.node.entries in repr
      ensures t.node.nk == |t.es| < 2 * d && forall i :: 0 <= i < |t.es| ==> t.node.entries[i] == t.es[i]
      ensures t.kids != [] ==> |t.kids| == |t.es| + 1 && forall i :: 0 <= i < |t.kids| ==>
              t.node.children[i] == t.kids[i].node
    {
      hide Apart, Within;
      KeptNode(t.node);
      assert forall i :: 0 <= i < |t.es| ==> t.node.entries[i] == t.node.entries[..|t.es|][i];
    }

    // ---------- splitting ----------

    /** The upper pairs and children of a full node move to its new sibling. */
    method Halve(child: Node, sibling: Node, ghost b: Body)
      requires d >= 2 && Kept(child, b) && FullBody(d, b)
      requires sibling.leaf == child.leaf && sibling.entries.Length == 2 * d - 1 && sibling.children.Length == 2 * d
      requires child != sibling && child.entries != sibling.entries && child.children != sibling.children
      modifies child`nk, sibling`nk, sibling.entries, sibling.children
      ensures Kept(child, LowerHalf(d, b)) && Kept(sibling, UpperHalf(d, b))
      ensures child.entries[d - 1] == Median(d, b)
    {
      sibling.nk := d - 1;
      Copy(child.entries, d, sibling.entries, d - 1);
      if !child.leaf {
        Copy(child.children, d, sibling.children, d);
        forall i | 0 <= i < d
          ensures sibling.children[i] == b.kids[d + i]
        {
          assert sibling.children[..d][i] == child.children[d..2 * d][i];
        }
      }
      child.nk := d - 1;
      assert child.entries[..2 * d - 1] == b.es;
      SliceOf(child.entries[..], b.es, d);
      hide FullBody;
      assert sibling.entries[..d - 1] == b.es[d..];
    }

    /** The two ends of a full node's pairs. */
    lemma SliceOf(entries: seq<Pair>, es: seq<Pair>, d: nat)
      requires 1 <= d && |entries| == |es| == 2 * d - 1 && entries == es
      ensures entries[d..2 * d - 1] == es[d..] && entries[..d - 1] == es[..d - 1]
    {
    }

    /** The parent takes in a pair, and a child to the right of it. */
    method EnterParent(idx: nat, parent: Node, sibling: Node, m: Pair, ghost b: Body)
      requires d >= 2 && Kept(parent, b) && RoomAt(d, b, idx)
      modifies parent`nk, parent.entries, parent.children
      ensures Kept(parent, WithChild(d, b, idx, m, sibling))
    {
      hide WithChild;
      WithChildAt(d, b, idx, m, sibling);
      ghost var w := WithChild(d, b, idx, m, sibling);
      assert forall i :: 0 <= i < |b.es| ==> parent.entries[i] == parent.entries[..|b.es|][i];
      Shift(parent.children, idx + 1, parent.nk + 1);
      parent.children[idx + 1] := sibling;
      Shift(parent.entries, idx, parent.nk);
      parent.entries[idx] := m;
      parent.nk := parent.nk + 1;
      assert parent.entries[..|w.es|] == w.es;
    }

    /** The nodes of a split. */
    method Move(idx: nat, parent: Node, child: Node, ghost p: Body, ghost b: Body) returns (sibling: Node)
      requires d >= 2 && parent != child && parent.entries != child.entries && parent.children != child.children
      requires FullBody(d, b) && RoomAt(d, p, idx) && Kept(parent, p) && Kept(child, b)
      modifies parent`nk, parent.entries, parent.children, child`nk
      ensures fresh(sibling) && fresh(sibling.entries) && fresh(sibling.children)
      ensures Kept(child, LowerHalf(d, b)) && Kept(sibling, UpperHalf(d, b))
              && Kept(parent, WithChild(d, p, idx, Median(d, b), sibling))
    {
      assert child.entries.Length == 2 * d - 1;
      hide LowerHalf, UpperHalf, WithChild, Median, FullBody, RoomAt, Kept;
      sibling := new Node(d, child.leaf);
      Halve(child, sibling, b);
      EnterParent(idx, parent, sibling, child.entries[d - 1], p);
    }

    ghost method RecordSplit(idx: nat, parent: Node, child: Node, s: Node)
      requires d >= 2 && this !in repr && Apart(store.Keys) && Within(store.Keys, repr)
               && CanSplit(store, d, idx, parent, child)
      requires s !in repr && s.entries !in repr && s.children !in repr
      requires forall n :: n in store && n != parent && n != child ==> Kept(n, store[n])
      requires Kept(child, LowerHalf(d, store[child])) && Kept(s, UpperHalf(d, store[child]))
      requires Kept(parent, WithChild(d, store[parent], idx, Median(d, store[child]), s))
      modifies this`store, this`repr
      ensures Stored() && repr == old(repr) + {s, s.entries, s.children}
      ensures store == SplitStore(old(store), d, idx, parent, child, s)
    {
      hide LowerHalf, UpperHalf, WithChild, Median, FullBody, RoomAt, Apart, SplitStore, SameRecord, Within, Kept;
      Join(store.Keys, repr, s);
      SplitRecord(store, d, idx, parent, child, s);
      Record(SplitStore(store, d, idx, parent, child, s), repr + {s, s.entries, s.children}, {parent, child, s});
    }

    /** split_node */
    method SplitNode(idx: nat, parent: Node, child: Node) returns (ghost sibling: Node)
      requires Stored() && CanSplit(store, d, idx, parent, child)
      modifies this`store, this`repr, repr
      ensures Stored() && sibling !in old(store) && (forall o :: o in repr ==> o in old(repr) || fresh(o))
      ensures store == SplitStore(old(store), d, idx, parent, child, sibling)
    {
      hide LowerHalf, UpperHalf, WithChild, Median, FullBody, RoomAt, Apart, SplitStore, Within, Kept;
      KeptNode(parent);
      KeptNode(child);
      DistinctFrom(parent);
      DistinctFrom(child);
      Basics();
      var s := Move(idx, parent, child, store[parent], store[child]);
      sibling := s;
      forall n | n in store && n != parent && n != child
        ensures Kept(n, store[n])
      {
      }
      RecordSplit(idx, parent, child, s);
    }

    // ---------- inserting ----------

    /** A leaf with room takes in a new pair. */
    method EnterLeaf(node: Node, key: nat, value: Value, ghost es: seq<Pair>)
      requires Kept(node, Body(es, [])) && Sorted(es) && !HasKey(es, key) && |es| + 1 < 2 * d
      modifies node`nk, node.entries
      ensures Kept(node, Body(Upsert(es, key, value), []))
    {
      hide Upsert, HasKey, Sorted;
      UpsertSorted(es, key, value);
      Enter(node.entries, node.nk, key, value, es);
      node.nk := node.nk + 1;
    }

    /** The record follows a change of one node's pairs. */
    ghost method RecordBody(node: Node, b: Body)
      requires d >= 2 && this !in repr && Apart(store.Keys) && Within(store.Keys, repr) && node in store
      requires forall n :: n in store && n != node ==> Kept(n, store[n])
      requires Kept(node, b)
      modifies this`store, this`repr
      ensures Stored() && repr == old(repr) && store == old(store)[node := b]
    {
      hide Kept, Apart, Within;
      assert store[node := b].Keys == store.Keys;
      Record(store[node := b], repr, {node});
    }

    method InsertIntoLeaf(node: Node, key: nat, value: Value, ghost es: seq<Pair>)
      requires Stored() && node in store && store[node] == Body(es, [])
      requires Sorted(es) && !HasKey(es, key) && |es| + 1 < 2 * d
      modifies this`store, this`repr, repr
      ensures Stored() && repr == old(repr) && store == old(store)[node := Body(Upsert(es, key, value), [])]
    {
      hide Upsert, Sorted, HasKey, Kept, Apart, Within;
      Basics();
      KeptNode(node);
      DistinctFrom(node);
      EnterLeaf(node, key, value, es);
      forall n | n in store && n != node
        ensures Kept(n, store[n])
      {
      }
      RecordBody(node, Body(Upsert(es, key, value), []));
    }

    /** Splits the full child `i` and chooses the half for a new key. */
    method SplitFor(node: Node, i: nat, key: nat, ghost min: nat, ghost t: Tree, ghost h: nat)
        returns (j: nat, ghost w: Tree)
      requires Stored() && node == t.node && Here(store, d, min, t, h) && !Full(d, t) && !HasKey(Flat(t), key)
      requires i < |t.kids| && Full(d, t.kids[i]) && LeadsTo(t.es, i, key)
      modifies this`store, this`repr, repr
      ensures Stored() && (forall o :: o in repr ==> o in old(repr) || fresh(o))
      ensures Here(store, d, min + 1, w, h) && Became(old(store), store, t, w) && Flat(w) == Flat(t)
      ensures w.node == node && j < |w.kids| == |w.es| + 1 && LeadsTo(w.es, j, key) && !Full(d, w.kids[j])
    {
      hide Here, HasKey, SplitStore, CanSplit, AfterSplit, Stored, Became, LeadsTo, Models, Sorted, Flat;
      HereBasics(store, d, min, t, h);
      NodeIs(t);
      SplitReady(store, d, min, t, h, i);
      ghost var sibling := SplitNode(i, node, node.children[i]);
      SplitStep(old(store), d, min, t, h, i, sibling, key);
      w := AfterSplit(d, t, i, sibling);
      HereBasics(store, d, min + 1, w, h);
      NodeIs(w);
      j := if node.entries[i].key < key then i + 1 else i;
    }

    /** Finds the child for a new key, and splits it first if it is full. */
    method RoomyChild(node: Node, key: nat, ghost min: nat, ghost t: Tree, ghost h: nat) returns (j: nat, ghost w: Tree)
      requires Stored() && node == t.node && Here(store, d, min, t, h) && t.kids != [] && !Full(d, t)
               && !HasKey(Flat(t), key)
      modifies this`store, this`repr, repr
      ensures Stored() && (forall o :: o in repr ==> o in old(repr) || fresh(o))
      ensures Here(store, d, min, w, h) && Became(old(store), store, t, w) && Flat(w) == Flat(t)
      ensures w.node == node && j < |w.kids| == |w.es| + 1 && LeadsTo(w.es, j, key) && !Full(d, w.kids[j])
    {
      hide Here, HasKey, Stored, Became, Models, Sorted, Flat;
      HereBasics(store, d, min, t, h);
      NodeIs(t);
      j := PositionFromRight(node.entries, node.nk, key);
      w := t;
      if j > 0 {
        OwnKeyPresent(t, j - 1);
      }
      KidHere(store, d, min, t, h, j);
      HereBasics(store, d, d - 1, t.kids[j], h - 1);
      NodeIs(t.kids[j]);
      BecameSame(store, t);
      if node.children[j].nk == 2 * d - 1 {
        j, w := SplitFor(node, j, key, min, t, h);
        HereWeaker(store, d, min + 1, min, w, h);
      }
    }

    /** insert_not_full */
    method InsertNotFull(node: Node, key: nat, value: Value, ghost min: nat, ghost t: Tree, ghost h: nat)
        returns (ghost t': Tree)
      requires Stored() && node == t.node && Here(store, d, min, t, h) && !Full(d, t) && !HasKey(Flat(t), key)
      modifies this`store, this`repr, repr
      ensures Stored() && (forall o :: o in repr ==> o in old(repr) || fresh(o))
      ensures Here(store, d, min, t', h) && Became(old(store), store, t, t') && Flat(t') == Upsert(Flat(t), key, value)
      decreases h, 1
    {
      hide Here, HasKey, Stored, Became, Upsert, Sorted, WithKid, Models, LeadsTo;
      HereBasics(store, d, min, t, h);
      NodeIs(t);
      if node.leaf {
        LeafGrown(store, d, min, t, key, value);
        InsertIntoLeaf(node, key, value, t.es);
        t' := Tree(t.node, Upsert(t.es, key, value), []);
      } else {
        var j: nat;
        ghost var w: Tree;
        j, w := RoomyChild(node, key, min, t, h);
        ghost var s := store;
        t' := InsertInChild(node, j, key, value, min, w, h);
        BecameTrans(old(store), s, store, t, w, t');
      }
    }

    /** The descent into a child that has room. */
    method InsertInChild(node: Node, j: nat, key: nat, value: Value, ghost min: nat, ghost t: Tree, ghost h: nat)
        returns (ghost t': Tree)
      requires Stored() && node == t.node && Here(store, d, min, t, h) && !HasKey(Flat(t), key)
      requires j < |t.kids| == |t.es| + 1 && LeadsTo(t.es, j, key) && !Full(d, t.kids[j])
      modifies this`store, this`repr, repr
      ensures Stored() && (forall o :: o in repr ==> o in old(repr) || fresh(o))
      ensures Here(store, d, min, t', h) && Became(old(store), store, t, t') && Flat(t') == Upsert(Flat(t), key, value)
      decreases h, 0
    {
      hide Here, HasKey, Stored, Became, Upsert, Sorted, WithKid, Models, LeadsTo, Full;
      HereBasics(store, d, min, t, h);
      NodeIs(t);
      KidHere(store, d, min, t, h, j);
      KidLacks(store, d, min, t, h, j, key);
      ghost var kid := InsertNotFull(node.children[j], key, value, d - 1, t.kids[j], h - 1);
      KidGrown(old(store), store, d, min, t, h, j, kid, key, value);
      t' := WithKid(t, j, kid);
    }

    // ---------- looking up and updating ----------

    /** search: a key is found in whatever node holds it */
    method Search(node: Node, key: nat, ghost min: nat, ghost t: Tree, ghost h: nat) returns (r: Option<Value>)
      requires Stored() && node == t.node && Here(store, d, min, t, h)
      ensures r == Lookup(Flat(t), key)
      decreases h
    {
      hide Here, Stored, Models, Lookup, Rank, HasKey, Sorted;
      HereBasics(store, d, min, t, h);
      NodeIs(t);
      var i := Position(node.entries, node.nk, key);
      if i < node.nk && key == node.entries[i].key {
        OwnKey(t, i, "");
        return Some(node.entries[i].value);
      }
      if node.leaf {
        LeafLacks(t.es, key, i);
        return None;
      }
      KidHere(store, d, min, t, h, i);
      KidLacks(store, d, min, t, h, i, key);
      r := Search(node.children[i], key, d - 1, t.kids[i], h - 1);
    }

    method UpdatePair(node: Node, i: nat, key: nat, value: Value, ghost b: Body)
      requires Stored() && node in store && store[node] == b && i < |b.es|
      modifies this`store, this`repr, repr
      ensures Stored() && repr == old(repr) && store == old(store)[node := Body(b.es[i := Pair(key, value)], b.kids)]
    {
      hide Apart, Within;
      Basics();
      KeptNode(node);
      DistinctFrom(node);
      node.entries[i] := Pair(key, value);
      assert Kept(node, Body(b.es[i := Pair(key, value)], b.kids));
      hide Kept;
      forall n | n in store && n != node
        ensures Kept(n, store[n])
      {
      }
      RecordBody(node, Body(b.es[i := Pair(key, value)], b.kids));
    }

    /** update_if_found */
    method UpdateIfFound(node: Node, key: nat, value: Value, ghost min: nat, ghost t: Tree, ghost h: nat)
        returns (found: bool, ghost t': Tree)
      requires Stored() && node == t.node && Here(store, d, min, t, h)
      modifies this`store, this`repr, repr
      ensures Stored() && repr == old(repr) && found == HasKey(Flat(t), key)
      ensures found ==>
                && Here(store, d, min, t', h) && Became(old(store), store, t, t')
                && Flat(t') == Upsert(Flat(t), key, value)
      ensures !found ==> store == old(store)
      decreases h
    {
      hide Here, Stored, Sorted, Models, Rank, HasKey, Upsert, Became, WithKid;
      HereBasics(store, d, min, t, h);
      NodeIs(t);
      t' := t;
      var i := Position(node.entries, node.nk, key);
      if i < node.nk && key == node.entries[i].key {
        OwnKey(t, i, value);
        PairReplaced(store, d, min, t, h, i, value);
        UpdatePair(node, i, key, value, BodyOf(t));
        return true, WithPair(t, i, Pair(key, value));
      }
      if node.leaf {
        LeafLacks(t.es, key, i);
        return false, t';
      }
      KidHere(store, d, min, t, h, i);
      KidLacks(store, d, min, t, h, i, key);
      ghost var kid;
      found, kid := UpdateIfFound(node.children[i], key, value, d - 1, t.kids[i], h - 1);
      if found {
        KidGrown(old(store), store, d, min, t, h, i, kid, key, value);
        t' := WithKid(t, i, kid);
      }
    }

    // ---------- the tree ----------

    ghost predicate Valid()
      reads this, repr
    {
      && Stored()
      && if root == null then store == map[] && tree.None?
         else
           && tree.Some? && tree.value.node == root && Here(store, d, 1, tree.value, height)
           && store.Keys == Nodes(tree.value)
    }

    /** The pairs in the tree, by increasing key. */
    ghost function Contents(): seq<Pair>
      reads this`tree
    {
      if tree.None? then [] else Flat(tree.value)
    }

    /** init */
    constructor (d: nat)
      requires d >= 2
      ensures Valid() && root == null && Contents() == [] && this.d == d && fresh(repr)
    {
      this.d := d;
      root := null;
      store := map[];
      repr := {};
      tree := None;
      height := 0;
    }

    /** A new node is recorded. */
    ghost method RecordNode(n: Node, b: Body)
      requires Stored() && Kept(n, b) && n !in repr && n.entries !in repr && n.children !in repr
      modifies this`store, this`repr
      ensures Stored() && store == old(store)[n := b] && repr == old(repr) + {n, n.entries, n.children}
    {
      hide Kept, Apart, Within;
      Basics();
      Join(store.Keys, repr, n);
      assert store[n := b].Keys == store.Keys + {n};
      Record(store[n := b], repr + {n, n.entries, n.children}, {n});
    }

    method MakeFirst(key: nat, value: Value)
      requires Valid() && root == null
      modifies this
      ensures Valid() && root != null && (forall o :: o in repr ==> o in old(repr) || fresh(o))
              && Contents() == [Pair(key, value)] && height == 0
    {
      hide Here, Stored, Apart, Within;
      Basics();
      var n := new Node(d, true);
      n.entries[0] := Pair(key, value);
      n.nk := 1;
      assert n.entries[..1] == [Pair(key, value)];
      assert Kept(n, Body([Pair(key, value)], []));
      hide Kept;
      FirstLeaf(d, n, Pair(key, value));
      RecordNode(n, Body([Pair(key, value)], []));
      root := n;
      tree := Some(Tree(n, [Pair(key, value)], []));
      height := 0;
    }

    /** A full root gets a new parent without pairs. */
    method RaiseRoot() returns (newRoot: Node, ghost r: Tree)
      requires Valid() && root != null && Full(d, tree.value)
      modifies this`store, this`repr
      ensures Stored() && (forall o :: o in repr ==> o in old(repr) || fresh(o)) && fresh(newRoot) && newRoot == r.node
      ensures Here(store, d, 0, r, height + 1) && !Full(d, r) && store.Keys == Nodes(r) && Flat(r) == Contents()
      ensures r == Tree(newRoot, [], [tree.value])
    {
      hide Here, HasKey, Stored, Sorted, Models, Full, Flat, Nodes, NodesAll, Apart, Within;
      ghost var t := tree.value;
      HereBasics(store, d, 1, t, height);
      Basics();
      newRoot := new Node(d, false);
      newRoot.children[0] := root;
      assert Kept(newRoot, Body([], [t.node]));
      hide Kept;
      r := Tree(newRoot, [], [t]);
      NewRoot(store, d, t, height, newRoot);
      RecordNode(newRoot, Body([], [t.node]));
    }

    /** Its only child is split, and one half takes the new pair. */
    method SplitRoot(newRoot: Node, key: nat, value: Value, ghost r: Tree, ghost h: nat) returns (ghost t': Tree)
      requires Stored() && newRoot == r.node && Here(store, d, 0, r, h) && !Full(d, r) && !HasKey(Flat(r), key)
      requires r.es == [] && |r.kids| == 1 && Full(d, r.kids[0])
      modifies this`store, this`repr, repr
      ensures Stored() && (forall o :: o in repr ==> o in old(repr) || fresh(o))
      ensures Here(store, d, 1, t', h) && Became(old(store), store, r, t') && Flat(t') == Upsert(Flat(r), key, value)
    {
      hide Here, HasKey, Stored, Became, Upsert, Full;
      var j: nat;
      ghost var w: Tree;
      j, w := SplitFor(newRoot, 0, key, 0, r, h);
      ghost var u := store;
      t' := InsertInChild(newRoot, j, key, value, 1, w, h);
      BecameTrans(old(store), u, store, r, w, t');
    }

    /** insert, when the root is full */
    method GrowRoot(key: nat, value: Value)
      requires Valid() && root != null && Full(d, tree.value) && !HasKey(Contents(), key)
      modifies this, repr
      ensures Valid() && root != null && (forall o :: o in repr ==> o in old(repr) || fresh(o))
      ensures Contents() == Upsert(old(Contents()), key, value) && height == old(height) + 1
    {
      hide Here, HasKey, Stored, Became, Upsert, Full, Flat, Nodes, NodesAll, Rank, Apart, Within;
      Basics();
      var newRoot: Node;
      ghost var r, t': Tree;
      newRoot, r := RaiseRoot();
      Basics();
      ghost var s := store;
      t' := SplitRoot(newRoot, key, value, r, height + 1);
      Basics();
      BecameKeys(s, store, r, t');
      root := newRoot;
      tree := Some(t');
      height := height + 1;
    }

    /** insert, when the root is neither full nor missing and the key is new */
    method InsertBelow(key: nat, value: Value)
      requires Valid() && root != null && !Full(d, tree.value) && !HasKey(Contents(), key)
      modifies this, repr
      ensures Valid() && root != null && (forall o :: o in repr ==> o in old(repr) || fresh(o))
      ensures Contents() == Upsert(old(Contents()), key, value) && height == old(height)
    {
      hide Here, HasKey, Stored, Became, Upsert, Full, Flat, Nodes, NodesAll, Rank, Apart, Within;
      Basics();
      ghost var s, t := store, tree.value;
      ghost var t' := InsertNotFull(root, key, value, 1, t, height);
      Basics();
      BecameKeys(s, store, t, t');
      tree := Some(t');
    }

    /** update_if_found at the root */
    method UpdateBelow(key: nat, value: Value) returns (found: bool)
      requires Valid() && root != null
      modifies this, repr
      ensures Valid() && root == old(root) && repr == old(repr) && height == old(height)
              && found == HasKey(old(Contents()), key)
      ensures found ==> Contents() == Upsert(old(Contents()), key, value)
      ensures !found ==> tree == old(tree)
    {
      hide Here, HasKey, Stored, Became, Upsert, Flat, Nodes, NodesAll, Rank, Apart, Within;
      Basics();
      ghost var s, t, t' := store, tree.value, tree.value;
      found, t' := UpdateIfFound(root, key, value, 1, t, height);
      Basics();
      if found {
        BecameKeys(s, store, t, t');
        tree := Some(t');
      }
    }

    /** insert: the key's pair is put in, or its value replaced; only a full root that takes in a new key makes the tree
        higher. */
    method Insert(key: nat, value: Value)
      requires Valid()
      modifies this, repr
      ensures Valid() && root != null && (forall o :: o in repr ==> o in old(repr) || fresh(o))
      ensures Contents() == Upsert(old(Contents()), key, value)
      ensures height == if old(root) != null && !HasKey(old(Contents()), key) && Full(d, old(tree).value)
              then old(height) + 1
                        else if old(root) == null then 0 else old(height)
    {
      hide Here, HasKey, Stored, Flat, Nodes, NodesAll;
      if root == null {
        MakeFirst(key, value);
        return;
      }
      var updated := UpdateBelow(key, value);
      if updated {
        return;
      }
      HereBasics(store, d, 1, tree.value, height);
      NodeIs(tree.value);
      if root.nk == 2 * d - 1 {
        GrowRoot(key, value);
      } else {
        InsertBelow(key, value);
      }
    }

    /** update */
    method Update(key: nat, value: Value)
      requires Valid() && root != null
      modifies this, repr
      ensures Valid() && root != null && (forall o :: o in repr ==> o in old(repr) || fresh(o))
      ensures Contents() == Upsert(old(Contents()), key, value)
    {
      Insert(key, value);
    }

    /** read */
    method Read(key: nat) returns (r: Option<Value>)
      requires Valid() && root != null
      ensures r == Lookup(Contents(), key)
    {
      r := Search(root, key, 1, tree.value, height);
    }

    /** What every reachable tree satisfies: increasing keys, all leaves at one depth, every node but the root at least
        half full, no sharing. */
    lemma Shape()
      requires Valid() && root != null
      ensures Sorted(Contents()) && WellFormed(d, 1, tree.value, height) && Tidy(tree.value) && tree.value.node == root
    {
    }
  }
}
