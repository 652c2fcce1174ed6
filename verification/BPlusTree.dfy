/** The B+ tree in memory: nodes with arrays of fixed length, split in place on the way down. */
module BPlusTree {
  import opened Wrappers
  import opened Arrays
  import opened Pairs
  import opened BPlusShape
  import opened BPlusSteps
  import opened BPlusStore

  class BPlusTree {
    const d: nat
    var root: Node?
    ghost var store: Store
    ghost var repr: set<object>
    ghost var tree: Option<Tree>
    ghost var height: nat

    /** The node holds what the store says. */
    ghost predicate Holds(n: Node, b: Body)
      reads n`nk, n.entries, n.children
    {
      && n.entries.Length == 2 * d - 1 && n.children.Length == 2 * d
      && match b
         case LeafBody(es) => n.leaf && n.nk == |es| < 2 * d && n.entries[..|es|] == es
         case InnerBody(keys, kids) =>
           && !n.leaf && n.nk == |keys| < 2 * d && |kids| == |keys| + 1
           && (forall i :: 0 <= i < |keys| ==> n.entries[i].key == keys[i])
           && (forall i :: 0 <= i < |kids| ==> n.children[i] == kids[i])
    }

    /** The node holds this and is chained like this. */
    ghost predicate Kept(n: Node, b: Body, next: Node?, previous: Node?)
      reads n, n.entries, n.children
    {
      Holds(n, b) && n.next == next && n.previous == previous
    }

    ghost predicate Stored()
      reads this`store, this`repr, repr
    {
      && d >= 2 && this !in repr && Complete(store) && Apart(store.body.Keys) && Within(store.body.Keys, repr)
      && forall n :: n in store.body ==> Kept(n, store.body[n], store.next[n], store.previous[n])
    }

    /** The ghost record follows a change of `touched` nodes. */
    ghost method Record(u: Store, r: set<object>, touched: set<Node>)
      requires d >= 2 && this !in r && Complete(store) && Complete(u) && Apart(u.body.Keys) && Within(u.body.Keys, r)
      requires SameRecord(store, u, touched)
      requires forall n :: n in store.body && n !in touched ==> Kept(n, store.body[n], store.next[n], store.previous[n])
      requires forall n :: n in touched ==> n in u.body && Kept(n, u.body[n], u.next[n], u.previous[n])
      modifies this`store, this`repr
      ensures Stored() && store == u && repr == r
    {
      hide Kept, Apart, Within;
      store := u;
      repr := r;
    }

    lemma KeptNode(n: Node)
      requires Stored() && n in store.body
      ensures n in store.next && n in store.previous && Holds(n, store.body[n]) && n.next == store.next[n]
              && n.previous == store.previous[n]
      ensures this !in repr && n in repr && n.entries in repr && n.children in repr
    {
    }

    lemma Basics()
      requires Stored()
      ensures d >= 2 && this !in repr && Complete(store) && Apart(store.body.Keys) && Within(store.body.Keys, repr)
    {
    }

    lemma DistinctFrom(o: Node)
      requires Stored() && o in store.body
      ensures forall n :: n in store.body && n != o ==> n.entries != o.entries && n.children != o.children
    {
    }

    // ---------- splitting ----------

    /** The upper entries of a full leaf move to its new sibling. */
    method HalveLeaf(child: Node, sibling: Node, ghost b: Body)
      requires d >= 2 && Holds(child, b) && b.LeafBody? && FullBody(d, b)
      requires sibling.leaf && sibling.entries.Length == 2 * d - 1 && sibling.children.Length == 2 * d
      requires child != sibling && child.entries != sibling.entries
      modifies child`nk, sibling`nk, sibling.entries
      ensures Holds(child, LowerHalf(d, b)) && Holds(sibling, UpperHalf(d, b))
      ensures sibling.entries[0].key == MiddleKey(d, b)
    {
      sibling.nk := d;
      Copy(child.entries, d - 1, sibling.entries, d);
      child.nk := d - 1;
      assert child.entries[..2 * d - 1] == b.es;
      assert sibling.entries[0] == sibling.entries[..d][0];
    }

    /** The upper keys and children of a full inner node move to its new sibling. */
    method HalveInner(child: Node, sibling: Node, ghost b: Body)
      requires d >= 2 && Holds(child, b) && b.InnerBody? && FullBody(d, b)
      requires !sibling.leaf && sibling.entries.Length == 2 * d - 1 && sibling.children.Length == 2 * d
      requires child != sibling && child.entries != sibling.entries && child.children != sibling.children
      modifies child`nk, sibling`nk, sibling.entries, sibling.children
      ensures Holds(child, LowerHalf(d, b)) && Holds(sibling, UpperHalf(d, b))
      ensures child.entries[d - 1].key == MiddleKey(d, b)
    {
      sibling.nk := d - 1;
      Copy(child.entries, d, sibling.entries, d - 1);
      Copy(child.children, d, sibling.children, d);
      child.nk := d - 1;
      forall i | 0 <= i < d - 1
        ensures sibling.entries[i].key == b.keys[d..][i]
      {
        assert sibling.entries[..d - 1][i] == child.entries[d..2 * d - 1][i];
      }
      forall i | 0 <= i < d
        ensures sibling.children[i] == b.kids[d..][i]
      {
        assert sibling.children[..d][i] == child.children[d..2 * d][i];
      }
    }

    /** The parent takes in a separator, and a child to the right of it. */
    method EnterParent(idx: nat, parent: Node, sibling: Node, sep: Pair, ghost b: Body)
      requires d >= 2 && Holds(parent, b) && RoomAt(d, b, idx)
      modifies parent`nk, parent.entries, parent.children
      ensures Holds(parent, WithChild(d, b, idx, sep.key, sibling))
    {
      hide WithChild;
      WithChildAt(d, b, idx, sep.key, sibling);
      Shift(parent.children, idx + 1, parent.nk + 1);
      parent.children[idx + 1] := sibling;
      Shift(parent.entries, idx, parent.nk);
      parent.entries[idx] := sep;
      parent.nk := parent.nk + 1;
    }

    /** The leaf chain takes in a new leaf behind `child`. */
    method EnterChain(child: Node, sibling: Node)
      requires child != sibling && child.next != sibling && child.next != child
      modifies child`next, sibling`next, sibling`previous, if child.next != null then {child.next} else {}
      ensures sibling.next == old(child.next) && sibling.previous == child && child.next == sibling
      ensures old(child.next) != null ==>
              old(child.next).previous == sibling && old(child.next).next == old(child.next.next)
              && old(child.next).nk == old(child.next.nk)
    {
      sibling.next := child.next;
      if sibling.next != null {
        sibling.next.previous := sibling;
      }
      child.next := sibling;
      sibling.previous := child;
    }

    /** The nodes of a split of an inner child. */
    method MoveInner(idx: nat, parent: Node, child: Node, ghost p: Body, ghost b: Body) returns (sibling: Node)
      requires d >= 2 && parent != child && parent.entries != child.entries && parent.children != child.children
      requires FullBody(d, b) && b.InnerBody? && RoomAt(d, p, idx) && Holds(parent, p) && Holds(child, b)
      modifies parent`nk, parent.entries, parent.children, child`nk
      ensures fresh(sibling) && fresh(sibling.entries) && fresh(sibling.children)
      ensures sibling.next == sibling.previous == null
      ensures Holds(child, LowerHalf(d, b)) && Holds(sibling, UpperHalf(d, b))
              && Holds(parent, WithChild(d, p, idx, MiddleKey(d, b), sibling))
    {
      hide LowerHalf, UpperHalf, WithChild, MiddleKey, FullBody, RoomAt;
      assert child.entries.Length == 2 * d - 1 && !child.leaf;
      hide Holds;
      sibling := new Node(d, child.leaf);
      HalveInner(child, sibling, b);
      EnterParent(idx, parent, sibling, child.entries[d - 1], p);
    }

    ghost method RecordInner(idx: nat, parent: Node, child: Node, s: Node)
      requires d >= 2 && this !in repr && Complete(store) && Apart(store.body.Keys) && Within(store.body.Keys, repr)
      requires parent != child && parent in store.body && child in store.body
      requires FullBody(d, store.body[child]) && store.body[child].InnerBody? && RoomAt(d, store.body[parent], idx)
      requires s !in repr && s.entries !in repr && s.children !in repr
      requires forall n :: n in store.body && n != parent && n != child ==>
               Kept(n, store.body[n], store.next[n], store.previous[n])
      requires Kept(child, LowerHalf(d, store.body[child]), store.next[child], store.previous[child])
      requires Kept(s, UpperHalf(d, store.body[child]), null, null)
      requires Kept(parent, WithChild(d, store.body[parent], idx, MiddleKey(d, store.body[child]), s),
               store.next[parent], store.previous[parent])
      modifies this`store, this`repr
      ensures Stored() && repr == old(repr) + {s, s.entries, s.children}
      ensures store == SplitInnerStore(old(store), d, idx, parent, child, s)
    {
      hide LowerHalf, UpperHalf, WithChild, MiddleKey, FullBody, RoomAt, Apart, SplitInnerStore, SameRecord, Within,
           Kept;
      Join(store.body.Keys, repr, s);
      SplitInnerRecord(store, d, idx, parent, child, s);
      Record(SplitInnerStore(store, d, idx, parent, child, s), repr + {s, s.entries, s.children}, {parent, child, s});
    }

    /** split_node for an inner child */
    method SplitInner(idx: nat, parent: Node, child: Node) returns (ghost sibling: Node)
      requires Stored() && parent != child && parent in store.body && child in store.body
      requires FullBody(d, store.body[child]) && store.body[child].InnerBody? && RoomAt(d, store.body[parent], idx)
      modifies this`store, this`repr, repr
      ensures Stored() && sibling !in old(store.body)
      ensures fresh(sibling) && fresh(sibling.entries) && fresh(sibling.children)
              && repr == old(repr) + {sibling, sibling.entries, sibling.children}
      ensures store == SplitInnerStore(old(store), d, idx, parent, child, sibling)
    {
      hide LowerHalf, UpperHalf, WithChild, MiddleKey, FullBody, RoomAt, Apart, SplitInnerStore, Within, Holds;
      KeptNode(parent);
      KeptNode(child);
      DistinctFrom(parent);
      DistinctFrom(child);
      Basics();
      var s := MoveInner(idx, parent, child, store.body[parent], store.body[child]);
      sibling := s;
      forall n | n in store.body && n != parent && n != child
        ensures Kept(n, store.body[n], store.next[n], store.previous[n])
      {
      }
      RecordInner(idx, parent, child, s);
      Basics();
    }

    /** The nodes of a split of a leaf. */
    method MoveLeaf(idx: nat, parent: Node, child: Node, ghost p: Body, ghost b: Body) returns (sibling: Node)
      requires d >= 2 && parent != child && parent.entries != child.entries && parent.children != child.children
      requires FullBody(d, b) && b.LeafBody? && RoomAt(d, p, idx) && Holds(parent, p) && Holds(child, b)
      requires child.next != child && child.next != parent
      modifies parent`nk, parent.entries, parent.children, child`nk, child`next, if child.next == null then {}
               else {child.next}
      ensures fresh(sibling) && fresh(sibling.entries) && fresh(sibling.children)
      ensures Holds(child, LowerHalf(d, b)) && Holds(sibling, UpperHalf(d, b))
              && Holds(parent, WithChild(d, p, idx, MiddleKey(d, b), sibling))
      ensures sibling.next == old(child.next) && sibling.previous == child && child.next == sibling
      ensures old(child.next) != null ==>
                old(child.next).previous == sibling && old(child.next).next == old(child.next.next)
                    && old(child.next).nk == old(child.next.nk)
    {
      assert child.entries.Length == 2 * d - 1 && child.leaf && idx < parent.entries.Length;
      hide LowerHalf, UpperHalf, WithChild, MiddleKey, FullBody, RoomAt, Holds;
      sibling := new Node(d, child.leaf);
      HalveLeaf(child, sibling, b);
      EnterParent(idx, parent, sibling, Pair(sibling.entries[0].key, parent.entries[idx].value), p);
      EnterChain(child, sibling);
    }

    ghost method RecordLeaf(idx: nat, parent: Node, child: Node, s: Node)
      requires d >= 2 && this !in repr && Complete(store) && Apart(store.body.Keys) && Within(store.body.Keys, repr)
      requires parent != child && parent in store.body && child in store.body && NextIsLeaf(store, child)
      requires FullBody(d, store.body[child]) && store.body[child].LeafBody? && RoomAt(d, store.body[parent], idx)
               && store.body[parent].InnerBody?
      requires s !in repr && s.entries !in repr && s.children !in repr
      requires forall n :: n in store.body && n != parent && n != child && n != store.next[child] ==>
                 Kept(n, store.body[n], store.next[n], store.previous[n])
      requires Kept(child, LowerHalf(d, store.body[child]), s, store.previous[child])
      requires Kept(s, UpperHalf(d, store.body[child]), store.next[child], child)
      requires Kept(parent, WithChild(d, store.body[parent], idx, MiddleKey(d, store.body[child]), s),
               store.next[parent], store.previous[parent])
      requires var nx := store.next[child]; nx != null ==> Kept(nx, store.body[nx], store.next[nx], s)
      modifies this`store, this`repr
      ensures Stored() && repr == old(repr) + {s, s.entries, s.children}
      ensures store == SplitLeafStore(old(store), d, idx, parent, child, s)
    {
      hide LowerHalf, UpperHalf, WithChild, MiddleKey, FullBody, RoomAt, Apart, SplitLeafStore, SameRecord, Within,
           Kept;
      Join(store.body.Keys, repr, s);
      SplitLeafRecord(store, d, idx, parent, child, s);
      Record(SplitLeafStore(store, d, idx, parent, child, s), repr + {s, s.entries, s.children},
          AlsoNext({parent, child, s}, store.next[child]));
    }

    /** split_node for a leaf */
    method SplitLeaf(idx: nat, parent: Node, child: Node) returns (ghost sibling: Node)
      requires Stored() && parent != child && parent in store.body && child in store.body && NextIsLeaf(store, child)
      requires FullBody(d, store.body[child]) && store.body[child].LeafBody? && RoomAt(d, store.body[parent], idx)
               && store.body[parent].InnerBody?
      modifies this`store, this`repr, repr
      ensures Stored() && sibling !in old(store.body)
      ensures fresh(sibling) && fresh(sibling.entries) && fresh(sibling.children)
              && repr == old(repr) + {sibling, sibling.entries, sibling.children}
      ensures store == SplitLeafStore(old(store), d, idx, parent, child, sibling)
    {
      hide LowerHalf, UpperHalf, WithChild, MiddleKey, FullBody, RoomAt, Apart, SplitLeafStore, Within, Holds;
      KeptNode(parent);
      KeptNode(child);
      DistinctFrom(parent);
      DistinctFrom(child);
      Basics();
      ghost var nx := store.next[child];
      if nx != null {
        KeptNode(nx);
      }
      var s := MoveLeaf(idx, parent, child, store.body[parent], store.body[child]);
      sibling := s;
      forall n | n in store.body && n != parent && n != child && n != nx
        ensures Kept(n, store.body[n], store.next[n], store.previous[n])
      {
      }
      RecordLeaf(idx, parent, child, s);
      Basics();
    }

    /** split_node */
    method SplitNode(idx: nat, parent: Node, child: Node) returns (ghost sibling: Node)
      requires Stored() && CanSplit(store, d, idx, parent, child)
      modifies this`store, this`repr, repr
      ensures Stored() && sibling !in old(store.body) && (forall o :: o in repr ==> o in old(repr) || fresh(o))
      ensures store == SplitStore(old(store), d, idx, parent, child, sibling)
    {
      hide SplitLeafStore, SplitInnerStore, Stored;
      KeptNode(child);
      if child.leaf {
        sibling := SplitLeaf(idx, parent, child);
      } else {
        sibling := SplitInner(idx, parent, child);
      }
    }

    // ---------- inserting ----------

    /** A leaf with room takes in a new pair. */
    method EnterLeaf(node: Node, key: nat, value: Value, ghost es: seq<Pair>)
      requires Holds(node, LeafBody(es)) && Sorted(es) && !HasKey(es, key) && |es| + 1 < 2 * d
      modifies node`nk, node.entries
      ensures Holds(node, LeafBody(Upsert(es, key, value)))
    {
      hide Upsert, HasKey, Sorted;
      UpsertSorted(es, key, value);
      Enter(node.entries, node.nk, key, value, es);
      node.nk := node.nk + 1;
    }

    /** What a node of the tree shows. */
    lemma NodeIs(t: Tree)
      requires Stored() && t.node in store.body && store.body[t.node] == BodyOf(t)
      ensures t.node.leaf == t.Leaf? && t.node.entries.Length == 2 * d - 1 && t.node.children.Length == 2 * d
              && t.node in repr && t.node.entries in repr
      ensures t.Leaf? ==> t.node.nk == |t.es| < 2 * d && t.node.entries[..|t.es|] == t.es
      ensures t.Inner? ==> t.node.nk == |t.keys| < 2 * d && |t.kids| == |t.keys| + 1
                           && (forall i :: 0 <= i < |t.keys| ==> t.node.entries[i].key == t.keys[i])
                           && (forall i :: 0 <= i < |t.kids| ==> t.node.children[i] == t.kids[i].node)
    {
      hide Apart, Within;
      KeptNode(t.node);
    }

    /** The record follows a change of one node's entries. */
    ghost method RecordBody(node: Node, b: Body)
      requires d >= 2 && this !in repr && Complete(store) && Apart(store.body.Keys) && Within(store.body.Keys, repr)
               && node in store.body
      requires forall n :: n in store.body && n != node ==> Kept(n, store.body[n], store.next[n], store.previous[n])
      requires Kept(node, b, store.next[node], store.previous[node])
      modifies this`store, this`repr
      ensures Stored() && repr == old(repr) && store == WithBody(old(store), node, b)
    {
      hide Kept, Apart, Within;
      Record(WithBody(store, node, b), repr, {node});
    }

    method InsertIntoLeaf(node: Node, key: nat, value: Value, ghost t: Tree)
      requires Stored() && node == t.node && node in store.body && store.body[node] == BodyOf(t) && t.Leaf?
      requires Sorted(t.es) && !HasKey(t.es, key) && |t.es| + 1 < 2 * d
      modifies this`store, this`repr, repr
      ensures Stored() && repr == old(repr) && store == WithBody(old(store), node, LeafBody(Upsert(t.es, key, value)))
    {
      hide Upsert, Sorted, HasKey, Holds, Apart, Within;
      Basics();
      KeptNode(node);
      DistinctFrom(node);
      EnterLeaf(node, key, value, t.es);
      forall n | n in store.body && n != node
        ensures Kept(n, store.body[n], store.next[n], store.previous[n])
      {
      }
      RecordBody(node, LeafBody(Upsert(t.es, key, value)));
    }

    /** Splits the full child `i` and chooses the half for a new key. */
    method SplitFor(node: Node, i: nat, key: nat, ghost min: nat, ghost t: Tree, ghost h: nat, ghost pre: seq<Node>,
        ghost post: seq<Node>)
      returns (j: nat, ghost w: Tree)
      requires Stored() && node == t.node && Here(store, d, min, t, h, pre, post) && t.Inner? && !Full(d, t)
               && !HasKey(Flat(t), key)
      requires i < |t.kids| && Full(d, t.kids[i]) && LeadsTo(t.keys, i, key)
      modifies this`store, this`repr, repr
      ensures Stored() && (forall o :: o in repr ==> o in old(repr) || fresh(o))
      ensures Here(store, d, min + 1, w, h, pre, post) && Became(old(store), store, t, w) && Flat(w) == Flat(t)
      ensures w.Inner? && w.node == node && j < |w.kids| && LeadsTo(w.keys, j, key) && !Full(d, w.kids[j])
    {
      hide Here, HasKey, SplitStore, CanSplit, AfterSplit, Stored, Became, LeadsTo;
      HereBasics(store, d, min, t, h, pre, post);
      NodeIs(t);
      SplitReady(store, d, min, t, h, pre, post, i);
      ghost var sibling := SplitNode(i, node, node.children[i]);
      SplitStep(old(store), d, min, t, h, pre, post, i, sibling, key);
      w := AfterSplit(d, t, i, sibling);
      HereBasics(store, d, min + 1, w, h, pre, post);
      NodeIs(w);
      j := if node.entries[i].key < key then i + 1 else i;
    }

    /** Finds the child for a new key, and splits it first if it is full. */
    method RoomyChild(node: Node, key: nat, ghost min: nat, ghost t: Tree, ghost h: nat, ghost pre: seq<Node>,
        ghost post: seq<Node>)
      returns (j: nat, ghost w: Tree)
      requires Stored() && node == t.node && Here(store, d, min, t, h, pre, post) && t.Inner? && !Full(d, t)
               && !HasKey(Flat(t), key)
      modifies this`store, this`repr, repr
      ensures Stored() && (forall o :: o in repr ==> o in old(repr) || fresh(o))
      ensures Here(store, d, min, w, h, pre, post) && Became(old(store), store, t, w) && Flat(w) == Flat(t)
      ensures w.Inner? && w.node == node && j < |w.kids| && LeadsTo(w.keys, j, key) && !Full(d, w.kids[j])
    {
      hide Here, HasKey, Stored, Became;
      HereBasics(store, d, min, t, h, pre, post);
      NodeIs(t);
      j := PositionFromRight(node.entries, node.nk, key);
      w := t;
      KidHere(store, d, min, t, h, pre, post, j);
      HereBasics(store, d, d - 1, t.kids[j], h - 1, pre + LeavesAll(t.kids[..j]), LeavesAll(t.kids[j + 1..]) + post);
      NodeIs(t.kids[j]);
      BecameSame(store, t);
      if node.children[j].nk == 2 * d - 1 {
        j, w := SplitFor(node, j, key, min, t, h, pre, post);
        HereWeaker(store, d, min + 1, min, w, h, pre, post);
      }
    }

    /** insert_not_full */
    method InsertNotFull(node: Node, key: nat, value: Value, ghost min: nat, ghost t: Tree, ghost h: nat,
        ghost pre: seq<Node>, ghost post: seq<Node>)
      returns (ghost t': Tree)
      requires Stored() && node == t.node && Here(store, d, min, t, h, pre, post) && !Full(d, t)
               && !HasKey(Flat(t), key)
      modifies this`store, this`repr, repr
      ensures Stored() && (forall o :: o in repr ==> o in old(repr) || fresh(o))
      ensures Here(store, d, min, t', h, pre, post) && Became(old(store), store, t, t')
              && Flat(t') == Upsert(Flat(t), key, value)
      decreases h, 1
    {
      hide Here, HasKey, Stored, Became, Upsert, Sorted, WithKid, Models, LeadsTo;
      HereBasics(store, d, min, t, h, pre, post);
      NodeIs(t);
      if node.leaf {
        LeafGrown(store, d, min, t, h, pre, post, key, value);
        InsertIntoLeaf(node, key, value, t);
        t' := Leaf(t.node, Upsert(t.es, key, value));
      } else {
        var j: nat;
        ghost var w: Tree;
        j, w := RoomyChild(node, key, min, t, h, pre, post);
        ghost var s := store;
        t' := InsertInChild(node, j, key, value, min, w, h, pre, post);
        BecameTrans(old(store), s, store, t, w, t');
      }
    }

    /** The descent into a child that has room. */
    method InsertInChild(node: Node, j: nat, key: nat, value: Value, ghost min: nat, ghost t: Tree, ghost h: nat,
        ghost pre: seq<Node>, ghost post: seq<Node>)
      returns (ghost t': Tree)
      requires Stored() && node == t.node && Here(store, d, min, t, h, pre, post) && !HasKey(Flat(t), key)
      requires t.Inner? && j < |t.kids| && LeadsTo(t.keys, j, key) && !Full(d, t.kids[j])
      modifies this`store, this`repr, repr
      ensures Stored() && (forall o :: o in repr ==> o in old(repr) || fresh(o))
      ensures Here(store, d, min, t', h, pre, post) && Became(old(store), store, t, t')
              && Flat(t') == Upsert(Flat(t), key, value)
      decreases h, 0
    {
      hide Here, HasKey, Stored, Became, Upsert, Sorted, WithKid, Models, LeadsTo, Full;
      HereBasics(store, d, min, t, h, pre, post);
      NodeIs(t);
      KidHere(store, d, min, t, h, pre, post, j);
      KidLacks(store, d, min, t, h, pre, post, j, key);
      ghost var kid := InsertNotFull(node.children[j], key, value, d - 1, t.kids[j], h - 1,
          pre + LeavesAll(t.kids[..j]), LeavesAll(t.kids[j + 1..]) + post);
      KidGrown(old(store), store, d, min, t, h, pre, post, j, kid, key, value);
      t' := WithKid(t, j, kid);
    }

    // ---------- looking up and updating ----------

    /** search */
    method Search(node: Node, key: nat, ghost min: nat, ghost t: Tree, ghost h: nat, ghost pre: seq<Node>,
        ghost post: seq<Node>) returns (r: Option<Value>)
      requires Stored() && node == t.node && Here(store, d, min, t, h, pre, post)
      ensures r == Lookup(Flat(t), key)
      decreases h
    {
      hide Here, Stored, Sorted, Models, Lookup, LeadsTo, Rank, HasKey;
      HereBasics(store, d, min, t, h, pre, post);
      NodeIs(t);
      var i := Position(node.entries, node.nk, key);
      if node.leaf {
        assert forall x :: 0 <= x < |t.es| ==> node.entries[x] == node.entries[..|t.es|][x];
        LeafLookup(t.es, key, i);
        if i < node.nk && key == node.entries[i].key {
          return Some(node.entries[i].value);
        }
        return None;
      }
      LookRight(store, d, min, t, h, pre, post, i, key);
      if i < node.nk && key == node.entries[i].key {
        i := i + 1;
      }
      KidHere(store, d, min, t, h, pre, post, i);
      KidLacks(store, d, min, t, h, pre, post, i, key);
      r := Search(node.children[i], key, d - 1, t.kids[i], h - 1, pre + LeavesAll(t.kids[..i]),
          LeavesAll(t.kids[i + 1..]) + post);
    }

    method UpdateLeaf(node: Node, i: nat, key: nat, value: Value, ghost t: Tree)
      requires Stored() && node == t.node && node in store.body && store.body[node] == BodyOf(t) && t.Leaf?
      requires i < |t.es|
      modifies this`store, this`repr, repr
      ensures Stored() && repr == old(repr)
              && store == WithBody(old(store), node, LeafBody(t.es[i := Pair(key, value)]))
    {
      hide Apart, Within;
      Basics();
      KeptNode(node);
      DistinctFrom(node);
      NodeIs(t);
      node.entries[i] := Pair(key, value);
      assert Holds(node, LeafBody(t.es[i := Pair(key, value)]));
      hide Holds;
      forall n | n in store.body && n != node
        ensures Kept(n, store.body[n], store.next[n], store.previous[n])
      {
      }
      RecordBody(node, LeafBody(t.es[i := Pair(key, value)]));
    }

    /** update_if_found */
    method UpdateIfFound(node: Node, key: nat, value: Value, ghost min: nat, ghost t: Tree, ghost h: nat,
        ghost pre: seq<Node>, ghost post: seq<Node>)
      returns (found: bool, ghost t': Tree)
      requires Stored() && node == t.node && Here(store, d, min, t, h, pre, post)
      modifies this`store, this`repr, repr
      ensures Stored() && repr == old(repr) && found == HasKey(Flat(t), key)
      ensures found ==>
                && Here(store, d, min, t', h, pre, post) && Became(old(store), store, t, t')
                && Flat(t') == Upsert(Flat(t), key, value)
      ensures !found ==> store == old(store)
      decreases h
    {
      hide Here, Stored, Sorted, Models, LeadsTo, Rank, HasKey, Upsert, From, Became, WithKid;
      HereBasics(store, d, min, t, h, pre, post);
      NodeIs(t);
      t' := t;
      var i := Position(node.entries, node.nk, key);
      if node.leaf {
        assert forall x :: 0 <= x < |t.es| ==> node.entries[x] == node.entries[..|t.es|][x];
        LeafLookup(t.es, key, i);
        if i < node.nk && key == node.entries[i].key {
          LeafGrown(store, d, min, t, h, pre, post, key, value);
          UpdateLeaf(node, i, key, value, t);
          t' := Leaf(t.node, Upsert(t.es, key, value));
          return true, t';
        }
        return false, t';
      }
      LookRight(store, d, min, t, h, pre, post, i, key);
      if i < node.nk && key == node.entries[i].key {
        i := i + 1;
      }
      KidHere(store, d, min, t, h, pre, post, i);
      KidLacks(store, d, min, t, h, pre, post, i, key);
      ghost var kid;
      found, kid := UpdateIfFound(node.children[i], key, value, d - 1, t.kids[i], h - 1, pre + LeavesAll(t.kids[..i]),
          LeavesAll(t.kids[i + 1..]) + post);
      if found {
        KidGrown(old(store), store, d, min, t, h, pre, post, i, kid, key, value);
        t' := WithKid(t, i, kid);
      }
    }

    // ---------- the tree ----------

    ghost predicate Valid()
      reads this, repr
    {
      && Stored()
      && if root == null then store == Store(map[], map[], map[]) && tree.None?
         else
           && tree.Some? && tree.value.node == root && Here(store, d, 1, tree.value, height, [], [])
           && store.body.Keys == Nodes(tree.value)
    }

    /** The pairs in the tree, by increasing key. */
    ghost function Contents(): seq<Pair>
      reads this`tree
    {
      if tree.None? then [] else Flat(tree.value)
    }

    /** init */
    constructor (d: nat)
      requires d >= 2
      ensures Valid() && root == null && Contents() == [] && this.d == d && fresh(repr)
    {
      this.d := d;
      root := null;
      store := Store(map[], map[], map[]);
      repr := {};
      tree := None;
      height := 0;
    }

    /** A new node is recorded. */
    ghost method RecordNode(n: Node, b: Body)
      requires Stored() && Kept(n, b, null, null) && n !in repr && n.entries !in repr && n.children !in repr
      modifies this`store, this`repr
      ensures Stored() && store == WithNode(old(store), n, b) && repr == old(repr) + {n, n.entries, n.children}
    {
      hide Kept, Apart, Within, WithNode, SameRecord;
      Basics();
      Join(store.body.Keys, repr, n);
      WithNodeRecord(store, n, b);
      WithNodeAt(store, n, b);
      Record(WithNode(store, n, b), repr + {n, n.entries, n.children}, {n});
    }

    method MakeFirst(key: nat, value: Value)
      requires Valid() && root == null
      modifies this
      ensures Valid() && root != null && (forall o :: o in repr ==> o in old(repr) || fresh(o))
              && Contents() == [Pair(key, value)] && height == 0
    {
      hide Here, Stored;
      Basics();
      var n := new Node(d, true);
      n.entries[0] := Pair(key, value);
      n.nk := 1;
      assert n.entries[..1] == [Pair(key, value)];
      assert Kept(n, LeafBody([Pair(key, value)]), null, null);
      hide Kept;
      FirstLeaf(store, d, n, Pair(key, value));
      RecordNode(n, LeafBody([Pair(key, value)]));
      root := n;
      tree := Some(Leaf(n, [Pair(key, value)]));
      height := 0;
    }

    /** A full root gets a new parent without separators. */
    method RaiseRoot() returns (newRoot: Node, ghost r: Tree)
      requires Valid() && root != null && Full(d, tree.value)
      modifies this`store, this`repr
      ensures Stored() && (forall o :: o in repr ==> o in old(repr) || fresh(o)) && fresh(newRoot) && newRoot == r.node
      ensures Here(store, d, 0, r, height + 1, [], []) && !Full(d, r) && store.body.Keys == Nodes(r)
              && Flat(r) == Contents()
      ensures r == Inner(newRoot, [], [tree.value])
    {
      hide Here, HasKey, Stored, Sorted, Models, Full, Flat, FlatAll, Nodes, NodesAll, Apart, Within, Complete,
           SameRecord, WithNode;
      ghost var t := tree.value;
      HereBasics(store, d, 1, t, height, [], []);
      Basics();
      newRoot := new Node(d, false);
      newRoot.children[0] := root;
      assert Kept(newRoot, InnerBody([], [t.node]), null, null);
      hide Kept, Holds;
      r := Inner(newRoot, [], [t]);
      NewRoot(store, d, t, height, newRoot);
      RecordNode(newRoot, InnerBody([], [t.node]));
    }

    /** Its only child is split, and one half takes the new pair. */
    method SplitRoot(newRoot: Node, key: nat, value: Value, ghost r: Tree, ghost h: nat) returns (ghost t': Tree)
      requires Stored() && newRoot == r.node && Here(store, d, 0, r, h, [], []) && !Full(d, r) && !HasKey(Flat(r), key)
      requires r.Inner? && r.keys == [] && |r.kids| == 1 && Full(d, r.kids[0])
      modifies this`store, this`repr, repr
      ensures Stored() && (forall o :: o in repr ==> o in old(repr) || fresh(o))
      ensures Here(store, d, 1, t', h, [], []) && Became(old(store), store, r, t')
              && Flat(t') == Upsert(Flat(r), key, value)
    {
      hide Here, HasKey, Stored, Became, Upsert, Full;
      var j: nat;
      ghost var w: Tree;
      j, w := SplitFor(newRoot, 0, key, 0, r, h, [], []);
      ghost var u := store;
      t' := InsertInChild(newRoot, j, key, value, 1, w, h, [], []);
      BecameTrans(old(store), u, store, r, w, t');
    }

    /** insert, when the root is full */
    method GrowRoot(key: nat, value: Value)
      requires Valid() && root != null && Full(d, tree.value) && !HasKey(Contents(), key)
      modifies this, repr
      ensures Valid() && root != null && (forall o :: o in repr ==> o in old(repr) || fresh(o))
              && Contents() == Upsert(old(Contents()), key, value) && height == old(height) + 1
    {
      hide Here, HasKey, Stored, Became, Upsert, Full, Flat, Nodes, FlatAll, NodesAll, Rank, Apart, Within, Complete;
      Basics();
      var newRoot: Node;
      ghost var r, t': Tree;
      newRoot, r := RaiseRoot();
      Basics();
      ghost var s := store;
      t' := SplitRoot(newRoot, key, value, r, height + 1);
      Basics();
      BecameKeys(s, store, r, t');
      root := newRoot;
      tree := Some(t');
      height := height + 1;
    }

    /** insert, when the root is neither full nor missing and the key is new */
    method InsertBelow(key: nat, value: Value)
      requires Valid() && root != null && !Full(d, tree.value) && !HasKey(Contents(), key)
      modifies this, repr
      ensures Valid() && root != null && (forall o :: o in repr ==> o in old(repr) || fresh(o))
      ensures Contents() == Upsert(old(Contents()), key, value) && height == old(height)
    {
      hide Here, HasKey, Stored, Became, Upsert, Full, Flat, FlatAll, Nodes, NodesAll, Rank, Apart, Within, Complete;
      Basics();
      ghost var s, t := store, tree.value;
      ghost var t' := InsertNotFull(root, key, value, 1, t, height, [], []);
      Basics();
      BecameKeys(s, store, t, t');
      tree := Some(t');
    }

    /** update_if_found at the root */
    method UpdateBelow(key: nat, value: Value) returns (found: bool)
      requires Valid() && root != null
      modifies this, repr
      ensures Valid() && root == old(root) && repr == old(repr) && height == old(height)
              && found == HasKey(old(Contents()), key)
      ensures found ==> Contents() == Upsert(old(Contents()), key, value)
      ensures !found ==> tree == old(tree)
    {
      hide Here, HasKey, Stored, Became, Upsert, Flat, FlatAll, Nodes, NodesAll, Rank, Apart, Within, Complete;
      Basics();
      ghost var s, t, t' := store, tree.value, tree.value;
      found, t' := UpdateIfFound(root, key, value, 1, t, height, [], []);
      Basics();
      if found {
        BecameKeys(s, store, t, t');
        tree := Some(t');
      }
    }

    /** insert: the key's pair is put in, or its value replaced; only a full root that takes in a new key makes the tree
        higher. */
    method Insert(key: nat, value: Value)
      requires Valid()
      modifies this, repr
      ensures Valid() && root != null && (forall o :: o in repr ==> o in old(repr) || fresh(o))
      ensures Contents() == Upsert(old(Contents()), key, value)
      ensures height == if old(root) != null && !HasKey(old(Contents()), key) && Full(d, old(tree).value)
              then old(height) + 1
                        else if old(root) == null then 0 else old(height)
    {
      hide Here, HasKey, Stored, Flat, FlatAll, Nodes, NodesAll;
      if root == null {
        MakeFirst(key, value);
        return;
      }
      var updated := UpdateBelow(key, value);
      if updated {
        return;
      }
      HereBasics(store, d, 1, tree.value, height, [], []);
      NodeIs(tree.value);
      if root.nk == 2 * d - 1 {
        GrowRoot(key, value);
      } else {
        InsertBelow(key, value);
      }
    }

    /** update */
    method Update(key: nat, value: Value)
      requires Valid() && root != null
      modifies this, repr
      ensures Valid() && root != null && (forall o :: o in repr ==> o in old(repr) || fresh(o))
      ensures Contents() == Upsert(old(Contents()), key, value)
    {
      Insert(key, value);
    }

    /** read */
    method Read(key: nat) returns (r: Option<Value>)
      requires Valid() && root != null
      ensures r == Lookup(Contents(), key)
    {
      r := Search(root, key, 1, tree.value, height, [], []);
    }

    /** What every reachable tree satisfies: increasing keys, all leaves at one depth, every node but the root at least
        half full, each separator the smallest key right of it, no sharing, and the leaves chained from left to right.
     */
    lemma Shape()
      requires Valid() && root != null
      ensures Sorted(Contents()) && WellFormed(d, 1, tree.value, height) && Tidy(tree.value) && tree.value.node == root
      ensures Chained(store, Leaves(tree.value))
    {
      hide Stored, Chained, Models, Flat, Sorted, Tidy, Leaves;
      assert [] + Leaves(tree.value) + [] == Leaves(tree.value);
    }

    /** A tree with internal levels is as full as its height demands. */
    lemma HeightBound()
      requires Valid() && root != null && height >= 1
      ensures |Contents()| >= 2 * (d - 1) * Power(d, height - 1)
    {
      hide Stored, Chained, Models, Flat, Sorted, Tidy, Power;
      HeightIsLogarithmic(d, tree.value, height);
    }

    // ---------- scanning ----------

    /** The way down of scan: a separator equal to the key leads to the left of it. */
    method ScanLeaf(key: nat) returns (node: Node, ghost t: Tree, ghost pre: seq<Node>, ghost post: seq<Node>)
      requires Valid() && root != null
      ensures t.Leaf? && node == t.node && Chained(store, pre + [node] + post) && AllLeaves(store.body, post)
      ensures node in store.body && store.body[node] == BodyOf(t) && Sorted(Flat(t))
      ensures From(Contents(), key) == From(Flat(t), key) + LeafPairs(store.body, post)
    {
      hide Here, Stored, Sorted, Models, From, LeafPairs, LeadsTo, Flat, LeavesAll;
      ghost var h: nat, min: nat := height, 1;
      t := tree.value;
      pre, post := [], [];
      node := root;
      HereBasics(store, d, min, t, h, pre, post);
      NodeIs(t);
      LeafPairsNone(store.body);
      while !node.leaf
        invariant node == t.node && Here(store, d, min, t, h, pre, post) && AllLeaves(store.body, post)
        invariant t.node in store.body && store.body[t.node] == BodyOf(t) && node.leaf == t.Leaf?
        invariant From(Contents(), key) == From(Flat(t), key) + LeafPairs(store.body, post)
        decreases h
      {
        HereBasics(store, d, min, t, h, pre, post);
        NodeIs(t);
        var j := Position(node.entries, node.nk, key);
        ScanDown(store, d, min, t, h, pre, post, j, key);
        KidHere(store, d, min, t, h, pre, post, j);
        node := node.children[j];
        pre, post := pre + LeavesAll(t.kids[..j]), LeavesAll(t.kids[j + 1..]) + post;
        t, h, min := t.kids[j], h - 1, d - 1;
        HereBasics(store, d, min, t, h, pre, post);
        NodeIs(t);
      }
      HereChained(store, d, min, t, h, pre, post);
      HereBasics(store, d, min, t, h, pre, post);
    }

    /** The leaf and the entry where a scan from this key on begins. */
    method ScanStart(key: nat) returns (node: Node, i: nat, ghost pre: seq<Node>, ghost post: seq<Node>)
      requires Valid() && root != null
      ensures Chained(store, pre + [node] + post) && AllLeaves(store.body, [node] + post) && i <= |store.body[node].es|
      ensures From(Contents(), key) == store.body[node].es[i..] + LeafPairs(store.body, post)
    {
      hide Stored, Sorted, From, LeafPairs, Contents, Chained;
      ghost var t;
      node, t, pre, post := ScanLeaf(key);
      NodeIs(t);
      i := Position(node.entries, node.nk, key);
      assert forall x :: 0 <= x < |t.es| ==> node.entries[x] == node.entries[..|t.es|][x];
      LeafLookup(t.es, key, i);
    }

    /** A leaf of the chain shows its pairs and the leaf behind it. */
    lemma ChainAt(leaves: seq<Node>, k: nat)
      requires Stored() && Chained(store, leaves) && k < |leaves|
      ensures AllLeaves(store.body, leaves) && leaves[k].next == (if k + 1 < |leaves| then leaves[k + 1] else null)
      ensures leaves[k] in store.body && store.body[leaves[k]].LeafBody?
      ensures var es := store.body[leaves[k]].es;
              leaves[k].nk == |es| <= leaves[k].entries.Length && leaves[k].entries[..|es|] == es
    {
      hide Apart, Within, Backward, DistinctNodes;
      KeptNode(leaves[k]);
    }

    /** The forward part of scan. */
    method ScanOn(start: Node, i0: nat, len: int, result: seq<Pair>, ghost leaves: seq<Node>, ghost k0: nat)
        returns (r: seq<Pair>)
      requires Stored() && Chained(store, leaves) && AllLeaves(store.body, leaves) && k0 < |leaves|
               && start == leaves[k0] && i0 <= |store.body[start].es|
      ensures r == result + Yield(Ahead(store.body, leaves, k0, i0), len)
    {
      hide Stored, Chained, AllLeaves, Ahead, Yield;
      ghost var target, done, k := Ahead(store.body, leaves, k0, i0), [], k0;
      var current: Node?, i: nat, count: nat := start, i0, 0;
      r := result;
      ChainAt(leaves, k);
      while current != null
        invariant k <= |leaves| && current == (if k < |leaves| then leaves[k] else null) && (k == |leaves| ==> i == 0)
        invariant k < |leaves| ==>
                  leaves[k] in store.body && store.body[leaves[k]].LeafBody? && i <= |store.body[leaves[k]].es|
        invariant r == result + done && |done| == count && (len >= 1 ==> count < len)
        invariant target == done + Ahead(store.body, leaves, k, i)
        decreases |leaves| - k
      {
        ChainAt(leaves, k);
        while i < current.nk
          invariant i <= current.nk
          invariant r == result + done && |done| == count && (len >= 1 ==> count < len)
          invariant target == done + Ahead(store.body, leaves, k, i)
        {
          AheadEntry(store.body, leaves, k, i);
          assert current.entries[i] == current.entries[..|store.body[leaves[k]].es|][i];
          r := r + [current.entries[i]];
          done := done + [current.entries[i]];
          assert target == done + Ahead(store.body, leaves, k, i + 1);
          count := count + 1;
          if count == len {
            YieldIs(done, Ahead(store.body, leaves, k, i + 1), len);
            return;
          }
          i := i + 1;
        }
        AheadNext(store.body, leaves, k);
        current := current.next;
        i := 0;
        k := k + 1;
        if k < |leaves| {
          ChainAt(leaves, k);
        }
      }
      AheadNone(store.body, leaves);
      YieldIs(done, [], len);
    }

    /** scan */
    method Scan(key: nat, len: int, result: seq<Pair>) returns (r: seq<Pair>)
      requires Valid() && root != null
      ensures r == result + Yield(From(Contents(), key), len)
    {
      hide Here, Stored, Chained, AllLeaves, From, Yield, LeafPairs;
      var node: Node;
      var i: nat;
      ghost var pre, post: seq<Node>;
      node, i, pre, post := ScanStart(key);
      ScanFrom(store, pre, node, post, i);
      r := ScanOn(node, i, len, result, pre + [node] + post, |pre|);
    }
  }
}
