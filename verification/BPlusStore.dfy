/** What the nodes of a B+ tree hold and how they are chained, as values; what a split changes. */
module BPlusStore {
  import opened Pairs
  import opened BPlusShape

  /** What a node holds. */
  datatype Body = LeafBody(es: seq<Pair>) | InnerBody(keys: seq<nat>, kids: seq<Node>)

  /** All nodes of the tree, with what they hold and how the leaves are chained. */
  datatype Store = Store(body: map<Node, Body>, next: map<Node, Node?>, previous: map<Node, Node?>)

  ghost function BodyOf(t: Tree): Body {
    match t
    case Leaf(_, es) => LeafBody(es)
    case Inner(_, keys, kids) => InnerBody(keys, NodesOf(kids))
  }

  ghost function NodesOf(kids: seq<Tree>): (ns: seq<Node>)
    ensures |ns| == |kids| && forall i :: 0 <= i < |kids| ==> ns[i] == kids[i].node
  {
    seq(|kids|, i requires 0 <= i < |kids| => kids[i].node)
  }

  /** The nodes of `t` hold what `t` says. */
  ghost predicate Models(body: map<Node, Body>, t: Tree)
    decreases t, 1
  {
    t.node in body && body[t.node] == BodyOf(t) && (t.Inner? ==> ModelsAll(body, t.kids))
  }

  ghost predicate ModelsAll(body: map<Node, Body>, kids: seq<Tree>)
    decreases kids, 0
  {
    kids == [] || (Models(body, kids[0]) && ModelsAll(body, kids[1..]))
  }

  lemma {:induction false} ModelsEach(body: map<Node, Body>, kids: seq<Tree>)
    ensures ModelsAll(body, kids) <==> forall i :: 0 <= i < |kids| ==> Models(body, kids[i])
  {
    if kids != [] {
      ModelsEach(body, kids[1..]);
      if ModelsAll(body, kids) {
        assert forall i :: 1 <= i < |kids| ==> kids[i] == kids[1..][i - 1];
      } else if Models(body, kids[0]) {
        var i :| 0 <= i < |kids| - 1 && !Models(body, kids[1..][i]);
        assert !Models(body, kids[i + 1]);
      }
    }
  }

  lemma {:induction false} ModelsNodes(body: map<Node, Body>, t: Tree)
    requires Models(body, t)
    ensures Nodes(t) <= body.Keys
    decreases t, 1
  {
    if t.Inner? {
      ModelsNodesAll(body, t.kids);
    }
  }

  lemma {:induction false} ModelsNodesAll(body: map<Node, Body>, kids: seq<Tree>)
    requires ModelsAll(body, kids)
    ensures NodesAll(kids) <= body.Keys
    decreases kids, 0
  {
    if kids != [] {
      ModelsNodes(body, kids[0]);
      ModelsNodesAll(body, kids[1..]);
    }
  }

  /** The two stores say the same about these nodes. */
  ghost predicate Agree(a: map<Node, Body>, b: map<Node, Body>, ns: set<Node>) {
    forall n :: n in ns && n in a ==> n in b && a[n] == b[n]
  }

  lemma {:induction false} ModelsSame(a: map<Node, Body>, b: map<Node, Body>, t: Tree)
    requires Models(a, t) && Agree(a, b, Nodes(t))
    ensures Models(b, t)
    decreases t, 1
  {
    if t.Inner? {
      ModelsSameAll(a, b, t.kids);
    }
  }

  lemma {:induction false} ModelsSameAll(a: map<Node, Body>, b: map<Node, Body>, kids: seq<Tree>)
    requires ModelsAll(a, kids) && Agree(a, b, NodesAll(kids))
    ensures ModelsAll(b, kids)
    decreases kids, 0
  {
    if kids != [] {
      ModelsSame(a, b, kids[0]);
      ModelsSameAll(a, b, kids[1..]);
    }
  }

  /** These leaves are chained in this order ... */
  ghost predicate Forward(next: map<Node, Node?>, leaves: seq<Node>) {
    forall i {:trigger leaves[i]} :: 0 <= i < |leaves| ==>
      leaves[i] in next && next[leaves[i]] == if i + 1 < |leaves| then leaves[i + 1] else null
  }

  /** ... and in the other direction. */
  ghost predicate Backward(previous: map<Node, Node?>, leaves: seq<Node>) {
    forall i {:trigger leaves[i]} :: 0 <= i < |leaves| ==>
      leaves[i] in previous && previous[leaves[i]] == if i > 0 then leaves[i - 1] else null
  }

  ghost predicate AllLeaves(body: map<Node, Body>, leaves: seq<Node>) {
    forall l :: l in leaves ==> l in body && body[l].LeafBody?
  }

  /** These are leaves, each once, chained in this order. */
  ghost predicate Chained(s: Store, leaves: seq<Node>) {
    DistinctNodes(leaves) && AllLeaves(s.body, leaves) && Forward(s.next, leaves) && Backward(s.previous, leaves)
  }

  ghost predicate DistinctNodes(leaves: seq<Node>) {
    forall i, j :: 0 <= i < j < |leaves| ==> leaves[i] != leaves[j]
  }

  ghost function Inserted(leaves: seq<Node>, i: nat, x: Node): (l: seq<Node>)
    requires i < |leaves|
    ensures |l| == |leaves| + 1
    ensures forall k {:trigger l[k]} :: 0 <= k < |l| ==>
            l[k] == if k <= i then leaves[k] else if k == i + 1 then x else leaves[k - 1]
  {
    leaves[..i + 1] + [x] + leaves[i + 1..]
  }

  lemma ForwardInserted(next: map<Node, Node?>, leaves: seq<Node>, i: nat, x: Node)
    requires Forward(next, leaves) && DistinctNodes(leaves) && i < |leaves| && forall j :: 0 <= j < |leaves| ==>
             leaves[j] != x
    ensures leaves[i] in next && Forward(next[x := next[leaves[i]]][leaves[i] := x], Inserted(leaves, i, x))
  {
    hide Inserted;
    var l, t := Inserted(leaves, i, x), next[x := next[leaves[i]]][leaves[i] := x];
    forall k | 0 <= k < |l|
      ensures l[k] in t && t[l[k]] == if k + 1 < |l| then l[k + 1] else null
    {
      if k < i {
        assert leaves[k] != leaves[i] && leaves[k] != x && l[k + 1] == leaves[k + 1];
      } else if k == i {
        assert l[k + 1] == x;
      } else if k == i + 1 {
        assert leaves[i] != x && t[x] == next[leaves[i]];
        assert k + 1 < |l| ==> l[k + 1] == leaves[k];
      } else {
        assert leaves[k - 1] != leaves[i] && leaves[k - 1] != x;
        assert k + 1 < |l| ==> l[k + 1] == leaves[k];
      }
    }
  }

  lemma BackwardInserted(previous: map<Node, Node?>, leaves: seq<Node>, i: nat, x: Node)
    requires Backward(previous, leaves) && DistinctNodes(leaves) && i < |leaves| && forall j :: 0 <= j < |leaves| ==>
             leaves[j] != x
    ensures Backward((if i + 1 < |leaves| then previous[leaves[i + 1] := x] else previous)[x := leaves[i]],
            Inserted(leaves, i, x))
  {
    hide Inserted;
    var l := Inserted(leaves, i, x);
    var t := (if i + 1 < |leaves| then previous[leaves[i + 1] := x] else previous)[x := leaves[i]];
    forall k | 0 <= k < |l|
      ensures l[k] in t && t[l[k]] == if k > 0 then l[k - 1] else null
    {
      if k <= i {
        assert leaves[k] != x && (i + 1 < |leaves| ==> leaves[k] != leaves[i + 1]);
        assert k > 0 ==> l[k - 1] == leaves[k - 1];
      } else if k == i + 1 {
        assert l[k - 1] == leaves[i];
      } else if k == i + 2 {
        assert l[k] == leaves[i + 1] && l[k - 1] == x && leaves[i + 1] != x;
      } else {
        assert l[k] == leaves[k - 1] && l[k - 1] == leaves[k - 2];
        assert leaves[k - 1] != leaves[i + 1] && leaves[k - 1] != x;
      }
    }
  }

  lemma InsertedDistinct(leaves: seq<Node>, i: nat, x: Node, l: seq<Node>)
    requires DistinctNodes(leaves) && i < |leaves| && (forall j :: 0 <= j < |leaves| ==> leaves[j] != x)
    requires |l| == |leaves| + 1
    requires forall k {:trigger l[k]} :: 0 <= k < |l| ==>
             l[k] == if k <= i then leaves[k] else if k == i + 1 then x else leaves[k - 1]
    ensures DistinctNodes(l)
  {
    forall j, k | 0 <= j < k < |l|
      ensures l[j] != l[k]
    {
      var j', k' := if j <= i then j else j - 1, if k <= i then k else k - 1;
      if j == i + 1 {
        assert l[j] == x && l[k] == leaves[k'];
      } else if k == i + 1 {
        assert l[k] == x && l[j] == leaves[j'];
      } else {
        assert l[j] == leaves[j'] && l[k] == leaves[k'] && j' < k';
      }
    }
  }

  // ---------- what a split does to the store ----------

  ghost predicate FullBody(d: nat, b: Body) {
    match b
    case LeafBody(es) => |es| == 2 * d - 1
    case InnerBody(keys, kids) => |keys| == 2 * d - 1 && |kids| == 2 * d
  }

  ghost function LowerHalf(d: nat, b: Body): Body
    requires d >= 2 && FullBody(d, b)
  {
    match b
    case LeafBody(es) => LeafBody(es[..d - 1])
    case InnerBody(keys, kids) => InnerBody(keys[..d - 1], kids[..d])
  }

  ghost function UpperHalf(d: nat, b: Body): Body
    requires d >= 2 && FullBody(d, b)
  {
    match b
    case LeafBody(es) => LeafBody(es[d - 1..])
    case InnerBody(keys, kids) => InnerBody(keys[d..], kids[d..])
  }

  ghost function MiddleKey(d: nat, b: Body): nat
    requires d >= 2 && FullBody(d, b)
  {
    match b
    case LeafBody(es) => es[d - 1].key
    case InnerBody(keys, _) => keys[d - 1]
  }

  ghost predicate RoomAt(d: nat, b: Body, idx: nat) {
    b.InnerBody? && |b.keys| + 1 < 2 * d && |b.kids| == |b.keys| + 1 && idx <= |b.keys|
  }

  /** The parent's body with a separator at `idx` and a child to the right of it. */
  ghost function WithChild(d: nat, b: Body, idx: nat, sep: nat, sibling: Node): Body
    requires RoomAt(d, b, idx)
  {
    InnerBody(b.keys[..idx] + [sep] + b.keys[idx..], b.kids[..idx + 1] + [sibling] + b.kids[idx + 1..])
  }

  lemma WithChildAt(d: nat, b: Body, idx: nat, sep: nat, sibling: Node)
    requires RoomAt(d, b, idx)
    ensures var w := WithChild(d, b, idx, sep, sibling);
            && w.InnerBody? && |w.keys| == |b.keys| + 1 && |w.kids| == |b.kids| + 1
            && (forall i {:trigger w.keys[i]} :: 0 <= i < |w.keys| ==>
                 w.keys[i] == if i < idx then b.keys[i] else if i == idx then sep else b.keys[i - 1])
            && (forall i {:trigger w.kids[i]} :: 0 <= i < |w.kids| ==>
                 w.kids[i] == if i <= idx then b.kids[i] else if i == idx + 1 then sibling else b.kids[i - 1])
  {
  }

  ghost function SplitBody(s: map<Node, Body>, d: nat, idx: nat, parent: Node, child: Node, sibling: Node): map<Node,
      Body>
    requires parent in s && child in s && d >= 2 && FullBody(d, s[child]) && RoomAt(d, s[parent], idx)
  {
    s[child := LowerHalf(d, s[child])][sibling := UpperHalf(d, s[child])]
     [parent := WithChild(d, s[parent], idx, MiddleKey(d, s[child]), sibling)]
  }

  /** The store after an inner child was split. */
  ghost function SplitInnerStore(s: Store, d: nat, idx: nat, parent: Node, child: Node, sibling: Node): Store
    requires parent in s.body && child in s.body && d >= 2 && FullBody(d, s.body[child])
             && RoomAt(d, s.body[parent], idx)
  {
    Store(SplitBody(s.body, d, idx, parent, child, sibling), s.next[sibling := null], s.previous[sibling := null])
  }

  ghost predicate Complete(s: Store) {
    s.next.Keys == s.body.Keys == s.previous.Keys
  }

  /** The stores say the same about all but these nodes. */
  ghost predicate SameRecord(s: Store, u: Store, touched: set<Node>)
    requires Complete(s) && Complete(u)
  {
    forall n :: n in u.body && n !in touched ==>
        n in s.body && u.body[n] == s.body[n] && u.next[n] == s.next[n] && u.previous[n] == s.previous[n]
  }

  lemma SplitInnerRecord(s: Store, d: nat, idx: nat, parent: Node, child: Node, sibling: Node)
    requires Complete(s) && parent in s.body && child in s.body && parent != child && sibling !in s.body
    requires d >= 2 && FullBody(d, s.body[child]) && RoomAt(d, s.body[parent], idx)
    ensures var u := SplitInnerStore(s, d, idx, parent, child, sibling);
            && Complete(u) && SameRecord(s, u, {parent, child, sibling}) && u.body.Keys == s.body.Keys + {sibling}
            && u.body[child] == LowerHalf(d, s.body[child]) && u.body[sibling] == UpperHalf(d, s.body[child])
            && u.body[parent] == WithChild(d, s.body[parent], idx, MiddleKey(d, s.body[child]), sibling)
            && u.next[child] == s.next[child] && u.previous[child] == s.previous[child]
                 && u.next[sibling] == u.previous[sibling] == null
            && u.next[parent] == s.next[parent] && u.previous[parent] == s.previous[parent]
  {
    hide LowerHalf, UpperHalf, WithChild, MiddleKey, FullBody, RoomAt;
  }

  /** The store after a leaf was split: the sibling is chained in behind the child. */
  ghost function SplitLeafStore(s: Store, d: nat, idx: nat, parent: Node, child: Node, sibling: Node): Store
    requires parent in s.body && child in s.body && d >= 2 && FullBody(d, s.body[child])
             && RoomAt(d, s.body[parent], idx) && child in s.next
  {
    var nx := s.next[child];
    Store(SplitBody(s.body, d, idx, parent, child, sibling),
          s.next[sibling := nx][child := sibling],
          (if nx == null then s.previous else s.previous[nx := sibling])[sibling := child])
  }

  ghost function AlsoNext(ns: set<Node>, nx: Node?): set<Node> {
    if nx == null then ns else ns + {nx}
  }

  /** The leaf behind `child`, if there is one, is another leaf of the tree. */
  ghost predicate NextIsLeaf(s: Store, child: Node)
    requires child in s.next
  {
    var nx := s.next[child];
    nx != null ==> nx != child && nx in s.body && s.body[nx].LeafBody?
  }

  lemma SplitLeafRecord(s: Store, d: nat, idx: nat, parent: Node, child: Node, sibling: Node)
    requires Complete(s) && parent in s.body && child in s.body && parent != child && sibling !in s.body
             && NextIsLeaf(s, child)
    requires d >= 2 && FullBody(d, s.body[child]) && RoomAt(d, s.body[parent], idx) && s.body[parent].InnerBody?
    ensures var u, nx := SplitLeafStore(s, d, idx, parent, child, sibling), s.next[child];
            && Complete(u) && SameRecord(s, u, AlsoNext({parent, child, sibling}, nx))
                 && u.body.Keys == s.body.Keys + {sibling}
            && u.body[child] == LowerHalf(d, s.body[child]) && u.body[sibling] == UpperHalf(d, s.body[child])
            && u.body[parent] == WithChild(d, s.body[parent], idx, MiddleKey(d, s.body[child]), sibling)
            && u.next[child] == sibling && u.previous[child] == s.previous[child] && u.next[sibling] == nx
                 && u.previous[sibling] == child
            && u.next[parent] == s.next[parent] && u.previous[parent] == s.previous[parent]
            && (nx != null ==> u.body[nx] == s.body[nx] && u.next[nx] == s.next[nx] && u.previous[nx] == sibling)
  {
    hide LowerHalf, UpperHalf, WithChild, MiddleKey, FullBody, RoomAt;
  }

  ghost predicate CanSplit(s: Store, d: nat, idx: nat, parent: Node, child: Node) {
    && parent in s.body && child in s.body && parent != child && child in s.next
    && d >= 2 && FullBody(d, s.body[child]) && RoomAt(d, s.body[parent], idx) && s.body[parent].InnerBody?
    && (s.body[child].LeafBody? ==> NextIsLeaf(s, child))
  }

  ghost function SplitStore(s: Store, d: nat, idx: nat, parent: Node, child: Node, sibling: Node): Store
    requires CanSplit(s, d, idx, parent, child)
  {
    if s.body[child].LeafBody? then SplitLeafStore(s, d, idx, parent, child, sibling)
        else SplitInnerStore(s, d, idx, parent, child, sibling)
  }

  lemma SplitRecord(s: Store, d: nat, idx: nat, parent: Node, child: Node, sibling: Node)
    requires Complete(s) && CanSplit(s, d, idx, parent, child) && sibling !in s.body
    ensures var u := SplitStore(s, d, idx, parent, child, sibling);
            && Complete(u) && u.body.Keys == s.body.Keys + {sibling}
            && forall n :: n in s.body && n != parent && n != child ==> u.body[n] == s.body[n]
  {
    hide LowerHalf, UpperHalf, WithChild, MiddleKey, FullBody, RoomAt, SplitLeafStore, SplitInnerStore;
    if s.body[child].LeafBody? {
      SplitLeafRecord(s, d, idx, parent, child, sibling);
    } else {
      SplitInnerRecord(s, d, idx, parent, child, sibling);
    }
  }

  /** No two nodes share an array. */
  ghost predicate Apart(ns: set<Node>) {
    forall n, o :: n in ns && o in ns && n != o ==> n.entries != o.entries && n.children != o.children
  }

  ghost predicate Within(ns: set<Node>, repr: set<object>) {
    forall n :: n in ns ==> n in repr && n.entries in repr && n.children in repr
  }

  /** A new node with new arrays joins. */
  lemma Join(ns: set<Node>, repr: set<object>, s: Node)
    requires Apart(ns) && Within(ns, repr) && s !in repr && s.entries !in repr && s.children !in repr
    ensures s !in ns && Apart(ns + {s}) && Within(ns + {s}, repr + {s, s.entries, s.children})
  {
  }
}
