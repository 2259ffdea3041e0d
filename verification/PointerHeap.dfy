/**
 The binary heap of `heap-inl.h`: nodes that know their children and their parent, and no
 array.  The ghost sequence of nodes in level order, children of `i` at `2i + 1` and `2i + 2`,
 says what the links have to be.
 */
module PointerHeap {

  class Node<K> {
    var left: Node?<K>
    var right: Node?<K>
    var parent: Node?<K>
    /** What the enclosing structure is compared by. */
    var key: K

    constructor (k: K)
      ensures key == k
    {
      left, right, parent := null, null, null;
      key := k;
    }
  }

  function At<K>(ns: seq<Node<K>>, i: int): Node?<K> {
    if 0 <= i < |ns| then ns[i] else null
  }

  function Up(i: nat): int { (i - 1) / 2 }

  predicate LinkedAt<K>(ns: seq<Node<K>>, i: nat)
    requires i < |ns|
    reads ns[i]
  {
    ns[i].left == At(ns, 2 * i + 1) && ns[i].right == At(ns, 2 * i + 2) &&
    ns[i].parent == if i == 0 then null else At(ns, Up(i))
  }

  ghost predicate Distinct<K>(ns: seq<Node<K>>) {
    forall i, j :: 0 <= i < j < |ns| ==> ns[i] != ns[j]
  }

  /** The links of all nodes are those of the complete tree in level order. */
  ghost predicate Linked<K>(ns: seq<Node<K>>)
    reads ns
  {
    Distinct(ns) && forall i :: 0 <= i < |ns| ==> LinkedAt(ns, i)
  }

  /** The three links of a node. */
  datatype Links<K> = Links(left: Node?<K>, right: Node?<K>, parent: Node?<K>)

  ghost function LinksOf<K>(ns: seq<Node<K>>): map<Node<K>, Links<K>>
    reads ns
  {
    map n | n in ns :: Links(n.left, n.right, n.parent)
  }

  /** The links that belong to place `i`. */
  ghost function LinksAt<K>(ns: seq<Node<K>>, i: nat): Links<K> {
    Links(At(ns, 2 * i + 1), At(ns, 2 * i + 2), if i == 0 then null else At(ns, Up(i)))
  }

  ghost predicate Placed<K>(l: map<Node<K>, Links<K>>, ns: seq<Node<K>>) {
    Distinct(ns) && forall i :: 0 <= i < |ns| ==> PlacedAt(l, ns, i)
  }

  ghost predicate PlacedAt<K>(l: map<Node<K>, Links<K>>, ns: seq<Node<K>>, i: nat) {
    i < |ns| && ns[i] in l && l[ns[i]] == LinksAt(ns, i)
  }

  function Exchanged<K>(ns: seq<Node<K>>, p: nat, c: nat): seq<Node<K>>
    requires p < |ns| && c < |ns|
  {
    ns[p := ns[c]][c := ns[p]]
  }

  lemma InOrder<K>(ns: seq<Node<K>>)
    requires Distinct(ns)
    ensures forall i, j :: 0 <= i < |ns| && 0 <= j < |ns| ==> (ns[i] == ns[j] <==> i == j)
  {
  }

  // ---- The path from the root to a place ----

  /** The place reached from place `m` (counted from one) by the `k` low bits of `path`, the lowest
      first: a set bit goes right. */
  function Walk(m: nat, path: nat, k: nat): nat
    decreases k
  {
    if k == 0 then m else Walk(2 * m + path % 2, path / 2, k - 1)
  }

  lemma {:induction false} WalkGrows(m: nat, path: nat, k: nat)
    requires m > 0
    ensures Walk(m, path, k) >= m && (k > 0 ==> Walk(m, path, k) >= 2 * m)
    decreases k
  {
    if k > 0 { WalkGrows(2 * m + path % 2, path / 2, k - 1); }
  }

  /** The bits of `n` under its leading one, in the order they are met on the way down. */
  method PathTo(n0: nat) returns (path: nat, k: nat)
    requires n0 >= 1
    ensures Walk(1, path, k) == n0
  {
    path, k := 0, 0;
    var n := n0;
    while n >= 2
      invariant n >= 1 && Walk(n, path, k) == n0
    {
      assert n == 2 * (n / 2) + n % 2 && (path * 2 + n % 2) % 2 == n % 2 && (path * 2 + n % 2) / 2 == path;
      path := path * 2 + n % 2;
      k := k + 1;
      n := n / 2;
    }
  }

  // ---- Order ----

  ghost predicate StrictWeak<K(!new)>(lt: (K, K) -> bool) {
    && (forall a, b :: lt(a, b) ==> !lt(b, a))
    && (forall a, b, c :: lt(a, b) && lt(b, c) ==> lt(a, c))
    && (forall a, b, c :: !lt(a, b) && !lt(b, c) ==> !lt(a, c))
  }

  ghost function Keys<K>(ns: seq<Node<K>>): seq<K>
    reads ns
  {
    seq(|ns|, i requires 0 <= i < |ns| reads ns => ns[i].key)
  }

  /** No key is less than its parent's. */
  ghost predicate InHeapOrder<K>(lt: (K, K) -> bool, ks: seq<K>) {
    forall i :: 0 < i < |ks| ==> !lt(ks[i], ks[Up(i)])
  }

  /** The same, apart from the key at `x`, which may be too small for its parent and, if `down`,
      too large for its children; the children are not too small for the parent. */
  ghost predicate OrderBut<K>(lt: (K, K) -> bool, ks: seq<K>, x: nat, down: bool) {
    && (forall i :: 0 < i < |ks| && i != x && !(down && Up(i) == x) ==> !lt(ks[i], ks[Up(i)]))
    && (forall i :: 0 < i < |ks| && Up(i) == x && x > 0 ==> !lt(ks[i], ks[Up(x)]))
  }

  function Traded<K>(ks: seq<K>, p: nat, c: nat): seq<K>
    requires p < |ks| && c < |ks|
  {
    ks[p := ks[c]][c := ks[p]]
  }

  /** A key that is less than its parent's trades places with it. */
  lemma StepUp<K(!new)>(lt: (K, K) -> bool, ks: seq<K>, x: nat)
    requires StrictWeak(lt) && 0 < x < |ks| && OrderBut(lt, ks, x, false) && lt(ks[x], ks[Up(x)])
    ensures OrderBut(lt, Traded(ks, Up(x), x), Up(x), false)
  {
    var p := Up(x);
    var js := Traded(ks, p, x);
    forall i | 0 < i < |js| && i != p ensures !lt(js[i], js[Up(i)]) {
      if i == x {
      } else if Up(i) == x {
        assert !lt(ks[i], ks[p]);
      } else if Up(i) == p {
        assert !lt(ks[i], ks[p]);
      } else {
        assert !lt(ks[i], ks[Up(i)]);
      }
    }
    forall i | 0 < i < |js| && Up(i) == p && p > 0 ensures !lt(js[i], js[Up(p)]) {
      assert !lt(ks[p], ks[Up(p)]);
      if i != x { assert !lt(ks[i], ks[p]); }
    }
  }

  /** A key trades places with its least child, which is less than it. */
  lemma StepDown<K(!new)>(lt: (K, K) -> bool, ks: seq<K>, x: nat, c: nat)
    requires StrictWeak(lt) && x < c < |ks| && Up(c) == x && OrderBut(lt, ks, x, true) && lt(ks[c], ks[x])
    requires forall i :: 0 < i < |ks| && Up(i) == x ==> !lt(ks[i], ks[c])
    ensures OrderBut(lt, Traded(ks, x, c), c, true)
  {
    var js := Traded(ks, x, c);
    forall i | 0 < i < |js| && i != c && Up(i) != c ensures !lt(js[i], js[Up(i)]) {
      if i == x {
        assert !lt(ks[c], ks[Up(x)]);
      } else if Up(i) == x {
      } else {
        assert !lt(ks[i], ks[Up(i)]);
      }
    }
    forall i | 0 < i < |js| && Up(i) == c ensures !lt(js[i], js[x]) {
      assert !lt(ks[i], ks[c]);
    }
  }

  lemma Settled<K>(lt: (K, K) -> bool, ks: seq<K>, x: nat)
    requires x < |ks| && OrderBut(lt, ks, x, false) && (x > 0 ==> !lt(ks[x], ks[Up(x)]))
    ensures InHeapOrder(lt, ks)
  {
  }

  lemma DownSettled<K>(lt: (K, K) -> bool, ks: seq<K>, x: nat)
    requires x < |ks| && OrderBut(lt, ks, x, true) && forall i :: 0 < i < |ks| && Up(i) == x ==> !lt(ks[i], ks[x])
    ensures OrderBut(lt, ks, x, false)
  {
  }

  /** The first key is a least one. */
  lemma {:induction false} FirstLeast<K(!new)>(lt: (K, K) -> bool, ks: seq<K>, i: nat)
    requires StrictWeak(lt) && InHeapOrder(lt, ks) && i < |ks|
    ensures !lt(ks[i], ks[0])
    decreases i
  {
    if i > 0 {
      FirstLeast(lt, ks, Up(i));
    }
  }

  lemma TradedKeys<K>(ns: seq<Node<K>>, p: nat, c: nat)
    requires p < |ns| && c < |ns|
    ensures Keys(Exchanged(ns, p, c)) == Traded(Keys(ns), p, c)
  {
  }

  class Heap<K(!new)> {
    var min: Node?<K>
    var nelts: nat
    const lt: (K, K) -> bool

    /** The nodes in level order. */
    ghost var ns: seq<Node<K>>

    ghost predicate Shape()
      reads this, ns
    {
      Linked(ns) && min == At(ns, 0) && nelts == |ns|
    }

    constructor (less: (K, K) -> bool)
      ensures Shape() && ns == [] && lt == less
    {
      min, nelts, ns, lt := null, 0, [], less;
    }

    /** Swaps a node with one of its children; only links change. */
    method Swap(parent: Node<K>, child: Node<K>, ghost p: nat, ghost c: nat)
      requires Shape() && p < c < |ns| && Up(c) == p && ns[p] == parent && ns[c] == child
      modifies this`min, this`ns, ns
      ensures Shape() && ns == Exchanged(old(ns), p, c)
      ensures Keys(ns) == Traded(old(Keys(ns)), p, c) && Same(old(ns), ns)
      ensures forall n :: n in old(ns) ==> n.key == old(n.key)
    {
      hide FamilyOf, Placed, Linked, Exchanged, IsFamily, Distinct, SwapsLinks, LinksOf, Traded, Same;
      ghost var f, l, ks := FamilyOf(ns, p, c), LinksOf(ns), Keys(ns);
      FamilyHere(ns, p, c);
      FirstStays(ns, p, c);
      Around(ns, p, c);
      LinkedPlaced(ns);
      LinkedDistinct(ns);
      SwapFamily(parent, child, f, ns);
      Relinked(l, LinksOf(ns), ns, p, c, Exchanged(ns, p, c));
      StillDistinct(ns, p, c);
      SameLinks(ns, Exchanged(ns, p, c));
      assert Keys(ns) == ks;
      TradedKeys(ns, p, c);
      ns := Exchanged(ns, p, c);
      PlacedLinked(ns);
    }

    method SwapFamily(parent: Node<K>, child: Node<K>, ghost f: Family<K>, ghost ms: seq<Node<K>>)
      requires f.parent == parent && f.child == child && IsFamily(f) && (min == parent <==> f.top == null)
      requires Inside(f, ms)
      modifies this`min, ms
      ensures min == if f.top == null then child else old(min)
      ensures SwapsLinks(f, old(LinksOf(ms)), LinksOf(ms), ms)
      ensures forall n :: n in ms ==> n.key == old(n.key)
    {
      SwapLinks(parent, child, f);
    }

    /** The links that a swap sets, the family of the two nodes being known. */
    method SwapLinks(parent: Node<K>, child: Node<K>, ghost f: Family<K>)
      requires f.parent == parent && f.child == child && IsFamily(f) && (min == parent <==> f.top == null)
      modifies this`min, f.parent, f.child, f.sibling, f.left, f.right, f.top
      ensures min == if f.top == null then child else old(min)
      ensures parent.left == f.left && parent.right == f.right && parent.parent == child
      ensures child.left == (if f.leftmost then parent else f.sibling) &&
        child.right == (if f.leftmost then f.sibling else parent)
      ensures child.parent == f.top && parent.key == old(parent.key) && child.key == old(child.key)
      ensures f.sibling != null ==> f.sibling.parent == child && Kept(f.sibling)
      ensures f.left != null ==> f.left.parent == parent && Kept(f.left)
      ensures f.right != null ==> f.right.parent == parent && Kept(f.right)
      ensures f.top != null ==> f.top.parent == old(f.top.parent) && f.top.key == old(f.top.key)
      ensures f.top != null ==> f.top.left == if f.lefttop then child else old(f.top.left)
      ensures f.top != null ==> f.top.right == if f.lefttop then old(f.top.right) else child
    {
      var sibling := SwapOwn(parent, child, f);
      Reparent(parent, child, sibling, f);
      Retop(parent, child, f);
    }

    /** The two nodes exchange their own links. */
    method SwapOwn(parent: Node<K>, child: Node<K>, ghost f: Family<K>) returns (sibling: Node?<K>)
      requires f.parent == parent && f.child == child && IsFamily(f)
      modifies parent, child
      ensures sibling == f.sibling
      ensures parent.left == f.left && parent.right == f.right && parent.parent == child
      ensures child.left == (if f.leftmost then parent else f.sibling) &&
        child.right == (if f.leftmost then f.sibling else parent)
      ensures child.parent == f.top && parent.key == old(parent.key) && child.key == old(child.key)
    {
      var left, right, top := parent.left, parent.right, parent.parent;
      parent.left, parent.right, parent.parent := child.left, child.right, child.parent;
      child.left, child.right, child.parent := left, right, top;
      parent.parent := child;
      if child.left == child {
        child.left := parent;
        sibling := child.right;
      } else {
        child.right := parent;
        sibling := child.left;
      }
    }

    /** The nodes below learn who is above them. */
    method Reparent(parent: Node<K>, child: Node<K>, sibling: Node?<K>, ghost f: Family<K>)
      requires Apart(f) && f.parent == parent && sibling == f.sibling && parent.left == f.left &&
        parent.right == f.right
      modifies f.sibling, f.left, f.right
      ensures f.sibling != null ==> f.sibling.parent == child && Kept(f.sibling)
      ensures f.left != null ==> f.left.parent == parent && Kept(f.left)
      ensures f.right != null ==> f.right.parent == parent && Kept(f.right)
    {
      if sibling != null { sibling.parent := child; }
      if parent.left != null { parent.left.parent := parent; }
      if parent.right != null { parent.right.parent := parent; }
    }

    /** The node above, or the heap, learns who is below. */
    method Retop(parent: Node<K>, child: Node<K>, ghost f: Family<K>)
      requires f.top == child.parent && f.top != child
      requires f.top != null ==>
        (if f.lefttop then f.top.left else f.top.right) == parent && (!f.lefttop ==> f.top.left != parent)
      modifies this`min, f.top
      ensures min == if f.top == null then child else old(min)
      ensures f.top != null ==> f.top.parent == old(f.top.parent) && f.top.key == old(f.top.key)
      ensures f.top != null ==> f.top.left == if f.lefttop then child else old(f.top.left)
      ensures f.top != null ==> f.top.right == if f.lefttop then old(f.top.right) else child
    {
      if child.parent == null {
        min := child;
      } else if child.parent.left == parent {
        child.parent.left := child;
      } else {
        child.parent.right := child;
      }
    }

    /** What every operation keeps. */
    ghost predicate Valid()
      reads this, ns
    {
      StrictWeak(lt) && Shape() && InHeapOrder(lt, Keys(ns))
    }

    /** The node at the root is a least one. */
    lemma MinIsLeast(n: Node<K>)
      requires Valid() && n in ns
      ensures min != null && min in ns && !lt(n.key, min.key)
    {
      var i :| 0 <= i < |ns| && ns[i] == n;
      FirstLeast(lt, Keys(ns), i);
      assert Keys(ns)[i] == n.key && Keys(ns)[0] == min.key;
    }

    /** Lets a node rise while it is less than its parent. */
    method SiftUp(node: Node<K>, ghost x0: nat)
      requires StrictWeak(lt) && Shape() && x0 < |ns| && ns[x0] == node && OrderBut(lt, Keys(ns), x0, false)
      modifies this`min, this`ns, ns
      ensures Valid() && Same(old(ns), ns)
      ensures forall n :: n in old(ns) ==> n.key == old(n.key)
    {
      hide Linked, OrderBut, InHeapOrder, StrictWeak, Exchanged, Keys, Same;
      ghost var x: nat := x0;
      ParentAt(ns, x);
      SameAll(ns);
      while node.parent != null && lt(node.key, node.parent.key)
        invariant Shape() && x < |ns| && ns[x] == node && OrderBut(lt, Keys(ns), x, false) && Same(old(ns), ns)
        invariant node.parent == if x == 0 then null else At(ns, Up(x))
        invariant forall n :: n in old(ns) ==> n.key == old(n.key)
        decreases x
      {
        ghost var p, ms := Up(x), ns;
        KeysAt(ns, x);
        KeysAt(ns, p);
        StepUp(lt, Keys(ns), x);
        SameMembers(old(ns), ns);
        assert forall i :: 0 <= i < |ns| ==> ns[i] in old(ns);
        assert forall n: object :: n in ns ==> n in old(ns);
        Swap(node.parent, node, p, x);
        SameTwice(old(ns), ms, ns);
        ExchangedAt(ms, p, x);
        x := p;
        ParentAt(ns, x);
      }
      KeysAt(ns, x);
      if x > 0 { KeysAt(ns, Up(x)); }
      Settled(lt, Keys(ns), x);
    }

    /** Lets a node sink while one of its children is less than it. */
    method SiftDown(child: Node<K>, ghost x0: nat) returns (ghost x: nat)
      requires StrictWeak(lt) && Shape() && x0 < |ns| && ns[x0] == child && OrderBut(lt, Keys(ns), x0, true)
      modifies this`min, this`ns, ns
      ensures Shape() && x < |ns| && ns[x] == child && OrderBut(lt, Keys(ns), x, false) && Same(old(ns), ns)
      ensures forall n :: n in old(ns) ==> n.key == old(n.key)
    {
      hide Linked, OrderBut, InHeapOrder, StrictWeak, Exchanged, Keys, Same;
      x := x0;
      SameAll(ns);
      var smallest;
      ghost var c;
      smallest, c := Smallest(child, x);
      while smallest != child
        invariant Shape() && x < |ns| && ns[x] == child && OrderBut(lt, Keys(ns), x, true) && Same(old(ns), ns)
        invariant forall n :: n in old(ns) ==> n.key == old(n.key)
        invariant IsSmallest(child, x, smallest, c)
        decreases |ns| - x
      {
        ghost var ms := ns;
        KeysAt(ns, x);
        KeysAt(ns, c);
        StepDown(lt, Keys(ns), x, c);
        SameMembers(old(ns), ns);
        assert forall i :: 0 <= i < |ns| ==> ns[i] in old(ns);
        assert forall n: object :: n in ns ==> n in old(ns);
        Swap(child, smallest, x, c);
        SameTwice(old(ns), ms, ns);
        ExchangedAt(ms, x, c);
        x := c;
        smallest, c := Smallest(child, x);
      }
      KeysAt(ns, x);
      DownSettled(lt, Keys(ns), x);
    }

    /** The least of a node and its children: the node itself unless a child is less. */
    ghost predicate IsSmallest(child: Node<K>, x: nat, smallest: Node<K>, c: nat)
      requires x < |ns|
      reads this, ns, child, smallest
    {
      c < |ns| && ns[c] == smallest && (smallest == child ==> c == x) &&
      (smallest != child ==> x < c && Up(c) == x && lt(smallest.key, child.key)) &&
      forall i :: 0 < i < |Keys(ns)| && Up(i) == x ==> !lt(Keys(ns)[i], smallest.key)
    }

    method Smallest(child: Node<K>, ghost x: nat) returns (smallest: Node<K>, ghost c: nat)
      requires StrictWeak(lt) && Shape() && x < |ns| && ns[x] == child
      ensures IsSmallest(child, x, smallest, c)
    {
      assert LinkedAt(ns, x);
      smallest, c := child, x;
      if child.left != null && lt(child.left.key, smallest.key) { smallest, c := child.left, 2 * x + 1; }
      if child.right != null && lt(child.right.key, smallest.key) { smallest, c := child.right, 2 * x + 2; }
      forall i | 0 < i < |Keys(ns)| && Up(i) == x ensures !lt(Keys(ns)[i], smallest.key) {
        assert i == 2 * x + 1 || i == 2 * x + 2;
        assert Keys(ns)[i] == ns[i].key;
      }
    }

    /** Follows a path from the root; it ends at a node or at the free place under one. */
    method Descend(path0: nat, k0: nat) returns (par: Node?<K>, child: Node?<K>, right: bool)
      requires Shape() && 1 <= Walk(1, path0, k0) <= nelts + 1
      ensures var n := Walk(1, path0, k0);
        child == At(ns, n - 1) && par == (if n == 1 then null else At(ns, Up(n - 1))) &&
        (n > 1 ==> par != null && right == (n % 2 == 1))
    {
      var path, k := path0, k0;
      par, child, right := null, min, false;
      ghost var m := 1;
      while k > 0
        invariant m >= 1 && Walk(m, path, k) == Walk(1, path0, k0)
        invariant child == At(ns, m - 1) && m <= nelts + 1
        invariant par == if m == 1 then null else At(ns, Up(m - 1))
        invariant m > 1 ==> par != null && right == (m % 2 == 1)
      {
        WalkGrows(m, path, k);
        assert LinkedAt(ns, m - 1);
        par := child;
        right := path % 2 == 1;
        child := if right then child.right else child.left;
        WalkGrows(2 * m + path % 2, path / 2, k - 1);
        m := 2 * m + path % 2;
        path, k := path / 2, k - 1;
      }
    }

    /** Links a new node at the left-most free place of the bottom row. */
    method Append(node: Node<K>)
      requires Shape() && node !in ns
      modifies this, node, ns
      ensures Shape() && ns == old(ns) + [node] && Keys(ns) == old(Keys(ns)) + [node.key]
      ensures node.key == old(node.key) && forall n :: n in old(ns) ==> n.key == old(n.key)
    {
      hide Linked, Placed, Keys, Distinct, At, LinkedMore, LinksOf;
      ghost var ns0, l, ks := ns, LinksOf(ns), Keys(ns);
      LinkedPlaced(ns);
      var path, k := PathTo(1 + nelts);
      var par, child, right := Descend(path, k);
      ParentThere(ns, |ns|);
      HangIn(node, par, right, ns);
      nelts := nelts + 1;
      ns := ns + [node];
      AppendedPlaced(l, LinksOf(ns), ns0, node, par, right);
      PlacedLinked(ns);
      AppendedKeys(ns0, node);
      FirstKept(ns0, node);
    }

    method HangIn(node: Node<K>, par: Node?<K>, right: bool, ghost ms: seq<Node<K>>)
      requires node !in ms && (par != null ==> par in ms)
      modifies this`min, node, ms
      ensures min == if par == null then node else old(min)
      ensures LinkedMore(old(LinksOf(ms)), LinksOf(ms + [node]), ms, node, par, right)
      ensures Keys(ms) == old(Keys(ms)) && node.key == old(node.key)
      ensures forall n :: n in ms ==> n.key == old(n.key)
    {
      Hang(node, par, right);
    }

    /** Hangs a node under `par`, or makes it the root. */
    method Hang(node: Node<K>, par: Node?<K>, right: bool)
      requires node != par
      modifies this`min, node`left, node`right, node`parent, if par != null then {par} else {}
      ensures node.left == null && node.right == null && node.parent == par
      ensures min == if par == null then node else old(min)
      ensures par != null ==> par.key == old(par.key) && par.parent == old(par.parent)
      ensures par != null ==> par.left == if right then old(par.left) else node
      ensures par != null ==> par.right == if right then node else old(par.right)
    {
      node.left, node.right, node.parent := null, null, null;
      node.parent := par;
      if par == null {
        min := node;
      } else if right {
        par.right := node;
      } else {
        par.left := node;
      }
    }

    method Insert(node: Node<K>)
      requires Valid() && node !in ns
      modifies this, node, ns
      ensures Valid() && Nodes(ns) == old(Nodes(ns)) + {node} && |ns| == |old(ns)| + 1
      ensures node.key == old(node.key) && forall n :: n in old(ns) ==> n.key == old(n.key)
    {
      hide Linked, InHeapOrder, StrictWeak, Keys;
      ghost var ks, ns0 := Keys(ns), ns;
      Append(node);
      KeysAt(ns, |ns| - 1);
      AppendedOrder(lt, ks, node.key);
      ghost var ms := ns;
      SiftUp(node, |ns| - 1);
      SameMembers(ms, ns);
      AppendedNodes(ns0, node);
    }

    /** Takes the last node of the bottom row off. */
    method TakeLast() returns (child: Node<K>)
      requires Shape() && nelts > 0
      modifies this, ns
      ensures Shape() && ns == old(ns[..|ns| - 1]) && child == old(ns[|ns| - 1]) &&
        Keys(ns) == old(Keys(ns)[..|ns| - 1])
      ensures forall n :: n in old(ns) ==> n.key == old(n.key)
    {
      hide Linked, Placed, Keys, Distinct, At, LinkedLess, LinksOf;
      ghost var ns0, l := ns, LinksOf(ns);
      LinkedPlaced(ns);
      var path, k := PathTo(nelts);
      var par, last, right := Descend(path, k);
      LastThere(ns);
      child := last;
      Unhang(par, right, ns);
      nelts := nelts - 1;
      ns := ns[..|ns| - 1];
      ShortenedPlaced(l, LinksOf(ns), ns0, par, right);
      PlacedLinked(ns);
      ShortenedKeys(ns0);
    }

    method Unhang(par: Node?<K>, right: bool, ghost ms: seq<Node<K>>)
      requires ms != [] && par == (if |ms| == 1 then null else At(ms, Up(|ms| - 1)))
      modifies this`min, ms
      ensures min == if par == null then null else old(min)
      ensures LinkedLess(old(LinksOf(ms)), LinksOf(ms[..|ms| - 1]), ms[..|ms| - 1], par, right)
      ensures Keys(ms) == old(Keys(ms)) && forall n :: n in ms ==> n.key == old(n.key)
    {
      assert forall n :: n in ms[..|ms| - 1] ==> n in ms;
      if par == null {
        min := null;
      } else if right {
        par.right := null;
      } else {
        par.left := null;
      }
    }

    /** Puts `child` in the place of `node`, which keeps its own links. */
    method Replace(node: Node<K>, child: Node<K>, ghost x: nat)
      requires Shape() && x < |ns| && ns[x] == node && child !in ns
      modifies this`min, this`ns, ns, child
      ensures Shape() && ns == old(ns)[x := child] && Keys(ns) == old(Keys(ns))[x := child.key]
      ensures child.key == old(child.key) && forall n :: n in old(ns) ==> n.key == old(n.key)
    {
      hide Linked, Placed, Keys, Distinct, At, LinksOf, Substituted;
      ghost var ns0, l := ns, LinksOf(ns);
      LinkedPlaced(ns);
      Neighbours(ns, x);
      PutFor(node, child, ns, x);
      ns := ns[x := child];
      SubstitutedPlaced(l, LinksOf(ns), ns0, x, child);
      PlacedLinked(ns);
      ReplacedKeys(ns0, x, child);
    }

    method PutFor(node: Node<K>, child: Node<K>, ghost ms: seq<Node<K>>, ghost x: nat)
      requires Linked(ms) && x < |ms| && ms[x] == node && child !in ms && min == At(ms, 0)
      modifies this`min, ms, child
      ensures min == At(ms[x := child], 0)
      ensures Substituted(old(LinksOf(ms)), LinksOf(ms[x := child]), ms, node, child)
      ensures Keys(ms) == old(Keys(ms)) && child.key == old(child.key) && forall n :: n in ms ==> n.key == old(n.key)
    {
      hide Linked, LinkedAt, Substituted, Placed, LinksAt;
      ghost var l := LinksOf(ms);
      ghost var left, right, top, lefttop := At(ms, 2 * x + 1), At(ms, 2 * x + 2), if x == 0 then
        null else At(ms, Up(x)), x == 2 * Up(x) + 1;
      LinkedPlaced(ms);
      AroundOne(ms, x, child);
      PutLinks(node, child, left, right, top, lefttop);
      NewFirst(ms, x, child);
      MembersAfter(ms, x, child);
      PutSubstituted(l, LinksOf(ms[x := child]), ms, x, child, left, right, top, lefttop);
    }

    method PutLinks(node: Node<K>, child: Node<K>, ghost left: Node?<K>, ghost right: Node?<K>, ghost top: Node?<K>,
        ghost lefttop: bool)
      requires node.left == left && node.right == right && node.parent == top && child != node
      requires left != node && left != child && right != node && right != child && top != node && top != child
      requires (left != null ==> left != right && left != top) && (right != null ==> right != top)
      requires top != null ==> if lefttop then top.left == node else top.right == node && top.left != node
      modifies this`min, child`left, child`right, child`parent, left, right, top
      ensures min == if top == null then child else old(min)
      ensures child.left == left && child.right == right && child.parent == top
      ensures left != null ==> left.parent == child && Kept(left)
      ensures right != null ==> right.parent == child && Kept(right)
      ensures top != null ==> top.parent == old(top.parent) && top.key == old(top.key)
      ensures top != null ==> top.left == if lefttop then child else old(top.left)
      ensures top != null ==> top.right == if lefttop then old(top.right) else child
    {
      child.left := node.left;
      child.right := node.right;
      child.parent := node.parent;
      if child.left != null { child.left.parent := child; }
      if child.right != null { child.right.parent := child; }
      if node.parent == null {
        min := child;
      } else if node.parent.left == node {
        node.parent.left := child;
      } else {
        node.parent.right := child;
      }
    }

    /** Removes any node of the heap. */
    method Remove(node: Node<K>)
      requires Valid() && (nelts > 0 ==> node in ns)
      modifies this, ns
      ensures Valid() && Nodes(ns) == old(Nodes(ns)) - {node} && |ns| == if old(nelts) == 0 then 0 else |old(ns)| - 1
      ensures forall n :: n in old(ns) ==> n.key == old(n.key)
    {
      hide Linked, InHeapOrder, OrderBut, StrictWeak, Keys, Distinct;
      if nelts == 0 { return; }
      ghost var ns0, ks := ns, Keys(ns);
      LinkedDistinct(ns);
      KeysAt(ns, 0);
      var child := TakeLast();
      ghost var ns1 := ns;
      LinkedDistinct(ns);
      LastOff(ns0);
      ShortenedOrder(lt, ks);
      if child == node { return; }
      ghost var x := PlaceOf(ns1, node);
      Replace(node, child, x);
      ghost var ns2 := ns;
      ReplacedOrder(lt, ks[..|ks| - 1], x, child.key);
      ReplacedNodes(ns1, x, child);
      assert forall n: object :: n in ns2 ==> n in ns0;
      ghost var y := SiftDown(child, x);
      SameMembers(ns2, ns);
      assert forall i :: 0 <= i < |ns| ==> ns[i] in ns0;
      assert forall n: object :: n in ns ==> n in ns0;
      ghost var ns3 := ns;
      SiftUp(child, y);
      SameTwice(ns2, ns3, ns);
    }
  }

  ghost function PlaceOf<K>(ns: seq<Node<K>>, node: Node<K>): (x: nat)
    requires node in ns
    ensures x < |ns| && ns[x] == node
  {
    var x :| 0 <= x < |ns| && ns[x] == node; x
  }

  lemma LastThere<K>(ns: seq<Node<K>>)
    requires ns != []
    ensures At(ns, |ns| - 1) == ns[|ns| - 1]
    ensures At(ns[..|ns| - 1], 0) == if |ns| == 1 then null else At(ns, 0)
  {
  }

  lemma LastOff<K>(ns: seq<Node<K>>)
    requires ns != [] && Distinct(ns)
    ensures
      var ms, n := ns[..|ns| - 1], ns[|ns| - 1];
      n !in ms && Nodes(ms) == Nodes(ns) - {n} && forall m :: m in ns ==> m in ms || m == n
    ensures forall m :: m in ns[..|ns| - 1] ==> m in ns
  {
    var ms, n := ns[..|ns| - 1], ns[|ns| - 1];
    forall m | m in Nodes(ns) && m != n ensures m in Nodes(ms) {
      var i :| 0 <= i < |ns| && ns[i] == m;
      assert ms[i] == m;
    }
  }

  lemma ShortenedKeys<K>(ns: seq<Node<K>>)
    requires ns != []
    ensures Keys(ns[..|ns| - 1]) == Keys(ns)[..|ns| - 1]
  {
  }

  lemma ShortenedOrder<K>(lt: (K, K) -> bool, ks: seq<K>)
    requires InHeapOrder(lt, ks) && ks != []
    ensures InHeapOrder(lt, ks[..|ks| - 1])
  {
    forall i | 0 < i < |ks| - 1 ensures !lt(ks[..|ks| - 1][i], ks[..|ks| - 1][Up(i)]) {
      assert !lt(ks[i], ks[Up(i)]);
    }
  }

  /** Any key in the place of another spoils the order only there. */
  lemma ReplacedOrder<K(!new)>(lt: (K, K) -> bool, ks: seq<K>, x: nat, k: K)
    requires StrictWeak(lt) && InHeapOrder(lt, ks) && x < |ks|
    ensures OrderBut(lt, ks[x := k], x, true)
  {
    forall i | 0 < i < |ks| && Up(i) == x && x > 0 ensures !lt(ks[i], ks[Up(x)]) {
      assert !lt(ks[i], ks[x]) && !lt(ks[x], ks[Up(x)]);
    }
  }

  lemma ReplacedKeys<K>(ns: seq<Node<K>>, x: nat, child: Node<K>)
    requires x < |ns|
    ensures Keys(ns[x := child]) == Keys(ns)[x := child.key]
  {
  }

  lemma ReplacedNodes<K>(ns: seq<Node<K>>, x: nat, child: Node<K>)
    requires x < |ns| && Distinct(ns) && child !in ns
    ensures Nodes(ns[x := child]) == Nodes(ns) - {ns[x]} + {child}
    ensures forall n :: n in ns[x := child] ==> n in ns || n == child
  {
    var ms := ns[x := child];
    forall n | n in Nodes(ns) && n != ns[x] ensures n in Nodes(ms) {
      var i :| 0 <= i < |ns| && ns[i] == n;
      assert ms[i] == n;
    }
    forall n | n in Nodes(ms) ensures n in Nodes(ns) - {ns[x]} + {child} {
      var i :| 0 <= i < |ms| && ms[i] == n;
      if i != x { assert ns[i] == n; }
    }
    assert child == ms[x];
  }

  /** The links once what hung under `par` is gone. */
  ghost predicate LinkedLess<K>(l: map<Node<K>, Links<K>>, l': map<Node<K>, Links<K>>, ns: seq<Node<K>>,
      par: Node?<K>, right: bool) {
    forall n :: n in ns ==> n in l && n in l' && l'[n] == WithChild(l[n], n == par, right, null)
  }

  lemma ShortenedPlaced<K>(l: map<Node<K>, Links<K>>, l': map<Node<K>, Links<K>>, ns: seq<Node<K>>, par: Node?<K>,
      right: bool)
    requires ns != [] && Placed(l, ns) && LinkedLess(l, l', ns[..|ns| - 1], par, right)
    requires par == (if |ns| == 1 then null else At(ns, Up(|ns| - 1))) && (|ns| > 1 ==> right == (|ns| % 2 == 1))
    ensures Placed(l', ns[..|ns| - 1])
  {
    var ms := ns[..|ns| - 1];
    forall i | 0 <= i < |ms| ensures PlacedAt(l', ms, i) {
      assert PlacedAt(l, ns, i) && ns[i] == ms[i] && ms[i] in ms;
      if i == Up(|ms|) {
        assert |ms| == 2 * i + 1 || |ms| == 2 * i + 2;
      } else {
        assert |ms| != 2 * i + 1 && |ms| != 2 * i + 2;
        assert 0 <= Up(|ms|) < |ms|;
        InOrder(ns);
      }
    }
  }

  function Instead<K>(n: Node?<K>, node: Node<K>, child: Node<K>): Node?<K> {
    if n == node then child else n
  }

  /** The links once `child` stands for `node` everywhere. */
  ghost predicate Substituted<K>(l: map<Node<K>, Links<K>>, l': map<Node<K>, Links<K>>, ns: seq<Node<K>>,
      node: Node<K>, child: Node<K>) {
    node in l && child in l' && l'[child] == l[node] &&
    forall n :: n in ns && n != node ==> n in l && n in l' && l'[n] == InsteadLinks(l[n], node, child)
  }

  function InsteadLinks<K>(l: Links<K>, node: Node<K>, child: Node<K>): Links<K> {
    Links(Instead(l.left, node, child), Instead(l.right, node, child), Instead(l.parent, node, child))
  }

  lemma SubstitutedPlaced<K>(l: map<Node<K>, Links<K>>, l': map<Node<K>, Links<K>>, ns: seq<Node<K>>, x: nat,
      child: Node<K>)
    requires x < |ns| && Placed(l, ns) && child !in ns && Substituted(l, l', ns, ns[x], child)
    ensures Placed(l', ns[x := child])
  {
    var ms := ns[x := child];
    forall i | 0 <= i < |ms| ensures PlacedAt(l', ms, i) {
      assert PlacedAt(l, ns, i) && ns[i] in ns;
      InstanceAt(ns, x, child, 2 * i + 1);
      InstanceAt(ns, x, child, 2 * i + 2);
      InstanceAt(ns, x, child, Up(i));
      InOrder(ns);
    }
  }

  lemma InstanceAt<K>(ns: seq<Node<K>>, x: nat, child: Node<K>, j: int)
    requires x < |ns| && Distinct(ns)
    ensures At(ns[x := child], j) == Instead(At(ns, j), ns[x], child)
  {
    InOrder(ns);
  }

  lemma AroundOne<K>(ns: seq<Node<K>>, x: nat, child: Node<K>)
    requires Linked(ns) && x < |ns| && child !in ns
    ensures var node, left, right, top := ns[x], At(ns, 2 * x + 1), At(ns, 2 * x + 2), if x == 0 then
      null else At(ns, Up(x));
      node.left == left && node.right == right && node.parent == top && child != node &&
      left != node && left != child && right != node && right != child && top != node && top != child &&
      (left != null ==> left != right && left != top && left in ns) &&
        (right != null ==> right != top && right in ns) &&
      (top != null ==>
        top in ns && (if x == 2 * Up(x) + 1 then top.left == node else top.right == node && top.left != node))
    ensures At(ns, 0) == ns[x] <==> x == 0
  {
    InOrder(ns);
    assert LinkedAt(ns, x);
    if x > 0 { assert LinkedAt(ns, Up(x)); }
  }

  lemma MembersAfter<K>(ns: seq<Node<K>>, x: nat, child: Node<K>)
    requires x < |ns|
    ensures child in ns[x := child] && forall n :: n in ns && n != ns[x] ==> n in ns[x := child]
  {
    assert ns[x := child][x] == child;
    forall n | n in ns && n != ns[x] ensures n in ns[x := child] {
      var i :| 0 <= i < |ns| && ns[i] == n;
      assert ns[x := child][i] == n;
    }
  }

  lemma NewFirst<K>(ns: seq<Node<K>>, x: nat, child: Node<K>)
    requires x < |ns|
    ensures At(ns[x := child], 0) == if x == 0 then child else At(ns, 0)
  {
  }

  /** What the assignments do is the substitution: only the neighbours know the node. */
  lemma PutSubstituted<K>(l: map<Node<K>, Links<K>>, l': map<Node<K>, Links<K>>, ns: seq<Node<K>>, x: nat,
      child: Node<K>,
      left: Node?<K>, right: Node?<K>, top: Node?<K>, lefttop: bool)
    requires Placed(l, ns) && x < |ns| && child !in ns
    requires left == At(ns, 2 * x + 1) && right == At(ns, 2 * x + 2) &&
      top == (if x == 0 then null else At(ns, Up(x))) && lefttop == (x == 2 * Up(x) + 1)
    requires child in l' && l'[child] == Links(left, right, top)
    requires forall n :: n in ns && n != ns[x] ==>
      n in l && n in l' && l'[n] == PutOne(l[n], child, n == left || n == right, n == top, lefttop)
    ensures Substituted(l, l', ns, ns[x], child)
  {
    InOrder(ns);
    assert PlacedAt(l, ns, x);
    forall n | n in ns && n != ns[x]
      ensures n in l && n in l' && l'[n] == InsteadLinks(l[n], ns[x], child)
    {
      var i :| 0 <= i < |ns| && ns[i] == n;
      assert PlacedAt(l, ns, i);
      if i == 2 * x + 1 || i == 2 * x + 2 {
      } else if x > 0 && i == Up(x) {
      } else {
        assert Up(i) != x || i == 0;
      }
    }
  }

  ghost function PutOne<K>(l: Links<K>, child: Node<K>, below: bool, above: bool, lefttop: bool): Links<K> {
    if below then l.(parent := child) else if !above then l else if lefttop then
      l.(left := child) else l.(right := child)
  }

  lemma Neighbours<K>(ns: seq<Node<K>>, x: nat)
    requires Linked(ns) && x < |ns|
    ensures LinkedAt(ns, x)
  {
  }

  lemma ParentThere<K>(ns: seq<Node<K>>, n: nat)
    requires n <= |ns|
    ensures n > 0 ==> 0 <= Up(n) < |ns| && At(ns, Up(n)) == ns[Up(n)] && ns[Up(n)] in ns
    ensures At(ns, |ns|) == null
  {
  }

  lemma AppendedKeys<K>(ns: seq<Node<K>>, node: Node<K>)
    ensures Keys(ns + [node]) == Keys(ns) + [node.key]
  {
  }

  lemma FirstKept<K>(ns: seq<Node<K>>, node: Node<K>)
    ensures At(ns + [node], 0) == if ns == [] then node else At(ns, 0)
  {
  }

  lemma AppendedNodes<K>(ns: seq<Node<K>>, node: Node<K>)
    ensures Nodes(ns + [node]) == Nodes(ns) + {node}
  {
  }

  lemma AppendedOrder<K>(lt: (K, K) -> bool, ks: seq<K>, k: K)
    requires InHeapOrder(lt, ks)
    ensures OrderBut(lt, ks + [k], |ks|, false)
  {
    var js := ks + [k];
    forall i | 0 < i < |js| && i != |ks| ensures !lt(js[i], js[Up(i)]) {
      assert !lt(ks[i], ks[Up(i)]);
    }
  }

  ghost function WithChild<K>(l: Links<K>, its: bool, right: bool, node: Node?<K>): Links<K> {
    if !its then l else if right then l.(right := node) else l.(left := node)
  }

  /** The links once `node` hangs under `par`. */
  ghost predicate LinkedMore<K>(l: map<Node<K>, Links<K>>, l': map<Node<K>, Links<K>>, ns: seq<Node<K>>,
      node: Node<K>, par: Node?<K>, right: bool) {
    node in l' && l'[node] == Links(null, null, par) &&
    forall n :: n in ns ==> n in l && n in l' && l'[n] == WithChild(l[n], n == par, right, node)
  }

  /** A new node at the end has its place, and its parent the link to it. */
  lemma AppendedPlaced<K>(l: map<Node<K>, Links<K>>, l': map<Node<K>, Links<K>>, ns: seq<Node<K>>, node: Node<K>,
      par: Node?<K>, right: bool)
    requires Placed(l, ns) && node !in ns && LinkedMore(l, l', ns, node, par, right)
    requires par == (if ns == [] then null else At(ns, Up(|ns|))) && (ns != [] ==> right == (|ns| % 2 == 0))
    ensures Placed(l', ns + [node])
  {
    var ms := ns + [node];
    forall i | 0 <= i < |ms| ensures PlacedAt(l', ms, i) {
      if i < |ns| {
        assert PlacedAt(l, ns, i) && ns[i] in ns;
        if i == Up(|ns|) {
          assert |ns| == 2 * i + 1 || |ns| == 2 * i + 2;
        } else {
          assert |ns| != 2 * i + 1 && |ns| != 2 * i + 2;
          assert 0 <= Up(|ns|) < |ns|;
          InOrder(ns);
        }
      }
    }
  }

  lemma KeysAt<K>(ns: seq<Node<K>>, x: nat)
    requires x < |ns|
    ensures |Keys(ns)| == |ns| && Keys(ns)[x] == ns[x].key
  {
  }

  lemma ExchangedAt<K>(ns: seq<Node<K>>, p: nat, c: nat)
    requires p < c < |ns|
    ensures |Exchanged(ns, p, c)| == |ns| && Exchanged(ns, p, c)[p] == ns[c] && Exchanged(ns, p, c)[c] == ns[p]
  {
  }

  lemma ParentAt<K>(ns: seq<Node<K>>, x: nat)
    requires Linked(ns) && x < |ns|
    ensures ns[x].parent == if x == 0 then null else At(ns, Up(x))
    ensures x > 0 ==> 0 <= Up(x) < x
  {
    assert LinkedAt(ns, x);
  }

  /** The same nodes, in whatever order. */
  ghost predicate Same<K>(ns: seq<Node<K>>, ms: seq<Node<K>>) {
    |ns| == |ms| && Nodes(ns) == Nodes(ms)
  }

  lemma SameMembers<K>(ns: seq<Node<K>>, ms: seq<Node<K>>)
    requires Same(ns, ms)
    ensures forall n :: n in ms <==> n in ns
  {
    forall n ensures n in ms <==> n in ns {
      assert n in Nodes(ms) <==> n in Nodes(ns);
    }
  }

  lemma SameTwice<K>(ns: seq<Node<K>>, ms: seq<Node<K>>, ls: seq<Node<K>>)
    requires Same(ns, ms) && Same(ms, ls)
    ensures Same(ns, ls)
  {
  }

  lemma SameAll<K>(ns: seq<Node<K>>)
    ensures Same(ns, ns)
  {
  }

  ghost function Nodes<K>(ns: seq<Node<K>>): set<Node<K>> {
    set n | n in ns
  }

  /** A node, one of its children, and the nodes around them; `leftmost` when the child is the
      left one, `lefttop` when the node is its own parent's left child. */
  datatype Family<K> = Family(parent: Node<K>, child: Node<K>, sibling: Node?<K>, left: Node?<K>, right: Node?<K>,
    top: Node?<K>, leftmost: bool, lefttop: bool)

  ghost function FamilyOf<K>(ns: seq<Node<K>>, p: nat, c: nat): Family<K>
    requires p < c < |ns| && Up(c) == p
  {
    Family(ns[p], ns[c], At(ns, if c == 2 * p + 1 then 2 * p + 2 else 2 * p + 1), At(ns, 2 * c + 1), At(ns, 2 * c + 2),
      if p == 0 then null else At(ns, Up(p)), c == 2 * p + 1, p == 2 * Up(p) + 1)
  }

  /** The family is linked as it should be before the swap, and its members are different. */
  ghost predicate IsFamily<K>(f: Family<K>)
    reads f.parent, f.child, f.sibling, f.left, f.right, f.top
  {
    && f.parent.left == (if f.leftmost then f.child else f.sibling) &&
      f.parent.right == (if f.leftmost then f.sibling else f.child)
    && f.parent.parent == f.top
    && f.child.left == f.left && f.child.right == f.right && f.child.parent == f.parent
    && (f.sibling != null ==> f.sibling.parent == f.parent)
    && (f.left != null ==> f.left.parent == f.child) && (f.right != null ==> f.right.parent == f.child)
    && (f.top != null ==>
      (if f.lefttop then f.top.left else f.top.right) == f.parent && (!f.lefttop ==> f.top.left != f.parent))
    && Apart(f)
  }

  /** The members of the family are different. */
  predicate Apart<K>(f: Family<K>) {
    && f.parent != f.child && f.sibling != f.parent && f.sibling != f.child
    && f.left != f.parent && f.left != f.child && f.right != f.parent && f.right != f.child
    && f.top != f.parent && f.top != f.child
    && (f.sibling != null ==> f.sibling != f.left && f.sibling != f.right && f.sibling != f.top)
    && (f.left != null ==> f.left != f.right && f.left != f.top) && (f.right != null ==> f.right != f.top)
  }

  /** Only the parent of the node may have changed. */
  twostate predicate Kept<K>(n: Node<K>)
    reads n
  {
    n.left == old(n.left) && n.right == old(n.right) && n.key == old(n.key)
  }

  predicate Inside<K>(f: Family<K>, ns: seq<Node<K>>) {
    f.parent in ns && f.child in ns && (f.sibling != null ==> f.sibling in ns) && (f.left != null ==> f.left in ns) &&
    (f.right != null ==> f.right in ns) && (f.top != null ==> f.top in ns)
  }

  lemma LinkedPlaced<K>(ns: seq<Node<K>>)
    requires Linked(ns)
    ensures Placed(LinksOf(ns), ns)
  {
    forall i | 0 <= i < |ns| ensures PlacedAt(LinksOf(ns), ns, i) {
      assert LinkedAt(ns, i);
    }
  }

  lemma SameLinks<K>(ns: seq<Node<K>>, ms: seq<Node<K>>)
    requires forall n :: n in ns <==> n in ms
    ensures LinksOf(ns) == LinksOf(ms)
  {
  }

  lemma PlacedLinked<K>(ns: seq<Node<K>>)
    requires Placed(LinksOf(ns), ns)
    ensures Linked(ns)
  {
    forall i | 0 <= i < |ns| ensures LinkedAt(ns, i) {
      assert PlacedAt(LinksOf(ns), ns, i);
    }
  }

  lemma Around<K>(ns: seq<Node<K>>, p: nat, c: nat)
    requires Linked(ns) && p < c < |ns| && Up(c) == p
    ensures IsFamily(FamilyOf(ns, p, c))
  {
    assert LinkedAt(ns, p) && LinkedAt(ns, c);
    var s := if c == 2 * p + 1 then 2 * p + 2 else 2 * p + 1;
    assert s < |ns| ==> LinkedAt(ns, s) && Up(s) == p;
    assert 2 * c + 1 < |ns| ==> LinkedAt(ns, 2 * c + 1) && Up(2 * c + 1) == c;
    assert 2 * c + 2 < |ns| ==> LinkedAt(ns, 2 * c + 2) && Up(2 * c + 2) == c;
    if p > 0 {
      assert LinkedAt(ns, Up(p)) && (p == 2 * Up(p) + 1 || p == 2 * Up(p) + 2);
    }
    InOrder(ns);
  }

  lemma FirstStays<K>(ns: seq<Node<K>>, p: nat, c: nat)
    requires p < c < |ns|
    ensures |Exchanged(ns, p, c)| == |ns| && At(Exchanged(ns, p, c), 0) == if p == 0 then ns[c] else At(ns, 0)
    ensures Distinct(ns) && At(ns, 0) == ns[p] ==> p == 0
  {
  }

  lemma LinkedDistinct<K>(ns: seq<Node<K>>)
    requires Linked(ns)
    ensures Distinct(ns)
  {
  }

  lemma FamilyHere<K>(ns: seq<Node<K>>, p: nat, c: nat)
    requires p < c < |ns| && Up(c) == p
    ensures var f := FamilyOf(ns, p, c);
      f.parent == ns[p] && f.child == ns[c] && (f.top == null <==> p == 0) &&
      Inside(f, ns)
  {
  }

  lemma StillDistinct<K>(ns: seq<Node<K>>, p: nat, c: nat)
    requires Distinct(ns) && p < c < |ns|
    ensures Distinct(Exchanged(ns, p, c)) && forall n :: n in Exchanged(ns, p, c) <==> n in ns
    ensures Same(ns, Exchanged(ns, p, c))
  {
    var ms := Exchanged(ns, p, c);
    forall n ensures n in ms <==> n in ns {
      if n in ns {
        var i :| 0 <= i < |ns| && ns[i] == n;
        assert ms[if i == p then c else if i == c then p else i] == n;
      }
      if n in ms {
        var i :| 0 <= i < |ms| && ms[i] == n;
        assert ns[if i == p then c else if i == c then p else i] == n;
      }
    }
  }

  /** The links that a swap gives to a node. */
  ghost function SwappedLinks<K>(f: Family<K>, n: Node<K>, was: Links<K>): Links<K> {
    if n == f.parent then Links(f.left, f.right, f.child)
    else if n == f.child then
      Links(if f.leftmost then f.parent else f.sibling, if f.leftmost then f.sibling else f.parent, f.top)
    else if n == f.sibling then was.(parent := f.child)
    else if n == f.left || n == f.right then was.(parent := f.parent)
    else if n == f.top then (if f.lefttop then was.(left := f.child) else was.(right := f.child))
    else was
  }

  ghost predicate SwapsLinks<K>(f: Family<K>, l: map<Node<K>, Links<K>>, l': map<Node<K>, Links<K>>, ns: seq<Node<K>>) {
    forall n :: n in ns ==> n in l && n in l' && l'[n] == SwappedLinks(f, n, l[n])
  }

  /** After a swap every node has the links of its new place. */
  lemma Relinked<K>(l: map<Node<K>, Links<K>>, l': map<Node<K>, Links<K>>, ns: seq<Node<K>>, p: nat, c: nat,
      ms: seq<Node<K>>)
    requires p < c < |ns| && Up(c) == p && Placed(l, ns) && ms == Exchanged(ns, p, c)
    requires SwapsLinks(FamilyOf(ns, p, c), l, l', ns)
    ensures Placed(l', ms)
  {
    hide SwapsLinks, FamilyOf, PlacedAt;
    StillDistinct(ns, p, c);
    forall i | 0 <= i < |ms| ensures PlacedAt(l', ms, i) {
      RelinkedAt(l, l', ns, p, c, ms, i);
    }
  }

  lemma RelinkedAt<K>(l: map<Node<K>, Links<K>>, l': map<Node<K>, Links<K>>, ns: seq<Node<K>>, p: nat, c: nat,
      ms: seq<Node<K>>, i: nat)
    requires p < c < |ns| && Up(c) == p && Placed(l, ns) && i < |ns| && ms == Exchanged(ns, p, c)
    requires SwapsLinks(FamilyOf(ns, p, c), l, l', ns)
    ensures PlacedAt(l', ms, i)
  {
    hide SwapsLinks, Placed, FamilyOf, LinksAt;
    var k := if i == p then c else if i == c then p else i;
    PlacedRead(l, ns, k);
    SwapsRead(FamilyOf(ns, p, c), l, l', ns, k);
    NewLinks(ns, p, c, ms, i, k);
  }

  lemma PlacedRead<K>(l: map<Node<K>, Links<K>>, ns: seq<Node<K>>, k: nat)
    requires Placed(l, ns) && k < |ns|
    ensures PlacedAt(l, ns, k) && ns[k] in l && l[ns[k]] == LinksAt(ns, k) && Distinct(ns)
  {
  }

  lemma SwapsRead<K>(f: Family<K>, l: map<Node<K>, Links<K>>, l': map<Node<K>, Links<K>>, ns: seq<Node<K>>, k: nat)
    requires SwapsLinks(f, l, l', ns) && k < |ns|
    ensures ns[k] in l && ns[k] in l' && l'[ns[k]] == SwappedLinks(f, ns[k], l[ns[k]])
  {
  }

  /** The links of the node that comes to place `i` from place `k`. */
  lemma NewLinks<K>(ns: seq<Node<K>>, p: nat, c: nat, ms: seq<Node<K>>, i: nat, k: nat)
    requires p < c < |ns| && Up(c) == p && i < |ns| && Distinct(ns) && ms == Exchanged(ns, p, c)
    requires k == if i == p then c else if i == c then p else i
    ensures SwappedLinks(FamilyOf(ns, p, c), ns[k], LinksAt(ns, k)) == LinksAt(ms, i)
  {
    InOrder(ns);
    var s := if c == 2 * p + 1 then 2 * p + 2 else 2 * p + 1;
    if i == p {
    } else if i == c {
    } else if i == s {
    } else if i == 2 * c + 1 || i == 2 * c + 2 {
    } else if p > 0 && i == Up(p) {
    } else {
      Elsewhere(ns, p, c, i);
    }
  }

  /** A place away from the swap has its old neighbours. */
  lemma Elsewhere<K>(ns: seq<Node<K>>, p: nat, c: nat, i: nat)
    requires p < c < |ns| && Up(c) == p && i < |ns| && Distinct(ns)
    requires i != p && i != c && i != 2 * p + 1 && i != 2 * p + 2 && i != 2 * c + 1 && i != 2 * c + 2 &&
      (p > 0 ==> i != Up(p))
    ensures SwappedLinks(FamilyOf(ns, p, c), ns[i], LinksAt(ns, i)) == LinksAt(ns, i)
    ensures At(Exchanged(ns, p, c), 2 * i + 1) == At(ns, 2 * i + 1) &&
      At(Exchanged(ns, p, c), 2 * i + 2) == At(ns, 2 * i + 2)
    ensures i > 0 ==> At(Exchanged(ns, p, c), Up(i)) == At(ns, Up(i))
  {
    InOrder(ns);
  }
}
