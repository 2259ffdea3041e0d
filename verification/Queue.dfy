/**
 The circular doubly linked list that all of libuv's queues are made of.  A queue
 is its header node and the nodes linked behind it; a node on its own is linked to
 itself.
 */
module Queue {

  class Node {
    var next: Node
    var prev: Node

    constructor ()
      ensures Ring([this])
    {
      next, prev := this, this;
    }
  }

  /** The nodes of `q`, header first, are linked in a circle in this order. */
  ghost predicate Ring(q: seq<Node>)
    reads q
  {
    && |q| > 0
    && (forall i, j :: 0 <= i < j < |q| ==> q[i] != q[j])
    && (forall i :: 0 <= i < |q| ==> q[i].next == Next(q, i))
    && (forall i :: 0 <= i < |q| ==> q[i].prev == Prev(q, i))
  }

  ghost function Next(q: seq<Node>, i: nat): Node
    requires i < |q|
  {
    if i + 1 < |q| then q[i + 1] else q[0]
  }

  ghost function Prev(q: seq<Node>, i: nat): Node
    requires i < |q|
  {
    if i > 0 then q[i - 1] else q[|q| - 1]
  }

  /** Links a node to itself. */
  method Init(q: Node)
    modifies q
    ensures Ring([q])
  {
    q.next := q;
    q.prev := q;
  }

  /** Is nothing linked to this node?  For a header: is its queue empty? */
  method IsEmpty(h: Node, ghost q: seq<Node>, ghost i: nat) returns (b: bool)
    requires Ring(q) && i < |q| && q[i] == h
    ensures b <==> |q| == 1
  {
    b := h == h.next;
  }

  method Head(h: Node, ghost q: seq<Node>) returns (n: Node)
    requires Ring(q) && q[0] == h && |q| > 1
    ensures n == q[1]
  {
    n := h.next;
  }

  method InsertTail(h: Node, x: Node, ghost q: seq<Node>)
    requires Ring(q) && q[0] == h && x !in q
    modifies q, x
    ensures Ring(q + [x])
  {
    x.next := h;
    x.prev := h.prev;
    x.prev.next := x;
    h.prev := x;
  }

  method InsertHead(h: Node, x: Node, ghost q: seq<Node>)
    requires Ring(q) && q[0] == h && x !in q
    modifies q, x
    ensures Ring([h, x] + q[1..])
  {
    x.next := h.next;
    x.prev := h;
    x.next.prev := x;
    h.next := x;
    ghost var q' := [h, x] + q[1..];
    forall i, j | 0 <= i < j < |q'| ensures q'[i] != q'[j] {
      if j >= 2 { assert q'[j] == q[j - 1]; }
      if i >= 2 { assert q'[i] == q[i - 1]; }
    }
    forall i | 0 <= i < |q'| ensures q'[i].next == Next(q', i) && q'[i].prev == Prev(q', i) {
      if i >= 2 { assert q'[i] == q[i - 1]; }
    }
  }

  ghost function Without(q: seq<Node>, k: nat): seq<Node>
    requires k < |q|
  {
    q[..k] + q[k + 1..]
  }

  /** The place after place `k` in the circle. */
  function After(n: nat, k: nat): nat {
    if k + 1 < n then k + 1 else 0
  }

  lemma SkippedAt(q: seq<Node>, k: nat, i: nat)
    requires 0 < k < |q| && i < |q| - 1
    ensures |Without(q, k)| == |q| - 1 && Without(q, k)[i] == q[if i < k then i else i + 1]
  {
  }

  /** Who comes next, and who before, once place `k` is skipped. */
  lemma Skipped(q: seq<Node>, k: nat, i: nat)
    requires 0 < k < |q| && i < |q| - 1
    ensures |Without(q, k)| == |q| - 1
    ensures var o := if i < k then i else i + 1;
      Next(Without(q, k), i) == (if o == k - 1 then Next(q, k) else Next(q, o)) &&
      Prev(Without(q, k), i) == (if o == After(|q|, k) then q[k - 1] else Prev(q, o))
  {
    hide Without;
    SkippedAt(q, k, 0);
    SkippedAt(q, k, |q| - 2);
    if i + 1 < |q| - 1 { SkippedAt(q, k, i + 1); }
    if i > 0 { SkippedAt(q, k, i - 1); }
  }

  /** The neighbours of place `k` are linked to each other, and nothing else has changed. */
  twostate lemma Bridged(new q: seq<Node>, new k: nat)
    requires forall i :: 0 <= i < |q| ==> allocated(q[i]) && old(allocated(q[i]))
    requires 0 < k < |q| && old(Ring(q))
    requires forall i :: 0 <= i < |q| ==> q[i].next == if i == k - 1 then Next(q, k) else old(q[i].next)
    requires forall i :: 0 <= i < |q| ==> q[i].prev == if i == After(|q|, k) then q[k - 1] else old(q[i].prev)
    ensures Ring(Without(q, k))
  {
    hide Without, Next, Prev;
    var q' := Without(q, k);
    SkippedAt(q, k, 0);
    forall i | 0 <= i < |q'| ensures q'[i].next == Next(q', i) && q'[i].prev == Prev(q', i) {
      SkippedAt(q, k, i);
      Skipped(q, k, i);
    }
    forall i, j | 0 <= i < j < |q'| ensures q'[i] != q'[j] {
      SkippedAt(q, k, i);
      SkippedAt(q, k, j);
    }
  }

  /** Unlinks a node.  The node itself keeps its links, so `IsEmpty` still denies it
      is on its own until it is initialised again: that is how a request being
      executed is told from one being cancelled. */
  method Remove(x: Node, ghost q: seq<Node>, ghost k: nat)
    requires Ring(q) && 0 < k < |q| && q[k] == x
    modifies q
    ensures Ring(Without(q, k))
    ensures x.next == old(x.next) && x.prev == old(x.prev) && x.next != x
  {
    assert x.prev == q[k - 1] && x.next == Next(q, k) && q[k - 1] != x && Next(q, k) != x;
    x.prev.next := x.next;
    x.next.prev := x.prev;
    Bridged(q, k);
  }

  /** The nodes behind a header that has been exchanged for `n` are linked as they were. */
  twostate lemma Exchanged(new n: Node, new q: seq<Node>)
    requires forall i :: 0 <= i < |q| ==> allocated(q[i]) && old(allocated(q[i]))
    requires |q| > 1 && n !in q && old(Ring(q)) && n.next == q[1] && n.prev == q[|q| - 1]
    requires forall i :: 1 <= i < |q| ==> q[i].next == if i == |q| - 1 then n else old(q[i].next)
    requires forall i :: 1 <= i < |q| ==> q[i].prev == if i == 1 then n else old(q[i].prev)
    ensures Ring([n] + q[1..])
  {
    var q' := [n] + q[1..];
    forall i | 1 <= i < |q'| ensures q'[i] == q[i] { }
    forall i | 0 <= i < |q'| ensures q'[i].next == Next(q', i) && q'[i].prev == Prev(q', i) {
      if i >= 1 {
        assert old(q[i].next) == Next(q, i) && old(q[i].prev) == Prev(q, i);
      }
    }
  }

  /** Moves everything behind header `h` to header `n`. */
  method Move(h: Node, n: Node, ghost q: seq<Node>)
    requires Ring(q) && q[0] == h && n !in q
    modifies q, n
    ensures Ring([h]) && Ring([n] + q[1..])
  {
    if h == h.next {
      Init(n);
      assert [n] + q[1..] == [n];
      assert q == [h];
    } else {
      var first := h.next;
      ghost var last := q[|q| - 1];
      assert first == q[1] && h.prev == last && first.prev == h && last != h && first != h;
      n.prev := h.prev;
      n.prev.next := n;
      n.next := first;
      h.prev := first.prev;
      h.prev.next := h;
      first.prev := n;
      Exchanged(n, q);
    }
  }
}
