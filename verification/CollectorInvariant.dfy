/**
 The tri-colour invariant of `lgc.c` and what each single change does to it.
 */
module CollectorInvariant {
  import opened CollectorHeap

  datatype Phase = Pause | Propagate | EnterAtomic | Atomic | SwpAllgc | SwpEnd | CallFin

  // ---- Predicates on the fields ----

  /** A black object has nothing white to lose; `e` is being visited. */
  ghost predicate BlacksOk(heap: Heap, c: Colors, dead: DeadKeys, e: set<Id>) {
    forall x :: x in heap && x in c && c[x] == Black && x !in e ==> AllMarked(heap, c, dead, x)
  }

  /** The lists hold every gray object once, and nothing else. */
  ghost predicate GrayListed(c: Colors, l: multiset<Id>) {
    forall x :: l[x] == if x in c && c[x] == Gray then 1 else 0
  }

  ghost predicate KindsOk(heap: Heap, c: Colors, e: set<Id>) {
    forall x :: x in heap && x in c ==>
      (c[x] == Gray ==> !heap[x].kind.Leaf? && !heap[x].kind.Cell?) &&
      (c[x] == Black && x !in e ==> !heap[x].kind.Thread?)
  }

  ghost predicate OneWhite(c: Colors, bit: bool) {
    forall x :: x in c && c[x].White? ==> c[x].bit == bit
  }

  /** The tri-colour invariant while marking: `e` is being visited, `l` is what the lists hold,
      and `m` is any closed set that contains what was marked at the start. */
  ghost predicate Tricolor(heap: Heap, c: Colors, dead: DeadKeys, bit: bool, l: multiset<Id>, e: set<Id>, m: set<Id>) {
    && Sound(heap, c, dead) && OneWhite(c, bit)
    && Closed(heap, m) && Within(heap, c, m)
    && BlacksOk(heap, c, dead, e) && KindsOk(heap, c, e)
    && GrayListed(c, l)
  }

  /** What the visits read off the invariant. */
  lemma Reads(heap: Heap, c: Colors, dead: DeadKeys, bit: bool, l: multiset<Id>, e: set<Id>, m: set<Id>)
    requires Tricolor(heap, c, dead, bit, l, e, m)
    ensures heap.Keys == c.Keys && Closed(heap, m) && Within(heap, c, m)
  {
  }

  lemma ReadsAt(heap: Heap, c: Colors, dead: DeadKeys, bit: bool, l: multiset<Id>, e: set<Id>, m: set<Id>, o: Id)
    requires Tricolor(heap, c, dead, bit, l, e, m) && o in heap
    ensures heap.Keys == c.Keys && Shaped(heap[o]) && RefsExist(heap, dead, o)
    ensures forall i :: (o, i) in dead ==> 0 <= i < |heap[o].nodes| && heap[o].nodes[i].val == Empty
  {
  }

  lemma FewerWhites(c: Colors, c': Colors, o: Id)
    requires Marks(c, c') && o in c && c[o].White? && !c'[o].White?
    ensures Whites(c') < Whites(c)
  {
    assert o in Whites(c) && o !in Whites(c');
  }

  lemma BlacksStay(heap: Heap, c: Colors, c': Colors, dead: DeadKeys, e: set<Id>, o: Id)
    requires BlacksOk(heap, c, dead, e) && Grows(c, c')
    requires forall x :: x in c && x != o ==> c'[x] == c[x]
    ensures BlacksOk(heap, c', dead, e + {o})
  {
    forall x | x in heap && x in c' && c'[x] == Black && x !in e + {o} ensures AllMarked(heap, c', dead, x) {
      AllMarkedStays(heap, c, c', dead, dead, x);
    }
  }

  /** A white string turns black at once. */
  lemma PaintLeaf(heap: Heap, c: Colors, c': Colors, dead: DeadKeys, bit: bool, l: multiset<Id>, e: set<Id>,
      m: set<Id>, o: Id)
    requires Tricolor(heap, c, dead, bit, l, e, m) && o in c && c[o].White? && heap[o].kind.Leaf? && c' == c[o := Black]
    ensures Tricolor(heap, c', dead, bit, l, e, m) && Marks(c, c') && Whites(c') < Whites(c)
    ensures MarkedSet(heap, c') == MarkedSet(heap, c)
  {
    BlacksStay(heap, c, c', dead, e, o);
    FewerWhites(c, c', o);
  }

  /** A white cell turns black before its content is looked at. */
  lemma PaintCell(heap: Heap, c: Colors, c': Colors, dead: DeadKeys, bit: bool, l: multiset<Id>, e: set<Id>,
      m: set<Id>, o: Id)
    requires Tricolor(heap, c, dead, bit, l, e, m) && o in c && c[o].White? && heap[o].kind.Cell? && c' == c[o := Black]
    requires o in m
    ensures Tricolor(heap, c', dead, bit, l, e + {o}, m) && Marks(c, c') && Whites(c') < Whites(c)
    ensures Belongs(heap, m, heap[o].slots[0])
  {
    BlacksStay(heap, c, c', dead, e, o);
    FewerWhites(c, c', o);
    assert Forces(heap, m, o, heap[o].slots[0]);
  }

  /** Any other object turns gray and goes into a list. */
  lemma PaintGray(heap: Heap, c: Colors, c': Colors, dead: DeadKeys, bit: bool, l: multiset<Id>, e: set<Id>,
      m: set<Id>, o: Id)
    requires Tricolor(heap, c, dead, bit, l, e, m) && o in c && c[o].White? && !heap[o].kind.Leaf? &&
      !heap[o].kind.Cell?
    requires c' == c[o := Gray] && o in m
    ensures Tricolor(heap, c', dead, bit, l + multiset{o}, e, m) && Marks(c, c') && Whites(c') < Whites(c)
  {
    BlacksStay(heap, c, c', dead, e, o);
    FewerWhites(c, c', o);
  }

  /** A visited object needs no exception any more. */
  lemma Visited(heap: Heap, c: Colors, dead: DeadKeys, bit: bool, l: multiset<Id>, e: set<Id>, m: set<Id>, o: Id)
    requires Tricolor(heap, c, dead, bit, l, e + {o}, m) && AllMarked(heap, c, dead, o) && !heap[o].kind.Thread?
    ensures Tricolor(heap, c, dead, bit, l, e, m)
  {
  }

  lemma VisitedAlone(heap: Heap, c: Colors, dead: DeadKeys, bit: bool, l: multiset<Id>, m: set<Id>, o: Id)
    requires Tricolor(heap, c, dead, bit, l, {o}, m) && AllMarked(heap, c, dead, o) && !heap[o].kind.Thread?
    ensures Tricolor(heap, c, dead, bit, l, {}, m)
  {
    assert {} + {o} == {o};
    Visited(heap, c, dead, bit, l, {}, m, o);
  }

  lemma CellVisited(heap: Heap, c: Colors, c': Colors, dead: DeadKeys, bit: bool, l: multiset<Id>, e: set<Id>,
      m: set<Id>, o: Id)
    requires o in heap && heap[o].kind.Cell? && Shaped(heap[o]) && IsMarked(c', heap[o].slots[0])
    requires Tricolor(heap, c', dead, bit, l, e + {o}, m)
    ensures Tricolor(heap, c', dead, bit, l, e, m)
  {
    Visited(heap, c', dead, bit, l, e, m, o);
  }

  lemma MarksTwice(c: Colors, c': Colors, c'': Colors)
    requires Marks(c, c') && Marks(c', c'')
    ensures Marks(c, c'') && Whites(c'') <= Whites(c') <= Whites(c)
  {
  }

  /** A key found unmarked in an empty entry is declared dead. */
  lemma KeyDies(heap: Heap, c: Colors, dead: DeadKeys, bit: bool, l: multiset<Id>, e: set<Id>, m: set<Id>, h: Id,
      i: int)
    requires Tricolor(heap, c, dead, bit, l, e, m) && h in heap && 0 <= i < |heap[h].nodes| &&
      heap[h].nodes[i].val == Empty
    ensures Tricolor(heap, c, dead + {(h, i)}, bit, l, e, m)
  {
    var dead' := dead + {(h, i)};
    forall x | x in heap && x in c && c[x] == Black && x !in e ensures AllMarked(heap, c, dead', x) {
      AllMarkedStays(heap, c, c, dead, dead', x);
    }
  }

  /** A list that has only grown at its head. */
  ghost predicate Longer(l: seq<Id>, l': seq<Id>) {
    |l| <= |l'| && l'[|l'| - |l|..] == l
  }

  lemma LongerTwice(l: seq<Id>, l': seq<Id>, l'': seq<Id>)
    requires Longer(l, l') && Longer(l', l'')
    ensures Longer(l, l'')
  {
    assert l''[|l''| - |l|..] == l''[|l''| - |l'|..][|l'| - |l|..];
  }

  lemma LongerSame(l: seq<Id>)
    ensures Longer(l, l)
  {
  }

  /** An object in the gray list is in no other. */
  lemma FirstOnly(c: Colors, l: multiset<Id>, gray: seq<Id>, others: multiset<Id>, o: Id)
    requires GrayListed(c, l) && gray != [] && o == gray[0] && l == multiset(gray) + others
    ensures others[o] == 0
  {
    assert gray[0] in gray && multiset(gray)[o] >= 1;
    assert l[o] == multiset(gray)[o] + others[o];
  }

  lemma {:induction false} DistinctFit(s: seq<Id>, u: set<Id>)
    requires forall i, j :: 0 <= i < j < |s| ==> s[i] != s[j]
    requires forall i :: 0 <= i < |s| ==> s[i] in u
    ensures |s| <= |u|
  {
    if s != [] {
      var n := |s| - 1;
      DistinctFit(s[..n], u - {s[n]});
    }
  }

  lemma Different(s: seq<Id>, i: nat, j: nat)
    requires i < j < |s| && multiset(s)[s[i]] <= 1
    ensures s[i] != s[j]
  {
    assert s == s[..j] + s[j..];
    assert s[..j][i] in s[..j] && s[j..][0] in s[j..];
    assert multiset(s)[s[i]] == multiset(s[..j])[s[i]] + multiset(s[j..])[s[i]];
  }

  /** What is listed once fits among the objects. */
  lemma ListedOnce(c: Colors, l: multiset<Id>, gray: seq<Id>, others: multiset<Id>)
    requires GrayListed(c, l) && l == multiset(gray) + others
    ensures |gray| <= |c|
  {
    forall i, j | 0 <= i < j < |gray| ensures gray[i] != gray[j] {
      assert l[gray[i]] == multiset(gray)[gray[i]] + others[gray[i]];
      Different(gray, i, j);
    }
    forall i | 0 <= i < |gray| ensures gray[i] in c.Keys {
      assert gray[i] in multiset(gray);
      assert l[gray[i]] == multiset(gray)[gray[i]] + others[gray[i]];
    }
    DistinctFit(gray, c.Keys);
  }

  lemma FewerLeft(w: set<Id>, g: seq<Id>, w': set<Id>, g': seq<Id>, n: nat)
    requires w' < w || (w' == w && |g'| < |g|)
    requires |g'| <= n
    ensures |w'| * (n + 1) + |g'| < |w| * (n + 1) + |g|
  {
    if w' < w {
      FewerIn(w, w');
      MoreRows(|w'|, |w|, n + 1);
    }
  }

  lemma FewerIn(w: set<Id>, w': set<Id>)
    requires w' < w
    ensures |w'| + 1 <= |w|
  {
    var x :| x in w && x !in w';
    assert w' + {x} <= w;
    Contained(w' + {x}, w);
  }

  lemma {:induction false} Contained(u: set<Id>, w: set<Id>)
    requires u <= w
    ensures |u| <= |w|
  {
    if u != {} {
      var x :| x in u;
      Contained(u - {x}, w - {x});
    }
  }

  lemma Rows(a: nat, d: nat, k: nat)
    ensures (a + d) * k == a * k + d * k
  {
  }

  lemma WhitesThere(c: Colors)
    ensures |Whites(c)| <= |c|
  {
    Contained(Whites(c), c.Keys);
  }

  lemma AtMost(a: nat, n: nat)
    requires a <= n
    ensures a * (n + 1) <= n * n + n
  {
    Rows(a, n - a, n + 1);
    Rows(n, 1, n);
  }

  lemma MoreRows(a: nat, b: nat, k: nat)
    requires a + 1 <= b
    ensures a * k + k <= b * k
  {
    Rows(a + 1, b - a - 1, k);
    Rows(a, 1, k);
  }

  /** How far marking got: something more was marked, or nothing happened at all. */
  ghost predicate Progress(c: Colors, g: seq<Id>, c': Colors, g': seq<Id>) {
    Marks(c, c') && ((c' == c && g' == g) || Whites(c') < Whites(c))
  }

  lemma ProgressTwice(c: Colors, g: seq<Id>, c': Colors, g': seq<Id>, c'': Colors, g'': seq<Id>)
    requires Progress(c, g, c', g') && Progress(c', g', c'', g'')
    ensures Progress(c, g, c'', g'')
  {
    MarksTwice(c, c', c'');
  }

  ghost predicate MarkedUpTo(c: Colors, vs: seq<Val>, n: int)
    requires n <= |vs|
  {
    forall i :: 0 <= i < n ==> IsMarked(c, vs[i])
  }

  lemma OneMoreMarked(c: Colors, c': Colors, vs: seq<Val>, n: nat)
    requires n < |vs| && Marks(c, c') && MarkedUpTo(c, vs, n) && IsMarked(c', vs[n])
    ensures MarkedUpTo(c', vs, n + 1)
  {
    forall i | 0 <= i < n + 1 ensures IsMarked(c', vs[i]) {
      if i < n { MarkedStays(c, c', vs[i]); }
    }
  }

  /** The first `n` entries have been visited as those of a strong table. */
  ghost predicate NodesUpTo(c: Colors, dead: DeadKeys, h: Id, ns: seq<Node>, n: int)
    requires n <= |ns|
  {
    forall i :: 0 <= i < n ==> KeyMarked(c, dead, h, i, ns[i]) && IsMarked(c, ns[i].val)
  }

  lemma OneMoreNode(c: Colors, c': Colors, dead: DeadKeys, dead': DeadKeys, h: Id, ns: seq<Node>, n: nat)
    requires n < |ns| && Marks(c, c') && dead <= dead' && NodesUpTo(c, dead, h, ns, n)
    requires KeyMarked(c', dead', h, n, ns[n]) && IsMarked(c', ns[n].val)
    ensures NodesUpTo(c', dead', h, ns, n + 1)
  {
    forall i | 0 <= i < n + 1 ensures KeyMarked(c', dead', h, i, ns[i]) && IsMarked(c', ns[i].val) {
      if i < n { MarkedStays(c, c', ns[i].val); }
    }
  }

  /** The first `n` entries have been visited as those of a table with weak values. */
  ghost predicate WeakUpTo(c: Colors, dead: DeadKeys, h: Id, ns: seq<Node>, n: int, hasclears: bool)
    requires n <= |ns|
  {
    forall i :: 0 <= i < n ==> KeyMarked(c, dead, h, i, ns[i]) && (hasclears || IsMarked(c, ns[i].val))
  }

  lemma OneMoreWeak(c: Colors, c': Colors, dead: DeadKeys, dead': DeadKeys, h: Id, ns: seq<Node>, n: nat, was: bool,
      hasclears: bool)
    requires n < |ns| && Marks(c, c') && dead <= dead' && WeakUpTo(c, dead, h, ns, n, was) && (was ==> hasclears)
    requires KeyMarked(c', dead', h, n, ns[n]) && (hasclears || IsMarked(c', ns[n].val))
    ensures WeakUpTo(c', dead', h, ns, n + 1, hasclears)
  {
    forall i | 0 <= i < n + 1 ensures KeyMarked(c', dead', h, i, ns[i]) && (hasclears || IsMarked(c', ns[i].val)) {
      if i < n && !hasclears { MarkedStays(c, c', ns[i].val); }
    }
  }

  // ---- What the atomic phase knows of the tables in its lists ----

  ghost predicate WeakDone(heap: Heap, c: Colors, dead: DeadKeys, h: Id) {
    h in heap && heap[h].kind == Table(WeakValues) && IsMarked(c, heap[h].meta) &&
    WeakUpTo(c, dead, h, heap[h].nodes, |heap[h].nodes|, true)
  }

  /** Each value is marked unless its key is an object that may still be unmarked. */
  ghost predicate EphemeronDone(heap: Heap, c: Colors, dead: DeadKeys, h: Id) {
    h in heap && heap[h].kind == Table(Ephemeron) && IsMarked(c, heap[h].meta) && SlotsMarked(c, heap[h].slots) &&
    forall i :: 0 <= i < |heap[h].nodes| ==> EntryDone(heap, c, dead, h, i, true, true)
  }

  /** An entry of an ephemeron table after a visit that met a white key (`clears`), or one with
      a white value (`ww`). */
  predicate EntryDone(heap: Heap, c: Colors, dead: DeadKeys, h: Id, i: int, clears: bool, ww: bool)
    requires h in heap && 0 <= i < |heap[h].nodes|
  {
    var n := heap[h].nodes[i];
    if n.val == Empty then KeyMarked(c, dead, h, i, n)
    else (clears || KeyMarked(c, dead, h, i, n)) && (IsMarked(c, n.val) || (ww && n.key.Ref? && !IsLeaf(heap, n.key)))
  }

  /** A table whose weak keys, or keys and values, will be cleared. */
  ghost predicate AllWeakDone(heap: Heap, c: Colors, dead: DeadKeys, h: Id) {
    h in heap && IsMarked(c, heap[h].meta) &&
    (heap[h].kind == Table(AllWeak) ||
     (heap[h].kind == Table(Ephemeron) && SlotsMarked(c, heap[h].slots) &&
      forall i :: 0 <= i < |heap[h].nodes| ==> EntryDone(heap, c, dead, h, i, true, false)))
  }

  lemma WeakVisited(heap: Heap, c: Colors, dead: DeadKeys, h: Id, hasclears: bool)
    requires h in heap && heap[h].kind == Table(WeakValues) && IsMarked(c, heap[h].meta)
    requires WeakUpTo(c, dead, h, heap[h].nodes, |heap[h].nodes|, hasclears) && (heap[h].slots != [] ==> hasclears)
    ensures WeakDone(heap, c, dead, h) && (!hasclears ==> AllMarked(heap, c, dead, h))
  {
    WeakIfCleared(c, dead, h, heap[h].nodes, hasclears);
    if !hasclears { UpToAll(c, dead, h, heap[h].nodes); }
  }

  lemma UpToAll(c: Colors, dead: DeadKeys, h: Id, ns: seq<Node>)
    requires WeakUpTo(c, dead, h, ns, |ns|, false)
    ensures NodesMarked(c, dead, h, ns)
  {
  }

  lemma WeakIfCleared(c: Colors, dead: DeadKeys, h: Id, ns: seq<Node>, hasclears: bool)
    requires WeakUpTo(c, dead, h, ns, |ns|, hasclears)
    ensures WeakUpTo(c, dead, h, ns, |ns|, true)
  {
  }

  /** The first visits of an ephemeron table's entries, in either direction. */
  function NodeAt(i: nat, n: nat, inv: bool): (k: nat)
    requires i < n
    ensures k < n
  {
    if inv then n - 1 - i else i
  }

  ghost predicate Scanned(k: int, i: nat, n: nat, inv: bool) {
    if inv then n - 1 - k < i else k < i
  }

  ghost predicate EntriesUpTo(heap: Heap, c: Colors, dead: DeadKeys, h: Id, i: nat, inv: bool, clears: bool, ww: bool)
    requires h in heap
  {
    forall k :: 0 <= k < |heap[h].nodes| && Scanned(k, i, |heap[h].nodes|, inv) ==>
      EntryDone(heap, c, dead, h, k, clears, ww)
  }

  /** The entry asks for nothing more: its value is marked if its key is held. */
  predicate EntrySettled(heap: Heap, c: Colors, m: set<Id>, h: Id, i: int)
    requires h in heap && 0 <= i < |heap[h].nodes|
  {
    var n := heap[h].nodes[i];
    n.val != Empty && KeyHeld(heap, m, n.key) ==> IsMarked(c, n.val)
  }

  ghost predicate SettledUpTo(heap: Heap, c: Colors, h: Id, i: nat, inv: bool, m: set<Id>)
    requires h in heap
  {
    forall k :: 0 <= k < |heap[h].nodes| && Scanned(k, i, |heap[h].nodes|, inv) ==> EntrySettled(heap, c, m, h, k)
  }

  lemma EntryStays(heap: Heap, c: Colors, c': Colors, dead: DeadKeys, dead': DeadKeys, h: Id, k: int,
      clears: bool, clears': bool, ww: bool, ww': bool)
    requires h in heap && 0 <= k < |heap[h].nodes| && Grows(c, c') && dead <= dead' && (clears ==> clears') &&
      (ww ==> ww')
    requires EntryDone(heap, c, dead, h, k, clears, ww)
    ensures EntryDone(heap, c', dead', h, k, clears', ww')
  {
  }

  lemma OneMoreEntry(heap: Heap, c: Colors, c': Colors, dead: DeadKeys, dead': DeadKeys, h: Id, i: nat, inv: bool,
      clears: bool, clears1: bool, clears': bool, ww: bool, ww1: bool, ww': bool)
    requires h in heap && i < |heap[h].nodes| && Marks(c, c') && dead <= dead'
    requires (clears || clears1 ==> clears') && (ww || ww1 ==> ww')
    requires EntriesUpTo(heap, c, dead, h, i, inv, clears, ww)
    requires EntryDone(heap, c', dead', h, NodeAt(i, |heap[h].nodes|, inv), clears1, ww1)
    ensures EntriesUpTo(heap, c', dead', h, i + 1, inv, clears', ww')
  {
    forall k | 0 <= k < |heap[h].nodes| && Scanned(k, i + 1, |heap[h].nodes|, inv)
      ensures EntryDone(heap, c', dead', h, k, clears', ww')
    {
      if Scanned(k, i, |heap[h].nodes|, inv) {
        EntryStays(heap, c, c', dead, dead', h, k, clears, clears', ww, ww');
      } else {
        EntryStays(heap, c', c', dead', dead', h, k, clears1, clears', ww1, ww');
      }
    }
  }

  lemma OneMoreSettled(heap: Heap, c: Colors, c': Colors, h: Id, i: nat, inv: bool, m: set<Id>)
    requires h in heap && i < |heap[h].nodes| && Marks(c, c')
    requires SettledUpTo(heap, c, h, i, inv, m) && EntrySettled(heap, c', m, h, NodeAt(i, |heap[h].nodes|, inv))
    ensures SettledUpTo(heap, c', h, i + 1, inv, m)
  {
    forall k | 0 <= k < |heap[h].nodes| &&
      Scanned(k, i + 1, |heap[h].nodes|, inv) ensures EntrySettled(heap, c', m, h, k) {
      if Scanned(k, i, |heap[h].nodes|, inv) { assert EntrySettled(heap, c, m, h, k); }
    }
  }

  lemma EphemeronVisited(heap: Heap, c: Colors, dead: DeadKeys, h: Id, inv: bool, clears: bool, ww: bool)
    requires h in heap && heap[h].kind == Table(Ephemeron) && IsMarked(c, heap[h].meta) && SlotsMarked(c, heap[h].slots)
    requires EntriesUpTo(heap, c, dead, h, |heap[h].nodes|, inv, clears, ww) && (ww ==> clears)
    ensures EphemeronDone(heap, c, dead, h)
    ensures !ww ==> AllWeakDone(heap, c, dead, h)
    ensures !clears ==> AllMarked(heap, c, dead, h)
  {
    forall k | 0 <= k < |heap[h].nodes| ensures EntryDone(heap, c, dead, h, k, clears, ww) {
      assert Scanned(k, |heap[h].nodes|, |heap[h].nodes|, inv);
    }
    forall k | 0 <= k < |heap[h].nodes| ensures EntryDone(heap, c, dead, h, k, true, true) &&
      (!ww ==> EntryDone(heap, c, dead, h, k, true, false)) {
      assert EntryDone(heap, c, dead, h, k, clears, ww);
    }
    if !clears {
      forall k | 0 <= k < |heap[h].nodes|
        ensures KeyMarked(c, dead, h, k, heap[h].nodes[k]) && IsMarked(c, heap[h].nodes[k].val)
      {
        assert EntryDone(heap, c, dead, h, k, clears, ww);
      }
    }
  }

  /** The table asks for nothing more: every value whose key is held is marked. */
  ghost predicate Settled(heap: Heap, c: Colors, h: Id) {
    h in heap && forall k :: 0 <= k < |heap[h].nodes| ==> EntrySettled(heap, c, MarkedSet(heap, c), h, k)
  }

  lemma SettledVisited(heap: Heap, c: Colors, h: Id, inv: bool)
    requires h in heap && SettledUpTo(heap, c, h, |heap[h].nodes|, inv, MarkedSet(heap, c))
    ensures Settled(heap, c, h)
  {
    forall k | 0 <= k < |heap[h].nodes| ensures EntrySettled(heap, c, MarkedSet(heap, c), h, k) {
      assert Scanned(k, |heap[h].nodes|, |heap[h].nodes|, inv);
    }
  }

  lemma ProgressKeeps(c: Colors, g: seq<Id>, c': Colors, g': seq<Id>, v: Val)
    requires Progress(c, g, c', g')
    ensures Grows(c, c') && Whites(c') <= Whites(c) && (IsMarked(c, v) ==> IsMarked(c', v))
  {
  }

  /** What is known of the members of the lists, other than `gray`. */
  ghost predicate MarkLists(heap: Heap, c: Colors, dead: DeadKeys, phase: Phase,
      grayagain: seq<Id>, weak: seq<Id>, allweak: seq<Id>, ephemeron: seq<Id>)
  {
    if phase == Atomic then
      && (forall h :: h in grayagain ==> AllMarked(heap, c, dead, h))
      && (forall h :: h in weak ==> WeakDone(heap, c, dead, h))
      && (forall h :: h in ephemeron ==> EphemeronDone(heap, c, dead, h))
      && (forall h :: h in allweak ==> AllWeakDone(heap, c, dead, h))
    else
      weak == [] && ephemeron == [] && forall h :: h in allweak ==> AllWeakListed(heap, c, h)
  }

  /** A table found all weak while propagating: it is not visited again. */
  ghost predicate AllWeakListed(heap: Heap, c: Colors, h: Id) {
    h in heap && heap[h].kind == Table(AllWeak) && IsMarked(c, heap[h].meta)
  }

  lemma WeakStays(heap: Heap, c: Colors, c': Colors, dead: DeadKeys, dead': DeadKeys, h: Id)
    requires Grows(c, c') && dead <= dead'
    ensures WeakDone(heap, c, dead, h) ==> WeakDone(heap, c', dead', h)
  {
    if WeakDone(heap, c, dead, h) {
      forall i | 0 <= i < |heap[h].nodes| ensures KeyMarked(c', dead', h, i, heap[h].nodes[i]) {
        assert KeyMarked(c, dead, h, i, heap[h].nodes[i]);
      }
    }
  }

  lemma EphemeronStays(heap: Heap, c: Colors, c': Colors, dead: DeadKeys, dead': DeadKeys, h: Id)
    requires Grows(c, c') && dead <= dead'
    ensures EphemeronDone(heap, c, dead, h) ==> EphemeronDone(heap, c', dead', h)
  {
    if EphemeronDone(heap, c, dead, h) {
      forall i | 0 <= i < |heap[h].nodes| ensures EntryDone(heap, c', dead', h, i, true, true) {
        EntryStays(heap, c, c', dead, dead', h, i, true, true, true, true);
      }
    }
  }

  lemma AllWeakStays(heap: Heap, c: Colors, c': Colors, dead: DeadKeys, dead': DeadKeys, h: Id)
    requires Grows(c, c') && dead <= dead'
    ensures AllWeakDone(heap, c, dead, h) ==> AllWeakDone(heap, c', dead', h)
  {
    if AllWeakDone(heap, c, dead, h) && heap[h].kind == Table(Ephemeron) {
      forall i | 0 <= i < |heap[h].nodes| ensures EntryDone(heap, c', dead', h, i, true, false) {
        EntryStays(heap, c, c', dead, dead', h, i, true, true, false, false);
      }
    }
  }

  lemma ListsStay(heap: Heap, c: Colors, c': Colors, dead: DeadKeys, dead': DeadKeys, phase: Phase,
      grayagain: seq<Id>, weak: seq<Id>, allweak: seq<Id>, ephemeron: seq<Id>)
    requires Grows(c, c') && dead <= dead' && MarkLists(heap, c, dead, phase, grayagain, weak, allweak, ephemeron)
    ensures MarkLists(heap, c', dead', phase, grayagain, weak, allweak, ephemeron)
  {
    forall h ensures h in grayagain && phase == Atomic ==> AllMarked(heap, c', dead', h) {
      if h in grayagain && phase == Atomic { AllMarkedStays(heap, c, c', dead, dead', h); }
    }
    forall h { WeakStays(heap, c, c', dead, dead', h); }
    forall h { EphemeronStays(heap, c, c', dead, dead', h); }
    forall h { AllWeakStays(heap, c, c', dead, dead', h); }
  }

  /** A gray object that was visited turns black and leaves the lists. */
  lemma TurnBlack(heap: Heap, c: Colors, dead: DeadKeys, bit: bool, l: multiset<Id>, m: set<Id>, h: Id)
    requires Tricolor(heap, c, dead, bit, l + multiset{h}, {}, m) && h in heap && heap[h].kind.Table? &&
      AllMarked(heap, c, dead, h)
    ensures Tricolor(heap, c[h := Black], dead, bit, l, {}, m) && Grows(c, c[h := Black]) &&
      Whites(c[h := Black]) == Whites(c)
    ensures MarkedSet(heap, c[h := Black]) == MarkedSet(heap, c)
  {
    var c' := c[h := Black];
    assert (l + multiset{h})[h] == l[h] + 1;
    BlacksStay(heap, c, c', dead, {}, h);
    AllMarkedStays(heap, c, c', dead, dead, h);
  }

  lemma SettledStays(heap: Heap, c: Colors, c': Colors, h: Id)
    requires Grows(c, c') && MarkedSet(heap, c) == MarkedSet(heap, c') && Settled(heap, c, h)
    ensures Settled(heap, c', h)
  {
    forall k | 0 <= k < |heap[h].nodes| ensures EntrySettled(heap, c', MarkedSet(heap, c'), h, k) {
      assert EntrySettled(heap, c, MarkedSet(heap, c), h, k);
    }
  }

// ---- What clearing keeps ----

  /** The heap after some clearing: nothing known about a visited object was lost. */
  ghost predicate FactsKept(heap: Heap, c: Colors, dead: DeadKeys, heap': Heap, c': Colors, dead': DeadKeys) {
    && heap'.Keys == heap.Keys && (forall x :: x in heap ==> heap'[x].kind == heap[x].kind)
    && Marks(c, c') && MarkedSet(heap, c) == MarkedSet(heap', c') && dead <= dead'
    && (forall x :: AllMarked(heap, c, dead, x) ==> AllMarked(heap', c', dead', x))
    && (forall x :: WeakDone(heap, c, dead, x) ==> WeakDone(heap', c', dead', x))
    && (forall x :: EphemeronDone(heap, c, dead, x) ==> EphemeronDone(heap', c', dead', x))
    && (forall x :: Settled(heap, c, x) ==> Settled(heap', c', x))
    && (forall x :: AllWeakDone(heap, c, dead, x) ==> AllWeakDone(heap', c', dead', x))
    && (forall x :: ValuesMarked(heap, c, x) ==> ValuesMarked(heap', c', x))
    && (forall x :: KeysMarked(heap, c, dead, x) ==> KeysMarked(heap', c', dead', x))
  }

  lemma FactsSame(heap: Heap, c: Colors, dead: DeadKeys)
    ensures FactsKept(heap, c, dead, heap, c, dead)
  {
  }

  lemma FactsTwice(heap: Heap, c: Colors, dead: DeadKeys, heap': Heap, c': Colors, dead': DeadKeys,
      heap'': Heap, c'': Colors, dead'': DeadKeys)
    requires FactsKept(heap, c, dead, heap', c', dead') && FactsKept(heap', c', dead', heap'', c'', dead'')
    ensures FactsKept(heap, c, dead, heap'', c'', dead'')
  {
    hide AllMarked, WeakDone, EphemeronDone, Settled, AllWeakDone, ValuesMarked, KeysMarked, MarkedSet;
  }

  lemma FactsRead(heap: Heap, c: Colors, dead: DeadKeys, heap': Heap, c': Colors, dead': DeadKeys)
    requires FactsKept(heap, c, dead, heap', c', dead')
    ensures heap'.Keys == heap.Keys && (forall x :: x in heap ==> heap'[x].kind == heap[x].kind)
    ensures Marks(c, c') && MarkedSet(heap, c) == MarkedSet(heap', c')
  {
  }

  lemma KeptKinds(heap: Heap, c: Colors, dead: DeadKeys, heap': Heap, c': Colors, dead': DeadKeys, h: Id)
    requires FactsKept(heap, c, dead, heap', c', dead') && h in heap
    ensures h in heap' && heap'[h].kind == heap[h].kind
  {
  }

  lemma TablesKept(heap: Heap, c: Colors, dead: DeadKeys, heap': Heap, c': Colors, dead': DeadKeys, l: seq<Id>)
    requires FactsKept(heap, c, dead, heap', c', dead') && forall h :: h in l ==> h in heap && heap[h].kind.Table?
    ensures forall h :: h in l ==> h in heap' && heap'[h].kind.Table?
  {
  }

  lemma KeptValues(heap: Heap, c: Colors, dead: DeadKeys, heap': Heap, c': Colors, dead': DeadKeys, h: Id)
    requires FactsKept(heap, c, dead, heap', c', dead') && ValuesMarked(heap, c, h)
    ensures ValuesMarked(heap', c', h)
  {
  }

  lemma KeptKeys(heap: Heap, c: Colors, dead: DeadKeys, heap': Heap, c': Colors, dead': DeadKeys, h: Id)
    requires FactsKept(heap, c, dead, heap', c', dead') && KeysMarked(heap, c, dead, h)
    ensures KeysMarked(heap', c', dead', h)
  {
  }

  lemma ListedTables(heap: Heap, c: Colors, dead: DeadKeys, grayagain: seq<Id>, weak: seq<Id>, allweak: seq<Id>,
      ephemeron: seq<Id>)
    requires MarkLists(heap, c, dead, Atomic, grayagain, weak, allweak, ephemeron)
    ensures forall h :: h in weak + allweak + ephemeron ==> h in heap && heap[h].kind.Table?
  {
  }

  lemma ListsKept(heap: Heap, c: Colors, dead: DeadKeys, heap': Heap, c': Colors, dead': DeadKeys,
      grayagain: seq<Id>, weak: seq<Id>, allweak: seq<Id>, ephemeron: seq<Id>)
    requires FactsKept(heap, c, dead, heap', c', dead') &&
      MarkLists(heap, c, dead, Atomic, grayagain, weak, allweak, ephemeron)
    requires forall h :: h in ephemeron ==> Settled(heap, c, h)
    ensures MarkLists(heap', c', dead', Atomic, grayagain, weak, allweak, ephemeron)
    ensures forall h :: h in ephemeron ==> Settled(heap', c', h)
  {
    hide AllMarked, WeakDone, EphemeronDone, Settled, AllWeakDone, ValuesMarked, KeysMarked, MarkedSet;
  }

  // One object through a trim of `h`, which may be the object itself.

  lemma TrimAllMarked(heap: Heap, c: Colors, dead: DeadKeys, heap': Heap, c': Colors, dead': DeadKeys, h: Id, x: Id)
    requires Trims(heap, c, dead, heap', c', dead', h) && AllMarked(heap, c, dead, x)
    ensures AllMarked(heap', c', dead', x)
  {
    forall i | 0 <= i < |heap'[x].nodes| ensures KeyMarked(c', dead', x, i, heap'[x].nodes[i]) &&
      IsMarked(c', heap'[x].nodes[i].val) {
      assert KeyMarked(c, dead, x, i, heap[x].nodes[i]) && IsMarked(c, heap[x].nodes[i].val);
    }
    forall i | 0 <= i < |heap'[x].slots| ensures IsMarked(c', heap'[x].slots[i]) {
      assert IsMarked(c, heap[x].slots[i]);
    }
  }

  lemma TrimWeak(heap: Heap, c: Colors, dead: DeadKeys, heap': Heap, c': Colors, dead': DeadKeys, h: Id, x: Id)
    requires Trims(heap, c, dead, heap', c', dead', h) && WeakDone(heap, c, dead, x)
    ensures WeakDone(heap', c', dead', x)
  {
    forall i | 0 <= i < |heap'[x].nodes| ensures KeyMarked(c', dead', x, i, heap'[x].nodes[i]) {
      assert KeyMarked(c, dead, x, i, heap[x].nodes[i]);
    }
  }

  lemma TrimEntry(heap: Heap, c: Colors, dead: DeadKeys, heap': Heap, c': Colors, dead': DeadKeys, h: Id, x: Id,
      i: int, ww: bool)
    requires Trims(heap, c, dead, heap', c', dead', h) && x in heap && 0 <= i < |heap[x].nodes|
    requires EntryDone(heap, c, dead, x, i, true, ww)
    ensures x in heap' && i < |heap'[x].nodes| && EntryDone(heap', c', dead', x, i, true, ww)
  {
  }

  lemma TrimEphemeron(heap: Heap, c: Colors, dead: DeadKeys, heap': Heap, c': Colors, dead': DeadKeys, h: Id, x: Id)
    requires Trims(heap, c, dead, heap', c', dead', h) && EphemeronDone(heap, c, dead, x)
    ensures EphemeronDone(heap', c', dead', x)
  {
    forall i | 0 <= i < |heap'[x].nodes| ensures EntryDone(heap', c', dead', x, i, true, true) {
      TrimEntry(heap, c, dead, heap', c', dead', h, x, i, true);
    }
    forall i | 0 <= i < |heap'[x].slots| ensures IsMarked(c', heap'[x].slots[i]) {
      assert IsMarked(c, heap[x].slots[i]);
    }
  }

  lemma TrimAllWeak(heap: Heap, c: Colors, dead: DeadKeys, heap': Heap, c': Colors, dead': DeadKeys, h: Id, x: Id)
    requires Trims(heap, c, dead, heap', c', dead', h) && AllWeakDone(heap, c, dead, x)
    ensures AllWeakDone(heap', c', dead', x)
  {
    if heap[x].kind == Table(Ephemeron) {
      forall i | 0 <= i < |heap'[x].nodes| ensures EntryDone(heap', c', dead', x, i, true, false) {
        TrimEntry(heap, c, dead, heap', c', dead', h, x, i, false);
      }
      forall i | 0 <= i < |heap'[x].slots| ensures IsMarked(c', heap'[x].slots[i]) {
        assert IsMarked(c, heap[x].slots[i]);
      }
    }
  }

  lemma TrimSettled(heap: Heap, c: Colors, dead: DeadKeys, heap': Heap, c': Colors, dead': DeadKeys, h: Id, x: Id)
    requires Trims(heap, c, dead, heap', c', dead', h) && Settled(heap, c, x)
    ensures Settled(heap', c', x)
  {
    forall k | 0 <= k < |heap'[x].nodes| ensures EntrySettled(heap', c', MarkedSet(heap', c'), x, k) {
      assert EntrySettled(heap, c, MarkedSet(heap, c), x, k);
    }
  }

  lemma TrimValues(heap: Heap, c: Colors, dead: DeadKeys, heap': Heap, c': Colors, dead': DeadKeys, h: Id, x: Id)
    requires Trims(heap, c, dead, heap', c', dead', h) && ValuesMarked(heap, c, x)
    ensures ValuesMarked(heap', c', x)
  {
    forall i | 0 <= i < |heap'[x].nodes| ensures IsMarked(c', heap'[x].nodes[i].val) {
      assert IsMarked(c, heap[x].nodes[i].val);
    }
    forall i | 0 <= i < |heap'[x].slots| ensures IsMarked(c', heap'[x].slots[i]) {
      assert IsMarked(c, heap[x].slots[i]);
    }
  }

  lemma TrimKeys(heap: Heap, c: Colors, dead: DeadKeys, heap': Heap, c': Colors, dead': DeadKeys, h: Id, x: Id)
    requires Trims(heap, c, dead, heap', c', dead', h) && KeysMarked(heap, c, dead, x)
    ensures KeysMarked(heap', c', dead', x)
  {
    forall i | 0 <= i < |heap'[x].nodes| ensures KeyMarked(c', dead', x, i, heap'[x].nodes[i]) {
      assert KeyMarked(c, dead, x, i, heap[x].nodes[i]);
    }
  }

  lemma TrimsFacts(heap: Heap, c: Colors, dead: DeadKeys, heap': Heap, c': Colors, dead': DeadKeys, h: Id)
    requires Trims(heap, c, dead, heap', c', dead', h)
    ensures FactsKept(heap, c, dead, heap', c', dead')
  {
    TrimRead(heap, c, dead, heap', c', dead', h);
    hide Trims, AllMarked, WeakDone, EphemeronDone, Settled, AllWeakDone, ValuesMarked, KeysMarked, MarkedSet;
    forall x ensures AllMarked(heap, c, dead, x) ==> AllMarked(heap', c', dead', x) {
      if AllMarked(heap, c, dead, x) { TrimAllMarked(heap, c, dead, heap', c', dead', h, x); }
    }
    forall x ensures WeakDone(heap, c, dead, x) ==> WeakDone(heap', c', dead', x) {
      if WeakDone(heap, c, dead, x) { TrimWeak(heap, c, dead, heap', c', dead', h, x); }
    }
    forall x ensures EphemeronDone(heap, c, dead, x) ==> EphemeronDone(heap', c', dead', x) {
      if EphemeronDone(heap, c, dead, x) { TrimEphemeron(heap, c, dead, heap', c', dead', h, x); }
    }
    forall x ensures Settled(heap, c, x) ==> Settled(heap', c', x) {
      if Settled(heap, c, x) { TrimSettled(heap, c, dead, heap', c', dead', h, x); }
    }
    forall x ensures AllWeakDone(heap, c, dead, x) ==> AllWeakDone(heap', c', dead', x) {
      if AllWeakDone(heap, c, dead, x) { TrimAllWeak(heap, c, dead, heap', c', dead', h, x); }
    }
    forall x ensures ValuesMarked(heap, c, x) ==> ValuesMarked(heap', c', x) {
      if ValuesMarked(heap, c, x) { TrimValues(heap, c, dead, heap', c', dead', h, x); }
    }
    forall x ensures KeysMarked(heap, c, dead, x) ==> KeysMarked(heap', c', dead', x) {
      if KeysMarked(heap, c, dead, x) { TrimKeys(heap, c, dead, heap', c', dead', h, x); }
    }
  }

  lemma TrimRead(heap: Heap, c: Colors, dead: DeadKeys, heap': Heap, c': Colors, dead': DeadKeys, h: Id)
    requires Trims(heap, c, dead, heap', c', dead', h)
    ensures heap'.Keys == heap.Keys && (forall x :: x in heap ==> heap'[x].kind == heap[x].kind)
    ensures Marks(c, c') && MarkedSet(heap, c) == MarkedSet(heap', c') && dead <= dead'
  {
  }

  // Each kind of cleared table has nothing unmarked left.

  lemma WeakCleared(heap: Heap, c: Colors, dead: DeadKeys, h: Id)
    requires WeakDone(heap, c, dead, h) && ValuesMarked(heap, c, h)
    ensures AllMarked(heap, c, dead, h)
  {
  }

  lemma AllWeakCleared(heap: Heap, c: Colors, dead: DeadKeys, h: Id)
    requires AllWeakDone(heap, c, dead, h) && ValuesMarked(heap, c, h) && KeysMarked(heap, c, dead, h)
    ensures AllMarked(heap, c, dead, h)
  {
  }

  lemma EphemeronCleared(heap: Heap, c: Colors, dead: DeadKeys, h: Id)
    requires EphemeronDone(heap, c, dead, h) && Settled(heap, c, h) && KeysMarked(heap, c, dead, h) &&
      DeadOk(heap, dead)
    requires heap.Keys == c.Keys
    ensures AllMarked(heap, c, dead, h)
  {
    forall i | 0 <= i < |heap[h].nodes| ensures IsMarked(c, heap[h].nodes[i].val) {
      assert EntrySettled(heap, c, MarkedSet(heap, c), h, i);
      assert KeyMarked(c, dead, h, i, heap[h].nodes[i]);
    }
  }

  lemma AllCleared(heap: Heap, c: Colors, dead: DeadKeys, bit: bool, l: multiset<Id>, m: set<Id>,
      grayagain: seq<Id>, weak: seq<Id>, allweak: seq<Id>, ephemeron: seq<Id>)
    requires Tricolor(heap, c, dead, bit, l, {}, m)
    requires l == multiset(grayagain) + multiset(weak) + multiset(allweak) + multiset(ephemeron)
    requires MarkLists(heap, c, dead, Atomic, grayagain, weak, allweak, ephemeron)
    requires forall h :: h in ephemeron ==> Settled(heap, c, h) && KeysMarked(heap, c, dead, h)
    requires forall h :: h in weak ==> ValuesMarked(heap, c, h)
    requires forall h :: h in allweak ==> ValuesMarked(heap, c, h) && KeysMarked(heap, c, dead, h)
    ensures forall o :: o in heap && o in c && !c[o].White? ==> AllMarked(heap, c, dead, o)
  {
    hide AllMarked, WeakDone, EphemeronDone, AllWeakDone, Settled, Closed, Within, ValuesMarked, KeysMarked;
    forall o | o in heap && o in c && !c[o].White? ensures AllMarked(heap, c, dead, o) {
      if c[o] == Gray {
        assert l[o] == 1;
        if o in weak {
          WeakCleared(heap, c, dead, o);
        } else if o in ephemeron {
          EphemeronCleared(heap, c, dead, o);
        } else if o in allweak {
          AllWeakCleared(heap, c, dead, o);
        } else {
          assert o in grayagain;
        }
      }
    }
  }

  lemma MarksNothing(heap: Heap, c: Colors)
    ensures Marks(c, c) && MarkedSet(heap, c) == MarkedSet(heap, c)
  {
  }

  lemma NodeTrimmed(heap: Heap, c: Colors, dead: DeadKeys, heap': Heap, c': Colors, dead': DeadKeys, h: Id, i: nat)
    requires h in heap && i < |heap[h].nodes| && (heap' == heap || heap' == heap[h := WithoutNode(heap[h], i)])
    requires Marks(c, c') && MarkedSet(heap, c) == MarkedSet(heap, c') && dead <= dead'
    requires heap'[h].nodes[i].val == Empty ==> KeyMarked(c', dead', h, i, heap'[h].nodes[i])
    ensures Trims(heap, c, dead, heap', c', dead', h)
  {
    SameMarkedSet(heap, heap', c');
  }

  lemma SameMarkedSet(heap: Heap, heap': Heap, c: Colors)
    requires heap.Keys == heap'.Keys && forall x :: x in heap ==> heap'[x].kind == heap[x].kind
    ensures MarkedSet(heap, c) == MarkedSet(heap', c)
  {
  }

  lemma TrimsNothing(heap: Heap, c: Colors, dead: DeadKeys, h: Id)
    requires h in heap
    ensures Trims(heap, c, dead, heap, c, dead, h)
  {
  }

  lemma TrimsReads(heap: Heap, c: Colors, dead: DeadKeys, heap': Heap, c': Colors, dead': DeadKeys, h: Id)
    requires Trims(heap, c, dead, heap', c', dead', h)
    ensures h in heap' && heap'[h].kind == heap[h].kind && |heap'[h].nodes| == |heap[h].nodes|
  {
  }

  lemma TrimsTwice(heap: Heap, c: Colors, dead: DeadKeys, heap': Heap, c': Colors, dead': DeadKeys,
      heap'': Heap, c'': Colors, dead'': DeadKeys, h: Id)
    requires Trims(heap, c, dead, heap', c', dead', h) && Trims(heap', c', dead', heap'', c'', dead'', h)
    ensures Trims(heap, c, dead, heap'', c'', dead'', h) && h in heap''
    ensures heap''[h].kind == heap'[h].kind && |heap''[h].slots| == |heap'[h].slots| &&
      |heap''[h].nodes| == |heap'[h].nodes|
  {
  }

  lemma SlotsTrimmed(heap: Heap, c: Colors, dead: DeadKeys, heap': Heap, c': Colors, dead': DeadKeys, h: Id, i: nat)
    requires Trims(heap, c, dead, heap', c', dead', h) && i < |heap'[h].slots| && MarkedUpTo(c, heap[h].slots, i)
    requires IsMarked(c', heap'[h].slots[i])
    ensures MarkedUpTo(c', heap'[h].slots, i + 1)
  {
    forall k | 0 <= k < i ensures IsMarked(c', heap'[h].slots[k]) {
      assert IsMarked(c, heap[h].slots[k]) && Kept(heap[h].slots[k], heap'[h].slots[k]);
    }
  }

  lemma AllSlotsTrimmed(heap: Heap, c: Colors, dead: DeadKeys, heap': Heap, c': Colors, dead': DeadKeys, h: Id)
    requires Trims(heap, c, dead, heap', c', dead', h) && SlotsMarked(c, heap[h].slots)
    ensures SlotsMarked(c', heap'[h].slots)
  {
    forall k | 0 <= k < |heap[h].slots| ensures IsMarked(c', heap'[h].slots[k]) {
      assert IsMarked(c, heap[h].slots[k]) && Kept(heap[h].slots[k], heap'[h].slots[k]);
    }
  }

  ghost predicate ValuesUpTo(heap: Heap, c: Colors, h: Id, n: int)
    requires h in heap && n <= |heap[h].nodes|
  {
    forall i :: 0 <= i < n ==> IsMarked(c, heap[h].nodes[i].val)
  }

  ghost predicate ValuesMarked(heap: Heap, c: Colors, h: Id) {
    h in heap && SlotsMarked(c, heap[h].slots) && ValuesUpTo(heap, c, h, |heap[h].nodes|)
  }

  ghost predicate KeysUpTo(heap: Heap, c: Colors, dead: DeadKeys, h: Id, n: int)
    requires h in heap && n <= |heap[h].nodes|
  {
    forall i :: 0 <= i < n ==> KeyMarked(c, dead, h, i, heap[h].nodes[i])
  }

  ghost predicate KeysMarked(heap: Heap, c: Colors, dead: DeadKeys, h: Id) {
    h in heap && KeysUpTo(heap, c, dead, h, |heap[h].nodes|)
  }

  lemma NoValues(heap: Heap, c: Colors, h: Id)
    requires h in heap
    ensures ValuesUpTo(heap, c, h, 0)
  {
  }

  lemma NoKeys(heap: Heap, c: Colors, dead: DeadKeys, h: Id)
    requires h in heap
    ensures KeysUpTo(heap, c, dead, h, 0)
  {
  }

  lemma ValuesAll(heap: Heap, c: Colors, h: Id)
    requires h in heap && SlotsMarked(c, heap[h].slots) && ValuesUpTo(heap, c, h, |heap[h].nodes|)
    ensures ValuesMarked(heap, c, h)
  {
  }

  lemma KeysAll(heap: Heap, c: Colors, dead: DeadKeys, h: Id)
    requires h in heap && KeysUpTo(heap, c, dead, h, |heap[h].nodes|)
    ensures KeysMarked(heap, c, dead, h)
  {
  }

  lemma ValuesTrimmed(heap: Heap, c: Colors, dead: DeadKeys, heap': Heap, c': Colors, dead': DeadKeys, h: Id, i: nat)
    requires Trims(heap, c, dead, heap', c', dead', h) && i < |heap'[h].nodes| && ValuesUpTo(heap, c, h, i)
    requires IsMarked(c', heap'[h].nodes[i].val)
    ensures ValuesUpTo(heap', c', h, i + 1)
  {
    forall k | 0 <= k < i ensures IsMarked(c', heap'[h].nodes[k].val) {
      assert IsMarked(c, heap[h].nodes[k].val) && Kept(heap[h].nodes[k].val, heap'[h].nodes[k].val);
    }
  }

  lemma KeysTrimmed(heap: Heap, c: Colors, dead: DeadKeys, heap': Heap, c': Colors, dead': DeadKeys, h: Id, i: nat)
    requires Trims(heap, c, dead, heap', c', dead', h) && i < |heap'[h].nodes| && KeysUpTo(heap, c, dead, h, i)
    requires KeyMarked(c', dead', h, i, heap'[h].nodes[i])
    ensures KeysUpTo(heap', c', dead', h, i + 1)
  {
    forall k | 0 <= k < i ensures KeyMarked(c', dead', h, k, heap'[h].nodes[k]) {
      assert KeyMarked(c, dead, h, k, heap[h].nodes[k]);
    }
  }

  function WithoutSlot(b: Object, i: nat): Object
    requires i < |b.slots|
  {
    b.(slots := b.slots[i := Empty])
  }

  function WithoutNode(b: Object, i: nat): Object
    requires i < |b.nodes|
  {
    b.(nodes := b.nodes[i := Node(b.nodes[i].key, Empty)])
  }

  /** `v'` is `v`, or was emptied. */
  predicate Kept(v: Val, v': Val) { v' == v || v' == Empty }

  ghost predicate TrimmedObject(b: Object, b': Object) {
    b'.kind == b.kind && b'.meta == b.meta && |b'.slots| == |b.slots| && |b'.nodes| == |b.nodes| &&
    (forall i :: 0 <= i < |b.slots| ==> Kept(b.slots[i], b'.slots[i])) &&
    (forall i :: 0 <= i < |b.nodes| ==> b'.nodes[i].key == b.nodes[i].key && Kept(b.nodes[i].val, b'.nodes[i].val))
  }

  /** Nothing was removed but references to objects outside `m`, and values under such keys. */
  ghost predicate PrunedObject(heap: Heap, m: set<Id>, b: Object, b': Object) {
    b'.kind == b.kind && b'.meta == b.meta && |b'.slots| == |b.slots| && |b'.nodes| == |b.nodes| &&
    (forall i :: 0 <= i < |b.slots| ==>
      b'.slots[i] == b.slots[i] || (b'.slots[i] == Empty && !Belongs(heap, m, b.slots[i]))) &&
    (forall i :: 0 <= i < |b.nodes| ==> PrunedEntry(heap, m, b.nodes[i], b'.nodes[i]))
  }

  predicate PrunedEntry(heap: Heap, m: set<Id>, n: Node, n': Node) {
    n'.key == n.key && (n'.val == n.val || (n'.val == Empty && !(Belongs(heap, m, n.key) && Belongs(heap, m, n.val))))
  }

  /** What is left has only been pruned. */
  ghost predicate Pruned(heap: Heap, heap': Heap, m: set<Id>) {
    forall o :: o in heap' ==> o in heap && PrunedObject(heap, m, heap[o], heap'[o])
  }

  lemma PrunedNothing(heap: Heap, m: set<Id>)
    ensures Pruned(heap, heap, m)
  {
  }

  lemma PrunedSlot(heap: Heap, m: set<Id>, h: Id, i: nat)
    requires h in heap && i < |heap[h].slots| && !Belongs(heap, m, heap[h].slots[i])
    ensures Pruned(heap, heap[h := WithoutSlot(heap[h], i)], m)
  {
  }

  lemma PrunedNode(heap: Heap, m: set<Id>, h: Id, i: nat)
    requires h in heap && i < |heap[h].nodes| &&
      !(Belongs(heap, m, heap[h].nodes[i].key) && Belongs(heap, m, heap[h].nodes[i].val))
    ensures Pruned(heap, heap[h := WithoutNode(heap[h], i)], m)
  {
  }

  lemma PrunedTwice(heap: Heap, heap': Heap, heap'': Heap, m: set<Id>)
    requires Pruned(heap, heap', m) && Pruned(heap', heap'', m) && heap'.Keys == heap.Keys
    ensures Pruned(heap, heap'', m)
  {
    forall o | o in heap'' ensures PrunedObject(heap, m, heap[o], heap''[o]) {
      PrunedObjectTwice(heap, heap', m, heap[o], heap'[o], heap''[o]);
    }
  }

  lemma PrunedObjectTwice(heap: Heap, heap': Heap, m: set<Id>, b: Object, b': Object, b'': Object)
    requires PrunedObject(heap, m, b, b') && PrunedObject(heap', m, b', b'')
    requires heap'.Keys == heap.Keys && forall x :: x in heap ==> heap'[x].kind == heap[x].kind
    ensures PrunedObject(heap, m, b, b'')
  {
    forall i | 0 <= i < |b.nodes| ensures PrunedEntry(heap, m, b.nodes[i], b''.nodes[i]) {
      assert PrunedEntry(heap, m, b.nodes[i], b'.nodes[i]) && PrunedEntry(heap', m, b'.nodes[i], b''.nodes[i]);
    }
  }

  /** Objects may have gone since. */
  lemma PrunedFewer(heap: Heap, heap': Heap, heap'': Heap, m: set<Id>)
    requires Pruned(heap, heap', m) && forall x :: x in heap'' ==> x in heap' && heap''[x] == heap'[x]
    ensures Pruned(heap, heap'', m)
  {
  }

  lemma PrunedKinds(heap: Heap, heap': Heap, m: set<Id>)
    requires Pruned(heap, heap', m)
    ensures forall x :: x in heap' ==> x in heap && heap'[x].kind == heap[x].kind
  {
  }

  lemma OutsideMarked(heap: Heap, c: Colors, v: Val)
    requires !IsMarked(c, v) && !IsLeaf(heap, v)
    ensures !Belongs(heap, MarkedSet(heap, c), v)
  {
  }

  /** Some references of the table `h` were removed, some strings marked, and the keys of the
      entries emptied were declared dead unless marked. */
  ghost predicate Trims(heap: Heap, c: Colors, dead: DeadKeys, heap': Heap, c': Colors, dead': DeadKeys, h: Id) {
    && h in heap && heap'.Keys == heap.Keys && (forall x :: x in heap && x != h ==> heap'[x] == heap[x])
    && TrimmedObject(heap[h], heap'[h])
    && Marks(c, c') && MarkedSet(heap, c) == MarkedSet(heap', c') && dead <= dead'
    && (forall i :: 0 <= i < |heap[h].nodes| && heap'[h].nodes[i].val == Empty && heap[h].nodes[i].val != Empty ==>
          KeyMarked(c', dead', h, i, heap'[h].nodes[i]))
  }

  lemma ClosedKept(heap: Heap, heap': Heap, m: set<Id>, h: Id)
    requires Closed(heap, m) && h in heap && h in heap' && heap' == heap[h := heap'[h]] &&
      TrimmedObject(heap[h], heap'[h])
    ensures Closed(heap', m)
  {
    forall o, v | o in m && o in heap' && Forces(heap', m, o, v) ensures Belongs(heap', m, v) {
      if v.Ref? {
        ForcesKept(heap, heap', m, h, o, v);
        assert Belongs(heap, m, v);
      }
    }
  }

  lemma ForcesKept(heap: Heap, heap': Heap, m: set<Id>, h: Id, o: Id, v: Val)
    requires h in heap && h in heap' && heap' == heap[h := heap'[h]] && TrimmedObject(heap[h], heap'[h])
    requires o in heap && v.Ref? && Forces(heap', m, o, v)
    ensures Forces(heap, m, o, v)
  {
    var b, b' := heap[o], heap'[o];
    if v in b'.slots {
      var i :| 0 <= i < |b'.slots| && b'.slots[i] == v;
      assert b.slots[i] == v;
    }
    if exists i :: 0 <= i < |b'.nodes| && v == b'.nodes[i].val && KeyHeld(heap', m, b'.nodes[i].key) {
      var i :| 0 <= i < |b'.nodes| && v == b'.nodes[i].val && KeyHeld(heap', m, b'.nodes[i].key);
      assert v == b.nodes[i].val && KeyHeld(heap, m, b.nodes[i].key);
    }
    if exists i :: 0 <= i < |b'.nodes| && b'.nodes[i].val != Empty && (v == b'.nodes[i].key || v == b'.nodes[i].val) {
      var i :| 0 <= i < |b'.nodes| && b'.nodes[i].val != Empty && (v == b'.nodes[i].key || v == b'.nodes[i].val);
      assert b.nodes[i].val != Empty && (v == b.nodes[i].key || v == b.nodes[i].val);
    }
  }

  lemma SoundKept(heap: Heap, heap': Heap, c: Colors, dead: DeadKeys, h: Id)
    requires Sound(heap, c, dead) && h in heap && h in heap' && heap' == heap[h := heap'[h]] && heap[h].kind.Table?
    requires TrimmedObject(heap[h], heap'[h])
    ensures Sound(heap', c, dead)
  {
    forall o | o in heap' ensures Shaped(heap'[o]) && RefsExist(heap', dead, o) {
      assert RefsExist(heap, dead, o);
    }
  }

  lemma BlacksKept(heap: Heap, heap': Heap, c: Colors, dead: DeadKeys, h: Id)
    requires BlacksOk(heap, c, dead, {}) && h in heap && h in heap' && heap' == heap[h := heap'[h]]
    requires TrimmedObject(heap[h], heap'[h])
    ensures BlacksOk(heap', c, dead, {})
  {
    forall x | x in heap' && x in c && c[x] == Black ensures AllMarked(heap', c, dead, x) {
      assert AllMarked(heap, c, dead, x);
    }
  }

  lemma TrimKeeps(heap: Heap, heap': Heap, c: Colors, dead: DeadKeys, bit: bool, l: multiset<Id>, m: set<Id>, h: Id)
    requires Tricolor(heap, c, dead, bit, l, {}, m) && h in heap && heap[h].kind.Table?
    requires h in heap' && heap' == heap[h := heap'[h]] && TrimmedObject(heap[h], heap'[h])
    ensures Tricolor(heap', c, dead, bit, l, {}, m)
  {
    hide AllMarked, Closed, Forces, RefsExist, BlacksOk;
    ClosedKept(heap, heap', m, h);
    SoundKept(heap, heap', c, dead, h);
    BlacksKept(heap, heap', c, dead, h);
  }

  lemma SlotEmptied(heap: Heap, c: Colors, dead: DeadKeys, bit: bool, l: multiset<Id>, m: set<Id>, h: Id, i: nat)
    requires Tricolor(heap, c, dead, bit, l, {}, m) && h in heap && heap[h].kind.Table? && i < |heap[h].slots|
    ensures Tricolor(heap[h := WithoutSlot(heap[h], i)], c, dead, bit, l, {}, m)
  {
    hide Tricolor;
    TrimKeeps(heap, heap[h := WithoutSlot(heap[h], i)], c, dead, bit, l, m, h);
  }

  lemma NodeEmptied(heap: Heap, c: Colors, dead: DeadKeys, bit: bool, l: multiset<Id>, m: set<Id>, h: Id, i: nat)
    requires Tricolor(heap, c, dead, bit, l, {}, m) && h in heap && heap[h].kind.Table? && i < |heap[h].nodes|
    ensures Tricolor(heap[h := WithoutNode(heap[h], i)], c, dead, bit, l, {}, m)
  {
    hide Tricolor;
    TrimKeeps(heap, heap[h := WithoutNode(heap[h], i)], c, dead, bit, l, m, h);
  }

  lemma RootsStay(c: Colors, c': Colors, main: Id, globals: seq<Val>)
    requires Grows(c, c') && IsMarked(c, Ref(main)) && SlotsMarked(c, globals)
    ensures IsMarked(c', Ref(main)) && SlotsMarked(c', globals)
  {
  }

  /** The marked values a fully visited object forces. */
  lemma AllMarkedForces(heap: Heap, c: Colors, dead: DeadKeys, o: Id, m: set<Id>, v: Val)
    requires o in heap && AllMarked(heap, c, dead, o) && DeadOk(heap, dead) && Shaped(heap[o])
    requires Forces(heap, m, o, v)
    ensures IsMarked(c, v)
  {
  }

  lemma WeakForces(heap: Heap, c: Colors, dead: DeadKeys, o: Id, m: set<Id>, v: Val)
    requires WeakDone(heap, c, dead, o) && DeadOk(heap, dead) && Forces(heap, m, o, v)
    ensures IsMarked(c, v)
  {
  }

  lemma EphemeronForces(heap: Heap, c: Colors, dead: DeadKeys, o: Id, v: Val)
    requires EphemeronDone(heap, c, dead, o) && Settled(heap, c, o) && Forces(heap, MarkedSet(heap, c), o, v)
    ensures IsMarked(c, v)
  {
    if v != heap[o].meta && v !in heap[o].slots {
      var i :| 0 <= i < |heap[o].nodes| && v == heap[o].nodes[i].val &&
        KeyHeld(heap, MarkedSet(heap, c), heap[o].nodes[i].key);
      assert EntrySettled(heap, c, MarkedSet(heap, c), o, i);
    }
  }

  lemma AllWeakForces(heap: Heap, c: Colors, dead: DeadKeys, o: Id, m: set<Id>, v: Val)
    requires AllWeakDone(heap, c, dead, o) && Forces(heap, m, o, v)
    ensures IsMarked(c, v)
  {
    if heap[o].kind == Table(Ephemeron) && v != heap[o].meta && v !in heap[o].slots {
      var i :| 0 <= i < |heap[o].nodes| && v == heap[o].nodes[i].val && KeyHeld(heap, m, heap[o].nodes[i].key);
      assert EntryDone(heap, c, dead, o, i, true, false);
    }
  }

  lemma MarkedForces(heap: Heap, c: Colors, dead: DeadKeys, bit: bool, l: multiset<Id>, m: set<Id>,
      grayagain: seq<Id>, weak: seq<Id>, allweak: seq<Id>, ephemeron: seq<Id>, o: Id, v: Val)
    requires Tricolor(heap, c, dead, bit, l, {}, m)
    requires l == multiset(grayagain) + multiset(weak) + multiset(allweak) + multiset(ephemeron)
    requires MarkLists(heap, c, dead, Atomic, grayagain, weak, allweak, ephemeron)
    requires forall h :: h in ephemeron ==> Settled(heap, c, h)
    requires o in MarkedSet(heap, c) && Forces(heap, MarkedSet(heap, c), o, v)
    ensures IsMarked(c, v)
  {
    hide AllMarked, WeakDone, EphemeronDone, AllWeakDone, Settled, Closed, Within, Forces;
    if c[o] == Black {
      AllMarkedForces(heap, c, dead, o, MarkedSet(heap, c), v);
    } else {
      assert l[o] == 1;
      if o in grayagain {
        AllMarkedForces(heap, c, dead, o, MarkedSet(heap, c), v);
      } else if o in weak {
        WeakForces(heap, c, dead, o, MarkedSet(heap, c), v);
      } else if o in ephemeron {
        EphemeronForces(heap, c, dead, o, v);
      } else {
        assert o in allweak;
        AllWeakForces(heap, c, dead, o, MarkedSet(heap, c), v);
      }
    }
  }

  /** Once marking is over, the marked objects are closed; being within every closed set that
      holds the first ones, they are the least such set. */
  lemma MarkedIsClosed(heap: Heap, c: Colors, dead: DeadKeys, bit: bool, l: multiset<Id>, m: set<Id>,
      grayagain: seq<Id>, weak: seq<Id>, allweak: seq<Id>, ephemeron: seq<Id>)
    requires Tricolor(heap, c, dead, bit, l, {}, m)
    requires l == multiset(grayagain) + multiset(weak) + multiset(allweak) + multiset(ephemeron)
    requires MarkLists(heap, c, dead, Atomic, grayagain, weak, allweak, ephemeron)
    requires forall h :: h in ephemeron ==> Settled(heap, c, h)
    ensures Closed(heap, MarkedSet(heap, c)) && MarkedSet(heap, c) <= m
  {
    Reads(heap, c, dead, bit, l, {}, m);
    hide Tricolor, MarkLists, Settled, Forces;
    forall o, v | o in MarkedSet(heap, c) && o in heap && Forces(heap, MarkedSet(heap, c), o, v)
      ensures Belongs(heap, MarkedSet(heap, c), v)
    {
      MarkedForces(heap, c, dead, bit, l, m, grayagain, weak, allweak, ephemeron, o, v);
    }
  }

  lemma GrowsTwice(c: Colors, c': Colors, c'': Colors)
    requires Grows(c, c') && Grows(c', c'')
    ensures Grows(c, c'')
  {
  }

  /** Taking a gray object out of the lists and turning it black. */
  lemma Popped(heap: Heap, c: Colors, dead: DeadKeys, bit: bool, l: multiset<Id>, m: set<Id>, o: Id)
    requires Tricolor(heap, c, dead, bit, l + multiset{o}, {}, m)
    ensures o in heap && o in m && o in c && !heap[o].kind.Leaf? && !heap[o].kind.Cell?
    ensures Tricolor(heap, c[o := Black], dead, bit, l, {o}, m)
    ensures Grows(c, c[o := Black]) && Whites(c[o := Black]) == Whites(c)
  {
    assert (l + multiset{o})[o] == l[o] + 1;
    BlacksStay(heap, c, c[o := Black], dead, {}, o);
    assert {} + {o} == {o};
  }

  lemma EphemeronReads(heap: Heap, c: Colors, dead: DeadKeys, h: Id)
    requires EphemeronDone(heap, c, dead, h)
    ensures h in heap && heap[h].kind == Table(Ephemeron) && IsMarked(c, heap[h].meta)
  {
  }

  /** What is listed is marked, so any closed set has it. */
  lemma AsideInClosed(heap: Heap, c: Colors, dead: DeadKeys, bit: bool, l: multiset<Id>, m: set<Id>, aside: seq<Id>,
      h: Id)
    requires Tricolor(heap, c, dead, bit, l, {}, m) && h in aside && multiset(aside) <= l
    ensures h in m
  {
    assert multiset(aside)[h] > 0;
    assert l[h] > 0;
  }

  lemma AllSettledStay(heap: Heap, c: Colors, c': Colors, l: seq<Id>)
    requires Grows(c, c') && MarkedSet(heap, c) == MarkedSet(heap, c')
    requires forall h :: h in l ==> Settled(heap, c, h)
    ensures forall h :: h in l ==> Settled(heap, c', h)
  {
    forall h | h in l ensures Settled(heap, c', h) {
      SettledStays(heap, c, c', h);
    }
  }

  lemma ManyEphemeronsStay(heap: Heap, c: Colors, c': Colors, dead: DeadKeys, dead': DeadKeys, l: seq<Id>)
    requires Grows(c, c') && dead <= dead' && forall h :: h in l ==> EphemeronDone(heap, c, dead, h)
    ensures forall h :: h in l ==> EphemeronDone(heap, c', dead', h)
  {
    forall h | h in l ensures EphemeronDone(heap, c', dead', h) {
      EphemeronStays(heap, c, c', dead, dead', h);
    }
  }

  lemma BlackStays(c: Colors, g: seq<Id>, c': Colors, g': seq<Id>, o: Id)
    requires Progress(c, g, c', g') && o in c && c[o] == Black
    ensures o in c' && c'[o] == Black
  {
  }

  lemma AdvanceChain(c: Colors, g: seq<Id>, c': Colors, g': seq<Id>, c'': Colors, g'': seq<Id>)
    requires Advance(c, g, c', g') && Advance(c', g', c'', g'')
    ensures Advance(c, g, c'', g'')
  {
  }

  lemma AllWeakAtOnce(heap: Heap, c: Colors, dead: DeadKeys, h: Id)
    requires h in heap && heap[h].kind == Table(AllWeak) && IsMarked(c, heap[h].meta)
    ensures AllWeakListed(heap, c, h)
  {
  }

  lemma UnmarkedAdvance(heap: Heap, c: Colors, g: seq<Id>, c': Colors, g': seq<Id>, marked: bool)
    requires Grows(c, c') && Whites(c') <= Whites(c) && (marked ==> Whites(c') < Whites(c)) && (!marked ==> g' == g)
    ensures Advance(c, g, c', g')
  {
    if Whites(c') != Whites(c) { assert Whites(c') < Whites(c); }
  }

  /** A step of marking, or of putting objects back, that lost nothing. */
  ghost predicate Advance(c: Colors, g: seq<Id>, c': Colors, g': seq<Id>) {
    Grows(c, c') && (Whites(c') < Whites(c) || (Whites(c') == Whites(c) && g' == g))
  }

  lemma ProgressAdvance(c: Colors, g: seq<Id>, c': Colors, g': seq<Id>)
    requires Progress(c, g, c', g')
    ensures Advance(c, g, c', g')
  {
  }

  lemma AdvanceTwice(c: Colors, g: seq<Id>, c': Colors, g': seq<Id>, c'': Colors, g'': seq<Id>)
    requires Grows(c, c') && Whites(c') == Whites(c) && g' == g && Advance(c', g', c'', g'')
    ensures Advance(c, g, c'', g'')
  {
  }

  lemma HolderVisited(heap: Heap, c: Colors, dead: DeadKeys, o: Id)
    requires o in heap && (heap[o].kind.Holder? || heap[o].kind.Thread?) && Shaped(heap[o])
    requires IsMarked(c, heap[o].meta) && SlotsMarked(c, heap[o].slots)
    ensures AllMarked(heap, c, dead, o)
  {
  }

  lemma TableVisited(heap: Heap, c: Colors, dead: DeadKeys, o: Id)
    requires o in heap && IsMarked(c, heap[o].meta) && SlotsMarked(c, heap[o].slots) &&
      NodesMarked(c, dead, o, heap[o].nodes)
    ensures AllMarked(heap, c, dead, o)
  {
  }

  lemma TurnGray(heap: Heap, c: Colors, dead: DeadKeys, bit: bool, l: multiset<Id>, m: set<Id>, o: Id)
    requires Tricolor(heap, c, dead, bit, l, {o}, m) && o in heap && c[o] == Black
    requires !heap[o].kind.Leaf? && !heap[o].kind.Cell?
    ensures Tricolor(heap, c[o := Gray], dead, bit, l + multiset{o}, {}, m)
    ensures Grows(c, c[o := Gray]) && Whites(c[o := Gray]) == Whites(c) &&
      MarkedSet(heap, c[o := Gray]) == MarkedSet(heap, c)
  {
    BlacksStay(heap, c, c[o := Gray], dead, {o}, o);
  }

  lemma ListedAgain(heap: Heap, c: Colors, dead: DeadKeys, phase: Phase,
      grayagain: seq<Id>, weak: seq<Id>, allweak: seq<Id>, ephemeron: seq<Id>, h: Id)
    requires MarkLists(heap, c, dead, phase, grayagain, weak, allweak, ephemeron)
    requires phase == Atomic ==> AllMarked(heap, c, dead, h)
    ensures MarkLists(heap, c, dead, phase, [h] + grayagain, weak, allweak, ephemeron)
  {
  }

  lemma ListedWeak(heap: Heap, c: Colors, dead: DeadKeys, phase: Phase,
      grayagain: seq<Id>, weak: seq<Id>, allweak: seq<Id>, ephemeron: seq<Id>, h: Id)
    requires MarkLists(heap, c, dead, phase, grayagain, weak, allweak, ephemeron)
    requires phase == Atomic && WeakDone(heap, c, dead, h)
    ensures MarkLists(heap, c, dead, phase, grayagain, [h] + weak, allweak, ephemeron)
  {
  }

  lemma ListedAllWeak(heap: Heap, c: Colors, dead: DeadKeys, phase: Phase,
      grayagain: seq<Id>, weak: seq<Id>, allweak: seq<Id>, ephemeron: seq<Id>, h: Id)
    requires MarkLists(heap, c, dead, phase, grayagain, weak, allweak, ephemeron)
    requires AllWeakListed(heap, c, h) || (phase == Atomic && AllWeakDone(heap, c, dead, h))
    ensures MarkLists(heap, c, dead, phase, grayagain, weak, [h] + allweak, ephemeron)
  {
  }

  lemma ListedEphemeron(heap: Heap, c: Colors, dead: DeadKeys, phase: Phase,
      grayagain: seq<Id>, weak: seq<Id>, allweak: seq<Id>, ephemeron: seq<Id>, h: Id)
    requires MarkLists(heap, c, dead, phase, grayagain, weak, allweak, ephemeron)
    requires phase == Atomic && EphemeronDone(heap, c, dead, h)
    ensures MarkLists(heap, c, dead, phase, grayagain, weak, allweak, [h] + ephemeron)
  {
  }

  lemma NothingScanned(heap: Heap, c: Colors, dead: DeadKeys, h: Id, inv: bool)
    requires h in heap
    ensures EntriesUpTo(heap, c, dead, h, 0, inv, false, false) && SettledUpTo(heap, c, h, 0, inv, MarkedSet(heap, c))
  {
  }

  lemma SlotsStay(c: Colors, c': Colors, vs: seq<Val>)
    requires Marks(c, c') && SlotsMarked(c, vs)
    ensures SlotsMarked(c', vs)
  {
    forall i | 0 <= i < |vs| ensures IsMarked(c', vs[i]) {
      MarkedStays(c, c', vs[i]);
    }
  }

  lemma AtomicStarts(heap: Heap, c: Colors, dead: DeadKeys, phase: Phase,
      grayagain: seq<Id>, weak: seq<Id>, allweak: seq<Id>, ephemeron: seq<Id>)
    requires MarkLists(heap, c, dead, phase, grayagain, weak, allweak, ephemeron) && phase != Atomic
    ensures MarkLists(heap, c, dead, Atomic, [], weak, allweak, ephemeron)
  {
  }
}
