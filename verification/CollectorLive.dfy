/**
 Which objects the collector of `lgc.c` takes for alive, and why nothing reachable is ever
 taken for dead.
 */
module CollectorLive {
  import opened CollectorHeap
  import opened CollectorInvariant

  /** Dead objects carry the white that is not current; while marking there are none. */
  predicate Live(c: Colors, bit: bool, x: Id) {
    x in c && c[x] != White(!bit)
  }

  predicate LiveVal(c: Colors, bit: bool, v: Val) {
    v.Ref? ==> Live(c, bit, v.id)
  }

  ghost predicate LiveObject(c: Colors, dead: DeadKeys, bit: bool, o: Id, b: Object) {
    && LiveVal(c, bit, b.meta)
    && (forall i :: 0 <= i < |b.slots| ==> LiveVal(c, bit, b.slots[i]))
    && (forall i :: 0 <= i < |b.nodes| ==>
      ((o, i) in dead || LiveVal(c, bit, b.nodes[i].key)) && LiveVal(c, bit, b.nodes[i].val))
  }

  /** Live objects refer to live ones, and the roots are live. */
  ghost predicate Consistent(heap: Heap, c: Colors, dead: DeadKeys, bit: bool, main: Id, globals: seq<Val>) {
    && heap.Keys == c.Keys && DeadOk(heap, dead)
    && (forall o :: o in heap ==> Shaped(heap[o]))
    && (forall o :: o in heap && Live(c, bit, o) ==> LiveObject(c, dead, bit, o, heap[o]))
    && main in heap && heap[main].kind.Thread? && Live(c, bit, main)
    && (forall i :: 0 <= i < |globals| ==> LiveVal(c, bit, globals[i]))
  }

  // ---- Reachability ----

  /** `o` refers to `x`, strongly or weakly; a dead key refers to nothing. */
  predicate PointsTo(heap: Heap, dead: DeadKeys, o: Id, x: Id) {
    o in heap && (
      heap[o].meta == Ref(x) || Ref(x) in heap[o].slots ||
      exists i :: 0 <= i < |heap[o].nodes| &&
        (heap[o].nodes[i].val == Ref(x) || (heap[o].nodes[i].key == Ref(x) && (o, i) !in dead)))
  }

  /** The objects met on the way from a root to the last one. */
  ghost predicate IsPath(heap: Heap, dead: DeadKeys, main: Id, globals: seq<Val>, p: seq<Id>) {
    p != [] && (p[0] == main || Ref(p[0]) in globals) &&
    forall i :: 0 < i < |p| ==> PointsTo(heap, dead, p[i - 1], p[i])
  }

  ghost predicate Reachable(heap: Heap, dead: DeadKeys, main: Id, globals: seq<Val>, x: Id) {
    exists p :: IsPath(heap, dead, main, globals, p) && p[|p| - 1] == x
  }

  lemma {:induction false} PathLive(heap: Heap, c: Colors, dead: DeadKeys, bit: bool, main: Id, globals: seq<Val>,
      p: seq<Id>)
    requires Consistent(heap, c, dead, bit, main, globals) && IsPath(heap, dead, main, globals, p)
    ensures p[|p| - 1] in heap && Live(c, bit, p[|p| - 1])
  {
    if |p| == 1 {
      if Ref(p[0]) in globals {
        var i :| 0 <= i < |globals| && globals[i] == Ref(p[0]);
        assert LiveVal(c, bit, globals[i]);
      }
    } else {
      PathLive(heap, c, dead, bit, main, globals, p[..|p| - 1]);
      var o, x := p[|p| - 2], p[|p| - 1];
      assert PointsTo(heap, dead, o, x);
      assert LiveObject(c, dead, bit, o, heap[o]);
      if Ref(x) in heap[o].slots {
        var i :| 0 <= i < |heap[o].slots| && heap[o].slots[i] == Ref(x);
        assert LiveVal(c, bit, heap[o].slots[i]);
      }
    }
  }

  /** Nothing reachable is dead. */
  lemma ReachableLive(heap: Heap, c: Colors, dead: DeadKeys, bit: bool, main: Id, globals: seq<Val>, x: Id)
    requires Consistent(heap, c, dead, bit, main, globals) && Reachable(heap, dead, main, globals, x)
    ensures x in heap && Live(c, bit, x)
  {
    var p :| IsPath(heap, dead, main, globals, p) && p[|p| - 1] == x;
    PathLive(heap, c, dead, bit, main, globals, p);
  }

  // ---- Between marking and sweeping ----

  lemma ConsistentSound(heap: Heap, c: Colors, dead: DeadKeys, bit: bool, main: Id, globals: seq<Val>)
    requires Consistent(heap, c, dead, bit, main, globals) && OneWhite(c, bit)
    ensures Sound(heap, c, dead)
    ensures forall i :: 0 <= i < |globals| ==> Exists(heap, globals[i])
  {
    forall o | o in heap ensures RefsExist(heap, dead, o) {
      assert LiveObject(c, dead, bit, o, heap[o]);
    }
    forall i | 0 <= i < |globals| ensures Exists(heap, globals[i]) {
      assert LiveVal(c, bit, globals[i]);
    }
  }

  lemma SoundConsistent(heap: Heap, c: Colors, dead: DeadKeys, bit: bool, main: Id, globals: seq<Val>)
    requires Sound(heap, c, dead) && OneWhite(c, bit) && main in heap && heap[main].kind.Thread?
    requires forall i :: 0 <= i < |globals| ==> Exists(heap, globals[i])
    ensures Consistent(heap, c, dead, bit, main, globals)
  {
    forall o | o in heap ensures LiveObject(c, dead, bit, o, heap[o]) {
      assert RefsExist(heap, dead, o);
    }
    forall i | 0 <= i < |globals| ensures LiveVal(c, bit, globals[i]) {
      assert Exists(heap, globals[i]);
    }
  }

  /** All objects form a closed set. */
  lemma EverythingClosed(heap: Heap, c: Colors, dead: DeadKeys)
    requires Sound(heap, c, dead)
    ensures Closed(heap, heap.Keys) && Within(heap, c, heap.Keys)
  {
    forall o, v | o in heap.Keys && o in heap && Forces(heap, heap.Keys, o, v) ensures Belongs(heap, heap.Keys, v) {
      assert RefsExist(heap, dead, o);
    }
  }

  /** Flipping the white when nothing dangles makes exactly the unmarked objects dead. */
  lemma Flipped(heap: Heap, c: Colors, dead: DeadKeys, bit: bool, main: Id, globals: seq<Val>)
    requires Sound(heap, c, dead) && OneWhite(c, bit) && main in heap && heap[main].kind.Thread?
    requires forall o :: o in heap && o in c && !c[o].White? ==> AllMarked(heap, c, dead, o)
    requires IsMarked(c, Ref(main)) && SlotsMarked(c, globals)
    ensures Consistent(heap, c, dead, !bit, main, globals)
    ensures forall x :: x in c ==> (Live(c, !bit, x) <==> !c[x].White?)
  {
    forall o | o in heap && Live(c, !bit, o) ensures LiveObject(c, dead, !bit, o, heap[o]) {
      assert AllMarked(heap, c, dead, o);
      forall i | 0 <= i < |heap[o].nodes|
        ensures ((o, i) in dead || LiveVal(c, !bit, heap[o].nodes[i].key)) && LiveVal(c, !bit, heap[o].nodes[i].val)
      {
        assert KeyMarked(c, dead, o, i, heap[o].nodes[i]) && IsMarked(c, heap[o].nodes[i].val);
      }
    }
  }

  // ---- The list of all objects and its sweep ----

  /** Where the sweep goes on: at a place of the list (never its head), or nowhere. */
  datatype Cursor = Finished | At(i: nat)

  ghost predicate AllWhite(c: Colors, bit: bool) {
    forall x :: x in c ==> c[x] == White(bit)
  }

  /** Identities are never used again. */
  ghost predicate IdsOk(c: Colors, next: Id, doomed: set<Id>) {
    (forall x :: x in c ==> x < next) && (forall x :: x in doomed ==> x < next)
  }

  function Position(cur: Cursor, allgc: seq<Id>): nat {
    match cur
    case Finished => |allgc|
    case At(i) => i
  }

  ghost predicate SweepOk(allgc: seq<Id>, c: Colors, bit: bool, cur: Cursor, doomed: set<Id>, freed: set<Id>) {
    Accounted(c, bit, doomed, freed) && Position(cur, allgc) <= |allgc| && SweptTo(allgc, c, bit, Position(cur, allgc))
  }

  ghost predicate Listed(allgc: seq<Id>, c: Colors) {
    (forall i, j :: 0 <= i < j < |allgc| ==> allgc[i] != allgc[j]) &&
    (forall x :: x in c <==> x in allgc)
  }

  /** The first `n` objects have been swept. */
  ghost predicate SweptTo(allgc: seq<Id>, c: Colors, bit: bool, n: int)
    requires n <= |allgc|
  {
    forall j :: 0 <= j < n ==> allgc[j] in c && c[allgc[j]] == White(bit)
  }

  /** The objects doomed by the flip are those freed since and those still to be freed. */
  ghost predicate Accounted(c: Colors, bit: bool, doomed: set<Id>, freed: set<Id>) {
    freed !! c.Keys && forall x :: x in doomed <==> x in freed || (x in c && c[x] == White(!bit))
  }

  /** Objects may have been freed, but only dead ones; the others have not changed. */
  ghost predicate OnlyDeadFreed(heap: Heap, c: Colors, bit: bool, heap': Heap, c': Colors) {
    (forall x :: x in heap' ==> x in heap && heap'[x] == heap[x] && (Live(c, bit, x) ==> Live(c', bit, x))) &&
    (forall x :: x in heap && x !in heap' ==> !Live(c, bit, x))
  }

  lemma NothingFreed(heap: Heap, c: Colors, bit: bool)
    ensures OnlyDeadFreed(heap, c, bit, heap, c)
  {
  }

  lemma FreedTwice(heap: Heap, c: Colors, bit: bool, heap': Heap, c': Colors, heap'': Heap, c'': Colors)
    requires OnlyDeadFreed(heap, c, bit, heap', c') && OnlyDeadFreed(heap', c', bit, heap'', c'')
    ensures OnlyDeadFreed(heap, c, bit, heap'', c'')
  {
  }

  lemma ListedAt(heap: Heap, c: Colors, dead: DeadKeys, bit: bool, main: Id, globals: seq<Val>, allgc: seq<Id>, i: nat)
    requires Consistent(heap, c, dead, bit, main, globals) && Listed(allgc, c) && i < |allgc|
    ensures allgc[i] in c && allgc[i] in heap && heap.Keys == c.Keys
  {
  }

  lemma FreedOne(heap: Heap, c: Colors, bit: bool, next: Id, doomed: set<Id>, x: Id)
    requires x in c && c[x] == White(!bit) && IdsOk(c, next, doomed) && heap.Keys == c.Keys
    ensures OnlyDeadFreed(heap, c, bit, heap - {x}, c - {x}) && IdsOk(c - {x}, next, doomed)
  {
  }

  lemma WhitenedOne(heap: Heap, c: Colors, bit: bool, next: Id, doomed: set<Id>, x: Id)
    requires x in c && IdsOk(c, next, doomed) && heap.Keys == c.Keys
    ensures OnlyDeadFreed(heap, c, bit, heap, c[x := White(bit)]) && IdsOk(c[x := White(bit)], next, doomed)
  {
  }

  lemma ListedStays(allgc: seq<Id>, c: Colors, c': Colors)
    requires Listed(allgc, c) && c'.Keys == c.Keys
    ensures Listed(allgc, c')
  {
    forall x ensures x in c' <==> x in allgc {
      assert x in c <==> x in allgc;
      assert x in c'.Keys <==> x in c.Keys;
    }
  }

  function Without<T>(s: seq<T>, i: nat): seq<T>
    requires i < |s|
  {
    s[..i] + s[i + 1..]
  }

  lemma FreeOne(heap: Heap, c: Colors, dead: DeadKeys, bit: bool, main: Id, globals: seq<Val>, x: Id)
    requires Consistent(heap, c, dead, bit, main, globals) && x in c && !Live(c, bit, x)
    ensures Consistent(heap - {x}, c - {x}, dead, bit, main, globals)
  {
    var heap', c' := heap - {x}, c - {x};
    forall o | o in heap' && Live(c', bit, o) ensures LiveObject(c', dead, bit, o, heap'[o]) {
      assert Live(c, bit, o) && LiveObject(c, dead, bit, o, heap[o]);
      forall i | 0 <= i < |heap[o].slots| ensures LiveVal(c', bit, heap'[o].slots[i]) {
        assert LiveVal(c, bit, heap[o].slots[i]);
      }
      forall i | 0 <= i < |heap[o].nodes|
        ensures ((o, i) in dead || LiveVal(c', bit, heap'[o].nodes[i].key)) && LiveVal(c', bit, heap'[o].nodes[i].val)
      {
        assert ((o, i) in dead || LiveVal(c, bit, heap[o].nodes[i].key)) && LiveVal(c, bit, heap[o].nodes[i].val);
      }
    }
    forall i | 0 <= i < |globals| ensures LiveVal(c', bit, globals[i]) {
      assert LiveVal(c, bit, globals[i]);
    }
  }

  lemma UnlinkOne(allgc: seq<Id>, c: Colors, bit: bool, i: nat)
    requires Listed(allgc, c) && i < |allgc| && SweptTo(allgc, c, bit, i)
    ensures Listed(Without(allgc, i), c - {allgc[i]}) && SweptTo(Without(allgc, i), c - {allgc[i]}, bit, i)
  {
    var l, x := Without(allgc, i), allgc[i];
    forall y ensures y in c - {x} <==> y in l {
      if y in l {
        var k :| 0 <= k < |l| && l[k] == y;
        assert y == allgc[if k < i then k else k + 1];
      }
      if y in c && y != x {
        var k :| 0 <= k < |allgc| && allgc[k] == y;
        assert y == l[if k < i then k else k - 1];
      }
    }
  }

  lemma FreeAccounted(c: Colors, bit: bool, doomed: set<Id>, freed: set<Id>, x: Id)
    requires Accounted(c, bit, doomed, freed) && x in c && c[x] == White(!bit)
    ensures Accounted(c - {x}, bit, doomed, freed + {x})
  {
  }

  /** A live object turns current white. */
  lemma WhitenOne(heap: Heap, c: Colors, dead: DeadKeys, bit: bool, main: Id, globals: seq<Val>, x: Id)
    requires Consistent(heap, c, dead, bit, main, globals) && Live(c, bit, x)
    ensures Consistent(heap, c[x := White(bit)], dead, bit, main, globals)
  {
    RecolorLive(heap, c, c[x := White(bit)], dead, bit, main, globals);
  }

  /** Which colour a live object has does not matter. */
  lemma RecolorLive(heap: Heap, c: Colors, c': Colors, dead: DeadKeys, bit: bool, main: Id, globals: seq<Val>)
    requires Consistent(heap, c, dead, bit, main, globals)
    requires c'.Keys == c.Keys && forall x :: x in c ==> (Live(c', bit, x) <==> Live(c, bit, x))
    ensures Consistent(heap, c', dead, bit, main, globals)
  {
    forall o | o in heap && Live(c', bit, o) ensures LiveObject(c', dead, bit, o, heap[o]) {
      assert LiveObject(c, dead, bit, o, heap[o]);
      forall i | 0 <= i < |heap[o].slots| ensures LiveVal(c', bit, heap[o].slots[i]) {
        assert LiveVal(c, bit, heap[o].slots[i]);
      }
      forall i | 0 <= i < |heap[o].nodes|
        ensures ((o, i) in dead || LiveVal(c', bit, heap[o].nodes[i].key)) && LiveVal(c', bit, heap[o].nodes[i].val)
      {
        assert ((o, i) in dead || LiveVal(c, bit, heap[o].nodes[i].key)) && LiveVal(c, bit, heap[o].nodes[i].val);
      }
    }
    forall i | 0 <= i < |globals| ensures LiveVal(c', bit, globals[i]) {
      assert LiveVal(c, bit, globals[i]);
    }
  }

  lemma SweptOneMore(allgc: seq<Id>, c: Colors, bit: bool, i: nat)
    requires Listed(allgc, c) && i < |allgc| && SweptTo(allgc, c, bit, i)
    ensures SweptTo(allgc, c[allgc[i] := White(bit)], bit, i + 1)
  {
  }

  lemma WhitenAccounted(c: Colors, bit: bool, doomed: set<Id>, freed: set<Id>, x: Id)
    requires Accounted(c, bit, doomed, freed) && Live(c, bit, x)
    ensures Accounted(c[x := White(bit)], bit, doomed, freed)
  {
  }

  // ---- New objects ----

  lemma NewConsistent(heap: Heap, c: Colors, dead: DeadKeys, bit: bool, main: Id, globals: seq<Val>, x: Id, b: Object)
    requires Consistent(heap, c, dead, bit, main, globals) && x !in heap && Shaped(b)
    requires b.meta == Plain && (forall i :: 0 <= i < |b.slots| ==> b.slots[i] == Plain) && b.nodes == []
    requires forall i :: (x, i) !in dead
    ensures Consistent(heap[x := b], c[x := White(bit)], dead, bit, main, globals)
  {
    var heap', c' := heap[x := b], c[x := White(bit)];
    forall o | o in heap' && Live(c', bit, o) ensures LiveObject(c', dead, bit, o, heap'[o]) {
      if o != x {
        assert LiveObject(c, dead, bit, o, heap[o]);
        forall i | 0 <= i < |heap[o].slots| ensures LiveVal(c', bit, heap[o].slots[i]) {
          assert LiveVal(c, bit, heap[o].slots[i]);
        }
        forall i | 0 <= i < |heap[o].nodes|
          ensures ((o, i) in dead || LiveVal(c', bit, heap[o].nodes[i].key)) && LiveVal(c', bit, heap[o].nodes[i].val)
        {
          assert ((o, i) in dead || LiveVal(c, bit, heap[o].nodes[i].key)) && LiveVal(c, bit, heap[o].nodes[i].val);
        }
      }
    }
    forall i | 0 <= i < |globals| ensures LiveVal(c', bit, globals[i]) {
      assert LiveVal(c, bit, globals[i]);
    }
  }

  // ---- Writes ----

  /** A write to a live object leaves the heap consistent if what is written is live. */
  lemma WriteConsistent(heap: Heap, c: Colors, dead: DeadKeys, dead': DeadKeys, bit: bool, main: Id,
      globals: seq<Val>, o: Id, b: Object)
    requires Consistent(heap, c, dead, bit, main, globals) && o in heap && Shaped(b) &&
      b.kind.Thread? == heap[o].kind.Thread?
    requires LiveObject(c, dead', bit, o, b)
    requires forall x, i :: x != o ==> ((x, i) in dead' <==> (x, i) in dead)
    requires forall i :: (o, i) in dead' ==> 0 <= i < |b.nodes| && b.nodes[i].val == Empty
    ensures Consistent(heap[o := b], c, dead', bit, main, globals)
  {
    forall x | x in heap && Live(c, bit, x) ensures LiveObject(c, dead', bit, x, heap[o := b][x]) {
      if x != o {
        assert LiveObject(c, dead, bit, x, heap[x]);
        forall i | 0 <= i < |heap[x].nodes|
          ensures ((x, i) in dead' || LiveVal(c, bit, heap[x].nodes[i].key)) && LiveVal(c, bit, heap[x].nodes[i].val)
        {
          assert ((x, i) in dead || LiveVal(c, bit, heap[x].nodes[i].key)) && LiveVal(c, bit, heap[x].nodes[i].val);
        }
      }
    }
  }

  // ---- Writes while marking ----

  /** Every reference of `o` is marked or one of `vs`. */
  predicate MarkedOr(c: Colors, vs: set<Val>, v: Val) {
    IsMarked(c, v) || v in vs
  }

  ghost predicate NearlyMarked(heap: Heap, c: Colors, dead: DeadKeys, o: Id, vs: set<Val>) {
    o in heap && MarkedOr(c, vs, heap[o].meta) &&
    (forall i :: 0 <= i < |heap[o].slots| ==> MarkedOr(c, vs, heap[o].slots[i])) &&
    (forall i :: 0 <= i < |heap[o].nodes| ==>
      ((o, i) in dead || MarkedOr(c, vs, heap[o].nodes[i].key)) && MarkedOr(c, vs, heap[o].nodes[i].val))
  }

  lemma NearlyDone(heap: Heap, c: Colors, dead: DeadKeys, o: Id, vs: set<Val>)
    requires NearlyMarked(heap, c, dead, o, vs) && forall v :: v in vs ==> IsMarked(c, v)
    ensures AllMarked(heap, c, dead, o)
  {
    forall i | 0 <= i < |heap[o].slots| ensures IsMarked(c, heap[o].slots[i]) {
      assert MarkedOr(c, vs, heap[o].slots[i]);
    }
    forall i | 0 <= i < |heap[o].nodes| ensures KeyMarked(c, dead, o, i, heap[o].nodes[i]) &&
      IsMarked(c, heap[o].nodes[i].val) {
      assert ((o, i) in dead || MarkedOr(c, vs, heap[o].nodes[i].key)) && MarkedOr(c, vs, heap[o].nodes[i].val);
    }
  }

  lemma NearlyStays(heap: Heap, c: Colors, c': Colors, dead: DeadKeys, o: Id, vs: set<Val>, v: Val)
    requires NearlyMarked(heap, c, dead, o, vs + {v}) && Grows(c, c') && IsMarked(c', v)
    ensures NearlyMarked(heap, c', dead, o, vs)
  {
    forall i | 0 <= i < |heap[o].slots| ensures MarkedOr(c', vs, heap[o].slots[i]) {
      assert MarkedOr(c, vs + {v}, heap[o].slots[i]);
    }
    forall i | 0 <= i < |heap[o].nodes|
      ensures ((o, i) in dead || MarkedOr(c', vs, heap[o].nodes[i].key)) && MarkedOr(c', vs, heap[o].nodes[i].val)
    {
      assert ((o, i) in dead || MarkedOr(c, vs + {v}, heap[o].nodes[i].key)) &&
        MarkedOr(c, vs + {v}, heap[o].nodes[i].val);
    }
  }

  /** The kinds that decide how an object is marked. */
  predicate SameSort(k: Kind, k': Kind) {
    k.Leaf? == k'.Leaf? && k.Cell? == k'.Cell? && k.Thread? == k'.Thread?
  }

  /** A write breaks the tri-colour invariant at most for the object written to, and only if
      that is black. */
  lemma WriteTricolor(heap: Heap, c: Colors, dead: DeadKeys, dead': DeadKeys, bit: bool, l: multiset<Id>, o: Id,
      b: Object)
    requires Tricolor(heap, c, dead, bit, l, {}, heap.Keys) && o in heap && SameSort(heap[o].kind, b.kind)
    requires Sound(heap[o := b], c, dead')
    requires forall x, i :: x != o ==> ((x, i) in dead' <==> (x, i) in dead)
    ensures Tricolor(heap[o := b], c, dead', bit, l, {o}, heap[o := b].Keys)
    ensures c[o] != Black ==> Tricolor(heap[o := b], c, dead', bit, l, {}, heap[o := b].Keys)
  {
    var heap' := heap[o := b];
    EverythingClosed(heap', c, dead');
    forall x | x in heap' && x in c && c[x] == Black && x != o ensures AllMarked(heap', c, dead', x) {
      assert AllMarked(heap, c, dead, x);
      forall i | 0 <= i < |heap[x].nodes| ensures KeyMarked(c, dead', x, i, heap[x].nodes[i]) &&
        IsMarked(c, heap[x].nodes[i].val) {
        assert KeyMarked(c, dead, x, i, heap[x].nodes[i]) && IsMarked(c, heap[x].nodes[i].val);
      }
    }
  }

  lemma NewTricolor(heap: Heap, c: Colors, dead: DeadKeys, bit: bool, l: multiset<Id>, x: Id, b: Object)
    requires Tricolor(heap, c, dead, bit, l, {}, heap.Keys) && x !in heap
    requires Sound(heap[x := b], c[x := White(bit)], dead)
    ensures Tricolor(heap[x := b], c[x := White(bit)], dead, bit, l, {}, heap[x := b].Keys)
  {
    var heap', c' := heap[x := b], c[x := White(bit)];
    EverythingClosed(heap', c', dead);
    forall y | y in heap' && y in c' && c'[y] == Black ensures AllMarked(heap', c', dead, y) {
      assert AllMarked(heap, c, dead, y);
      forall i | 0 <= i < |heap[y].slots| ensures IsMarked(c', heap[y].slots[i]) {
        assert IsMarked(c, heap[y].slots[i]);
      }
      forall i | 0 <= i < |heap[y].nodes| ensures KeyMarked(c', dead, y, i, heap[y].nodes[i]) &&
        IsMarked(c', heap[y].nodes[i].val) {
        assert KeyMarked(c, dead, y, i, heap[y].nodes[i]) && IsMarked(c, heap[y].nodes[i].val);
      }
    }
  }

  lemma NewListed(allgc: seq<Id>, c: Colors, bit: bool, x: Id)
    requires Listed(allgc, c) && x !in c
    ensures Listed([x] + allgc, c[x := White(bit)])
  {
    var l := [x] + allgc;
    forall i, j | 0 <= i < j < |l| ensures l[i] != l[j] {
      if i == 0 { assert l[j] == allgc[j - 1] && allgc[j - 1] in allgc; }
    }
  }

  lemma NewSwept(allgc: seq<Id>, c: Colors, bit: bool, x: Id, n: nat)
    requires n <= |allgc| && SweptTo(allgc, c, bit, n) && x !in c
    ensures SweptTo([x] + allgc, c[x := White(bit)], bit, n + 1)
  {
    var l := [x] + allgc;
    forall j | 0 <= j < n + 1 ensures l[j] in c[x := White(bit)] && c[x := White(bit)][l[j]] == White(bit) {
      if j > 0 { assert l[j] == allgc[j - 1]; }
    }
  }

  /** A closed set with what is marked serves as well as the whole heap. */
  lemma OtherClosed(heap: Heap, c: Colors, dead: DeadKeys, bit: bool, l: multiset<Id>, e: set<Id>, m: set<Id>,
      m': set<Id>)
    requires Tricolor(heap, c, dead, bit, l, e, m) && Closed(heap, m') && Within(heap, c, m')
    ensures Tricolor(heap, c, dead, bit, l, e, m')
  {
  }

  lemma EverythingTricolor(heap: Heap, c: Colors, dead: DeadKeys, bit: bool, l: multiset<Id>, e: set<Id>, m: set<Id>)
    requires Tricolor(heap, c, dead, bit, l, e, m)
    ensures Tricolor(heap, c, dead, bit, l, e, heap.Keys)
  {
    EverythingClosed(heap, c, dead);
  }

  lemma EmptyLists(heap: Heap, c: Colors, dead: DeadKeys, phase: Phase)
    ensures MarkLists(heap, c, dead, phase, [], [], [], [])
  {
  }

  lemma WhiteReads(c: Colors, bit: bool)
    requires AllWhite(c, bit)
    ensures OneWhite(c, bit)
  {
  }

  lemma TricolorWhite(heap: Heap, c: Colors, dead: DeadKeys, bit: bool, l: multiset<Id>, e: set<Id>, m: set<Id>)
    requires Tricolor(heap, c, dead, bit, l, e, m)
    ensures OneWhite(c, bit) && Sound(heap, c, dead) && heap.Keys == c.Keys
  {
  }

  /** At the start of a cycle all is white and no list holds anything. */
  lemma FreshTricolor(heap: Heap, c: Colors, dead: DeadKeys, bit: bool)
    requires Sound(heap, c, dead) && AllWhite(c, bit)
    ensures Tricolor(heap, c, dead, bit, multiset{}, {}, heap.Keys)
  {
    EverythingClosed(heap, c, dead);
  }

  lemma PhaseOnly(heap: Heap, c: Colors, dead: DeadKeys, grayagain: seq<Id>, weak: seq<Id>, allweak: seq<Id>,
      ephemeron: seq<Id>,
      phase: Phase, phase': Phase)
    requires MarkLists(heap, c, dead, phase, grayagain, weak, allweak, ephemeron) && phase != Atomic && phase' != Atomic
    ensures MarkLists(heap, c, dead, phase', grayagain, weak, allweak, ephemeron)
  {
  }

  /** Once the whole list has been swept, what was doomed is what was freed. */
  lemma AllSwept(heap: Heap, allgc: seq<Id>, c: Colors, dead: DeadKeys, bit: bool, main: Id, globals: seq<Val>,
      doomed: set<Id>, freed: set<Id>)
    requires Consistent(heap, c, dead, bit, main, globals) && Listed(allgc, c)
    requires Accounted(c, bit, doomed, freed) && SweptTo(allgc, c, bit, |allgc|)
    ensures AllWhite(c, bit) && freed == doomed && freed !! c.Keys && freed !! heap.Keys
  {
    forall x | x in c ensures c[x] == White(bit) {
      assert x in allgc;
    }
  }

  ghost predicate RootsKept(heap: Heap, kept: set<Id>, main: Id, globals: seq<Val>) {
    main in kept && forall i :: 0 <= i < |globals| ==> Belongs(heap, kept, globals[i])
  }

  lemma RootsAreKept(heap: Heap, c: Colors, main: Id, globals: seq<Val>)
    requires IsMarked(c, Ref(main)) && SlotsMarked(c, globals) && heap.Keys == c.Keys && main in heap &&
      heap[main].kind.Thread?
    ensures RootsKept(heap, MarkedSet(heap, c), main, globals)
  {
    forall i | 0 <= i < |globals| ensures Belongs(heap, MarkedSet(heap, c), globals[i]) {
      assert IsMarked(c, globals[i]);
    }
  }

  lemma MainReads(heap: Heap, c: Colors, dead: DeadKeys, bit: bool, main: Id, globals: seq<Val>)
    requires Consistent(heap, c, dead, bit, main, globals)
    ensures main in heap && heap[main].kind.Thread? && heap.Keys == c.Keys
  {
  }

  lemma MarkedGrows(heap: Heap, c: Colors, c': Colors)
    requires Grows(c, c')
    ensures MarkedSet(heap, c) <= MarkedSet(heap, c')
  {
  }

  lemma RootsMore(c: Colors, c': Colors, main: Id, globals: seq<Val>)
    requires Marks(c, c') && IsMarked(c, Ref(main)) && SlotsMarked(c, globals)
    ensures IsMarked(c', Ref(main)) && SlotsMarked(c', globals)
  {
    RootsStay(c, c', main, globals);
  }

  lemma MarksKeys(c: Colors, c': Colors)
    requires Marks(c, c')
    ensures c'.Keys == c.Keys
  {
  }

  lemma IdsStay(c: Colors, c': Colors, next: Id, doomed: set<Id>)
    requires IdsOk(c, next, doomed) && c'.Keys == c.Keys
    ensures IdsOk(c', next, doomed)
  {
    forall x | x in c' ensures x < next {
      assert x in c'.Keys;
    }
  }

  lemma MainStays(heap: Heap, heap': Heap, main: Id)
    requires main in heap && heap[main].kind.Thread? && heap'.Keys == heap.Keys
    requires forall x :: x in heap' ==> heap'[x].kind == heap[x].kind
    ensures main in heap' && heap'[main].kind.Thread?
  {
  }

  /** At the flip nothing has been freed and nothing swept. */
  lemma FlipAccounted(allgc: seq<Id>, c: Colors, bit: bool, next: Id, doomed: set<Id>)
    requires OneWhite(c, bit) && Listed(allgc, c) && IdsOk(c, next, doomed)
    ensures Accounted(c, !bit, Whites(c), {}) && SweptTo(allgc, c, !bit, 0) && IdsOk(c, next, Whites(c))
  {
  }

  lemma KeptOrDoomed(heap: Heap, c: Colors, kept: set<Id>)
    requires kept == MarkedSet(heap, c) && heap.Keys == c.Keys
    ensures forall x :: x in heap && heap[x].kind != Leaf ==> (x in Whites(c) <==> x !in kept)
  {
  }

  lemma FreedDoomed(heap: Heap, c: Colors, bit: bool, heap': Heap, c': Colors)
    requires OnlyDeadFreed(heap, c, bit, heap', c') && heap.Keys == c.Keys
    ensures forall x :: x in heap && x !in heap' ==> x in Whites(c)
  {
  }

  /** With a single white and the cycle given up, nothing is dead. */
  lemma NothingDoomed(allgc: seq<Id>, c: Colors, bit: bool, next: Id, doomed: set<Id>)
    requires OneWhite(c, bit) && IdsOk(c, next, doomed)
    ensures Accounted(c, bit, {}, {}) && SweptTo(allgc, c, bit, 0) && IdsOk(c, next, {})
    ensures forall x :: x in c ==> Live(c, bit, x)
  {
  }

  lemma NoneFreed(heap: Heap, c: Colors, bit: bool, heap': Heap, c': Colors)
    requires OnlyDeadFreed(heap, c, bit, heap', c') && heap.Keys == c.Keys && forall x :: x in c ==> Live(c, bit, x)
    ensures heap' == heap
  {
  }

  /** The listed tables stay as they were found, apart from a write that keeps them all weak
      with a marked metatable. */
  lemma WriteLists(heap: Heap, c: Colors, dead: DeadKeys, dead': DeadKeys, phase: Phase,
      grayagain: seq<Id>, weak: seq<Id>, allweak: seq<Id>, ephemeron: seq<Id>, o: Id, b: Object)
    requires MarkLists(heap, c, dead, phase, grayagain, weak, allweak, ephemeron) && phase != Atomic && o in heap
    requires o in allweak ==> b.kind == Table(AllWeak) && IsMarked(c, b.meta)
    ensures MarkLists(heap[o := b], c, dead', phase, grayagain, weak, allweak, ephemeron)
  {
  }

  lemma NotBlack(heap: Heap, c: Colors, dead: DeadKeys, bit: bool, l: multiset<Id>, m: set<Id>, o: Id)
    requires Tricolor(heap, c, dead, bit, l, {o}, m) && o in c && c[o] != Black
    ensures Tricolor(heap, c, dead, bit, l, {}, m)
  {
  }

  lemma ExceptMore(heap: Heap, c: Colors, dead: DeadKeys, bit: bool, l: multiset<Id>, m: set<Id>, o: Id)
    requires Tricolor(heap, c, dead, bit, l, {}, m)
    ensures Tricolor(heap, c, dead, bit, l, {o}, m)
  {
  }

  lemma NothingPending(heap: Heap, c: Colors, dead: DeadKeys, o: Id, v: Val)
    requires v.Ref? ==> v.id in c && (c[v.id].White? ==> o in c && c[o] != Black)
    ensures NearlyMarked(heap, c, dead, o, {v}) && o in c && c[o] == Black ==> NearlyMarked(heap, c, dead, o, {})
  {
    if NearlyMarked(heap, c, dead, o, {v}) && o in c && c[o] == Black {
      OnePending(heap, c, dead, o, {}, v);
    }
  }

  lemma OnePending(heap: Heap, c: Colors, dead: DeadKeys, o: Id, vs: set<Val>, v: Val)
    requires v.Ref? ==> v.id in c && (c[v.id].White? ==> o in c && c[o] != Black)
    ensures NearlyMarked(heap, c, dead, o, vs + {v}) && o in c && c[o] == Black ==> NearlyMarked(heap, c, dead, o, vs)
  {
    if NearlyMarked(heap, c, dead, o, vs + {v}) && o in c && c[o] == Black {
      NearlyStays(heap, c, c, dead, o, vs, v);
    }
  }

  lemma NotAllWhite(c: Colors, bit: bool, o: Id)
    requires o in c && !c[o].White?
    ensures !AllWhite(c, bit)
  {
  }

  /** A live object that has not been swept yet may change its colour. */
  lemma SweptKeeps(allgc: seq<Id>, c: Colors, bit: bool, n: nat, o: Id, color: Color)
    requires n <= |allgc| && SweptTo(allgc, c, bit, n) && o in c && !c[o].White?
    ensures SweptTo(allgc, c[o := color], bit, n)
  {
  }

  lemma GrayAccounted(c: Colors, bit: bool, doomed: set<Id>, freed: set<Id>, o: Id)
    requires Accounted(c, bit, doomed, freed) && o in c && !c[o].White?
    ensures Accounted(c[o := Gray], bit, doomed, freed)
  {
  }

  lemma AgainListed(heap: Heap, c: Colors, dead: DeadKeys, phase: Phase,
      grayagain: seq<Id>, weak: seq<Id>, allweak: seq<Id>, ephemeron: seq<Id>)
    requires grayagain != [] && phase != Atomic &&
      MarkLists(heap, c, dead, phase, grayagain[1..], weak, allweak, ephemeron)
    ensures MarkLists(heap, c, dead, phase, grayagain, weak, allweak, ephemeron)
  {
  }

  lemma MainLive(heap: Heap, c: Colors, dead: DeadKeys, bit: bool, main: Id, globals: seq<Val>, v: Val)
    requires Consistent(heap, c, dead, bit, main, globals) && (v.Ref? ==> v in heap[main].slots)
    ensures LiveVal(c, bit, v) && (v.Ref? ==> v.id in heap)
  {
    if v.Ref? {
      var i :| 0 <= i < |heap[main].slots| && heap[main].slots[i] == v;
      assert LiveObject(c, dead, bit, main, heap[main]);
      assert LiveVal(c, bit, heap[main].slots[i]);
    }
  }

  lemma PointedLive(heap: Heap, c: Colors, dead: DeadKeys, bit: bool, main: Id, globals: seq<Val>, o: Id, x: Id)
    requires Consistent(heap, c, dead, bit, main, globals) && Live(c, bit, o) && PointsTo(heap, dead, o, x)
    ensures Live(c, bit, x)
  {
    assert LiveObject(c, dead, bit, o, heap[o]);
    if Ref(x) in heap[o].slots {
      var i :| 0 <= i < |heap[o].slots| && heap[o].slots[i] == Ref(x);
      assert LiveVal(c, bit, heap[o].slots[i]);
    }
  }

  /** The dead keys of other objects. */
  function Forget(dead: DeadKeys, x: Id): DeadKeys {
    set p | p in dead && p.0 != x
  }

  lemma FreshId(heap: Heap, c: Colors, dead: DeadKeys, bit: bool, main: Id, globals: seq<Val>, next: Id,
      doomed: set<Id>)
    requires Consistent(heap, c, dead, bit, main, globals) && IdsOk(c, next, doomed)
    ensures next !in heap && next !in c && next !in doomed
  {
  }

  /** Dead keys of no object at all can be forgotten. */
  lemma UnusedDead(heap: Heap, c: Colors, dead: DeadKeys, dead': DeadKeys, bit: bool, main: Id, globals: seq<Val>,
      x: Id)
    requires Consistent(heap, c, dead, bit, main, globals) && x !in heap && dead' == Forget(dead, x)
    ensures Consistent(heap, c, dead', bit, main, globals) && forall i :: (x, i) !in dead'
  {
    forall o | o in heap && Live(c, bit, o) ensures LiveObject(c, dead', bit, o, heap[o]) {
      assert LiveObject(c, dead, bit, o, heap[o]);
      forall i | 0 <= i < |heap[o].nodes|
        ensures ((o, i) in dead' || LiveVal(c, bit, heap[o].nodes[i].key)) && LiveVal(c, bit, heap[o].nodes[i].val)
      {
        assert ((o, i) in dead || LiveVal(c, bit, heap[o].nodes[i].key)) && LiveVal(c, bit, heap[o].nodes[i].val);
        assert (o, i) in dead ==> (o, i) in dead';
      }
    }
  }

  lemma DeadTricolor(heap: Heap, c: Colors, dead: DeadKeys, dead': DeadKeys, bit: bool, l: multiset<Id>, x: Id)
    requires Tricolor(heap, c, dead, bit, l, {}, heap.Keys) && x !in heap && dead' == Forget(dead, x)
    ensures Tricolor(heap, c, dead', bit, l, {}, heap.Keys)
  {
    forall o | o in heap ensures RefsExist(heap, dead', o) &&
      (AllMarked(heap, c, dead, o) ==> AllMarked(heap, c, dead', o)) {
      assert RefsExist(heap, dead, o);
      forall i ensures (o, i) in dead ==> (o, i) in dead' {
      }
      if AllMarked(heap, c, dead, o) {
        forall i | 0 <= i < |heap[o].nodes| ensures KeyMarked(c, dead', o, i, heap[o].nodes[i]) {
          assert KeyMarked(c, dead, o, i, heap[o].nodes[i]);
        }
      }
    }
  }

  lemma NewLists(heap: Heap, c: Colors, dead: DeadKeys, dead': DeadKeys, phase: Phase,
      grayagain: seq<Id>, weak: seq<Id>, allweak: seq<Id>, ephemeron: seq<Id>, x: Id, b: Object, bit: bool)
    requires MarkLists(heap, c, dead, phase, grayagain, weak, allweak, ephemeron) && phase != Atomic && x !in heap &&
      x !in c
    ensures MarkLists(heap[x := b], c[x := White(bit)], dead', phase, grayagain, weak, allweak, ephemeron)
  {
  }

  lemma NewAccounted(c: Colors, bit: bool, doomed: set<Id>, freed: set<Id>, x: Id)
    requires Accounted(c, bit, doomed, freed) && x !in c && x !in doomed
    ensures Accounted(c[x := White(bit)], bit, doomed, freed)
  {
  }

  lemma NewWhite(c: Colors, bit: bool, x: Id, doomed: set<Id>, freed: set<Id>)
    requires AllWhite(c, bit) && freed == doomed && freed !! c.Keys && x !in doomed
    ensures AllWhite(c[x := White(bit)], bit) && freed !! c[x := White(bit)].Keys
  {
  }

  lemma NewIds(c: Colors, next: Id, doomed: set<Id>, bit: bool)
    requires IdsOk(c, next, doomed)
    ensures IdsOk(c[next := White(bit)], next + 1, doomed)
  {
  }

  lemma NewSweepOk(allgc: seq<Id>, c: Colors, bit: bool, cur: Cursor, doomed: set<Id>, freed: set<Id>, x: Id)
    requires SweepOk(allgc, c, bit, cur, doomed, freed) && x !in c && x !in doomed
    ensures SweepOk([x] + allgc, c[x := White(bit)], bit, if cur.At? then At(cur.i + 1) else cur, doomed, freed)
  {
    NewSwept(allgc, c, bit, x, Position(cur, allgc));
    NewAccounted(c, bit, doomed, freed, x);
  }

  lemma BlackFacts(heap: Heap, c: Colors, dead: DeadKeys, bit: bool, l: multiset<Id>, m: set<Id>, o: Id)
    requires Tricolor(heap, c, dead, bit, l, {}, m) && o in heap && o in c && c[o] == Black
    ensures AllMarked(heap, c, dead, o) && !heap[o].kind.Thread? && l[o] == 0
  {
  }

  lemma SlotWrite(heap: Heap, c: Colors, dead: DeadKeys, bit: bool, o: Id, i: nat, v: Val)
    requires o in heap && i < |heap[o].slots| && LiveObject(c, dead, bit, o, heap[o]) && LiveVal(c, bit, v) &&
      Shaped(heap[o])
    ensures var b := heap[o].(slots := heap[o].slots[i := v]);
      Shaped(b) && LiveObject(c, dead, bit, o, b) &&
        (AllMarked(heap, c, dead, o) ==> NearlyMarked(heap[o := b], c, dead, o, {v}))
  {
    var b := heap[o].(slots := heap[o].slots[i := v]);
    if AllMarked(heap, c, dead, o) {
      forall k | 0 <= k < |b.nodes| ensures ((o, k) in dead || MarkedOr(c, {v}, b.nodes[k].key)) &&
        MarkedOr(c, {v}, b.nodes[k].val) {
        assert KeyMarked(c, dead, o, k, heap[o].nodes[k]) && IsMarked(c, heap[o].nodes[k].val);
      }
    }
  }

  function WithNode(b: Object, i: nat, n: Node): Object
    requires i <= |b.nodes|
  {
    b.(nodes := if i < |b.nodes| then b.nodes[i := n] else b.nodes + [n])
  }

  function WithMeta(b: Object, v: Val, mode: Mode): Object {
    b.(meta := v, kind := if b.kind.Table? then Table(mode) else b.kind)
  }

  lemma NodeRead(c: Colors, dead: DeadKeys, bit: bool, o: Id, b: Object, i: nat)
    requires LiveObject(c, dead, bit, o, b) && i < |b.nodes| && (o, i as int) !in dead
    ensures LiveVal(c, bit, b.nodes[i].key)
  {
  }

  lemma NodeWrite(heap: Heap, c: Colors, dead: DeadKeys, dead': DeadKeys, bit: bool, o: Id, i: nat, n: Node)
    requires o in heap && heap[o].kind.Table? && i <= |heap[o].nodes| && LiveObject(c, dead, bit, o, heap[o]) &&
      Shaped(heap[o])
    requires LiveVal(c, bit, n.key) && LiveVal(c, bit, n.val) && dead' == dead - {(o, i as int)}
    requires forall k :: (o, k) in dead ==> 0 <= k < |heap[o].nodes| && heap[o].nodes[k].val == Empty
    ensures var b := WithNode(heap[o], i, n);
      Shaped(b) && LiveObject(c, dead', bit, o, b) && SameSort(heap[o].kind, b.kind) &&
      (forall k :: (o, k) in dead' ==> 0 <= k < |b.nodes| && b.nodes[k].val == Empty) &&
      (AllMarked(heap, c, dead, o) ==> NearlyMarked(heap[o := b], c, dead', o, {n.key, n.val}))
  {
    var b := WithNode(heap[o], i, n);
    forall k | 0 <= k < |b.nodes| ensures ((o, k) in dead' || LiveVal(c, bit, b.nodes[k].key)) &&
      LiveVal(c, bit, b.nodes[k].val) {
      if k != i { assert ((o, k) in dead || LiveVal(c, bit, heap[o].nodes[k].key)) &&
        LiveVal(c, bit, heap[o].nodes[k].val); }
    }
    if AllMarked(heap, c, dead, o) {
      forall k | 0 <= k < |b.nodes|
        ensures ((o, k) in dead' || MarkedOr(c, {n.key, n.val}, b.nodes[k].key)) &&
          MarkedOr(c, {n.key, n.val}, b.nodes[k].val)
      {
        if k != i { assert KeyMarked(c, dead, o, k, heap[o].nodes[k]) && IsMarked(c, heap[o].nodes[k].val); }
      }
    }
  }

  /** With its old key, an entry has only its value to be marked. */
  lemma KeyKept(heap: Heap, c: Colors, dead: DeadKeys, o: Id, i: nat, n: Node)
    requires o in heap && i < |heap[o].nodes| && n.key == heap[o].nodes[i].key && (o, i as int) !in dead
    ensures AllMarked(heap, c, dead, o) && NearlyMarked(heap[o := WithNode(heap[o], i, n)], c, dead, o, {n.key, n.val})
      ==> NearlyMarked(heap[o := WithNode(heap[o], i, n)], c, dead, o, {n.val})
  {
    if AllMarked(heap, c, dead, o) && NearlyMarked(heap[o := WithNode(heap[o], i, n)], c, dead, o, {n.key, n.val}) {
      assert KeyMarked(c, dead, o, i, heap[o].nodes[i]);
      assert {n.key, n.val} == {n.val} + {n.key};
      NearlyStays(heap[o := WithNode(heap[o], i, n)], c, c, dead, o, {n.val}, n.key);
    }
  }

  lemma MetaWrite(heap: Heap, c: Colors, dead: DeadKeys, bit: bool, o: Id, v: Val, mode: Mode)
    requires o in heap && LiveObject(c, dead, bit, o, heap[o]) && LiveVal(c, bit, v) && Shaped(heap[o])
    requires heap[o].kind.Holder? || heap[o].kind.Table?
    ensures var b := WithMeta(heap[o], v, mode);
      Shaped(b) && LiveObject(c, dead, bit, o, b) && SameSort(heap[o].kind, b.kind) &&
      (AllMarked(heap, c, dead, o) ==> NearlyMarked(heap[o := b], c, dead, o, {v}))
  {
    if AllMarked(heap, c, dead, o) {
      forall k | 0 <= k < |heap[o].nodes|
        ensures ((o, k) in dead || MarkedOr(c, {v}, heap[o].nodes[k].key)) && MarkedOr(c, {v}, heap[o].nodes[k].val)
      {
        assert KeyMarked(c, dead, o, k, heap[o].nodes[k]) && IsMarked(c, heap[o].nodes[k].val);
      }
    }
  }

  lemma WhiteWithin(heap: Heap, c: Colors, bit: bool, m: set<Id>)
    requires AllWhite(c, bit)
    ensures Within(heap, c, m)
  {
  }

  lemma DeadDoomed(heap: Heap, c: Colors, bit: bool, doomed: set<Id>, freed: set<Id>, heap': Heap, c': Colors,
      dead: DeadKeys, main: Id, globals: seq<Val>)
    requires OnlyDeadFreed(heap, c, bit, heap', c') && Accounted(c, bit, doomed, freed)
    requires Consistent(heap, c, dead, bit, main, globals)
    ensures forall x :: x in heap && x !in heap' ==> x in doomed
  {
    forall x | x in heap && x !in heap' ensures x in doomed {
      assert x in c && !Live(c, bit, x);
    }
  }

  /** Objects may have gone, but none has changed its kind. */
  ghost predicate SameKinds(heap: Heap, heap': Heap) {
    forall x :: x in heap' ==> x in heap && heap'[x].kind == heap[x].kind
  }

  lemma SweepKinds(heap0: Heap, heap: Heap, c: Colors, bit: bool, heap': Heap, c': Colors)
    requires SameKinds(heap0, heap) && OnlyDeadFreed(heap, c, bit, heap', c')
    ensures SameKinds(heap0, heap')
  {
  }

  lemma MarkedLess(heap: Heap, c: Colors, c': Colors)
    requires Grows(c, c') || c == c'
    ensures MarkedSet(heap, c) <= MarkedSet(heap, c')
  {
  }

  /** Nothing live has died, and while marking nothing marked has lost its mark. */
  ghost predicate Spares(c: Colors, bit: bool, marking: bool, c': Colors) {
    forall x :: Live(c, bit, x) ==> Live(c', bit, x) && (marking && !c[x].White? ==> !c'[x].White?)
  }

  lemma SparesSame(c: Colors, bit: bool, marking: bool)
    ensures Spares(c, bit, marking, c)
  {
  }

  lemma SparesMarks(c: Colors, bit: bool, c': Colors)
    requires Marks(c, c')
    ensures Spares(c, bit, true, c')
  {
  }

  lemma SparesOne(c: Colors, bit: bool, marking: bool, o: Id, now: Color)
    requires now == Gray || (now == White(bit) && !marking)
    ensures Spares(c, bit, marking, c[o := now])
  {
  }

  lemma SparesTwice(c: Colors, bit: bool, marking: bool, c': Colors, c'': Colors)
    requires Spares(c, bit, marking, c') && Spares(c', bit, marking, c'')
    ensures Spares(c, bit, marking, c'')
  {
  }

  lemma SparesVal(c: Colors, bit: bool, marking: bool, c': Colors, v: Val)
    requires Spares(c, bit, marking, c') && LiveVal(c, bit, v)
    ensures LiveVal(c', bit, v)
  {
  }

  /** The sweep frees dead objects only. */
  lemma SparesFreed(heap: Heap, c: Colors, bit: bool, heap': Heap, c': Colors)
    requires heap.Keys == c.Keys && OnlyDeadFreed(heap, c, bit, heap', c')
    ensures Spares(c, bit, false, c')
  {
    forall x | Live(c, bit, x) ensures Live(c', bit, x) {
      assert x in heap;
    }
  }

  lemma AllSpared(heap: Heap, c: Colors, bit: bool, heap': Heap, c': Colors)
    requires heap.Keys == c.Keys && OneWhite(c, bit) && OnlyDeadFreed(heap, c, bit, heap', c')
    ensures forall x :: x in heap' ==> Live(c', bit, x)
  {
    forall x | x in heap' ensures Live(c', bit, x) {
      assert Live(c, bit, x);
    }
  }

  /** What was marked before the white flipped is not doomed. */
  lemma MarkedSurvive(heap: Heap, c: Colors, kept: set<Id>, heap': Heap, c': Colors, bit: bool, doomed: set<Id>,
      freed: set<Id>)
    requires MarkedSet(heap, c) <= kept && heap'.Keys == c'.Keys && Accounted(c', bit, doomed, freed)
    requires forall x :: x in heap && heap[x].kind != Leaf ==> (x in doomed <==> x !in kept)
    requires forall x :: x in heap && x !in heap' ==> x in doomed
    ensures MarkedSet(heap, c) <= LiveSet(c', bit)
  {
  }

  ghost function LiveSet(c: Colors, bit: bool): set<Id> {
    set x | x in c && Live(c, bit, x)
  }

  lemma SweptPruned(heap0: Heap, heap: Heap, c: Colors, bit: bool, heap': Heap, c': Colors, m: set<Id>)
    requires Pruned(heap0, heap, m) && OnlyDeadFreed(heap, c, bit, heap', c')
    ensures Pruned(heap0, heap', m)
  {
    PrunedFewer(heap0, heap, heap', m);
  }

  /** What a step of the collector from `heap` to `heap'` leaves alone: `m` holds the roots and is
      closed, all of it is still there, and only objects outside it, and references to them, have
      gone. */
  ghost predicate Collected(heap: Heap, heap': Heap, m: set<Id>, main: Id, globals: seq<Val>) {
    Closed(heap, m) && RootsKept(heap, m, main, globals) && m <= heap'.Keys && Pruned(heap, heap', m)
  }

  /** `taken` differs from `heap` in the modes of tables and in metatables that are live. */
  ghost predicate TakenFor(heap: Heap, c: Colors, bit: bool, taken: Heap) {
    taken.Keys == heap.Keys &&
    forall o :: o in heap ==>
      taken[o].slots == heap[o].slots && taken[o].nodes == heap[o].nodes &&
      (taken[o].kind == Leaf <==> heap[o].kind == Leaf) && (Live(c, bit, o) ==> LiveVal(c, bit, taken[o].meta))
  }

  /** The live objects hold the roots and are closed, whatever the tables' modes. */
  lemma LiveClosed(heap: Heap, c: Colors, dead: DeadKeys, bit: bool, main: Id, globals: seq<Val>, taken: Heap)
    requires Consistent(heap, c, dead, bit, main, globals) && TakenFor(heap, c, bit, taken)
    ensures Closed(taken, LiveSet(c, bit)) && RootsKept(taken, LiveSet(c, bit), main, globals)
  {
    var m := LiveSet(c, bit);
    forall o, v | o in m && o in taken && Forces(taken, m, o, v) ensures Belongs(taken, m, v) {
      assert LiveObject(c, dead, bit, o, heap[o]);
    }
    forall i | 0 <= i < |globals| ensures Belongs(taken, m, globals[i]) {
      assert LiveVal(c, bit, globals[i]);
    }
  }

  lemma TakenSame(heap: Heap, c: Colors, dead: DeadKeys, bit: bool, main: Id, globals: seq<Val>)
    requires Consistent(heap, c, dead, bit, main, globals)
    ensures TakenFor(heap, c, bit, heap)
  {
    forall o | o in heap && Live(c, bit, o) ensures LiveVal(c, bit, heap[o].meta) {
      assert LiveObject(c, dead, bit, o, heap[o]);
    }
  }

  /** Strings apart, what is live after the atomic step is what it kept. */
  lemma KeptClosed(heap: Heap, c: Colors, dead: DeadKeys, bit: bool, main: Id, globals: seq<Val>, kept: set<Id>,
      heap': Heap, c': Colors, bit': bool, doomed: set<Id>, freed: set<Id>)
    requires Consistent(heap, c, dead, bit, main, globals)
    requires Closed(heap, kept) && RootsKept(heap, kept, main, globals) && kept <= heap.Keys
    requires SameKinds(heap, heap') && heap'.Keys == c'.Keys && Accounted(c', bit', doomed, freed)
    requires forall x :: x in heap && heap[x].kind != Leaf ==> (x in doomed <==> x !in kept)
    requires forall x :: x in heap && x !in heap' ==> x in doomed
    ensures Closed(heap, LiveSet(c', bit')) && RootsKept(heap, LiveSet(c', bit'), main, globals)
    ensures forall x :: x in heap && heap[x].kind != Leaf ==> (x in LiveSet(c', bit') <==> x in kept)
  {
    hide Consistent;
    var m := LiveSet(c', bit');
    MainReads(heap, c, dead, bit, main, globals);
    forall o, v | o in m && o in heap && Forces(heap, m, o, v) ensures Belongs(heap, m, v) {
      if heap[o].kind == Leaf {
        ShapedAt(heap, c, dead, bit, main, globals, o);
      } else {
        assert Forces(heap, kept, o, v);
        assert Belongs(heap, kept, v);
      }
    }
    forall i | 0 <= i < |globals| ensures Belongs(heap, m, globals[i]) {
      assert Belongs(heap, kept, globals[i]);
    }
  }

  lemma ShapedAt(heap: Heap, c: Colors, dead: DeadKeys, bit: bool, main: Id, globals: seq<Val>, o: Id)
    requires Consistent(heap, c, dead, bit, main, globals) && o in heap
    ensures Shaped(heap[o])
  {
  }

  /** The sweep changes nothing about what is live. */
  lemma SweptLive(heap: Heap, c: Colors, bit: bool, doomed: set<Id>, freed: set<Id>, heap': Heap, c': Colors,
      freed': set<Id>)
    requires heap.Keys == c.Keys && heap'.Keys == c'.Keys && OnlyDeadFreed(heap, c, bit, heap', c')
    requires Accounted(c, bit, doomed, freed) && Accounted(c', bit, doomed, freed')
    ensures LiveSet(c', bit) == LiveSet(c, bit)
  {
    forall x ensures x in LiveSet(c', bit) <==> x in LiveSet(c, bit) {
      if x in LiveSet(c, bit) { assert x in heap; }
    }
  }

  lemma EverythingLive(heap: Heap, c: Colors, bit: bool)
    requires heap.Keys == c.Keys && OneWhite(c, bit)
    ensures LiveSet(c, bit) == heap.Keys
  {
  }

  lemma LiveThere(c: Colors, bit: bool)
    ensures LiveSet(c, bit) <= c.Keys
  {
  }

  lemma MarkedThere(heap: Heap, c: Colors)
    ensures MarkedSet(heap, c) <= heap.Keys
  {
  }

  lemma SameKindsSame(heap: Heap)
    ensures SameKinds(heap, heap)
  {
  }

  /** What the atomic step removed refers to dead objects. */
  lemma PrunedLive(heap: Heap, heap': Heap, kept: set<Id>, c': Colors, bit: bool, doomed: set<Id>, freed: set<Id>)
    requires Pruned(heap, heap', kept) && heap'.Keys == c'.Keys && Accounted(c', bit, doomed, freed)
    requires forall x :: x in heap && heap[x].kind != Leaf ==> (x in doomed <==> x !in kept)
    ensures Pruned(heap, heap', LiveSet(c', bit))
  {
  }
}
