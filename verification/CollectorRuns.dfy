/**
 Whole runs of the collector and the mutator, and what becomes of a metatable that is stored
 in a table which the collector has already set aside for the cycle.

 The collector never looks at the metatable of a table in `allweak` again before the next cycle
 (`Collector.State.PopGray`).  So the heap is kept in two parts: as the collector last saw it,
 and the metatables stored since then in tables it will not look at.  `Actual` is the heap that
 the program has.
 */
module CollectorRuns {
  import opened CollectorHeap
  import opened CollectorInvariant
  import opened CollectorLive
  import opened Collector

  /** A metatable stored after the last visit, and the mode it gives its table. */
  datatype Late = Late(meta: Val, mode: Mode)

  type Lates = map<Id, Late>

  function Actual(heap: Heap, late: Lates): Heap {
    map o | o in heap :: if o in late then WithMeta(heap[o], late[o].meta, late[o].mode) else heap[o]
  }

  lemma ActualSet(heap: Heap, late: Lates, o: Id, v: Val, mode: Mode)
    requires o in heap
    ensures Actual(heap, late[o := Late(v, mode)]) == Actual(heap, late)[o := WithMeta(Actual(heap, late)[o], v, mode)]
    ensures Actual(heap[o := WithMeta(heap[o], v, mode)], late - {o}) == Actual(heap,
      late)[o := WithMeta(Actual(heap, late)[o], v, mode)]
  {
  }

  predicate IsTable(heap: Heap, v: Val) {
    v.Ref? ==> v.id in heap && heap[v.id].kind.Table?
  }

  /** What is remembered belongs to tables, and while marking it is a table remembered for a
      table that has been set aside. */
  ghost predicate Remembered(heap: Heap, allweak: seq<Id>, marking: bool, late: Lates) {
    forall t :: t in late ==>
      (t in heap ==> heap[t].kind.Table?) && (marking ==> t in allweak && IsTable(heap, late[t].meta))
  }

  /** No object has gone or changed its sort, and nothing new has been remembered. */
  ghost predicate Continues(heap: Heap, heap': Heap, late: Lates) {
    (forall x :: x in heap ==>
      x in heap' && heap'[x].kind.Table? == heap[x].kind.Table? && heap'[x].kind.Leaf? == heap[x].kind.Leaf?) &&
    (forall x :: x in late && x in heap' ==> x in heap)
  }

  /** Every remembered metatable is marked, or while not marking it is live. */
  ghost predicate AllHeld(heap: Heap, c: Colors, bit: bool, marking: bool, late: Lates) {
    forall t :: t in late && late[t].meta.Ref? ==>
      if marking then late[t].meta.id in MarkedSet(heap, c) else Live(c, bit, late[t].meta.id)
  }

  lemma StepOfProgram(heap: Heap, c: Colors, bit: bool, allweak: seq<Id>, marking: bool, heap': Heap, c': Colors,
      late: Lates)
    requires Remembered(heap, allweak, marking, late) && Continues(heap, heap', late) && Spares(c, bit, marking, c')
    ensures Remembered(heap', allweak, marking, late)
    ensures AllHeld(heap, c, bit, marking, late) ==> AllHeld(heap', c', bit, marking, late)
  {
  }

  lemma LessRemembered(heap: Heap, c: Colors, bit: bool, allweak: seq<Id>, marking: bool, late: Lates, o: Id)
    requires Remembered(heap, allweak, marking, late)
    ensures Remembered(heap, allweak, marking, late - {o})
    ensures AllHeld(heap, c, bit, marking, late) ==> AllHeld(heap, c, bit, marking, late - {o})
  {
  }

  lemma MoreRemembered(heap: Heap, c: Colors, bit: bool, allweak: seq<Id>, late: Lates, o: Id, v: Val, mode: Mode)
    requires Remembered(heap, allweak, true, late)
    requires o in allweak && (o in heap ==> heap[o].kind.Table?) && IsTable(heap, v)
    ensures Remembered(heap, allweak, true, late[o := Late(v, mode)])
    ensures AllHeld(heap, c, bit, true, late) && IsMarked(c, v) ==>
      AllHeld(heap, c, bit, true, late[o := Late(v, mode)])
  {
  }

  lemma WrittenSettled(heap: Heap, late: Lates, o: Id, b: Object)
    requires o in heap && b.kind.Table? == heap[o].kind.Table? && b.kind.Leaf? == heap[o].kind.Leaf?
    ensures Continues(heap, heap[o := b], late)
  {
  }

  lemma AddedSettled(heap: Heap, late: Lates, x: Id, b: Object, o: Id, b': Object)
    requires x !in heap && x !in late && o in heap && b'.kind == heap[o].kind
    ensures Continues(heap, heap[x := b][o := b'], late)
  {
  }

  /** A write of slots and nodes shows in the heap that the program has. */
  lemma ActualWrite(heap: Heap, late: Lates, o: Id, b: Object)
    requires o in heap && b.kind == heap[o].kind && b.meta == heap[o].meta
    ensures Actual(heap[o := b], late) == Actual(heap,
      late)[o := Actual(heap, late)[o].(slots := b.slots, nodes := b.nodes)]
  {
  }

  lemma ActualNew(heap: Heap, late: Lates, x: Id, b: Object)
    requires x !in late
    ensures Actual(heap[x := b], late) == Actual(heap, late)[x := b]
  {
  }

  lemma NothingActual(heap: Heap)
    ensures Actual(heap, map[]) == heap
  {
  }

  lemma NoneHeld(heap: Heap, c: Colors, bit: bool, allweak: seq<Id>, marking: bool)
    ensures Remembered(heap, allweak, marking, map[]) && AllHeld(heap, c, bit, marking, map[])
  {
  }

  lemma RememberedStays(heap: Heap, allweak: seq<Id>, marking: bool, heap': Heap, allweak': seq<Id>, marking': bool,
      late: Lates)
    requires Remembered(heap, allweak, marking, late)
    requires forall x :: x in heap' && x in late ==> x in heap && heap'[x].kind == heap[x].kind
    requires marking' ==> marking && heap' == heap && forall x :: x in allweak ==> x in allweak'
    ensures Remembered(heap', allweak', marking', late)
  {
  }

  lemma LongerHas(l: seq<Id>, l': seq<Id>)
    requires Longer(l, l')
    ensures forall x :: x in l ==> x in l'
  {
  }

  /** The metatable of `t` is dead or gone. */
  predicate Lost(c: Colors, bit: bool, late: Lates, t: Id) {
    t in late && !LiveVal(c, bit, late[t].meta)
  }

  ghost predicate Reaches(heap: Heap, dead: DeadKeys, main: Id, globals: seq<Val>, late: Lates, x: Id) {
    Reachable(Actual(heap, late), dead, main, globals, x)
  }

  /** Nothing that the program can reach is dead or gone. */
  ghost predicate Safe(heap: Heap, c: Colors, dead: DeadKeys, bit: bool, main: Id, globals: seq<Val>, late: Lates) {
    forall x :: Reaches(heap, dead, main, globals, late, x) ==> x in heap && Live(c, bit, x)
  }

  lemma PathOn(heap: Heap, dead: DeadKeys, main: Id, globals: seq<Val>, o: Id, x: Id)
    requires Reachable(heap, dead, main, globals, o) && PointsTo(heap, dead, o, x)
    ensures Reachable(heap, dead, main, globals, x)
  {
    hide PointsTo;
    var p :| IsPath(heap, dead, main, globals, p) && p[|p| - 1] == o;
    var q := p + [x];
    forall i | 0 < i < |q| ensures PointsTo(heap, dead, q[i - 1], q[i]) {
      if i < |p| { assert PointsTo(heap, dead, p[i - 1], p[i]); }
    }
    assert IsPath(heap, dead, main, globals, q) && q[|q| - 1] == x;
  }

  lemma PathInit(heap: Heap, dead: DeadKeys, main: Id, globals: seq<Val>, p: seq<Id>, n: nat)
    requires IsPath(heap, dead, main, globals, p) && 0 < n <= |p|
    ensures Reachable(heap, dead, main, globals, p[n - 1])
  {
    assert IsPath(heap, dead, main, globals, p[..n]) && p[..n][n - 1] == p[n - 1];
  }

  /** What a live object that has not lost its metatable points to is live. */
  lemma StepLive(heap: Heap, c: Colors, dead: DeadKeys, bit: bool, main: Id, globals: seq<Val>, late: Lates, o: Id,
      x: Id)
    requires Consistent(heap, c, dead, bit, main, globals) && o in heap && Live(c, bit, o) && !Lost(c, bit, late, o)
    requires PointsTo(Actual(heap, late), dead, o, x)
    ensures x in heap && Live(c, bit, x)
  {
    assert LiveObject(c, dead, bit, o, heap[o]);
    if Ref(x) in heap[o].slots {
      var i :| 0 <= i < |heap[o].slots| && heap[o].slots[i] == Ref(x);
      assert LiveVal(c, bit, heap[o].slots[i]);
    }
  }

  lemma {:induction false} PathSafe(heap: Heap, c: Colors, dead: DeadKeys, bit: bool, main: Id, globals: seq<Val>,
      late: Lates, p: seq<Id>)
    requires Consistent(heap, c, dead, bit, main, globals) && IsPath(Actual(heap, late), dead, main, globals, p)
    requires forall i :: 0 <= i < |p| - 1 ==> !Lost(c, bit, late, p[i])
    ensures p[|p| - 1] in heap && Live(c, bit, p[|p| - 1])
  {
    hide PointsTo, Lost;
    var n := |p| - 1;
    if n == 0 {
      if Ref(p[0]) in globals {
        var i :| 0 <= i < |globals| && globals[i] == Ref(p[0]);
        assert LiveVal(c, bit, globals[i]);
      }
    } else {
      PathSafe(heap, c, dead, bit, main, globals, late, p[..n]);
      assert PointsTo(Actual(heap, late), dead, p[n - 1], p[n]);
      StepLive(heap, c, dead, bit, main, globals, late, p[n - 1], p[n]);
    }
  }

  /** Something reachable is dead or gone exactly when some table that the program can reach
      has lost its metatable. */
  lemma SafeExactly(heap: Heap, c: Colors, dead: DeadKeys, bit: bool, main: Id, globals: seq<Val>, late: Lates)
    requires Consistent(heap, c, dead, bit, main, globals)
    ensures Safe(heap, c, dead, bit, main, globals, late)
       <==> forall t :: Lost(c, bit, late, t) ==> !Reaches(heap, dead, main, globals, late, t)
  {
    hide Consistent, IsPath, PointsTo;
    if Safe(heap, c, dead, bit, main, globals, late) {
      forall t | Lost(c, bit, late, t) ensures !Reaches(heap, dead, main, globals, late, t) {
        if Reaches(heap, dead, main, globals, late, t) { LostReached(heap, c, dead, bit, main, globals, late, t); }
      }
    }
    if forall t :: Lost(c, bit, late, t) ==> !Reaches(heap, dead, main, globals, late, t) {
      forall x | Reaches(heap, dead, main, globals, late, x) ensures x in heap && Live(c, bit, x) {
        NothingLostReached(heap, c, dead, bit, main, globals, late, x);
      }
    }
  }

  lemma LostReached(heap: Heap, c: Colors, dead: DeadKeys, bit: bool, main: Id, globals: seq<Val>, late: Lates, t: Id)
    requires Lost(c, bit, late, t) && t in heap && Reaches(heap, dead, main, globals, late, t)
    ensures Reaches(heap, dead, main, globals, late, late[t].meta.id) && !Live(c, bit, late[t].meta.id)
  {
    hide IsPath;
    assert PointsTo(Actual(heap, late), dead, t, late[t].meta.id);
    PathOn(Actual(heap, late), dead, main, globals, t, late[t].meta.id);
  }

  lemma NothingLostReached(heap: Heap, c: Colors, dead: DeadKeys, bit: bool, main: Id, globals: seq<Val>, late: Lates,
      x: Id)
    requires Consistent(heap, c, dead, bit, main, globals) && Reaches(heap, dead, main, globals, late, x)
    requires forall t :: Lost(c, bit, late, t) ==> !Reaches(heap, dead, main, globals, late, t)
    ensures x in heap && Live(c, bit, x)
  {
    hide Consistent, PointsTo, Lost;
    var p :| IsPath(Actual(heap, late), dead, main, globals, p) && p[|p| - 1] == x;
    forall i | 0 <= i < |p| - 1 ensures !Lost(c, bit, late, p[i]) {
      PathInit(Actual(heap, late), dead, main, globals, p, i + 1);
    }
    PathSafe(heap, c, dead, bit, main, globals, late, p);
  }

  /** The steps of the collector and of the mutator. */
  datatype Op =
    | Collect
    | GiveUp
    | New(newKind: Kind, n: nat)
    | Load(vs: seq<Val>)
    | Global(g: nat, gv: Val)
    | Slot(o: Id, i: nat, v: Val, back: bool)
    | Value(h: Id, j: nat, w: Val)
    | Insert(t: Id, p: nat, k: Val, x: Val)
    | Meta(m: Id, mt: Val, mode: Mode)

  /** What the program has: its heap, with the keys that are dead, and the roots; and whether the
      collector is marking, the tables whose metatable it will not look at in this cycle, and how
      many steps of the collector are left to the end of the cycle at most. */
  datatype View = View(heap: Heap, dead: DeadKeys, main: Id, globals: seq<Val>, marking: bool, aside: set<Id>,
    left: nat)

  predicate AtHand(a: View, v: Val)
    requires a.main in a.heap
  {
    v.Ref? ==> v in a.heap[a.main].slots
  }

  /** What the thread can load: what is at hand, the globals, and what an object at hand refers
      to, its metatable included. */
  predicate MayLoad(a: View, v: Val)
    requires a.main in a.heap
  {
    AtHand(a, v) || v in a.globals ||
    exists o :: o in a.heap && AtHand(a, Ref(o)) && v.Ref? && PointsTo(a.heap, a.dead, o, v.id)
  }

  /** Whether a step can be taken: what the interface asks of its callers. */
  predicate Fits(a: View, op: Op) {
    a.main in a.heap &&
    match op
    case Collect => true
    case GiveUp => true
    case New(kind, n) => Shaped(Blank(kind, n)) && (kind.Table? ==> kind.mode == Strong)
    case Load(vs) => forall i :: 0 <= i < |vs| ==> MayLoad(a, vs[i])
    case Global(g, v) => g < |a.globals| && AtHand(a, v)
    case Slot(o, i, v, back) =>
      AtHand(a, Ref(o)) && AtHand(a, v) && o != a.main && o in a.heap && i < |a.heap[o].slots| &&
      (back ==> a.heap[o].kind.Holder? || a.heap[o].kind.Table?) && (a.heap[o].kind.Table? ==> back)
    case Value(h, j, v) =>
      AtHand(a, Ref(h)) && AtHand(a, v) && h in a.heap && a.heap[h].kind.Table? && j < |a.heap[h].nodes| &&
        (h, j as int) !in a.dead
    case Insert(h, j, k, v) =>
      AtHand(a, Ref(h)) && AtHand(a, k) && AtHand(a, v) && h in a.heap && a.heap[h].kind.Table? &&
      (j == |a.heap[h].nodes| || (j < |a.heap[h].nodes| && a.heap[h].nodes[j].val == Empty))
    case Meta(o, v, _) =>
      AtHand(a, Ref(o)) && AtHand(a, v) && o in a.heap && (a.heap[o].kind.Holder? || a.heap[o].kind.Table?) &&
        IsTable(a.heap, v)
  }

  /** The heap as the collector takes it in this cycle: while marking, a table that has been set
      aside is all weak, whatever mode it has been given since; and the metatable it has been given
      counts only if it is `held`. */
  function Taken(a: View, held: bool): Heap {
    map o | o in a.heap ::
      if o in a.aside then
        Object(if a.marking && a.heap[o].kind.Table? then Table(AllWeak) else a.heap[o].kind,
          if held then a.heap[o].meta else Plain, a.heap[o].slots, a.heap[o].nodes)
      else a.heap[o]
  }

  /** What a step of the collector does: `m` holds the roots and is closed under strong references
      and live ephemeron entries, and all of it is still there; only objects outside it, and
      references to them, have gone; and only keys of empty entries are dead. */
  ghost predicate Collects(a: View, b: View, m: set<Id>, held: bool) {
    Closed(Taken(a, held), m) && RootsKept(a.heap, m, a.main, a.globals) && m <= b.heap.Keys &&
    Pruned(a.heap, b.heap, m) && DeadOk(b.heap, b.dead) &&
    b.aside <= a.aside && (b.marking && !a.marking ==> b.aside == {})
  }

  /** A step of the collector comes nearer to the end of the cycle; between two cycles it begins
      the next. */
  predicate Nears(a: View, b: View) {
    if a.left == 0 then b.left > 0 && b.marking && b.heap == a.heap else b.left < a.left
  }

  /** What a step makes of the program's heap and roots: a step of the program changes one object,
      or adds one; a step of the collector leaves alone whatever is in `m`. */
  ghost predicate StepOf(a: View, op: Op, b: View, m: set<Id>, held: bool)
    requires Fits(a, op)
  {
    b.main == a.main && (op.Global? || b.globals == a.globals) &&
    (op.Collect? || op.Insert? || op.New? || b.dead == a.dead) &&
    (op.Collect? || op.Meta? || b.aside == a.aside) && (op.Collect? || op.GiveUp? || b.marking == a.marking) &&
    match op
    case Collect => Collects(a, b, m, held) && Nears(a, b)
    case GiveUp => Collects(a, b, m, held) && b.heap == a.heap && b.dead == a.dead && !b.marking
    case New(kind, n) =>
      exists x :: x !in a.heap && b.dead == Forget(a.dead, x) &&
        b.heap == a.heap[x := Blank(kind, n)][a.main := a.heap[a.main].(slots := a.heap[a.main].slots + [Ref(x)])]
    case Load(vs) => b.heap == a.heap[a.main := a.heap[a.main].(slots := vs)]
    case Global(g, v) => b.heap == a.heap && b.globals == a.globals[g := v]
    case Slot(o, i, v, _) => b.heap == a.heap[o := a.heap[o].(slots := a.heap[o].slots[i := v])]
    case Value(h, j, v) => b.heap == a.heap[h := WithNode(a.heap[h], j, Node(a.heap[h].nodes[j].key, v))]
    case Insert(h, j, k, v) =>
      b.heap == a.heap[h := WithNode(a.heap[h], j, Node(k, v))] && b.dead == a.dead - {(h, j as int)}
    case Meta(o, v, mode) =>
      b.heap == a.heap[o := WithMeta(a.heap[o], v, mode)] &&
      (b.aside == a.aside - {o} || (a.marking && b.aside == a.aside + {o}))
  }

  lemma NewIsStep(a: View, kind: Kind, n: nat, b: View, x: Id, m: set<Id>, held: bool)
    requires Fits(a, New(kind, n)) && x !in a.heap && b.main == a.main && b.globals == a.globals
    requires b.dead == Forget(a.dead, x) && b.marking == a.marking && b.aside == a.aside
    requires b.heap == a.heap[x := Blank(kind, n)][a.main := a.heap[a.main].(slots := a.heap[a.main].slots + [Ref(x)])]
    ensures StepOf(a, New(kind, n), b, m, held)
  {
  }

  ghost predicate InReach(a: View, x: Id) {
    Reachable(a.heap, a.dead, a.main, a.globals, x)
  }

  /** Whatever the program can reach is there. */
  ghost predicate Secure(a: View) {
    forall x :: InReach(a, x) ==> x in a.heap
  }

  /** A step as long as nothing is lost: the collector leaves a closed set alone that holds the
      roots, and everything that can be reached afterwards. */
  ghost predicate Stepped(a: View, op: Op, b: View) {
    if Fits(a, op) then exists m :: StepOf(a, op, b, m, true) && forall x :: InReach(b, x) ==> x in m else b == a
  }

  /** Any step: the set that the collector leaves alone is closed, but for the metatables that it
      has not seen. */
  ghost predicate Moved(a: View, op: Op, b: View) {
    if Fits(a, op) then exists m :: StepOf(a, op, b, m, false) else b == a
  }

  /** Step `k` of a run is one of the collector. */
  ghost predicate CollectsAt(trace: seq<View>, k: nat)
    requires k + 1 < |trace|
  {
    Fits(trace[k], Collect) && (Stepped(trace[k], Collect, trace[k + 1]) || Moved(trace[k], Collect, trace[k + 1]))
  }

  lemma NearsAt(trace: seq<View>, k: nat)
    requires k + 1 < |trace| && CollectsAt(trace, k)
    ensures Nears(trace[k], trace[k + 1])
  {
    hide Collects, Nears;
  }

  /** In any run, as many steps of the collector alone as are left at most come to the end of the
      cycle. */
  lemma {:induction false} ComesToPause(trace: seq<View>, i: nat)
    requires i < |trace| && |trace| > i + trace[i].left
    requires forall k :: i <= k < i + trace[i].left ==> CollectsAt(trace, k)
    ensures exists k :: i <= k <= i + trace[i].left && trace[k].left == 0
    decreases trace[i].left
  {
    hide CollectsAt;
    if trace[i].left > 0 {
      NearsAt(trace, i);
      ComesToPause(trace, i + 1);
    }
  }

  // ---- What the collector's steps leave alone ----

  /** In every closed set that holds the roots. */
  ghost predicate InUse(a: View, x: Id) {
    forall m :: Closed(Taken(a, true), m) && RootsKept(a.heap, m, a.main, a.globals) ==> x in m
  }

  /** An object of which nothing is weak; only tables have entries. */
  predicate Solid(b: Object) {
    match b.kind
    case Leaf => false
    case Cell | Holder | Thread => b.nodes == []
    case Table(mode) => mode == Strong
  }

  /** Whatever is in use outlives a step of the collector, and is as it was unless it is weak. */
  lemma UsedStays(a: View, op: Op, b: View, x: Id)
    requires Fits(a, op) && (op.Collect? || op.GiveUp?) && Stepped(a, op, b) && InUse(a, x)
    ensures x in b.heap && x in a.heap && (Solid(Taken(a, true)[x]) ==> b.heap[x] == a.heap[x])
  {
    hide InReach, RootsKept, Closed;
    var m :| StepOf(a, op, b, m, true);
    assert x in m;
    SolidStays(a, b, m, x);
  }

  lemma SolidStays(a: View, b: View, m: set<Id>, x: Id)
    requires Collects(a, b, m, true) && x in m
    ensures x in b.heap && x in a.heap && (Solid(Taken(a, true)[x]) ==> b.heap[x] == a.heap[x])
  {
    hide DeadOk, RootsKept, Closed;
    var taken := Taken(a, true);
    assert PrunedObject(a.heap, m, a.heap[x], b.heap[x]);
    if Solid(taken[x]) {
      var o, o' := a.heap[x], b.heap[x];
      SlotsBelong(taken, m, x);
      TakenBelongs(a, m);
      assert o'.slots == o.slots;
      forall i | 0 <= i < |o.nodes| ensures o'.nodes[i] == o.nodes[i] {
        assert PrunedEntry(a.heap, m, o.nodes[i], o'.nodes[i]);
        if o.nodes[i].val != Empty { EntryBelongs(taken, m, x, i); }
      }
    }
  }

  lemma TakenBelongs(a: View, m: set<Id>)
    ensures forall v :: Belongs(Taken(a, true), m, v) ==> Belongs(a.heap, m, v)
  {
  }

  /** The member `o` of `m` refers to `v`, and as long as it is in use the collector leaves the
      reference alone: by its metatable, or by a slot or an entry that is not weak. */
  ghost predicate Holds(heap: Heap, o: Id, v: Val) {
    o in heap && !heap[o].kind.Leaf? && (heap[o].kind == Table(WeakValues) ==> v == heap[o].meta) &&
    Forces(heap, {}, o, v)
  }

  /** A path from a root by such references only. */
  ghost predicate StrongPath(a: View, p: seq<Id>) {
    p != [] && (p[0] == a.main || Ref(p[0]) in a.globals) &&
    forall i :: 0 < i < |p| ==> Holds(Taken(a, true), p[i - 1], Ref(p[i]))
  }

  lemma MoreForced(heap: Heap, m: set<Id>, o: Id, v: Val)
    requires o in heap && Forces(heap, {}, o, v)
    ensures Forces(heap, m, o, v)
  {
    var b := heap[o];
    if b.kind == Table(Ephemeron) && v != b.meta && v !in b.slots {
      var i :| 0 <= i < |b.nodes| && v == b.nodes[i].val && KeyHeld(heap, {}, b.nodes[i].key);
      assert KeyHeld(heap, m, b.nodes[i].key);
    }
  }

  /** What is met on a path of strong references belongs to every closed set that holds the roots. */
  lemma PathBelongs(a: View, m: set<Id>, p: seq<Id>)
    requires Closed(Taken(a, true), m) && RootsKept(a.heap, m, a.main, a.globals) && StrongPath(a, p)
    ensures Belongs(a.heap, m, Ref(p[|p| - 1])) && (|p| > 1 ==> p[|p| - 2] in m)
  {
    hide Closed;
    var n := |p| - 1;
    if n == 0 {
      if Ref(p[0]) in a.globals {
        var i :| 0 <= i < |a.globals| && a.globals[i] == Ref(p[0]);
        assert Belongs(a.heap, m, a.globals[i]);
      }
    } else {
      PathBelongs(a, m, p[..n]);
      var taken := Taken(a, true);
      assert Holds(taken, p[n - 1], Ref(p[n]));
      MoreForced(taken, m, p[n - 1], Ref(p[n]));
      MemberHolds(taken, m, p[n - 1], Ref(p[n]));
      TakenBelongs(a, m);
    }
  }

  lemma MemberHolds(heap: Heap, m: set<Id>, o: Id, v: Val)
    requires Closed(heap, m) && o in m && o in heap && Forces(heap, m, o, v)
    ensures Belongs(heap, m, v)
  {
  }

  /** An entry whose key and value belong to the set is not touched. */
  lemma EntryStays(heap: Heap, m: set<Id>, o: Object, o': Object, i: nat)
    requires PrunedObject(heap, m, o, o') && i < |o.nodes|
    requires Belongs(heap, m, o.nodes[i].key) && Belongs(heap, m, o.nodes[i].val)
    ensures o'.nodes[i] == o.nodes[i]
  {
    assert PrunedEntry(heap, m, o.nodes[i], o'.nodes[i]);
  }

  /** The key of an entry that is not empty is there. */
  lemma KeyThere(b: View, o: Id, i: nat)
    requires InReach(b, o) && Secure(b) && DeadOk(b.heap, b.dead) && o in b.heap && i < |b.heap[o].nodes|
    requires b.heap[o].nodes[i].val != Empty
    ensures Exists(b.heap, b.heap[o].nodes[i].key)
  {
    hide IsPath;
    var k := b.heap[o].nodes[i].key;
    if k.Ref? {
      assert PointsTo(b.heap, b.dead, o, k.id);
      PathOn(b.heap, b.dead, b.main, b.globals, o, k.id);
      assert InReach(b, k.id);
    }
  }

  /** A table that is weak only because it was set aside is so no longer than the others. */
  lemma ModeStays(a: View, b: View, m: set<Id>, o: Id)
    requires Collects(a, b, m, true) && o in m
    ensures o in a.heap && o in b.heap && Taken(b, true)[o] == b.heap[o].(kind := Taken(b, true)[o].kind)
    ensures Taken(b, true)[o].kind == Taken(a, true)[o].kind || Taken(a, true)[o].kind == Table(AllWeak)
    ensures Taken(b, true)[o].kind.Leaf? == Taken(a, true)[o].kind.Leaf?
  {
    assert PrunedObject(a.heap, m, a.heap[o], b.heap[o]);
  }

  /** A strong reference of a member stays. */
  lemma HoldStays(a: View, b: View, m: set<Id>, o: Id, v: Val)
    requires Collects(a, b, m, true) && o in m && Holds(Taken(a, true), o, v) && InReach(b, o) && Secure(b) && v.Ref?
    ensures Holds(Taken(b, true), o, v)
  {
    hide Closed, RootsKept, Secure, DeadOk, InReach;
    ModeStays(a, b, m, o);
    var taken := Taken(a, true);
    var x, x' := a.heap[o], b.heap[o];
    TakenBelongs(a, m);
    assert PrunedObject(a.heap, m, x, x');
    if v != x.meta {
      if v in x.slots {
        var i :| 0 <= i < |x.slots| && x.slots[i] == v;
        SlotsBelong(taken, m, o);
        assert x'.slots[i] == v;
      } else if taken[o].kind == Table(Strong) {
        var i :| 0 <= i < |x.nodes| && x.nodes[i].val != Empty && (v == x.nodes[i].key || v == x.nodes[i].val);
        EntryBelongs(taken, m, o, i);
        EntryStays(a.heap, m, x, x', i);
        assert x'.nodes[i] == x.nodes[i];
      } else {
        var i :| 0 <= i < |x.nodes| && v == x.nodes[i].val && KeyHeld(taken, {}, x.nodes[i].key);
        ValueBelongs(taken, m, o, i);
        EntryStays(a.heap, m, x, x', i);
        KeyThere(b, o, i);
        assert x'.nodes[i] == x.nodes[i] && KeyHeld(Taken(b, true), {}, x'.nodes[i].key);
      }
    }
  }

  lemma HoldsPoints(b: View, o: Id, x: Id)
    requires Holds(Taken(b, true), o, Ref(x))
    ensures PointsTo(b.heap, b.dead, o, x) || !DeadOk(b.heap, b.dead)
  {
  }

  lemma RootReached(a: View, x: Id)
    requires x == a.main || Ref(x) in a.globals
    ensures InReach(a, x)
  {
    assert IsPath(a.heap, a.dead, a.main, a.globals, [x]) && [x][0] == x;
  }

  lemma {:induction false} PathKept(a: View, b: View, m: set<Id>, p: seq<Id>)
    requires Collects(a, b, m, true) && b.main == a.main && b.globals == a.globals && Secure(b) && StrongPath(a, p)
    ensures StrongPath(b, p) && InReach(b, p[|p| - 1])
  {
    hide Closed, RootsKept, Secure, Reachable, Holds, Taken, Pruned, PointsTo;
    var n := |p| - 1;
    if n == 0 {
      RootReached(b, p[0]);
    } else {
      PathKept(a, b, m, p[..n]);
      PathBelongs(a, m, p);
      HoldStays(a, b, m, p[n - 1], Ref(p[n]));
      HoldsPoints(b, p[n - 1], p[n]);
      PathOn(b.heap, b.dead, b.main, b.globals, p[n - 1], p[n]);
      forall i | 0 < i < |p| ensures Holds(Taken(b, true), p[i - 1], Ref(p[i])) {
        if i < n { assert Holds(Taken(b, true), p[..n][i - 1], Ref(p[..n][i])); }
      }
    }
  }

  lemma SolidTaken(a: View, b: View, m: set<Id>, x: Id)
    requires Collects(a, b, m, true) && x in m && x in a.heap && Solid(Taken(a, true)[x])
    ensures x in b.heap && Taken(b, true)[x] == Taken(a, true)[x]
  {
    hide Closed, RootsKept;
    SolidStays(a, b, m, x);
  }

  /** Over any number of steps of the collector: what the program reaches by strong references it
      goes on reaching by the same ones, and an object met that is not weak does not change. */
  lemma {:induction false} PathLasts(trace: seq<View>, ops: seq<Op>, i: nat, j: nat, p: seq<Id>)
    requires i <= j < |trace| && j <= |ops| && StrongPath(trace[i], p)
    requires forall k :: i <= k < j ==> (ops[k].Collect? || ops[k].GiveUp?) && Stepped(trace[k], ops[k], trace[k + 1])
    requires forall k :: i <= k <= j ==> Secure(trace[k])
    ensures StrongPath(trace[j], p)
    ensures var x := p[|p| - 1];
      x in trace[i].heap && Solid(Taken(trace[i], true)[x]) ==>
        x in trace[j].heap && Taken(trace[j], true)[x] == Taken(trace[i], true)[x]
  {
    hide Closed, RootsKept, Secure, InReach, Pruned, PointsTo, Solid, Holds, Taken;
    if i < j {
      PathLasts(trace, ops, i, j - 1, p);
      if Fits(trace[j - 1], ops[j - 1]) { PathStays(trace[j - 1], ops[j - 1], trace[j], p); }
    }
  }

  lemma PathStays(a: View, op: Op, b: View, p: seq<Id>)
    requires Fits(a, op) && (op.Collect? || op.GiveUp?) && Stepped(a, op, b) && Secure(b) && StrongPath(a, p)
    ensures StrongPath(b, p)
    ensures var x := p[|p| - 1];
      x in a.heap && Solid(Taken(a, true)[x]) ==> x in b.heap && Taken(b, true)[x] == Taken(a, true)[x]
  {
    hide Closed, RootsKept, InReach, Pruned, PointsTo;
    var x := p[|p| - 1];
    var m :| StepOf(a, op, b, m, true);
    PathKept(a, b, m, p);
    PathBelongs(a, m, p);
    if x in m && x in a.heap && Solid(Taken(a, true)[x]) { SolidTaken(a, b, m, x); }
  }

  class Machine {
    const s: State
    var late: Lates

    ghost predicate Valid()
      reads this, s
    {
      s.Valid() && Remembered(s.objs, s.allweak, s.InMarking(), late) && forall t :: t in late ==> t < s.next
    }

    /** The heap as the program has it. */
    function Heap(): CollectorHeap.Heap
      reads this, s
    {
      Actual(s.objs, late)
    }

    function Now(): View
      reads this, s
    {
      View(Heap(), s.dead, s.main, s.globals, s.InMarking(), late.Keys, s.StepsLeft())
    }

    ghost predicate CanReach(x: Id)
      reads this, s
    {
      Reaches(s.objs, s.dead, s.main, s.globals, late, x)
    }

    predicate IsLost(t: Id)
      reads this, s
    {
      Lost(s.color, s.currentwhite, late, t)
    }

    ghost predicate AllSafe()
      reads this, s
    {
      Safe(s.objs, s.color, s.dead, s.currentwhite, s.main, s.globals, late)
    }

    constructor (n: nat)
      ensures Valid() && fresh(s) && late == map[] && s.phase == Pause && |s.globals| == n
      ensures s.objs == map[s.main := Object(Thread, Plain, [], [])]
    {
      s := new State(n);
      late := map[];
    }

    lemma SafeIff()
      requires Valid()
      ensures AllSafe() <==> forall t :: IsLost(t) ==> !CanReach(t)
    {
      hide Safe, Consistent, Reaches, Lost;
      assert Consistent(s.objs, s.color, s.dead, s.currentwhite, s.main, s.globals);
      SafeExactly(s.objs, s.color, s.dead, s.currentwhite, s.main, s.globals, late);
      forall t ensures IsLost(t) == Lost(s.color, s.currentwhite, late, t) { }
      forall t ensures CanReach(t) == Reaches(s.objs, s.dead, s.main, s.globals, late, t) { }
    }

    /** No remembered metatable is lost, or will be in this cycle. */
    ghost predicate Held()
      reads this, s
    {
      AllHeld(s.objs, s.color, s.currentwhite, s.InMarking(), late)
    }

    /** Whether a store of a metatable escapes the collector: the table has been set aside,
        being gray it has no barrier, and the metatable is white. */
    predicate Escapes(o: Id, v: Val)
      reads s
    {
      s.InMarking() && o in s.allweak && !IsMarked(s.color, v)
    }

    lemma NothingGone()
      requires !(s.phase == Pause && exists t :: t in late && MetaGone(t))
      ensures s.phase == Pause ==> forall t :: !MetaGone(t)
    {
    }

    lemma HeldNotLost()
      requires Held()
      ensures forall t :: !IsLost(t)
    {
    }

    // ---- The steps of the program ----

    /** `lua_setmetatable`, with its barrier.  A metatable that the collector will not see is
        only remembered. */
    method SetMeta(o: Id, v: Val, mode: Mode)
      requires Valid() && s.main in s.objs && s.OnStack(Ref(o)) && s.OnStack(v) && IsTable(s.objs, v)
      requires o in s.objs && (s.objs[o].kind.Holder? || s.objs[o].kind.Table?)
      modifies `late, s`objs, s`color, s`gray
      ensures s.main == old(s.main) && s.globals == old(s.globals)
      ensures Valid() && Heap() == old(Heap())[o := WithMeta(old(Heap())[o], v, mode)]
      ensures late == if old(s.MetaSeen(o, v, mode)) then old(late) - {o} else old(late)[o := Late(v, mode)]
      ensures old(!s.MetaSeen(o, v, mode)) ==> unchanged(s`objs) && unchanged(s`color) && unchanged(s`gray)
      ensures old(Held() && !Escapes(o, v)) ==> Held()
    {
      hide *;
      if s.MetaSeen(o, v, mode) {
        SetSeen(o, v, mode);
      } else {
        SetUnseen(o, v, mode);
      }
    }

    method SetSeen(o: Id, v: Val, mode: Mode)
      requires Valid() && s.main in s.objs && s.OnStack(Ref(o)) && s.OnStack(v) && s.MetaSeen(o, v, mode)
      requires o in s.objs && (s.objs[o].kind.Holder? || s.objs[o].kind.Table?)
      modifies `late, s`objs, s`color, s`gray
      ensures s.main == old(s.main) && s.globals == old(s.globals)
      ensures Valid() && late == old(late) - {o} && Heap() == old(Heap())[o := WithMeta(old(Heap())[o], v, mode)]
      ensures old(Held()) ==> Held()
    {
      hide State.Valid, State.OnStack, State.MetaSeen, Actual, Remembered, AllHeld, Continues, Spares;
      ghost var heap, c := s.objs, s.color;
      ActualSet(s.objs, late, o, v, mode);
      WrittenSettled(heap, late, o, WithMeta(heap[o], v, mode));
      s.SetMeta(o, v, mode);
      StepOfProgram(heap, c, s.currentwhite, s.allweak, s.InMarking(), s.objs, s.color, late);
      LessRemembered(s.objs, s.color, s.currentwhite, s.allweak, s.InMarking(), late, o);
      assert forall t :: t in late - {o} ==> t in late;
      late := late - {o};
    }

    method SetUnseen(o: Id, v: Val, mode: Mode)
      requires Valid() && s.main in s.objs && !s.MetaSeen(o, v, mode) && IsTable(s.objs, v)
      requires o in s.objs && (s.objs[o].kind.Holder? || s.objs[o].kind.Table?)
      modifies `late
      ensures Valid() && late == old(late)[o := Late(v, mode)] &&
        Heap() == old(Heap())[o := WithMeta(old(Heap())[o], v, mode)]
      ensures old(Held() && !Escapes(o, v)) ==> Held()
    {
      hide State.Valid, Actual, Remembered, AllHeld, IsTable, IsMarked;
      TableListed(o);
      Numbered(o);
      ActualSet(s.objs, late, o, v, mode);
      MoreRemembered(s.objs, s.color, s.currentwhite, s.allweak, late, o, v, mode);
      late := late[o := Late(v, mode)];
    }

    lemma Numbered(o: Id)
      requires s.Valid() && o in s.objs
      ensures o < s.next
    {
      assert o in s.color;
    }

    lemma TableListed(o: Id)
      requires s.Valid() && o in s.objs
      ensures s.InMarking() && o in s.allweak ==> s.objs[o].kind.Table?
    {
      assert o in s.color;
      s.ListedTable(o);
    }

    /** Assigns an upvalue, a user value, an array element or another thread's stack slot. */
    method SetSlot(o: Id, i: nat, v: Val, back: bool)
      requires Valid() && s.main in s.objs && s.OnStack(Ref(o)) && s.OnStack(v)
      requires o != s.main && o in s.objs && i < |s.objs[o].slots|
      requires back ==> s.objs[o].kind.Holder? || s.objs[o].kind.Table?
      requires s.objs[o].kind.Table? ==> back
      modifies s
      ensures s.main == old(s.main) && s.globals == old(s.globals)
      ensures Valid() && (old(Held()) ==> Held())
      ensures s.phase == old(s.phase) && s.dead == old(s.dead)
      ensures o in old(Heap()) && i < |old(Heap())[o].slots|
      ensures Heap() == old(Heap())[o := old(Heap())[o].(slots := old(Heap())[o].slots[i := v])]
    {
      hide State.Valid, State.OnStack, Actual, Remembered, AllHeld, Continues, Spares;
      ghost var heap, c := s.objs, s.color;
      ghost var b := heap[o].(slots := heap[o].slots[i := v]);
      ActualAt(heap, late, o);
      ActualWrite(heap, late, o, b);
      WrittenSettled(heap, late, o, b);
      s.SetSlot(o, i, v, back);
      StepOfProgram(heap, c, s.currentwhite, s.allweak, s.InMarking(), s.objs, s.color, late);
    }

    /** Assigns to a key that is there. */
    method SetVal(h: Id, i: nat, v: Val)
      requires Valid() && s.main in s.objs && s.OnStack(Ref(h)) && s.OnStack(v)
      requires h in s.objs && s.objs[h].kind.Table? && i < |s.objs[h].nodes| && (h, i as int) !in s.dead
      modifies s
      ensures s.main == old(s.main) && s.globals == old(s.globals)
      ensures Valid() && (old(Held()) ==> Held())
      ensures s.phase == old(s.phase) && s.dead == old(s.dead)
      ensures h in old(Heap()) && i < |old(Heap())[h].nodes|
      ensures Heap() == old(Heap())[h := WithNode(old(Heap())[h], i, Node(old(Heap())[h].nodes[i].key, v))]
    {
      hide State.Valid, State.OnStack, Actual, Remembered, AllHeld, Continues, Spares;
      ghost var heap, c := s.objs, s.color;
      ghost var b := WithNode(heap[h], i, Node(heap[h].nodes[i].key, v));
      ActualAt(heap, late, h);
      ActualWrite(heap, late, h, b);
      WrittenSettled(heap, late, h, b);
      s.SetVal(h, i, v);
      StepOfProgram(heap, c, s.currentwhite, s.allweak, s.InMarking(), s.objs, s.color, late);
    }

    /** Inserts a new key. */
    method NewKey(h: Id, i: nat, k: Val, v: Val)
      requires Valid() && s.main in s.objs && s.OnStack(Ref(h)) && s.OnStack(k) && s.OnStack(v)
      requires h in s.objs && s.objs[h].kind.Table?
      requires i == |s.objs[h].nodes| || (i < |s.objs[h].nodes| && s.objs[h].nodes[i].val == Empty)
      modifies s
      ensures s.main == old(s.main) && s.globals == old(s.globals)
      ensures Valid() && (old(Held()) ==> Held())
      ensures s.phase == old(s.phase) && s.dead == old(s.dead) - {(h, i as int)}
      ensures h in old(Heap()) && i <= |old(Heap())[h].nodes|
      ensures Heap() == old(Heap())[h := WithNode(old(Heap())[h], i, Node(k, v))]
    {
      hide State.Valid, State.OnStack, Actual, Remembered, AllHeld, Continues, Spares;
      ghost var heap, c := s.objs, s.color;
      ghost var b := WithNode(heap[h], i, Node(k, v));
      ActualAt(heap, late, h);
      ActualWrite(heap, late, h, b);
      WrittenSettled(heap, late, h, b);
      s.NewKey(h, i, k, v);
      StepOfProgram(heap, c, s.currentwhite, s.allweak, s.InMarking(), s.objs, s.color, late);
    }

    /** A new object, on the stack. */
    method NewObject(kind: Kind, n: nat) returns (x: Id)
      requires Valid() && Shaped(Blank(kind, n))
      modifies s`objs, s`color, s`dead, s`allgc, s`sweepgc, s`next
      ensures s.main == old(s.main) && s.globals == old(s.globals)
      ensures Valid() && (old(Held()) ==> Held()) && x !in old(Heap()) && x !in old(s.objs) && s.main in old(Heap())
      ensures Heap() == old(Heap())[x := Blank(kind,
        n)][s.main := old(Heap())[s.main].(slots := old(Heap())[s.main].slots + [Ref(x)])]
      ensures s.objs == old(s.objs)[x := Blank(kind,
        n)][s.main := old(s.objs)[s.main].(slots := old(s.objs)[s.main].slots + [Ref(x)])]
      ensures s.color == old(s.color)[x := White(s.currentwhite)] && s.dead == Forget(old(s.dead), x)
    {
      hide State.Valid, Actual, Remembered, AllHeld, Continues, Spares, Shaped;
      s.ThreadReads();
      ghost var heap, c := s.objs, s.color;
      ActualAt(heap, late, s.main);
      FreshNext();
      var b := Blank(kind, n);
      x := s.NewObject(b);
      ghost var stack := heap[s.main].(slots := heap[s.main].slots + [Ref(x)]);
      AddedSettled(heap, late, x, b, s.main, stack);
      SparesNew(c, s.currentwhite, s.InMarking(), x);
      StepOfProgram(heap, c, s.currentwhite, s.allweak, s.InMarking(), s.objs, s.color, late);
      ActualNew(heap, late, x, b);
      ActualWrite(heap[x := b], late, s.main, stack);
    }

    lemma FreshNext()
      requires s.Valid()
      ensures s.next !in s.objs && s.next !in s.color
    {
    }

    method LoadStack(vs: seq<Val>)
      requires Valid() && forall i :: 0 <= i < |vs| ==> LiveVal(s.color, s.currentwhite, vs[i])
      modifies s`objs, s`dead
      ensures s.main == old(s.main) && s.globals == old(s.globals)
      ensures Valid() && (old(Held()) ==> Held()) && s.main in old(s.objs) && s.main in old(Heap())
      ensures Heap() == old(Heap())[s.main := old(Heap())[s.main].(slots := vs)] && s.dead == old(s.dead)
      ensures s.objs == old(s.objs)[s.main := old(s.objs)[s.main].(slots := vs)]
    {
      hide State.Valid, Actual, Remembered, AllHeld, Continues, Spares;
      s.ThreadReads();
      ghost var heap := s.objs;
      ghost var b := heap[s.main].(slots := vs);
      ActualAt(heap, late, s.main);
      ActualWrite(heap, late, s.main, b);
      WrittenSettled(heap, late, s.main, b);
      s.SetStack(vs);
      SparesSame(s.color, s.currentwhite, s.InMarking());
      StepOfProgram(heap, s.color, s.currentwhite, s.allweak, s.InMarking(), s.objs, s.color, late);
    }

    method SetGlobal(g: nat, v: Val)
      requires Valid() && s.main in s.objs && g < |s.globals| && s.OnStack(v)
      modifies s`globals
      ensures Valid() && (old(Held()) ==> Held()) && Heap() == old(Heap()) && s.main == old(s.main) &&
        s.globals == old(s.globals)[g := v]
    {
      hide State.Valid;
      s.SetGlobal(g, v);
    }

    // ---- The steps of the collector ----

    /** A cycle starts by going through the metatable of a table that is there though the
        metatable is not. */
    predicate MetaGone(t: Id)
      reads this, s
    {
      t in late && t in s.objs && !Exists(s.objs, late[t].meta)
    }

    /** Between two cycles what was remembered is what the collector will see from now on. */
    method Fold()
      requires Valid() && s.phase == Pause && forall t :: !MetaGone(t)
      modifies this, s`objs
      ensures Valid() && late == map[] && Heap() == old(Heap()) && s.objs.Keys == old(s.objs).Keys
    {
      hide State.Valid, Actual, Remembered;
      forall t | t in late && t in s.objs ensures Exists(s.objs, late[t].meta) {
        assert !MetaGone(t);
      }
      while late != map[]
        invariant Valid() && s.phase == Pause && Heap() == old(Heap()) && s.objs.Keys == old(s.objs).Keys
        invariant forall t :: t in late && t in s.objs ==> Exists(s.objs, late[t].meta)
        decreases |late|
      {
        var t :| t in late;
        var l := late[t];
        ghost var heap := s.objs;
        if t in s.objs {
          LateTable(t);
          ActualSet(s.objs, late, t, l.meta, l.mode);
          SameLate(late, t);
          s.Adopt(t, l.meta, l.mode);
          FoldedStays(heap, s.objs, s.allweak, late, t);
        } else {
          FoldedStays(heap, s.objs, s.allweak, late, t);
          ActualLess(s.objs, late, t);
        }
        OneLess(late, t);
        late := late - {t};
      }
    }

    lemma LateTable(t: Id)
      requires Valid() && t in late && t in s.objs
      ensures s.objs[t].kind.Table?
    {
    }

    /** `m` is everything there is, or a closed set that holds the roots and, while marking,
        whatever is marked. */
    ghost predicate Bounded(m: set<Id>)
      reads this, s
    {
      m == Heap().Keys ||
      if s.phase == Pause then Closed(Heap(), m) && RootsKept(Heap(), m, s.main, s.globals) else s.Bounded(m)
    }

    /** One step of the collector. */
    method Collect(ghost m: set<Id>) returns (ghost kept: set<Id>)
      requires Valid() && (s.phase == Pause ==> forall t :: !MetaGone(t)) && Bounded(m)
      modifies this, s
      ensures Valid() && (old(Held()) ==> Held())
      ensures s.main == old(s.main) && s.globals == old(s.globals) && Nears(old(Now()), Now())
      ensures old(s.phase) == Pause ==>
        late == map[] && s.objs == old(Heap()) && s.phase == Propagate && s.Bounded(m)
      ensures old(s.phase) != Pause ==> late == old(late) && s.Stepped(m, kept)
      ensures !old(s.InMarking()) ==> s.currentwhite == old(s.currentwhite)
      ensures Collects(old(Now()), Now(), LiveSet(s.color, s.currentwhite), false)
      ensures old(Held()) ==> Collects(old(Now()), Now(), LiveSet(s.color, s.currentwhite), true)
    {
      hide Actual, Pruned, LiveSet, State.Valid, Remembered, Longer, SameKinds, AllHeld, MarkedSet, Spares, Live, Taken,
        Closed, RootsKept, DeadOk, State.Stepped, State.StepsLeft, State.Bounded;
      ghost var a := Now();
      if s.InMarking() {
        StateBounded(m);
        kept := CollectMarking(m);
      } else {
        IdleTaken();
        if s.phase == Pause {
          CollectFirst(m);
          NothingActual(s.objs);
          kept := {};
        } else {
          StateBounded(m);
          kept := CollectSwept(m);
        }
      }
      DeadEmpty();
      ActualKeys(s.objs, late);
      LiveIsThere();
    }

    lemma StateBounded(m: set<Id>)
      requires Valid() && Bounded(m) && s.phase != Pause
      ensures s.Bounded(m)
    {
      hide State.Valid, State.Bounded, Remembered;
      ActualKeys(s.objs, late);
      s.WholeHeap();
    }

    /** What is live after a step holds the roots and is closed, as the collector takes the heap. */
    ghost predicate ClosedAs(a: View, held: bool)
      reads s
    {
      Closed(Taken(a, held), LiveSet(s.color, s.currentwhite)) &&
      RootsKept(a.heap, LiveSet(s.color, s.currentwhite), a.main, a.globals)
    }

    method CollectMarking(ghost m: set<Id>) returns (ghost kept: set<Id>)
      requires Valid() && s.InMarking() && s.Bounded(m)
      modifies s
      ensures Valid() && (old(Held()) ==> Held()) && s.main == old(s.main) && s.globals == old(s.globals)
      ensures s.Stepped(m, kept) && s.StepsLeft() < old(s.StepsLeft())
      ensures ClosedAs(old(Now()), false) && (old(Held()) ==> ClosedAs(old(Now()), true))
      ensures Pruned(old(Heap()), Heap(), LiveSet(s.color, s.currentwhite))
    {
      hide Actual, Pruned, LiveSet, State.Valid, Remembered, Longer, SameKinds, AllHeld, MarkedSet, Spares, Live, Taken,
        Closed, RootsKept, State.Stepped, State.Bounded, State.StepsLeft;
      ghost var heap, c, bit, listed, a := s.objs, s.color, s.currentwhite, s.allweak, Now();
      ghost var propagating := s.phase == Propagate;
      AsideAllWeak();
      kept := s.SingleStep(m);
      ghost var live := LiveSet(s.color, s.currentwhite);
      ActualPruned(heap, s.objs, late, live);
      TakenMarking(heap, late, live, a);
      HeldIn(heap, c, bit, late, live, MarkedSet(heap, c));
      KindsKept(heap, s.objs, late);
      if propagating { LongerHas(listed, s.allweak); }
      RememberedStays(heap, listed, true, s.objs, s.allweak, s.InMarking(), late);
      if propagating {
        HeldMarking(heap, c, s.color, bit, s.currentwhite, late);
      } else {
        LiveAt(s.color, s.currentwhite);
        HeldThrough(heap, c, s.color, bit, s.currentwhite, late);
      }
    }

    method CollectFirst(ghost m: set<Id>)
      requires Valid() && s.phase == Pause && (forall t :: !MetaGone(t)) && Bounded(m)
      modifies this, s
      ensures s.objs == old(Heap()) && s.phase == Propagate && s.Bounded(m) && s.currentwhite == old(s.currentwhite)
      ensures Valid() && Held() && late == map[] && s.main == old(s.main) && s.globals == old(s.globals)
      ensures LiveSet(s.color, s.currentwhite) == old(LiveSet(s.color, s.currentwhite))
      ensures Pruned(old(Heap()), Heap(), LiveSet(s.color, s.currentwhite))
    {
      hide Actual, Pruned, LiveSet, State.Valid, Remembered, SameKinds, AllHeld, MarkedSet, Closed, RootsKept,
        State.Bounded, State.StepsLeft;
      Fold();
      ghost var folded := s.objs;
      NothingActual(s.objs);
      s.PauseClosed(m);
      ghost var kept := s.SingleStep(m);
      ActualPruned(folded, s.objs, late, LiveSet(s.color, s.currentwhite));
      NoneHeld(s.objs, s.color, s.currentwhite, s.allweak, s.InMarking());
    }

    method CollectSwept(ghost m: set<Id>) returns (ghost kept: set<Id>)
      requires Valid() && !s.InMarking() && s.phase != Pause && s.Bounded(m)
      modifies s
      ensures s.Stepped(m, kept) && s.StepsLeft() < old(s.StepsLeft()) && s.currentwhite == old(s.currentwhite)
      ensures Valid() && (old(Held()) ==> Held()) && s.main == old(s.main) && s.globals == old(s.globals)
      ensures !s.InMarking() && LiveSet(s.color, s.currentwhite) == old(LiveSet(s.color, s.currentwhite))
      ensures Pruned(old(Heap()), Heap(), LiveSet(s.color, s.currentwhite))
    {
      hide Actual, Pruned, LiveSet, State.Valid, Remembered, SameKinds, AllHeld, MarkedSet, Closed, RootsKept, Spares,
        State.Stepped, State.Bounded, State.StepsLeft;
      ghost var heap, c, bit, listed := s.objs, s.color, s.currentwhite, s.allweak;
      kept := s.SingleStep(m);
      ActualPruned(heap, s.objs, late, LiveSet(s.color, s.currentwhite));
      KindsKept(heap, s.objs, late);
      RememberedStays(heap, listed, false, s.objs, s.allweak, s.InMarking(), late);
      HeldSweeping(heap, c, s.objs, s.color, bit, late);
    }

    /** While marking the collector takes what is set aside for all weak. */
    lemma AsideAllWeak()
      requires Valid() && s.InMarking()
      ensures forall t :: t in late && t in s.objs ==> s.objs[t].kind == Table(AllWeak)
    {
      forall t | t in late && t in s.objs ensures AllWeakListed(s.objs, s.color, t) { }
    }

    lemma IdleTaken()
      requires Valid() && !s.InMarking()
      ensures ClosedAs(Now(), false) && (Held() ==> ClosedAs(Now(), true))
    {
      hide Consistent, Closed, RootsKept, State.InPhase, LiveSet, Taken, TakenFor, Remembered, AllHeld, Actual;
      SteadyReads();
      TakenSame(s.objs, s.color, s.dead, s.currentwhite, s.main, s.globals);
      RememberedTables();
      TakenIdle(s.objs, s.color, s.currentwhite, s.allweak, late, Now());
      LiveClosed(s.objs, s.color, s.dead, s.currentwhite, s.main, s.globals, Taken(Now(), false));
      TakenRoots(s.objs, late, Now(), LiveSet(s.color, s.currentwhite));
      if Held() {
        LiveClosed(s.objs, s.color, s.dead, s.currentwhite, s.main, s.globals, Taken(Now(), true));
      }
    }

    lemma RememberedTables()
      requires Valid()
      ensures forall t :: t in late && t in s.objs ==> s.objs[t].kind.Table?
    {
    }

    lemma SteadyReads()
      requires s.Valid()
      ensures Consistent(s.objs, s.color, s.dead, s.currentwhite, s.main, s.globals)
    {
    }

    lemma DeadEmpty()
      requires s.Valid()
      ensures DeadOk(Heap(), s.dead)
    {
      SteadyReads();
    }

    lemma LiveIsThere()
      requires s.Valid()
      ensures LiveSet(s.color, s.currentwhite) <= s.objs.Keys
    {
      SteadyReads();
    }

    /** A full collection gives up the cycle that is being marked. */
    method GiveUp()
      requires Valid()
      modifies s
      ensures Valid() && (old(Held()) ==> Held()) && !s.InMarking() && s.dead == old(s.dead)
      ensures Heap() == old(Heap()) && s.main == old(s.main) && s.globals == old(s.globals)
      ensures Collects(old(Now()), Now(), LiveSet(s.color, s.currentwhite), false)
      ensures old(Held()) ==> Collects(old(Now()), Now(), LiveSet(s.color, s.currentwhite), true)
    {
      hide State.Valid, Remembered, AllHeld, LiveSet, Taken, Closed, RootsKept, DeadOk, Actual, Pruned;
      if s.InMarking() {
        Abandon();
      } else {
        IdleTaken();
      }
      PrunedNothing(Heap(), LiveSet(s.color, s.currentwhite));
      DeadEmpty();
      ActualKeys(s.objs, late);
      LiveIsThere();
    }

    method Abandon()
      requires Valid() && s.InMarking()
      modifies s
      ensures Valid() && (old(Held()) ==> Held()) && !s.InMarking() && s.dead == old(s.dead)
      ensures Heap() == old(Heap()) && s.main == old(s.main) && s.globals == old(s.globals)
      ensures ClosedAs(old(Now()), false) && (old(Held()) ==> ClosedAs(old(Now()), true))
    {
      hide State.Valid, Remembered, AllHeld, MarkedSet, Live, Taken, Closed, RootsKept, LiveSet, Actual;
      ghost var heap, c, bit, a := s.objs, s.color, s.currentwhite, Now();
      AsideAllWeak();
      s.AbandonCycle();
      s.ReadyToClose();
      ghost var m := LiveSet(s.color, s.currentwhite);
      TakenMarking(heap, late, m, a);
      MarkedThere(heap, c);
      LiveIfLive(heap, s.color, s.currentwhite);
      HeldIn(heap, c, bit, late, m, MarkedSet(heap, c));
      RememberedStays(heap, s.allweak, true, s.objs, s.allweak, false, late);
      HeldThrough(heap, c, s.color, bit, s.currentwhite, late);
    }

    // ---- Runs ----

    /** Whether the next step is the store of a metatable that escapes the collector. */
    predicate Strays(op: Op)
      reads s
    {
      op.Meta? && Escapes(op.m, op.mt)
    }

    /** Whether the next step uses a lost object: a cycle would go through it, or the program
        would load it. */
    predicate Breaks(op: Op)
      reads this, s
    {
      match op
      case Collect => s.phase == Pause && exists t :: t in late && MetaGone(t)
      case Load(vs) => exists i :: 0 <= i < |vs| && !LiveVal(s.color, s.currentwhite, vs[i])
      case _ => false
    }

    method Do(op: Op)
      requires Valid() && Fits(Now(), op) && !Breaks(op)
      modifies this, s
      ensures Valid() && StepOf(old(Now()), op, Now(), LiveSet(s.color, s.currentwhite), false)
      ensures old(Held()) ==> StepOf(old(Now()), op, Now(), LiveSet(s.color, s.currentwhite), true)
      ensures old(Held() && !Strays(op)) ==> Held()
    {
      hide State.Valid, Actual, Remembered, AllHeld, LiveSet, Shaped, IsMarked, PointsTo, Collects;
      s.ThreadReads();
      ActualAt(s.objs, late, s.main);
      match op {
        case Collect =>
          NothingGone();
          ghost var kept := Collect(Heap().Keys);
        case GiveUp =>
          GiveUp();
        case New(kind, n) =>
          ghost var a := Now();
          var x := NewObject(kind, n);
          NewIsStep(a, kind, n, Now(), x, LiveSet(s.color, s.currentwhite), false);
          NewIsStep(a, kind, n, Now(), x, LiveSet(s.color, s.currentwhite), true);
        case Load(vs) =>
          LoadStack(vs);
        case Global(g, v) =>
          SetGlobal(g, v);
        case Slot(o, i, v, back) =>
          ActualKind(s.objs, late, o);
          SetSlot(o, i, v, back);
        case Value(h, j, v) =>
          ActualKind(s.objs, late, h);
          SetVal(h, j, v);
        case Insert(h, j, k, v) =>
          ActualKind(s.objs, late, h);
          NewKey(h, j, k, v);
        case Meta(o, v, mode) =>
          ActualKind(s.objs, late, o);
          if v.Ref? { ActualKind(s.objs, late, v.id); }
          SetMeta(o, v, mode);
      }
    }

    /** Whatever is loaded though it is dead was reached through a table that lost its metatable,
        and a metatable that is gone is lost. */
    lemma BreaksLost(op: Op)
      requires Valid() && Fits(Now(), op) && Breaks(op)
      ensures exists t :: IsLost(t) && t in s.objs
    {
      hide PointsTo, Consistent;
      match op
      case Collect =>
        var t :| MetaGone(t);
        GoneLost(t);
      case Load(vs) =>
        var i :| 0 <= i < |vs| && !LiveVal(s.color, s.currentwhite, vs[i]);
        assert MayLoad(Now(), vs[i]);
        var o := LoadedLost(vs[i]);
    }

    lemma GoneLost(t: Id)
      requires Valid() && MetaGone(t)
      ensures IsLost(t)
    {
    }

    lemma RootLive(v: Val)
      requires s.Valid() && s.main in s.objs
      ensures s.OnStack(v) || v in s.globals ==> LiveVal(s.color, s.currentwhite, v)
    {
      if s.OnStack(v) {
        s.StackLive(v);
      } else if v in s.globals {
        var i :| 0 <= i < |s.globals| && s.globals[i] == v;
        assert LiveVal(s.color, s.currentwhite, s.globals[i]);
      }
    }

    lemma LoadedLost(v: Val) returns (o: Id)
      requires Valid() && s.main in s.objs && s.main in Now().heap && MayLoad(Now(), v) &&
        !LiveVal(s.color, s.currentwhite, v)
      ensures IsLost(o) && o in s.objs
    {
      hide PointsTo, Actual, State.InPhase, Lost;
      ActualAt(s.objs, late, s.main);
      RootLive(v);
      o :| o in Heap() && AtHand(Now(), Ref(o)) && v.Ref? && PointsTo(Heap(), s.dead, o, v.id);
      s.StackLive(Ref(o));
      if !Lost(s.color, s.currentwhite, late, o) {
        StepLive(s.objs, s.color, s.dead, s.currentwhite, s.main, s.globals, late, o, v.id);
      }
    }

    /** As long as nothing is lost the run can go on, and what can be reached is there. */
    lemma HeldGoesOn(op: Op)
      requires Valid() && Held() && Fits(Now(), op)
      ensures !Breaks(op)
    {
      hide State.Valid, Fits, Held, Breaks, IsLost, Remembered;
      HeldNotLost();
      if Breaks(op) { BreaksLost(op); }
    }

    lemma HeldSafe()
      requires Valid() && Held()
      ensures AllSafe() && Secure(Now()) && forall x :: InReach(Now(), x) ==> x in LiveSet(s.color, s.currentwhite)
    {
      hide State.Valid, Held, IsLost, AllSafe, Remembered;
      SafeIff();
      HeldNotLost();
      SafeSecure();
    }

    lemma SafeSecure()
      requires AllSafe()
      ensures Secure(Now()) && forall x :: InReach(Now(), x) ==> x in LiveSet(s.color, s.currentwhite)
    {
      hide Reachable;
      forall x | InReach(Now(), x) ensures x in Heap() && x in LiveSet(s.color, s.currentwhite) {
        assert Reaches(s.objs, s.dead, s.main, s.globals, late, x);
      }
    }

    /** Over every interleaving of the collector's steps with the program's, up to the first
        store of a metatable that escapes: every step does what the program asked for, the
        collector leaves alone a closed set that holds the roots, and with it everything that can
        be reached, and what can be reached is there at every moment. */
    method Run(ops: seq<Op>) returns (done: nat, ghost trace: seq<View>)
      requires Valid() && Held()
      modifies this, s
      ensures Valid() && Held() && done <= |ops|
      ensures |trace| == done + 1 && trace[0] == old(Now()) && trace[done] == Now()
      ensures forall k :: 0 <= k < done ==> Stepped(trace[k], ops[k], trace[k + 1])
      ensures forall k :: 0 <= k <= done ==> Secure(trace[k])
      ensures done < |ops| ==> Fits(Now(), ops[done]) && Strays(ops[done])
    {
      hide State.Valid, Remembered, AllHeld, Held, Valid, Fits, Strays, StepOf, Secure, InReach, Breaks, AllSafe, Now,
        LiveSet;
      done := 0;
      trace := [Now()];
      HeldSafe();
      while done < |ops| && !(Fits(Now(), ops[done]) && Strays(ops[done]))
        invariant Valid() && Held() && done <= |ops|
        invariant |trace| == done + 1 && trace[0] == old(Now()) && trace[done] == Now()
        invariant forall k :: 0 <= k < done ==> Stepped(trace[k], ops[k], trace[k + 1])
        invariant forall k :: 0 <= k <= done ==> Secure(trace[k])
        decreases |ops| - done
      {
        ghost var a := Now();
        if Fits(Now(), ops[done]) {
          HeldGoesOn(ops[done]);
          Do(ops[done]);
        }
        HeldSafe();
        ghost var b := Now();
        assert Stepped(a, ops[done], b);
        ghost var before := trace;
        trace := trace + [b];
        forall k | 0 <= k <= done ensures Stepped(trace[k], ops[k], trace[k + 1]) {
          assert k < done ==> trace[k] == before[k] && trace[k + 1] == before[k + 1];
        }
        done := done + 1;
      }
    }

    /** Any run at all, up to the use of an object that is lost: the set that the collector leaves
        alone is closed but for metatables it has not seen, and what can be reached is there
        exactly as long as no table within reach has lost its metatable. */
    method RunOn(ops: seq<Op>) returns (done: nat, ghost trace: seq<View>)
      requires Valid()
      modifies this, s
      ensures Valid() && done <= |ops|
      ensures |trace| == done + 1 && trace[0] == old(Now()) && trace[done] == Now()
      ensures forall k :: 0 <= k < done ==> Moved(trace[k], ops[k], trace[k + 1])
      ensures AllSafe() <==> forall t :: IsLost(t) ==> !CanReach(t)
      ensures done < |ops| ==> Fits(Now(), ops[done]) && Breaks(ops[done]) && exists t :: IsLost(t) && t in s.objs
    {
      hide State.Valid, Remembered, Valid, Fits, StepOf, Breaks, AllSafe, Now, IsLost, CanReach, LiveSet;
      done := 0;
      trace := [Now()];
      while done < |ops|
        invariant Valid() && done <= |ops|
        invariant |trace| == done + 1 && trace[0] == old(Now()) && trace[done] == Now()
        invariant forall k :: 0 <= k < done ==> Moved(trace[k], ops[k], trace[k + 1])
        decreases |ops| - done
      {
        ghost var a := Now();
        if Fits(Now(), ops[done]) {
          if Breaks(ops[done]) {
            BreaksLost(ops[done]);
            break;
          }
          Do(ops[done]);
        }
        ghost var b := Now();
        assert Moved(a, ops[done], b);
        ghost var before := trace;
        trace := trace + [b];
        forall k | 0 <= k <= done ensures Moved(trace[k], ops[k], trace[k + 1]) {
          assert k < done ==> trace[k] == before[k] && trace[k + 1] == before[k + 1];
        }
        done := done + 1;
      }
      SafeIff();
    }

    // ---- A metatable that escaped ----

    /** A whole cycle by steps of the collector alone: strings apart, exactly what is outside the
        least closed set that holds the roots is freed. */
    method Cycle(ghost m: set<Id>) returns (ghost kept: set<Id>, steps: nat)
      requires Valid() && s.phase == Pause && forall t :: !MetaGone(t)
      requires Closed(Heap(), m) && RootsKept(Heap(), m, s.main, s.globals)
      modifies this, s
      ensures Valid() && s.phase == Pause && s.main == old(s.main) && s.globals == old(s.globals) && late == map[]
      ensures Closed(old(Heap()), kept) && RootsKept(old(Heap()), kept, s.main, s.globals) && kept <= m
      ensures forall x :: x in old(Heap()) && old(Heap())[x].kind != Leaf ==> (x in Heap() <==> x in kept)
      ensures Pruned(old(Heap()), Heap(), kept)
      ensures steps <= |old(Heap())| * |old(Heap())| + 3 * |old(Heap())| + 7
    {
      hide Actual, Pruned, LiveSet, State.Valid, Remembered, SameKinds, AllHeld, MarkedSet, Closed, RootsKept, Collects,
        OnlyDeadFreed, State.Bounded, State.StepsLeft, AllHeld, Live;
      ghost var heap := Heap();
      kept := Collect(m);
      s.LeftBounded();
      ghost var bound := s.StepsLeft();
      steps := 1;
      while s.phase != Pause
        invariant Valid() && s.main == old(s.main) && s.globals == old(s.globals) && late == map[]
        invariant s.StepsLeft() + steps <= bound + 1
        invariant s.InMarking() ==> s.objs == heap && s.Bounded(m)
        invariant !s.InMarking() ==>
          s.Collecting(heap, kept) && kept <= m && Closed(heap, kept) && RootsKept(heap, kept, s.main, s.globals)
        decreases s.StepsLeft()
      {
        ghost var atomic, marking := s.phase == EnterAtomic, s.InMarking();
        s.NeverAtomic();
        SweepBounded(m);
        label Before:
        ghost var marked := Collect(m);
        if atomic {
          kept := marked;
        } else if !marking {
          s.CollectingStays@Before(heap, kept, m, marked);
        }
        steps := steps + 1;
      }
      NothingActual(s.objs);
    }

    lemma SweepBounded(m: set<Id>)
      requires s.phase != Pause && (s.InMarking() ==> s.Bounded(m)) && s.phase != Atomic
      ensures Bounded(m)
    {
    }

    /** The rest of the cycle without interruption.  A remembered metatable is lost exactly when
        the collector did not come upon it by another way. */
    method FinishCycle(ghost m: set<Id>) returns (ghost kept: set<Id>)
      requires Valid() && s.InMarking() && s.Bounded(m)
      modifies s
      ensures Valid() && s.phase == Pause && s.main == old(s.main) && s.globals == old(s.globals)
      ensures MarkedSet(old(s.objs), old(s.color)) <= kept <= m
      ensures Closed(old(s.objs), kept) && RootsKept(old(s.objs), kept, s.main, s.globals)
      ensures forall x :: x in old(s.objs) && old(s.objs)[x].kind != Leaf ==> (x in s.objs <==> x in kept)
      ensures Pruned(old(Heap()), Heap(), kept)
      ensures forall t :: IsLost(t) <==> t in late && late[t].meta.Ref? && late[t].meta.id !in kept
      ensures Secure(Now()) <==> forall t :: t in late && late[t].meta.Ref? && CanReach(t) ==> late[t].meta.id in kept
    {
      hide State.Valid, Remembered, Longer, SameKinds, MarkedSet, Closed, Within, State.RootsIn, RootsKept, Pruned,
        Actual, Secure, AllSafe, CanReach;
      ghost var heap, listed := s.objs, s.allweak;
      TablesRemembered();
      kept := s.FinishCycle(m);
      KindsKept(heap, s.objs, late);
      RememberedStays(heap, listed, true, s.objs, s.allweak, false, late);
      ActualPruned(heap, s.objs, late, kept);
      IdleLive();
      forall t ensures IsLost(t) <==> t in late && late[t].meta.Ref? && late[t].meta.id !in kept { }
      SafeIff();
      IdleSecure();
    }

    lemma TablesRemembered()
      requires Valid() && s.InMarking()
      ensures forall t :: t in late ==> IsTable(s.objs, late[t].meta)
    {
    }

    lemma IdleLive()
      requires Valid() && s.phase == Pause
      ensures forall x :: Live(s.color, s.currentwhite, x) <==> x in s.objs
    {
      hide Consistent;
      s.SweepKeys();
      s.IdleReads();
    }

    /** Between two cycles only what is gone is dead. */
    lemma IdleSecure()
      requires Valid() && s.phase == Pause
      ensures Secure(Now()) <==> AllSafe()
    {
      hide Reachable, State.Valid, Remembered;
      IdleLive();
      forall x ensures InReach(Now(), x) == Reaches(s.objs, s.dead, s.main, s.globals, late, x) { }
    }

    /** A table that has been set aside is given a new metatable, which is then dropped from the
        stack and freed, though the table is there and refers to it. */
    static method LosesMetatable() returns (a: Machine, t: Id, x: Id)
      ensures a.Valid() && a.s.phase == Pause && t in a.s.objs && a.CanReach(t) && a.CanReach(x) && x !in a.s.objs
      ensures !Secure(a.Now())
    {
      hide State.Valid, Remembered, AllHeld, Closed, Within, Pruned, RootsKept, MarkedSet, Actual, Reachable, Forces,
        Trio, State.RootsIn;
      var w;
      a, t, w := SetsAside();
      x := a.Replaces(t, w);
      ghost var heap := a.s.objs;
      TrioReads(heap, a.s.main, t, w, []);
      TrioClosed(heap, a.s.main, t, w, []);
      a.TrioRoots(t, w, []);
      ghost var kept := a.FinishCycle({a.s.main, t, w});
      RootKept(heap, kept, a.s.main, t);
      MetaReached(a.s.objs, a.late, a.s.dead, a.s.main, a.s.globals, t, x);
    }

    /** The beginning of a cycle sets an all-weak table aside. */
    static method SetsAside() returns (a: Machine, t: Id, w: Id)
      ensures fresh(a) && fresh(a.s) && a.Valid() && a.s.phase == Propagate && t in a.s.allweak && a.late == map[]
      ensures Trio(a.s.objs, a.s.main, t, w, [Ref(t), Ref(w)]) && a.s.globals == [Ref(t)]
      ensures a.s.objs.Keys == {a.s.main, t, w} && Within(a.s.objs, a.s.color, {a.s.main, t, w})
    {
      hide State.Valid, Remembered, AllHeld, Closed, Within, Pruned, MarkedSet, Actual, Forces, Trio, State.RootsIn,
        State.OnStack, Shaped;
      a, t, w := Prepares();
      TrioReads(a.s.objs, a.s.main, t, w, [Ref(t), Ref(w)]);
      TrioClosed(a.s.objs, a.s.main, t, w, [Ref(t), Ref(w)]);
      a.TrioRoots(t, w, [Ref(t), Ref(w)]);
      a.IdleWhite();
      a.s.StartCycle({a.s.main, t, w});
      a.s.PropagateStep({a.s.main, t, w});
      NoneHeld(a.s.objs, a.s.color, a.s.currentwhite, a.s.allweak, true);
    }

    static method Prepares() returns (a: Machine, t: Id, w: Id)
      ensures fresh(a) && fresh(a.s) && a.Valid() && a.s.phase == Pause && a.late == map[]
      ensures Trio(a.s.objs, a.s.main, t, w, [Ref(t), Ref(w)]) && a.s.globals == [Ref(t)] &&
        a.s.objs.Keys == {a.s.main, t, w}
    {
      hide State.Valid, Remembered, AllHeld, Pruned, MarkedSet, Actual, Trio;
      a := new Machine(1);
      ghost var heap := a.s.objs;
      t := a.NewObject(Table(Strong), 0);
      ghost var heap1 := a.s.objs;
      w := a.NewObject(Table(Strong), 0);
      ActualNone(a.s.objs);
      a.SetMeta(t, Ref(w), AllWeak);
      ActualNone(a.s.objs);
      TrioMade(a.s.main, t, w, heap, heap1);
      a.SetGlobal(0, Ref(t));
    }

    /** A new table becomes the metatable of the table set aside, and the stack is emptied. */
    method Replaces(t: Id, w: Id) returns (x: Id)
      requires Valid() && s.phase == Propagate && t in s.allweak && late == map[]
      requires Trio(s.objs, s.main, t, w, [Ref(t), Ref(w)]) && Within(s.objs, s.color, {s.main, t, w})
      modifies `late, s`objs, s`color, s`dead, s`allgc, s`sweepgc, s`next
      ensures Valid() && s.main == old(s.main) && late == map[t := Late(Ref(x), AllWeak)]
      ensures Trio(s.objs, s.main, t, w, []) && Within(s.objs, s.color, {s.main, t, w})
      ensures x in s.objs && x !in {s.main, t, w} && s.objs[x].kind == Table(Strong)
    {
      hide State.Valid, Remembered, AllHeld, Closed, Within, Pruned, MarkedSet, Actual, Trio;
      ghost var heap, c := s.objs, s.color;
      TrioReads(heap, s.main, t, w, [Ref(t), Ref(w)]);
      x := NewObject(Table(Strong), 0);
      WithinNew(heap, c, {s.main, t, w}, s.objs, x, s.currentwhite);
      ghost var heap1 := s.objs;
      SetUnseen(t, Ref(x), AllWeak);
      LoadStack([]);
      TrioStays(heap, s.main, t, w, heap1, s.objs, x);
      WithinSame(heap1, s.objs, s.color, {s.main, t, w});
    }

    lemma TrioRoots(t: Id, w: Id, slots: seq<Val>)
      requires Trio(s.objs, s.main, t, w, slots) && s.globals == [Ref(t)]
      ensures s.RootsIn({s.main, t, w})
    {
    }

    lemma IdleWhite()
      requires s.Valid() && s.phase == Pause
      ensures forall x :: x in s.objs ==> x in s.color && s.color[x].White?
    {
      s.SweepKeys();
      s.IdleReads();
    }
  }

  /** The running thread, an all-weak table `t` and its metatable `w`. */
  ghost predicate Trio(heap: Heap, main: Id, t: Id, w: Id, slots: seq<Val>) {
    main != t && main != w && t != w && main in heap && t in heap && w in heap &&
    heap[main] == Object(Thread, Plain, slots, []) && heap[t] == Object(Table(AllWeak), Ref(w), [], []) &&
    heap[w] == Object(Table(Strong), Plain, [], [])
  }

  lemma TrioReads(heap: Heap, main: Id, t: Id, w: Id, slots: seq<Val>)
    requires Trio(heap, main, t, w, slots)
    ensures main != t && main != w && t != w && main in heap && t in heap && w in heap
    ensures heap[main].kind == Thread && heap[main].slots == slots && heap[t].kind == Table(AllWeak) &&
      heap[w].kind == Table(Strong)
  {
  }

  lemma TrioMade(main: Id, t: Id, w: Id, heap: Heap, heap': Heap)
    requires heap.Keys == {main} && heap[main] == Object(Thread, Plain, [], []) && t !in heap
    requires heap' == heap[t := Blank(Table(Strong), 0)][main := heap[main].(slots := heap[main].slots + [Ref(t)])]
    requires w !in heap'
    ensures main in heap'[w := Blank(Table(Strong), 0)] && t in heap'[w := Blank(Table(Strong), 0)]
    ensures
      var heap'' := heap'[w := Blank(Table(Strong), 0)][main := heap'[main].(slots := heap'[main].slots + [Ref(w)])];
      t in heap'' && Trio(heap''[t := WithMeta(heap''[t], Ref(w), AllWeak)], main, t, w, [Ref(t), Ref(w)])
  {
  }

  lemma TrioStays(heap: Heap, main: Id, t: Id, w: Id, heap1: Heap, heap2: Heap, x: Id)
    requires Trio(heap, main, t, w, [Ref(t), Ref(w)]) && x !in heap && main in heap1 &&
      heap2 == heap1[main := heap1[main].(slots := [])]
    requires heap1 == heap[x := Blank(Table(Strong), 0)][main := heap[main].(slots := heap[main].slots + [Ref(x)])]
    ensures Trio(heap2, main, t, w, []) && x !in {main, t, w} && x in heap2 && heap2[x].kind == Table(Strong)
  {
  }

  lemma TrioClosed(heap: Heap, main: Id, t: Id, w: Id, slots: seq<Val>)
    requires Trio(heap, main, t, w, slots) && (slots == [] || slots == [Ref(t), Ref(w)])
    ensures Closed(heap, {main, t, w})
  {
  }

  lemma WithinNew(heap: Heap, c: Colors, m: set<Id>, heap': Heap, x: Id, bit: bool)
    requires Within(heap, c, m) && x !in heap &&
      (forall y :: y in heap' ==> y == x || (y in heap && heap'[y].kind == heap[y].kind))
    ensures Within(heap', c[x := White(bit)], m)
  {
  }

  lemma WithinSame(heap: Heap, heap': Heap, c: Colors, m: set<Id>)
    requires Within(heap, c, m) && forall y :: y in heap' ==> y in heap && heap'[y].kind == heap[y].kind
    ensures Within(heap', c, m)
  {
  }

  lemma RootKept(heap: Heap, kept: set<Id>, main: Id, t: Id)
    requires RootsKept(heap, kept, main, [Ref(t)]) && t in heap && heap[t].kind.Table?
    ensures t in kept
  {
    assert Belongs(heap, kept, [Ref(t)][0]);
  }

  lemma ActualNone(heap: Heap)
    ensures Actual(heap, map[]) == heap
  {
  }

  /** An object reached from a global through the metatable remembered for it. */
  lemma MetaReached(heap: Heap, late: Lates, dead: DeadKeys, main: Id, globals: seq<Val>, t: Id, x: Id)
    requires globals == [Ref(t)] && t in heap && t in late && late[t].meta == Ref(x)
    ensures Reaches(heap, dead, main, globals, late, t) && Reaches(heap, dead, main, globals, late, x)
  {
    var p := [t];
    assert IsPath(Actual(heap, late), dead, main, globals, p) && p[|p| - 1] == t;
    assert PointsTo(Actual(heap, late), dead, t, x);
    PathOn(Actual(heap, late), dead, main, globals, t, x);
  }

  lemma ActualKind(heap: Heap, late: Lates, o: Id)
    requires o in Actual(heap, late)
    ensures o in heap && Actual(heap, late)[o].slots == heap[o].slots && Actual(heap, late)[o].nodes == heap[o].nodes
    ensures Actual(heap, late)[o].kind.Table? == heap[o].kind.Table? &&
      Actual(heap, late)[o].kind.Holder? == heap[o].kind.Holder?
  {
  }

  lemma ActualPruned(heap: Heap, heap': Heap, late: Lates, m: set<Id>)
    requires Pruned(heap, heap', m)
    ensures Pruned(Actual(heap, late), Actual(heap', late), m)
  {
    forall o | o in heap' ensures PrunedObject(Actual(heap, late), m, Actual(heap, late)[o], Actual(heap', late)[o]) {
      assert PrunedObject(heap, m, heap[o], heap'[o]);
      ActualBelongs(heap, late, m);
      var b, b' := heap[o], heap'[o];
      forall i | 0 <= i < |b.nodes| ensures PrunedEntry(Actual(heap, late), m, b.nodes[i], b'.nodes[i]) {
        assert PrunedEntry(heap, m, b.nodes[i], b'.nodes[i]);
      }
    }
  }

  lemma ActualBelongs(heap: Heap, late: Lates, m: set<Id>)
    ensures forall v :: Belongs(Actual(heap, late), m, v) == Belongs(heap, m, v)
  {
  }

  function Blank(kind: Kind, n: nat): Object {
    Object(kind, Plain, seq(n, _ => Plain), [])
  }

  lemma ActualAt(heap: Heap, late: Lates, o: Id)
    requires o in heap
    ensures o in Actual(heap, late) && Actual(heap, late).Keys == heap.Keys
    ensures Actual(heap, late)[o].slots == heap[o].slots && Actual(heap, late)[o].nodes == heap[o].nodes
  {
  }

  lemma SparesNew(c: Colors, bit: bool, marking: bool, x: Id)
    requires x !in c
    ensures Spares(c, bit, marking, c[x := White(bit)])
  {
  }

  lemma HeldMarking(heap: Heap, c: Colors, c': Colors, bit: bool, bit': bool, late: Lates)
    requires MarkedSet(heap, c) <= MarkedSet(heap, c')
    ensures AllHeld(heap, c, bit, true, late) ==> AllHeld(heap, c', bit', true, late)
  {
  }

  lemma LiveAt(c: Colors, bit: bool)
    ensures forall x :: x in LiveSet(c, bit) ==> Live(c, bit, x)
  {
  }

  lemma LiveIfLive(heap: Heap, c: Colors, bit: bool)
    requires forall x :: x in heap ==> Live(c, bit, x)
    ensures heap.Keys <= LiveSet(c, bit)
  {
  }

  lemma ActualKeys(heap: Heap, late: Lates)
    ensures Actual(heap, late).Keys == heap.Keys
  {
  }

  /** While marking what is held is marked. */
  lemma HeldIn(heap: Heap, c: Colors, bit: bool, late: Lates, m: set<Id>, marked: set<Id>)
    requires marked == MarkedSet(heap, c) && marked <= m
    ensures AllHeld(heap, c, bit, true, late) ==> MetasIn(late, m)
  {
  }

  ghost predicate MetasIn(late: Lates, m: set<Id>) {
    forall t :: t in late && late[t].meta.Ref? ==> late[t].meta.id in m
  }

  lemma TakenMarking(heap: Heap, late: Lates, m: set<Id>, a: View)
    requires a.heap == Actual(heap, late) && a.marking && a.aside == late.Keys
    requires Closed(heap, m) && RootsKept(heap, m, a.main, a.globals)
    requires forall t :: t in late && t in heap ==> heap[t].kind == Table(AllWeak)
    ensures Closed(Taken(a, false), m) && (MetasIn(late, m) ==> Closed(Taken(a, true), m))
    ensures RootsKept(a.heap, m, a.main, a.globals)
  {
    hide Closed;
    TakenRoots(heap, late, a, m);
    TakenClosed(heap, late, m, a, false);
    if MetasIn(late, m) { TakenClosed(heap, late, m, a, true); }
  }

  lemma TakenClosed(heap: Heap, late: Lates, m: set<Id>, a: View, held: bool)
    requires a.heap == Actual(heap, late) && a.marking && a.aside == late.Keys && Closed(heap, m)
    requires forall t :: t in late && t in heap ==> heap[t].kind == Table(AllWeak)
    requires held ==> MetasIn(late, m)
    ensures Closed(Taken(a, held), m)
  {
    var taken := Taken(a, held);
    forall o, v | o in m && o in taken && Forces(taken, m, o, v) ensures Belongs(taken, m, v) {
      if o !in late {
        assert Forces(heap, m, o, v);
        assert Belongs(heap, m, v);
      }
    }
  }

  lemma TakenRoots(heap: Heap, late: Lates, a: View, m: set<Id>)
    requires a.heap == Actual(heap, late) && a.aside == late.Keys
    requires forall t :: t in late && t in heap ==> heap[t].kind.Table?
    ensures RootsKept(heap, m, a.main, a.globals) || RootsKept(Taken(a, false), m, a.main, a.globals) ==>
      RootsKept(a.heap, m, a.main, a.globals)
  {
    ActualBelongs(heap, late, m);
    forall v ensures Belongs(Taken(a, false), m, v) == Belongs(heap, m, v) { }
  }

  /** While not marking every reference of a live object counts. */
  lemma TakenIdle(heap: Heap, c: Colors, bit: bool, allweak: seq<Id>, late: Lates, a: View)
    requires a.heap == Actual(heap, late) && !a.marking && a.aside == late.Keys
    requires Remembered(heap, allweak, false, late) && TakenFor(heap, c, bit, heap)
    ensures TakenFor(heap, c, bit, Taken(a, false))
    ensures AllHeld(heap, c, bit, false, late) ==> TakenFor(heap, c, bit, Taken(a, true))
  {
  }

  lemma HeldThrough(heap: Heap, c: Colors, c': Colors, bit: bool, bit': bool, late: Lates)
    requires forall x :: x in MarkedSet(heap, c) ==> Live(c', bit', x)
    ensures forall heap' :: AllHeld(heap, c, bit, true, late) ==> AllHeld(heap', c', bit', false, late)
  {
  }

  lemma HeldSweeping(heap: Heap, c: Colors, heap': Heap, c': Colors, bit: bool, late: Lates)
    requires Spares(c, bit, false, c')
    ensures AllHeld(heap, c, bit, false, late) ==> AllHeld(heap', c', bit, false, late)
  {
  }

  lemma KindsKept(heap: Heap, heap': Heap, late: Lates)
    requires SameKinds(heap, heap')
    ensures forall x :: x in heap' && x in late ==> x in heap && heap'[x].kind == heap[x].kind
  {
  }

  lemma SameLate(late: Lates, t: Id)
    requires t in late
    ensures late[t := Late(late[t].meta, late[t].mode)] == late
  {
  }

  lemma OneLess(late: Lates, t: Id)
    requires t in late
    ensures |late - {t}| < |late|
  {
    assert (late - {t}).Keys == late.Keys - {t};
    assert |(late - {t}).Keys| == |late.Keys| - 1;
  }

  lemma ActualLess(heap: Heap, late: Lates, t: Id)
    requires t !in heap
    ensures Actual(heap, late - {t}) == Actual(heap, late)
  {
  }

  lemma FoldedStays(heap: Heap, heap': Heap, allweak: seq<Id>, late: Lates, t: Id)
    requires Remembered(heap, allweak, false, late) && forall x :: x in heap' && x != t ==>
      x in heap && heap'[x] == heap[x]
    ensures Remembered(heap', allweak, false, late - {t})
  {
  }
}
