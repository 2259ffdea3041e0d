/**
 The heap as the collector of `lgc.c` sees it: objects, colours, and what it means for an
 object's references to be marked, live, or forced by a marked object.
 */
module CollectorHeap {

  type Id = nat

  /** What a slot, a key or a value holds: nothing, a value that is not collectable, or an object. */
  datatype Val = Empty | Plain | Ref(id: Id)

  datatype Mode = Strong | WeakValues | Ephemeron | AllWeak

  /** Strings are leaves.  A closed upvalue, or a userdata without user values, is a cell: it
      has one reference and is visited as soon as it is marked.  Holders (closures, prototypes,
      other userdata), threads and tables wait in a list to be visited. */
  datatype Kind = Leaf | Cell | Holder | Thread | Table(mode: Mode)

  datatype Node = Node(key: Val, val: Val)

  /** `meta` is the metatable; `slots` the upvalues, the stack or the array part. */
  datatype Object = Object(kind: Kind, meta: Val, slots: seq<Val>, nodes: seq<Node>)

  /** There are two whites, told apart by a bit. */
  datatype Color = White(bit: bool) | Gray | Black

  type Heap = map<Id, Object>
  type Colors = map<Id, Color>

  /** The nodes whose key is dead: their entry was empty and their key unmarked. */
  type DeadKeys = set<(Id, int)>

  // ---- Marked references ----

  predicate IsMarked(c: Colors, v: Val) {
    v.Ref? ==> v.id in c && !c[v.id].White?
  }

  ghost predicate SlotsMarked(c: Colors, vs: seq<Val>) {
    forall i :: 0 <= i < |vs| ==> IsMarked(c, vs[i])
  }

  predicate KeyMarked(c: Colors, dead: DeadKeys, h: Id, i: int, n: Node) {
    (h, i) in dead || IsMarked(c, n.key)
  }

  ghost predicate NodesMarked(c: Colors, dead: DeadKeys, h: Id, ns: seq<Node>) {
    forall i :: 0 <= i < |ns| ==> KeyMarked(c, dead, h, i, ns[i]) && IsMarked(c, ns[i].val)
  }

  /** Everything the object refers to, weakly or not, is marked. */
  ghost predicate AllMarked(heap: Heap, c: Colors, dead: DeadKeys, o: Id) {
    o in heap &&
    IsMarked(c, heap[o].meta) && SlotsMarked(c, heap[o].slots) && NodesMarked(c, dead, o, heap[o].nodes)
  }

  // ---- Well-formed heaps ----

  predicate Exists(heap: Heap, v: Val) {
    v.Ref? ==> v.id in heap
  }

  /** Nothing the object refers to is missing. */
  ghost predicate RefsExist(heap: Heap, dead: DeadKeys, o: Id)
    requires o in heap
  {
    && Exists(heap, heap[o].meta)
    && (forall i :: 0 <= i < |heap[o].slots| ==> Exists(heap, heap[o].slots[i]))
    && (forall i :: 0 <= i < |heap[o].nodes| ==>
          ((o, i) in dead || Exists(heap, heap[o].nodes[i].key)) && Exists(heap, heap[o].nodes[i].val))
  }

  predicate Shaped(b: Object) {
    match b.kind
    case Leaf => b.meta == Plain && b.slots == [] && b.nodes == []
    case Cell => b.meta == Plain && |b.slots| == 1 && b.nodes == []
    case Holder => b.nodes == []
    case Thread => b.meta == Plain && b.nodes == []
    case Table(_) => true
  }

  /** Only the key of an empty entry can be dead. */
  ghost predicate DeadOk(heap: Heap, dead: DeadKeys) {
    forall h, i :: (h, i) in dead && h in heap ==> 0 <= i < |heap[h].nodes| && heap[h].nodes[i].val == Empty
  }

  ghost predicate Sound(heap: Heap, c: Colors, dead: DeadKeys) {
    && heap.Keys == c.Keys
    && (forall o :: o in heap ==> Shaped(heap[o]) && RefsExist(heap, dead, o))
    && DeadOk(heap, dead)
  }

  // ---- Marking only goes one way ----

  /** White objects may have been marked; nothing else changed. */
  ghost predicate Marks(c: Colors, c': Colors) {
    && c.Keys == c'.Keys
    && (forall x :: x in c ==> c'[x] == c[x] || (c[x].White? && !c'[x].White?))
  }

  /** White objects may have been marked, and marked ones visited or put back. */
  ghost predicate Grows(c: Colors, c': Colors) {
    && c.Keys == c'.Keys
    && (forall x :: x in c ==> c'[x] == c[x] || !c'[x].White?)
  }

  function Whites(c: Colors): set<Id> {
    set x | x in c && c[x].White?
  }

  lemma MarkedStays(c: Colors, c': Colors, v: Val)
    requires Grows(c, c') && IsMarked(c, v)
    ensures IsMarked(c', v)
  {
  }

  lemma AllMarkedStays(heap: Heap, c: Colors, c': Colors, dead: DeadKeys, dead': DeadKeys, o: Id)
    requires Grows(c, c') && dead <= dead' && AllMarked(heap, c, dead, o)
    ensures AllMarked(heap, c', dead', o)
  {
  }

  // ---- What a marked object forces ----

  predicate IsLeaf(heap: Heap, v: Val) {
    v.Ref? && v.id in heap && heap[v.id].kind == Leaf
  }

  /** A key that keeps its value: not collectable, a string, or a member of `m`. */
  predicate KeyHeld(heap: Heap, m: set<Id>, k: Val) {
    k.Ref? ==> k.id in m || IsLeaf(heap, k)
  }

  /** The member `o` of `m` makes `v` a member as well. */
  ghost predicate Forces(heap: Heap, m: set<Id>, o: Id, v: Val)
    requires o in heap
  {
    var b := heap[o];
    v == b.meta ||
    match b.kind
    case Leaf => false
    case Cell | Holder | Thread => v in b.slots
    case Table(Strong) =>
      v in b.slots ||
      exists i :: 0 <= i < |b.nodes| && b.nodes[i].val != Empty && (v == b.nodes[i].key || v == b.nodes[i].val)
    case Table(WeakValues) => exists i :: 0 <= i < |b.nodes| && b.nodes[i].val != Empty && v == b.nodes[i].key
    case Table(Ephemeron) =>
      v in b.slots || exists i :: 0 <= i < |b.nodes| && v == b.nodes[i].val && KeyHeld(heap, m, b.nodes[i].key)
    case Table(AllWeak) => false
  }

  /** A value that is not an object, or is a string, or is in `m`. */
  predicate Belongs(heap: Heap, m: set<Id>, v: Val) {
    v.Ref? ==> v.id in m || IsLeaf(heap, v)
  }

  /** Closed under strong references and under "key held implies value held". */
  ghost predicate Closed(heap: Heap, m: set<Id>) {
    forall o, v :: o in m && o in heap && Forces(heap, m, o, v) ==> Belongs(heap, m, v)
  }

  /** The marked objects other than strings. */
  ghost function MarkedSet(heap: Heap, c: Colors): set<Id> {
    set x | x in c && x in heap && !c[x].White? && heap[x].kind != Leaf
  }

  ghost predicate Within(heap: Heap, c: Colors, m: set<Id>) {
    forall x :: x in c && x in heap && !c[x].White? && heap[x].kind != Leaf ==> x in m
  }

  // ---- What closed sets give the visit of an object ----

  lemma SlotsBelong(heap: Heap, m: set<Id>, o: Id)
    requires Closed(heap, m) && o in m && o in heap
    requires heap[o].kind.Cell? || heap[o].kind.Holder? || heap[o].kind.Thread? ||
      heap[o].kind == Table(Strong) || heap[o].kind == Table(Ephemeron)
    ensures forall i :: 0 <= i < |heap[o].slots| ==> Belongs(heap, m, heap[o].slots[i])
  {
    forall i | 0 <= i < |heap[o].slots| ensures Belongs(heap, m, heap[o].slots[i]) {
      assert Forces(heap, m, o, heap[o].slots[i]);
    }
  }

  lemma MetaBelongs(heap: Heap, m: set<Id>, o: Id)
    requires Closed(heap, m) && o in m && o in heap
    ensures Belongs(heap, m, heap[o].meta)
  {
    assert Forces(heap, m, o, heap[o].meta);
  }

  lemma EntryBelongs(heap: Heap, m: set<Id>, o: Id, i: int)
    requires Closed(heap, m) && o in m && o in heap && heap[o].kind == Table(Strong)
    requires 0 <= i < |heap[o].nodes| && heap[o].nodes[i].val != Empty
    ensures Belongs(heap, m, heap[o].nodes[i].key) && Belongs(heap, m, heap[o].nodes[i].val)
  {
    assert Forces(heap, m, o, heap[o].nodes[i].key) && Forces(heap, m, o, heap[o].nodes[i].val);
  }

  lemma KeyBelongs(heap: Heap, m: set<Id>, o: Id, i: int)
    requires Closed(heap, m) && o in m && o in heap && heap[o].kind == Table(WeakValues)
    requires 0 <= i < |heap[o].nodes| && heap[o].nodes[i].val != Empty
    ensures Belongs(heap, m, heap[o].nodes[i].key)
  {
    assert Forces(heap, m, o, heap[o].nodes[i].key);
  }

  lemma ValueBelongs(heap: Heap, m: set<Id>, o: Id, i: int)
    requires Closed(heap, m) && o in m && o in heap && heap[o].kind == Table(Ephemeron)
    requires 0 <= i < |heap[o].nodes| && KeyHeld(heap, m, heap[o].nodes[i].key)
    ensures Belongs(heap, m, heap[o].nodes[i].val)
  {
    assert Forces(heap, m, o, heap[o].nodes[i].val);
  }
}
