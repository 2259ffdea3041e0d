/**
 Open upvalues over a stack that moves: `lfunc.c` and `ldo.c` let closures share a variable
 that still lives in its stack slot.  The simple form, to be refined, gives each captured
 variable a cell of its own.
 */
module Upvalues {

  datatype Value = Nil | Of(n: int)

  // ---- The simple form: one cell per captured variable ----

  datatype Slot = Plain(v: Value) | Captured(cell: nat)

  datatype Simple = Simple(slots: seq<Slot>, cells: seq<Value>)

  ghost predicate Proper(a: Simple) {
    forall i :: 0 <= i < |a.slots| && a.slots[i].Captured? ==> a.slots[i].cell < |a.cells|
  }

  function ReadLocal(a: Simple, i: nat): Value
    requires i < |a.slots| && (a.slots[i].Captured? ==> a.slots[i].cell < |a.cells|)
  {
    match a.slots[i]
    case Plain(v) => v
    case Captured(c) => a.cells[c]
  }

  function WriteLocal(a: Simple, i: nat, v: Value): Simple
    requires i < |a.slots| && (a.slots[i].Captured? ==> a.slots[i].cell < |a.cells|)
  {
    match a.slots[i]
    case Plain(_) => a.(slots := a.slots[i := Plain(v)])
    case Captured(c) => a.(cells := a.cells[c := v])
  }

  /** Capturing a variable twice gives the same cell. */
  function Capture(a: Simple, i: nat): (Simple, nat)
    requires i < |a.slots|
  {
    match a.slots[i]
    case Captured(c) => (a, c)
    case Plain(v) => (Simple(a.slots[i := Captured(|a.cells|)], a.cells + [v]), |a.cells|)
  }

  function WriteCell(a: Simple, c: nat, v: Value): Simple
    requires c < |a.cells|
  {
    a.(cells := a.cells[c := v])
  }

  /** The variables from `level` on go out of scope: their cells stay, the slots are free. */
  function Leave(a: Simple, level: nat): Simple
    requires forall i :: 0 <= i < |a.slots| && a.slots[i].Captured? ==> a.slots[i].cell < |a.cells|
  {
    a.(slots := seq(|a.slots|, i requires 0 <= i < |a.slots| => if i >= level then
      Plain(ReadLocal(a, i)) else a.slots[i]))
  }

  function Resize(a: Simple, n: nat): Simple {
    a.(slots := if n <= |a.slots| then a.slots[..n] else a.slots + seq(n - |a.slots|, _ => Plain(Nil)))
  }

  const EXTRA_STACK := 5
  const LUA_MINSTACK := 20
  const BASIC_STACK_SIZE := 2 * LUA_MINSTACK
  const LUAI_MAXSTACK := 1000000
  const ERRORSTACKSIZE := LUAI_MAXSTACK + 200

  /** The size a stack gets when `n` more entries are asked for above `top`. */
  function GrownSize(size: nat, top: nat, n: nat): nat {
    var needed := top + n + EXTRA_STACK;
    var doubled := if 2 * size > LUAI_MAXSTACK then LUAI_MAXSTACK else 2 * size;
    if size > LUAI_MAXSTACK then size
    else if needed > LUAI_MAXSTACK then ERRORSTACKSIZE
    else if doubled < needed then needed
    else doubled
  }

  function Highest(ns: seq<nat>): (n: nat)
    ensures forall i :: 0 <= i < |ns| ==> ns[i] <= n
  {
    if ns == [] then 0
    else
      var n := Highest(ns[..|ns| - 1]);
      if n < ns[|ns| - 1] then ns[|ns| - 1] else n
  }

  /** How much of the stack is in use: up to its top, and to the top of every active call. */
  function InUse(top: nat, tops: seq<nat>): nat {
    Highest([top] + tops) + 1
  }

  /** The size a stack is shrunk to; while an overflow is being handled it is left alone. */
  function ShrunkSize(size: nat, inuse: nat): nat {
    var good := inuse + inuse / 8 + 2 * EXTRA_STACK;
    var goodsize := if good > LUAI_MAXSTACK then LUAI_MAXSTACK else good;
    if inuse <= LUAI_MAXSTACK - EXTRA_STACK && goodsize < size then goodsize else size
  }

  /** A stack that grows doubles, or gets what is needed if that is more, up to a million slots. */
  lemma GrownRoom(size: nat, top: nat, n: nat)
    requires size <= 1000000 && top + n + 5 <= 1000000
    ensures top + n + 5 <= GrownSize(size, top, n) <= 1000000
    ensures GrownSize(size, top, n) in {2 * size, top + n + 5, 1000000}
    ensures 2 * size <= 1000000 ==> GrownSize(size, top, n) >= 2 * size
  {
  }

  /** A stack that shrinks keeps what is in use, an eighth of it and ten slots more, up to a million
      slots. */
  lemma ShrunkRoom(size: nat, inuse: nat)
    ensures ShrunkSize(size, inuse) <= size
    ensures ShrunkSize(size, inuse) < size ==> inuse + 5 <= ShrunkSize(size, inuse) <= 1000000
    ensures ShrunkSize(size, inuse) < size && inuse <= 800000 ==> ShrunkSize(size, inuse) == inuse + inuse / 8 + 10
    ensures inuse <= 800000 ==> ShrunkSize(size, inuse) <= inuse + inuse / 8 + 10
  {
  }

  /** No variable beyond the first `n` slots is captured. */
  predicate InScope(a: Simple, n: nat) {
    forall i :: n <= i < |a.slots| ==> a.slots[i].Plain?
  }

  lemma ResizeSame(a: Simple)
    ensures Resize(a, |a.slots|) == a
  {
  }

  // ---- The fast form, as values ----

  /** An open upvalue: the slot it shares and its number. */
  datatype Mark = Mark(level: nat, id: nat)

  /** The stack, the open upvalues topmost first, and the value each upvalue has of its own. */
  datatype Shape = Shape(contents: seq<Value>, marks: seq<Mark>, own: seq<Value>)

  /** One upvalue a slot, levels strictly decreasing. */
  ghost predicate Good(s: Shape) {
    && (forall k :: 0 <= k < |s.marks| ==> s.marks[k].level < |s.contents| && s.marks[k].id < |s.own|)
    && (forall j, k :: 0 <= j < k < |s.marks| ==> s.marks[j].level > s.marks[k].level)
    && (forall j, k :: 0 <= j < k < |s.marks| ==> s.marks[j].id != s.marks[k].id)
  }

  /** The place in the list of the upvalue at slot `i`, or the length of the list. */
  ghost function AtLevel(marks: seq<Mark>, i: nat): (k: nat)
    ensures k <= |marks| && (k < |marks| ==> marks[k].level == i)
    ensures forall j :: 0 <= j < k ==> marks[j].level != i
  {
    if marks == [] || marks[0].level == i then 0 else 1 + AtLevel(marks[1..], i)
  }

  ghost function WithId(marks: seq<Mark>, c: nat): (k: nat)
    ensures k <= |marks| && (k < |marks| ==> marks[k].id == c)
    ensures forall j :: 0 <= j < k ==> marks[j].id != c
  {
    if marks == [] || marks[0].id == c then 0 else 1 + WithId(marks[1..], c)
  }

  ghost function SlotOf(s: Shape, i: nat): Slot
    requires i < |s.contents|
  {
    var k := AtLevel(s.marks, i);
    if k < |s.marks| then Captured(s.marks[k].id) else Plain(s.contents[i])
  }

  ghost function CellOf(s: Shape, c: nat): Value
    requires Good(s) && c < |s.own|
  {
    var k := WithId(s.marks, c);
    if k < |s.marks| then s.contents[s.marks[k].level] else s.own[c]
  }

  /** The simple state that the fast form stands for. */
  ghost function View(s: Shape): Simple
    requires Good(s)
  {
    Simple(seq(|s.contents|, i requires 0 <= i < |s.contents| => SlotOf(s, i)),
           seq(|s.own|, c requires 0 <= c < |s.own| => CellOf(s, c)))
  }

  lemma FoundLevel(s: Shape, k: nat)
    requires Good(s) && k < |s.marks|
    ensures AtLevel(s.marks, s.marks[k].level) == k && WithId(s.marks, s.marks[k].id) == k
  {
  }

  lemma ScopeView(s: Shape, n: nat)
    requires Good(s)
    ensures InScope(View(s), n) <==> forall k :: 0 <= k < |s.marks| ==> s.marks[k].level < n
  {
    if InScope(View(s), n) {
      forall k | 0 <= k < |s.marks| ensures s.marks[k].level < n {
        var i := s.marks[k].level;
        assert View(s).slots[i] == SlotOf(s, i);
        assert AtLevel(s.marks, i) <= k;
      }
    }
  }

  lemma ViewProper(s: Shape)
    requires Good(s)
    ensures Proper(View(s))
  {
  }

  /** Reading a slot reads the variable. */
  lemma SlotRead(s: Shape, i: nat)
    requires Good(s) && i < |s.contents|
    ensures ReadLocal(View(s), i) == s.contents[i]
  {
    var k := AtLevel(s.marks, i);
    if k < |s.marks| { FoundLevel(s, k); }
  }

  lemma ViewIs(s: Shape, a: Simple)
    requires Good(s) && |a.slots| == |s.contents| && |a.cells| == |s.own|
    requires forall i :: 0 <= i < |s.contents| ==> SlotOf(s, i) == a.slots[i]
    requires forall c :: 0 <= c < |s.own| ==> CellOf(s, c) == a.cells[c]
    ensures View(s) == a
  {
  }

  lemma GoodWrite(s: Shape, i: nat, v: Value)
    requires Good(s) && i < |s.contents|
    ensures Good(s.(contents := s.contents[i := v]))
  {
  }

  /** Writing a slot writes the variable, and so the cell of whoever captured it. */
  lemma SlotWrite(s: Shape, i: nat, v: Value)
    requires Good(s) && i < |s.contents|
    ensures var s' := s.(contents := s.contents[i := v]); Good(s') && View(s') == WriteLocal(View(s), i, v)
  {
    hide AtLevel, WithId, Good;
    var s' := s.(contents := s.contents[i := v]);
    GoodWrite(s, i, v);
    ViewProper(s);
    var a := View(s);
    var k := AtLevel(s.marks, i);
    if k < |s.marks| { FoundLevel(s, k); }
    forall x | 0 <= x < |s.contents| ensures SlotOf(s', x) == WriteLocal(a, i, v).slots[x] {
      assert a.slots[x] == SlotOf(s, x);
    }
    forall c | 0 <= c < |s.own| ensures CellOf(s', c) == WriteLocal(a, i, v).cells[c] {
      assert a.cells[c] == CellOf(s, c);
      CellAfterWrite(s, i, v, c);
    }
    hide View, SlotOf, CellOf;
    ViewIs(s', WriteLocal(a, i, v));
  }

  lemma CellAfterWrite(s: Shape, i: nat, v: Value, c: nat)
    requires Good(s) && i < |s.contents| && c < |s.own|
    ensures var s' := s.(contents := s.contents[i := v]); var k := AtLevel(s.marks, i);
      Good(s') && CellOf(s', c) == if k < |s.marks| && c == s.marks[k].id then v else CellOf(s, c)
  {
    var k, j := AtLevel(s.marks, i), WithId(s.marks, c);
    if k < |s.marks| { FoundLevel(s, k); }
    if j < |s.marks| { FoundLevel(s, j); }
  }

  /** Writing where an upvalue points writes its cell. */
  lemma OpenWrite(s: Shape, k: nat, v: Value)
    requires Good(s) && k < |s.marks|
    ensures var s' := s.(contents := s.contents[s.marks[k].level := v]);
      Good(s') && View(s') == WriteCell(View(s), s.marks[k].id, v)
  {
    FoundLevel(s, k);
    SlotWrite(s, s.marks[k].level, v);
  }

  lemma OwnWrite(s: Shape, c: nat, v: Value)
    requires Good(s) && c < |s.own| && WithId(s.marks, c) == |s.marks|
    ensures var s' := s.(own := s.own[c := v]); Good(s') && View(s') == WriteCell(View(s), c, v)
  {
    hide AtLevel, WithId;
  }

  /** `m` comes between `k - 1` and `k`. */
  ghost predicate Inserted(marks: seq<Mark>, marks': seq<Mark>, k: nat, m: Mark) {
    && k <= |marks| && |marks'| == |marks| + 1 && marks'[k] == m
    && (forall j :: 0 <= j < k ==> marks'[j] == marks[j])
    && (forall j :: k < j < |marks'| ==> marks'[j] == marks[j - 1])
  }

  lemma InsertedAt(marks: seq<Mark>, k: nat, m: Mark)
    requires k <= |marks|
    ensures Inserted(marks, marks[..k] + [m] + marks[k..], k, m)
  {
  }

  /** Where an entry has gone, and where an entry comes from. */
  lemma Moved(marks: seq<Mark>, marks': seq<Mark>, k: nat, m: Mark, j: nat)
    requires Inserted(marks, marks', k, m) && j < |marks|
    ensures j < k ==> marks'[j] == marks[j]
    ensures j >= k ==> marks'[j + 1] == marks[j]
  {
    if j >= k { assert marks'[j + 1] == marks[j + 1 - 1]; }
  }

  lemma CameFrom(marks: seq<Mark>, marks': seq<Mark>, k: nat, m: Mark, j: nat)
    requires Inserted(marks, marks', k, m) && j < |marks'|
    ensures j < k ==> marks'[j] == marks[j]
    ensures j == k ==> marks'[j] == m
    ensures j > k ==> marks'[j] == marks[j - 1]
  {
  }

  lemma GoodInserted(s: Shape, s': Shape, k: nat, i: nat)
    requires Good(s) && i < |s.contents| && s'.contents == s.contents && s'.own == s.own + [Nil]
    requires Inserted(s.marks, s'.marks, k, Mark(i, |s.own|))
    requires (forall j :: 0 <= j < k ==> s.marks[j].level > i) &&
      (forall j :: k <= j < |s.marks| ==> s.marks[j].level < i)
    ensures Good(s')
  {
    assert |s'.marks| == |s.marks| + 1 && k <= |s.marks|;
    hide Inserted;
    forall x | 0 <= x < |s'.marks| ensures s'.marks[x].level < |s'.contents| && s'.marks[x].id < |s'.own| {
      CameFrom(s.marks, s'.marks, k, Mark(i, |s.own|), x);
    }
    forall x, y | 0 <= x < y < |s'.marks| ensures s'.marks[x].level > s'.marks[y].level &&
      s'.marks[x].id != s'.marks[y].id {
      CameFrom(s.marks, s'.marks, k, Mark(i, |s.own|), x);
      CameFrom(s.marks, s'.marks, k, Mark(i, |s.own|), y);
    }
  }

  /** A new upvalue in its place of the list is a new cell. */
  lemma MarkInserted(s: Shape, s': Shape, k: nat, i: nat)
    requires Good(s) && Good(s') && i < |s.contents| && AtLevel(s.marks, i) == |s.marks|
    requires s'.contents == s.contents && s'.own == s.own + [Nil] && Inserted(s.marks, s'.marks, k, Mark(i, |s.own|))
    ensures View(s') == Capture(View(s), i).0 && Capture(View(s), i).1 == |s.own|
  {
    hide Inserted, AtLevel, WithId;
    var a := View(s);
    assert a.slots[i] == SlotOf(s, i) == Plain(s.contents[i]);
    forall x | 0 <= x < |s.contents| ensures SlotOf(s', x) == Capture(a, i).0.slots[x] {
      assert a.slots[x] == SlotOf(s, x);
      SlotInserted(s, s', k, i, x);
    }
    forall c | 0 <= c < |s'.own| ensures CellOf(s', c) == Capture(a, i).0.cells[c] {
      CellInserted(s, s', k, i, c);
      if c < |s.own| { assert a.cells[c] == CellOf(s, c); }
    }
    hide View, SlotOf, CellOf;
    ViewIs(s', Capture(a, i).0);
  }

  lemma SlotInserted(s: Shape, s': Shape, k: nat, i: nat, x: nat)
    requires Good(s) && Good(s') && i < |s.contents| && x < |s.contents| && AtLevel(s.marks, i) == |s.marks|
    requires s'.contents == s.contents && Inserted(s.marks, s'.marks, k, Mark(i, |s.own|))
    ensures SlotOf(s', x) == if x == i then Captured(|s.own|) else SlotOf(s, x)
  {
    hide Inserted, AtLevel;
    LevelInserted(s, s', k, i, x);
    var j := AtLevel(s.marks, x);
    CameFrom(s.marks, s'.marks, k, Mark(i, |s.own|), k);
    if j < |s.marks| { Moved(s.marks, s'.marks, k, Mark(i, |s.own|), j); }
  }

  lemma CellInserted(s: Shape, s': Shape, k: nat, i: nat, c: nat)
    requires Good(s) && Good(s') && i < |s.contents| && c <= |s.own|
    requires s'.contents == s.contents && s'.own == s.own + [Nil] && Inserted(s.marks, s'.marks, k, Mark(i, |s.own|))
    ensures CellOf(s', c) == if c == |s.own| then s.contents[i] else CellOf(s, c)
  {
    hide Inserted, WithId;
    IdInserted(s, s', k, i, c);
    var j := WithId(s.marks, c);
    CameFrom(s.marks, s'.marks, k, Mark(i, |s.own|), k);
    if j < |s.marks| { Moved(s.marks, s'.marks, k, Mark(i, |s.own|), j); }
  }

  lemma LevelInserted(s: Shape, s': Shape, k: nat, i: nat, x: nat)
    requires Good(s) && Good(s') && Inserted(s.marks, s'.marks, k, Mark(i, |s.own|)) && AtLevel(s.marks, i) == |s.marks|
    ensures |s'.marks| == |s.marks| + 1 && k <= |s.marks|
    ensures AtLevel(s'.marks, x) == if x == i then k else if AtLevel(s.marks, x) < k then
      AtLevel(s.marks, x) else AtLevel(s.marks, x) + 1
  {
    var m := Mark(i, |s.own|);
    assert |s'.marks| == |s.marks| + 1 && k <= |s.marks|;
    hide Inserted, AtLevel;
    var j, j' := AtLevel(s.marks, x), AtLevel(s'.marks, x);
    CameFrom(s.marks, s'.marks, k, m, k);
    if j' < |s'.marks| { CameFrom(s.marks, s'.marks, k, m, j'); }
    if x == i {
      FoundLevel(s', k);
    } else if j < |s.marks| {
      Moved(s.marks, s'.marks, k, m, j);
      FoundLevel(s', if j < k then j else j + 1);
    }
  }

  lemma IdInserted(s: Shape, s': Shape, k: nat, i: nat, c: nat)
    requires Good(s) && Good(s') && Inserted(s.marks, s'.marks, k, Mark(i, |s.own|)) && c <= |s.own|
    ensures |s'.marks| == |s.marks| + 1 && k <= |s.marks|
    ensures WithId(s'.marks, c) == if c == |s.own| then k else if WithId(s.marks, c) < k then
      WithId(s.marks, c) else WithId(s.marks, c) + 1
  {
    var m := Mark(i, |s.own|);
    assert |s'.marks| == |s.marks| + 1 && k <= |s.marks|;
    hide Inserted, WithId;
    var j, j' := WithId(s.marks, c), WithId(s'.marks, c);
    CameFrom(s.marks, s'.marks, k, m, k);
    if j' < |s'.marks| { CameFrom(s.marks, s'.marks, k, m, j'); }
    if c == |s.own| {
      FoundLevel(s', k);
    } else if j < |s.marks| {
      Moved(s.marks, s'.marks, k, m, j);
      FoundLevel(s', if j < k then j else j + 1);
    }
  }

  /** The topmost upvalue is out of the list, its value its own. */
  ghost predicate TopTaken(was: Shape, now: Shape) {
    was.marks != [] && was.marks[0].id < |was.own| && was.marks[0].level < |was.contents| &&
      now == Shape(was.contents, was.marks[1..], was.own[was.marks[0].id := was.contents[was.marks[0].level]])
  }

  /** Closing the topmost upvalue takes its value along; the variable is no more. */
  lemma TopClosed(s: Shape, s': Shape, level: nat)
    requires Good(s) && TopTaken(s, s') && s.marks[0].level >= level
    ensures Good(s') && Leave(View(s'), level) == Leave(View(s), level)
  {
    ViewProper(s);
    ViewProper(s');
    forall c | 0 <= c < |s.own| ensures CellOf(s', c) == CellOf(s, c) {
      CellClosed(s, s', c);
    }
    var a, a' := View(s), View(s');
    assert a.cells == a'.cells;
    forall i | 0 <= i < |s.contents| ensures Leave(a', level).slots[i] == Leave(a, level).slots[i] {
      SlotRead(s, i);
      SlotRead(s', i);
      SlotClosed(s, s', i);
      assert a.slots[i] == SlotOf(s, i) && a'.slots[i] == SlotOf(s', i);
    }
    SameLeft(a, a', level);
  }

  lemma SameLeft(a: Simple, a': Simple, level: nat)
    requires Proper(a) && Proper(a') && a.cells == a'.cells && |a.slots| == |a'.slots|
    requires forall i :: 0 <= i < |a.slots| ==> Leave(a', level).slots[i] == Leave(a, level).slots[i]
    ensures Leave(a', level) == Leave(a, level)
  {
  }

  lemma CellClosed(s: Shape, s': Shape, c: nat)
    requires Good(s) && Good(s') && c < |s.own| && TopTaken(s, s')
    ensures CellOf(s', c) == CellOf(s, c)
  {
    hide Good, WithId;
    TailIds(s, s', c);
  }

  /** Without its first entry the list holds the other numbers one place earlier. */
  lemma TailIds(s: Shape, s': Shape, c: nat)
    requires Good(s) && Good(s') && s.marks != [] && s'.marks == s.marks[1..]
    ensures WithId(s.marks, c) == 0 ==> WithId(s'.marks, c) == |s'.marks|
    ensures 0 < WithId(s.marks, c) ==> WithId(s'.marks, c) == WithId(s.marks, c) - 1
  {
    hide WithId;
    assert forall j :: 0 <= j < |s'.marks| ==> s'.marks[j] == s.marks[j + 1];
    var j := WithId(s.marks, c);
    if 0 < j < |s.marks| { FoundLevel(s', j - 1); }
  }

  lemma SlotClosed(s: Shape, s': Shape, i: nat)
    requires Good(s) && Good(s') && s.marks != [] && s'.marks == s.marks[1..] && s'.contents == s.contents &&
      i < |s.contents|
    ensures SlotOf(s', i) == if i == s.marks[0].level then Plain(s.contents[i]) else SlotOf(s, i)
  {
    hide AtLevel;
    assert forall j :: 0 <= j < |s'.marks| ==> s'.marks[j] == s.marks[j + 1];
    var j := AtLevel(s.marks, i);
    if 0 < j < |s.marks| { FoundLevel(s', j - 1); }
  }

  /** With no upvalue left from `level` on, leaving changes nothing. */
  lemma NothingToLeave(s: Shape, level: nat)
    requires Good(s) && (s.marks == [] || s.marks[0].level < level)
    ensures Leave(View(s), level) == View(s)
  {
    ViewProper(s);
  }

  lemma Resized(s: Shape, contents: seq<Value>)
    requires Good(s) && (forall k :: 0 <= k < |s.marks| ==> s.marks[k].level < |contents|)
    requires forall i :: 0 <= i < |contents| ==> contents[i] == if i < |s.contents| then s.contents[i] else Nil
    ensures var s' := s.(contents := contents); Good(s') && View(s') == Resize(View(s), |contents|)
  {
    var s' := s.(contents := contents);
    var a := View(s);
    forall i | 0 <= i < |contents| ensures SlotOf(s', i) == Resize(a, |contents|).slots[i] {
      if i < |s.contents| { assert a.slots[i] == SlotOf(s, i); } else { Beyond(s, i); }
    }
    forall c | 0 <= c < |s.own| ensures CellOf(s', c) == a.cells[c] {
      assert a.cells[c] == CellOf(s, c);
    }
    hide View, SlotOf, CellOf;
    ViewIs(s', Resize(a, |contents|));
  }

  lemma Beyond(s: Shape, i: nat)
    requires Good(s) && i >= |s.contents|
    ensures AtLevel(s.marks, i) == |s.marks|
  {
  }

  // ---- The fast form, in memory ----

  /** What the allocator handed out for the stack; emptied when it is given back. */
  class Block {
    var contents: seq<Value>

    constructor (contents: seq<Value>)
      ensures this.contents == contents
    {
      this.contents := contents;
    }
  }

  /** The entries kept by both sizes are kept; the allocator chooses whether they move. */
  method Realloc(block: Block, newsize: nat, moves: bool) returns (b: Block)
    modifies block
    ensures if moves then fresh(b) && block.contents == [] else b == block
    ensures |b.contents| == newsize
    ensures forall i :: 0 <= i < newsize && i < old(|block.contents|) ==> b.contents[i] == old(block.contents[i])
  {
    var size := |block.contents|;
    var contents := if newsize <= size then
      block.contents[..newsize] else block.contents + seq(newsize - size, _ => Of(0));
    if moves {
      b := new Block(contents);
      block.contents := [];
    } else {
      b := block;
      b.contents := contents;
    }
  }

  /** Clears the entries from `lim` on. */
  method Erase(b: Block, lim: nat, size: nat)
    requires |b.contents| == size
    modifies b
    ensures |b.contents| == size
    ensures forall i :: 0 <= i < size ==> b.contents[i] == if i < lim then old(b.contents[i]) else Nil
  {
    var i := lim;
    while i < size
      invariant lim <= i && |b.contents| == size
      invariant forall j :: 0 <= j < size ==> b.contents[j] == if lim <= j < i then Nil else old(b.contents[j])
    {
      b.contents := b.contents[i := Nil];
      i := i + 1;
    }
  }

  /** A block of another size, with the entries that both sizes have, and nil in the others. */
  method Reblock(block: Block, newsize: nat, moves: bool) returns (b: Block)
    modifies block
    ensures if moves then fresh(b) else b == block
    ensures |b.contents| == newsize
    ensures forall i :: 0 <= i < newsize ==>
      b.contents[i] == if i < old(|block.contents|) then old(block.contents[i]) else Nil
  {
    var lim := |block.contents|;
    b := Realloc(block, newsize, moves);
    Erase(b, lim, newsize);
  }

  /** A pointer into the stack. */
  datatype StkId = At(block: Block, index: nat)

  /** Where an upvalue's value lives: in a stack slot while open, in the upvalue once closed. */
  datatype Place = InStack(at: StkId) | Own

  /** What points at an upvalue: the head of the list or the `next` of the one before. */
  datatype Link = Head | NextOf(up: UpVal)

  class UpVal {
    /** The cell it stands for. */
    ghost const id: nat
    var v: Place
    var value: Value
    var next: UpVal?
    var previous: Link

    constructor (level: StkId, next: UpVal?, previous: Link, ghost id: nat)
      ensures this.v == InStack(level) && this.value == Nil
      ensures this.next == next && this.previous == previous && this.id == id
    {
      this.v := InStack(level);
      this.value := Nil;
      this.next := next;
      this.previous := previous;
      this.id := id;
    }
  }

  class CallInfo {
    var func: StkId
    var top: StkId
    var previous: CallInfo?
    var trap: bool
    const isLua: bool

    constructor (func: StkId, top: StkId, previous: CallInfo?, isLua: bool)
      ensures this.func == func && this.top == top && this.previous == previous && this.isLua == isLua && !this.trap
    {
      this.func := func;
      this.top := top;
      this.previous := previous;
      this.trap := false;
      this.isLua := isLua;
    }
  }

  ghost function TopsOf(fs: seq<CallInfo>): (ns: seq<nat>)
    reads fs
    ensures |ns| == |fs| && forall k :: 0 <= k < |fs| ==> ns[k] == fs[k].top.index
  {
    seq(|fs|, k requires 0 <= k < |fs| reads fs => fs[k].top.index)
  }

  class Thread {
    var stack: Block
    var top: StkId
    var stackLast: StkId
    var stacksize: nat
    var ci: CallInfo
    var openupval: UpVal?

    /** The open upvalues in list order, every upvalue by number, the active calls. */
    ghost var opens: seq<UpVal>
    ghost var all: seq<UpVal>
    ghost var frames: seq<CallInfo>

    constructor ()
      ensures Valid() && fresh(stack) && fresh(ci) && opens == [] && all == []
      ensures stacksize == BASIC_STACK_SIZE && top.index == 1
    {
      var block := new Block(seq(BASIC_STACK_SIZE, _ => Nil));
      var base := new CallInfo(At(block, 0), At(block, 1 + LUA_MINSTACK), null, false);
      stack := block;
      stacksize := BASIC_STACK_SIZE;
      stackLast := At(block, BASIC_STACK_SIZE - EXTRA_STACK);
      top := At(block, 1);
      ci := base;
      openupval := null;
      opens := [];
      all := [];
      frames := [base];
    }

    ghost predicate Linked(k: nat)
      requires k < |opens|
      reads `opens, opens
    {
      && opens[k].next == (if k + 1 < |opens| then opens[k + 1] else null)
      && opens[k].previous == (if k == 0 then Head else NextOf(opens[k - 1]))
    }

    /** The doubly linked list of open upvalues. */
    ghost predicate Chain()
      reads `opens, `openupval, opens
    {
      && openupval == (if opens == [] then null else opens[0])
      && (forall k :: 0 <= k < |opens| ==> Linked(k))
      && (forall j, k :: 0 <= j < k < |opens| ==> opens[j] != opens[k])
    }

    ghost predicate OpenAt(up: UpVal)
      reads this, up
    {
      && up.v.InStack? && up.v.at.block == stack && up.v.at.index < stacksize
      && up.id < |all| && all[up.id] == up
    }

    ghost predicate Tied()
      reads this, opens, all
    {
      && (forall k :: 0 <= k < |opens| ==> OpenAt(opens[k]))
      && (forall j, k :: 0 <= j < k < |opens| ==>
        opens[j].v.InStack? && opens[k].v.InStack? && opens[j].v.at.index > opens[k].v.at.index)
      && (forall c :: 0 <= c < |all| ==> all[c].id == c && (all[c].v == Own || all[c] in opens))
    }

    ghost predicate Called(k: nat)
      requires k < |frames|
      reads `frames, frames
    {
      frames[k].previous == if k + 1 < |frames| then frames[k + 1] else null
    }

    /** The list of active calls, innermost first. */
    ghost predicate Calls()
      reads `frames, `ci, frames
    {
      && frames != [] && frames[0] == ci
      && (forall k :: 0 <= k < |frames| ==> Called(k))
      && (forall j, k :: 0 <= j < k < |frames| ==> frames[j] != frames[k])
    }

    ghost predicate Framed(f: CallInfo)
      reads `stack, `stacksize, f
    {
      f.func.block == stack && f.func.index <= f.top.index && f.top.block == stack && f.top.index <= stacksize
    }

    ghost predicate Frames()
      reads `stack, `stacksize, `frames, `ci, frames
    {
      Calls() && forall f :: f in frames ==> Framed(f)
    }

    ghost predicate Sized()
      reads `stack, `stacksize, `stackLast, `top, stack
    {
      && |stack.contents| == stacksize && EXTRA_STACK <= stacksize &&
        (stacksize <= LUAI_MAXSTACK || stacksize == ERRORSTACKSIZE)
      && stackLast == At(stack, stacksize - EXTRA_STACK)
      && top.block == stack && top.index <= stacksize
    }

    ghost predicate Valid()
      reads this, stack, opens, all, frames
    {
      Sized() && Frames() && Chain() && Tied()
    }

    ghost function MarkOf(k: nat): Mark
      requires k < |opens|
      reads this, opens
    {
      Mark(if opens[k].v.InStack? then opens[k].v.at.index else 0, opens[k].id)
    }

    ghost function Form(): Shape
      reads this, stack, opens, all
    {
      Shape(stack.contents, seq(|opens|, k requires 0 <= k < |opens| reads this, opens => MarkOf(k)),
                     seq(|all|, c requires 0 <= c < |all| reads this, all => all[c].value))
    }

    lemma FormGood()
      requires Sized() && Tied()
      ensures Good(Form())
    {
      var s := Form();
      forall k | 0 <= k < |s.marks| ensures s.marks[k].level < |s.contents| && s.marks[k].id < |s.own| {
        assert OpenAt(opens[k]);
      }
      forall j, k | 0 <= j < k < |s.marks| ensures s.marks[j].level > s.marks[k].level &&
        s.marks[j].id != s.marks[k].id {
        assert OpenAt(opens[k]) && OpenAt(opens[j]);
      }
    }

    /** The simple state this memory stands for. */
    ghost function Abs(): (a: Simple)
      requires Sized() && Tied()
      reads this, stack, opens, all
      ensures Proper(a) && |a.slots| == |stack.contents| && |a.cells| == |all|
    {
      FormGood();
      ViewProper(Form());
      View(Form())
    }

    method SetLocal(i: nat, v: Value)
      requires Valid() && i < stacksize
      modifies stack
      ensures Valid() && stack.contents == old(stack.contents)[i := v]
      ensures Abs() == WriteLocal(old(Abs()), i, v)
    {
      hide View, SlotOf, CellOf, Good, WriteLocal, Chain, Frames;
      FormGood();
      ghost var s := Form();
      SlotWrite(s, i, v);
      stack.contents := stack.contents[i := v];
      assert Form() == s.(contents := s.contents[i := v]);
    }

    method SetTop(i: nat)
      requires Valid() && i <= stacksize
      modifies `top
      ensures Valid() && top.index == i && Abs() == old(Abs())
    {
      top := At(stack, i);
      assert Form() == old(Form());
    }

    method GetLocal(i: nat) returns (v: Value)
      requires Valid() && i < stacksize
      ensures v == ReadLocal(Abs(), i)
    {
      hide View, SlotOf, CellOf, Good, ReadLocal;
      FormGood();
      SlotRead(Form(), i);
      v := stack.contents[i];
    }

    /** The value an upvalue shows is the value of its cell. */
    lemma Shows(up: UpVal)
      requires Valid() && up in all
      ensures up.id < |all| && all[up.id] == up
      ensures up.v == Own ==> WithId(Form().marks, up.id) == |opens| && Abs().cells[up.id] == up.value
      ensures up.v.InStack? ==> OpenAt(up) && Abs().cells[up.id] == stack.contents[up.v.at.index]
      ensures up.v.InStack? ==> exists k :: 0 <= k < |opens| && opens[k] == up
    {
      FormGood();
      var s := Form();
      if up.v == Own {
        forall k | 0 <= k < |opens| ensures s.marks[k].id != up.id {
          assert OpenAt(opens[k]);
        }
      } else {
        var k :| 0 <= k < |opens| && opens[k] == up;
        FoundLevel(s, k);
      }
    }

    method GetUpval(up: UpVal) returns (v: Value)
      requires Valid() && up in all
      ensures up.id < |Abs().cells| && v == Abs().cells[up.id]
    {
      Shows(up);
      match up.v {
        case InStack(at) => v := at.block.contents[at.index];
        case Own => v := up.value;
      }
    }

    method SetUpval(up: UpVal, v: Value)
      requires Valid() && up in all
      modifies stack, up
      ensures Valid() && up.id < old(|Abs().cells|)
      ensures Abs() == WriteCell(old(Abs()), up.id, v)
    {
      hide View, SlotOf, CellOf, Good, WithId, Chain, Frames, WriteCell;
      Shows(up);
      FormGood();
      ghost var s := Form();
      match up.v {
        case InStack(at) =>
          ghost var k :| 0 <= k < |opens| && opens[k] == up;
          OpenWrite(s, k, v);
          at.block.contents := at.block.contents[at.index := v];
              assert Form() == s.(contents := s.contents[at.index := v]);
        case Own =>
          OwnWrite(s, up.id, v);
          up.value := v;
          assert Form() == s.(own := s.own[up.id := v]);
      }
    }

    /** Takes an open upvalue out of the list. */
    method UnlinkUpval(uv: UpVal, ghost k: nat)
      requires Chain() && k < |opens| && opens[k] == uv
      modifies this`openupval, this`opens, opens
      ensures Chain() && opens == old(opens[..k] + opens[k + 1..])
      ensures forall up :: up in old(opens) ==> up.v == old(up.v) && up.value == old(up.value)
    {
      assert Linked(k);
      ghost var was := opens;
      assert k + 1 < |opens| ==> Linked(k + 1);
      assert k > 0 ==> Linked(k - 1);
      match uv.previous {
        case Head => openupval := uv.next;
        case NextOf(p) => p.next := uv.next;
      }
      if uv.next != null {
        uv.next.previous := uv.previous;
      }
      opens := opens[..k] + opens[k + 1..];
      assert forall j :: 0 <= j < |opens| ==> opens[j] == was[if j < k then j else j + 1];
      forall j | 0 <= j < |opens| ensures Linked(j) {
        assert old(Linked(if j < k then j else j + 1));
      }
    }

    twostate lemma StillTied(uv: UpVal)
      requires old(Tied()) && old(opens) != [] && uv == old(opens[0])
      requires opens == old(opens)[1..] && all == old(all) && stack == old(stack) && stacksize == old(stacksize)
      requires uv.v == Own && (forall up :: up in all && up != uv ==> up.v == old(up.v))
      ensures Tied()
    {
      assert old(OpenAt(opens[0]));
      assert forall k :: 0 <= k < |opens| ==> opens[k] == old(opens)[k + 1];
      forall k | 0 <= k < |opens| ensures OpenAt(opens[k]) {
        assert old(OpenAt(opens[k + 1]));
        assert old(opens[0].v.at.index > opens[k + 1].v.at.index);
      }
      forall c | 0 <= c < |all| ensures all[c].id == c && (all[c].v == Own || all[c] in opens) {
        if all[c] in old(opens) && all[c] != uv {
          var k :| 0 <= k < |old(opens)| && old(opens)[k] == all[c];
          assert opens[k - 1] == all[c];
        }
      }
    }

    twostate lemma TakesValue(uv: UpVal)
      requires old(Sized() && Tied()) && old(opens) != [] && uv == old(opens[0])
      requires opens == old(opens)[1..] && all == old(all) && stack == old(stack) &&
        stack.contents == old(stack.contents)
      requires old(OpenAt(uv)) && uv.value == old(stack.contents[uv.v.at.index])
      requires forall up :: up in opens ==> up.v == old(up.v)
      requires forall up :: up in all && up != uv ==> up.value == old(up.value)
      ensures TopTaken(old(Form()), Form())
    {
      var s, s' := old(Form()), Form();
      assert s.marks[0] == Mark(old(uv.v.at.index), uv.id);
      assert s'.marks == s.marks[1..] by {
        assert forall k :: 0 <= k < |opens| ==> opens[k] == old(opens)[k + 1];
        assert forall k :: 0 <= k < |opens| ==> opens[k] in opens;
      }
      assert s'.own == s.own[uv.id := s.contents[s.marks[0].level]] by {
        forall c | 0 <= c < |all| ensures s'.own[c] == if c == uv.id then uv.value else s.own[c] {
          assert all[c].id == c && all[c] in all;
        }
      }
    }

    lemma HeadFirst()
      requires Chain() && Tied() && opens != []
      ensures openupval == opens[0] && opens[0] !in opens[1..] && OpenAt(opens[0])
      ensures Form().marks != [] && Form().marks[0] == Mark(opens[0].v.at.index, opens[0].id)
      ensures forall up :: up in opens ==> up in all
    {
      assert forall k :: 0 <= k < |opens| ==> OpenAt(opens[k]);
    }

    /** Unlinks the topmost upvalue and stores its value in it. */
    method DropTop() returns (uv: UpVal)
      requires Sized() && Chain() && Tied() && opens != []
      modifies this`openupval, this`opens, opens
      ensures Chain() && uv == old(opens[0]) && opens == old(opens)[1..] && uv !in opens
      ensures old(uv.v.InStack? && uv.v.at.block == stack && uv.v.at.index < |stack.contents|)
      ensures uv.v == Own && uv.value == old(stack.contents[uv.v.at.index])
      ensures forall up :: up in old(opens) && up != uv ==> up.v == old(up.v) && up.value == old(up.value)
    {
      hide Chain, Tied, Form, Proper, Linked;
      HeadFirst();
      uv := openupval;
      UnlinkUpval(uv, 0);
      assert opens == old(opens)[1..];
      uv.value := uv.v.at.block.contents[uv.v.at.index];
      uv.v := Own;
    }

    /** The topmost upvalue takes its value along. */
    method CloseTop(ghost level: nat)
      requires Valid() && opens != [] && opens[0].v.InStack? && level <= opens[0].v.at.index
      modifies this`openupval, this`opens, opens
      ensures Valid() && opens == old(opens)[1..] && Leave(Abs(), level) == Leave(old(Abs()), level)
      ensures forall up :: up in opens ==> up.v == old(up.v)
    {
      hide View, SlotOf, CellOf, Good, Leave, Chain, Tied, Frames, Form, TopTaken, Proper, Linked;
      FormGood();
      HeadFirst();
      ghost var s := Form();
      var uv := DropTop();
      StillTied(uv);
      TakesValue(uv);
      TopClosed(s, Form(), level);
    }

    lemma HeadIs()
      requires Chain() && Tied()
      ensures openupval == null <==> opens == []
      ensures opens != [] ==> openupval == opens[0] && OpenAt(opens[0])
    {
      if opens != [] { HeadFirst(); }
    }

    lemma AllLeft(level: nat)
      requires Valid() && (opens == [] || (opens[0].v.InStack? && opens[0].v.at.index < level))
      ensures Leave(Abs(), level) == Abs()
      ensures forall up :: up in opens ==> up.v.InStack? && up.v.at.index < level
    {
      FormGood();
      HeadIs();
      forall k | 0 <= k < |opens| ensures opens[k].v.InStack? && opens[k].v.at.index < level {
        assert OpenAt(opens[k]);
      }
      NothingToLeave(Form(), level);
    }

    /** Closes every upvalue from `level` on. */
    method Close(level: nat)
      requires Valid()
      modifies this`openupval, this`opens, opens
      ensures Valid() && Abs() == Leave(old(Abs()), level)
      ensures forall up :: up in opens ==> up in old(opens) && up.v.InStack? && up.v.at.index < level
    {
      hide Leave, Abs, Chain, Frames, Form, Tied, Sized;
      HeadIs();
      while openupval != null && openupval.v.at.index >= level
        invariant Valid() && Leave(Abs(), level) == Leave(old(Abs()), level)
        invariant openupval == null <==> opens == []
        invariant opens != [] ==> openupval == opens[0] && OpenAt(opens[0])
        invariant forall k :: 0 <= k < |opens| ==> opens[k] in old(opens)
        decreases |opens|
      {
        assert forall n: object :: n in opens ==> n in old(opens);
        CloseTop(level);
        HeadIs();
      }
      AllLeft(level);
    }

    ghost predicate Between(k: nat, level: nat)
      reads this, opens
    {
      && k <= |opens|
      && (forall j :: 0 <= j < k ==> opens[j].v.InStack? && opens[j].v.at.index > level)
      && (forall j :: k <= j < |opens| ==> opens[j].v.InStack? && opens[j].v.at.index < level)
    }

    twostate lemma ChainGrown(new k: nat, new uv: UpVal)
      requires old(Chain()) && k <= |old(opens)| && opens == old(opens[..k] + [uv] + opens[k..]) && uv !in old(opens)
      requires openupval == if k == 0 then uv else old(openupval)
      requires uv.next == (if k < |old(opens)| then old(opens)[k] else null) &&
        uv.previous == (if k == 0 then Head else NextOf(old(opens)[k - 1]))
      requires forall j :: 0 <= j < |old(opens)| ==> old(opens)[j].next == if j == k - 1 then uv else old(opens[j].next)
      requires forall j :: 0 <= j < |old(opens)| ==>
        old(opens)[j].previous == if j == k then NextOf(uv) else old(opens[j].previous)
      ensures Chain()
    {
      forall j | 0 <= j < |opens| ensures Linked(j) {
        if j < k {
          assert old(Linked(j)) && opens[j] == old(opens)[j];
        } else if j > k {
          assert old(Linked(j - 1)) && opens[j] == old(opens)[j - 1];
        }
      }
    }

    lemma BetweenAt(k: nat, level: nat, j: nat)
      requires Tied() && Between(k, level) && j < |opens|
      ensures OpenAt(opens[j]) && (j < k ==> opens[j].v.at.index > level) && (j >= k ==> opens[j].v.at.index < level)
    {
    }

    /** Every entry of the grown list is open, levels still decrease. */
    twostate lemma EntryGrown(new k: nat, new level: nat, new uv: UpVal, new i: nat, new j: nat)
      requires old(Tied() && Between(k, level)) && k <= |old(opens)| &&
        opens == old(opens[..k] + [uv] + opens[k..]) && all == old(all) + [uv]
      requires stack == old(stack) && stacksize == old(stacksize) && level < stacksize
      requires uv.v == InStack(At(stack, level)) && uv.id == |old(all)|
      requires forall up :: up in old(all) ==> up.v == old(up.v)
      requires i <= j < |opens|
      ensures OpenAt(opens[i]) && OpenAt(opens[j]) && (i < j ==> opens[i].v.at.index > opens[j].v.at.index)
    {
      ghost var a, b := if i < k then i else i - 1, if j < k then j else j - 1;
      if i != k {
        assert opens[i] == old(opens)[a] && old(OpenAt(opens[a])) && old(opens)[a] in old(all);
        assert i < k <==> old(opens[a].v.at.index > level);
      }
      if j != k {
        assert opens[j] == old(opens)[b] && old(OpenAt(opens[b])) && old(opens)[b] in old(all);
        assert j < k <==> old(opens[b].v.at.index > level);
      }
    }

    lemma Among(s: seq<UpVal>, s': seq<UpVal>, k: nat, u: UpVal)
      requires k <= |s| && s' == s[..k] + [u] + s[k..]
      ensures u in s' && forall x :: x in s ==> x in s'
    {
      assert s'[k] == u;
      forall x | x in s ensures x in s' {
        var j :| 0 <= j < |s| && s[j] == x;
        assert s'[if j < k then j else j + 1] == x;
      }
    }

    twostate lemma TiedGrown(new k: nat, new level: nat, new uv: UpVal)
      requires old(Tied() && Between(k, level)) && k <= |old(opens)| &&
        opens == old(opens[..k] + [uv] + opens[k..]) && all == old(all) + [uv]
      requires stack == old(stack) && stacksize == old(stacksize) && level < stacksize
      requires uv.v == InStack(At(stack, level)) && uv.id == |old(all)|
      requires forall up :: up in old(all) ==> up.v == old(up.v)
      ensures Tied()
    {
      forall i, j | 0 <= i <= j < |opens| ensures OpenAt(opens[i]) && OpenAt(opens[j]) &&
        (i < j ==> opens[i].v.at.index > opens[j].v.at.index) {
        EntryGrown(k, level, uv, i, j);
      }
      Among(old(opens), opens, k, uv);
      forall c | 0 <= c < |all| ensures all[c].id == c && (all[c].v == Own || all[c] in opens) {
        if c < |old(all)| { assert all[c] == old(all)[c]; }
      }
    }

    twostate lemma FormGrown(new k: nat, new level: nat, new uv: UpVal)
      requires old(Tied()) && k <= |old(opens)| && opens == old(opens[..k] + [uv] + opens[k..]) &&
        all == old(all) + [uv]
      requires stack == old(stack) && stack.contents == old(stack.contents)
      requires uv.v == InStack(At(stack, level)) && uv.id == |old(all)| && uv.value == Nil
      requires forall up :: up in old(all) ==> up.v == old(up.v)
      requires forall up :: up in old(all) ==> up.value == old(up.value)
      ensures Form().contents == old(Form().contents) && Form().own == old(Form().own) + [Nil] &&
        |old(Form().own)| == uv.id
      ensures Inserted(old(Form().marks), Form().marks, k, Mark(level, uv.id))
    {
      MarksGrown(k, level, uv);
      forall c | 0 <= c < |old(all)| ensures all[c].value == old(all[c].value) {
        assert all[c] == old(all)[c];
      }
      assert Form().own == old(Form().own) + [Nil];
    }

    twostate lemma MarksGrown(new k: nat, new level: nat, new uv: UpVal)
      requires old(Tied()) && k <= |old(opens)| && opens == old(opens[..k] + [uv] + opens[k..])
      requires uv.v == InStack(At(stack, level))
      requires forall up :: up in old(all) ==> up.v == old(up.v)
      ensures Inserted(old(Form().marks), Form().marks, k, Mark(level, uv.id))
    {
      var m, m' := old(Form().marks), Form().marks;
      forall j | 0 <= j < |old(opens)| ensures old(opens)[j] in old(all) {
        assert old(OpenAt(opens[j]));
      }
      forall j | 0 <= j < k ensures m'[j] == m[j] {
        assert opens[j] == old(opens)[j];
      }
      forall j | k < j < |m'| ensures m'[j] == m[j - 1] {
        assert opens[j] == old(opens)[j - 1];
      }
    }

    lemma OpensInAll()
      requires Tied()
      ensures forall up :: up in opens ==> up in all
    {
      assert forall k :: 0 <= k < |opens| ==> OpenAt(opens[k]);
    }

    lemma NotAt(k: nat, level: nat)
      requires Sized() && Tied() && Between(k, level)
      ensures AtLevel(Form().marks, level) == |Form().marks|
    {
    }

    /** Links a new upvalue in where `prev` points. */
    method Link(uv: UpVal, prev: Link, ghost k: nat)
      requires Chain() && k <= |opens| && uv !in opens && prev == if k == 0 then Head else NextOf(opens[k - 1])
      modifies this`openupval, this`opens, opens, uv
      ensures Chain() && opens == old(opens[..k] + [uv] + opens[k..])
      ensures forall up :: up in opens ==> up.v == old(up.v) && up.value == old(up.value)
    {
      var next := openupval;
      match prev {
        case Head =>
        case NextOf(p) =>
          assert Linked(k - 1);
          next := p.next;
      }
      uv.next := next;
      uv.previous := prev;
      if next != null {
        next.previous := NextOf(uv);
      }
      match prev {
        case Head => openupval := uv;
        case NextOf(p) => p.next := uv;
      }
      opens := opens[..k] + [uv] + opens[k..];
      ChainGrown(k, uv);
    }

    /** An upvalue made for slot `level` joins the list: the variable there is captured. */
    method Adopt(uv: UpVal, level: nat, prev: Link, ghost k: nat)
      requires Valid() && level < stacksize && Between(k, level)
      requires uv !in all && uv.v == InStack(At(stack, level)) && uv.id == |all| && uv.value == Nil
      requires prev == if k == 0 then Head else NextOf(opens[k - 1])
      modifies this`openupval, this`opens, this`all, opens, uv
      ensures Valid() && all == old(all) + [uv]
      ensures uv.id == Capture(old(Abs()), level).1 && Abs() == Capture(old(Abs()), level).0
      ensures forall up :: up in all ==> up.v == old(up.v)
    {
      hide View, SlotOf, CellOf, Good, Tied, Frames, Form, AtLevel, WithId, Inserted, Capture, Chain, Sized;
      FormGood();
      NotAt(k, level);
      OpensInAll();
      ghost var s := Form();
      Link(uv, prev, k);
      all := all + [uv];
      TiedGrown(k, level, uv);
      FormGrown(k, level, uv);
      FormGood();
      MarkInserted(s, Form(), k, level);
    }

    /** Makes an upvalue for the slot at `level` and links it where `prev` points. */
    method NewUpval(level: StkId, prev: Link, ghost k: nat) returns (uv: UpVal)
      requires Valid() && level.block == stack && level.index < stacksize && Between(k, level.index)
      requires prev == if k == 0 then Head else NextOf(opens[k - 1])
      modifies this`openupval, this`opens, this`all, opens
      ensures Valid() && fresh(uv) && all == old(all) + [uv]
      ensures uv.id == Capture(old(Abs()), level.index).1 && Abs() == Capture(old(Abs()), level.index).0
      ensures forall up :: up in old(all) ==> up.v == old(up.v)
    {
      hide Capture, Abs, Chain, Frames, Tied, Sized;
      uv := new UpVal(level, null, prev, |all|);
      Adopt(uv, level.index, prev, k);
    }

    lemma OpenEntry(k: nat)
      requires Chain() && Tied() && k < |opens|
      ensures OpenAt(opens[k]) && opens[k] in all && Linked(k)
    {
    }

    lemma Found(k: nat)
      requires Sized() && Tied() && k < |opens|
      ensures OpenAt(opens[k]) && Capture(Abs(), opens[k].v.at.index) == (Abs(), opens[k].id)
    {
      assert OpenAt(opens[k]);
      FormGood();
      FoundLevel(Form(), k);
      assert View(Form()).slots[opens[k].v.at.index] == SlotOf(Form(), opens[k].v.at.index);
    }

    lemma Passed(k: nat, level: nat)
      requires Tied() && k <= |opens| && (k == |opens| || (OpenAt(opens[k]) && opens[k].v.at.index < level))
      requires Above(k, level)
      ensures Between(k, level)
    {
    }

    /** The first `k` open upvalues are above `level`. */
    ghost predicate Above(k: nat, level: nat)
      reads this, opens
    {
      k <= |opens| && forall j :: 0 <= j < k ==> opens[j].v.InStack? && opens[j].v.at.index > level
    }

    lemma NoneAbove(level: nat)
      ensures Above(0, level)
    {
    }

    lemma AboveMore(k: nat, level: nat)
      requires k < |opens| && opens[k].v.InStack? && opens[k].v.at.index > level && (k == 0 || Above(k, level))
      ensures Above(k + 1, level)
    {
    }

    /** The upvalue of the slot at `level`, made if there is none. */
    method FindUpval(level: StkId) returns (up: UpVal)
      requires Valid() && level.block == stack && level.index < stacksize
      modifies this`openupval, this`opens, this`all, opens
      ensures Valid() && up in all && (all == old(all) || (fresh(up) && all == old(all) + [up]))
      ensures up.id == Capture(old(Abs()), level.index).1 && Abs() == Capture(old(Abs()), level.index).0
      ensures forall u :: u in old(all) ==> u.v == old(u.v)
    {
      hide Capture, Abs, Chain, Frames, Tied, Sized, Above, Between;
      var pp := Head;
      var p := openupval;
      ghost var k := 0;
      HeadIs();
      while p != null && p.v.at.index >= level.index
        modifies {}
        invariant 0 <= k <= |opens| && p == (if k < |opens| then opens[k] else null)
        invariant p != null ==> OpenAt(p)
        invariant pp == if k == 0 then Head else NextOf(opens[k - 1])
        invariant k == 0 || Above(k, level.index)
        decreases |opens| - k
      {
        OpenEntry(k);
        if p.v.at.index == level.index {
          Found(k);
          return p;
        }
        AboveMore(k, level.index);
        pp := NextOf(p);
        p := p.next;
        k := k + 1;
        if k < |opens| { OpenEntry(k); }
      }
      NoneAbove(level.index);
      Passed(k, level.index);
      up := NewUpval(level, pp, k);
    }

    /** Every open upvalue points to the same slot of `newstack`. */
    method MoveUpvals(newstack: Block)
      requires Chain() && forall up :: up in opens ==> up.v.InStack?
      modifies opens
      ensures Chain()
      ensures forall up :: up in opens ==>
        up.v == InStack(At(newstack, old(up.v.at.index))) && up.value == old(up.value)
    {
      var up := openupval;
      ghost var k := 0;
      while up != null
        invariant 0 <= k <= |opens| && up == (if k < |opens| then opens[k] else null)
        invariant forall j :: 0 <= j < k ==> opens[j].v == InStack(At(newstack, old(opens[j].v.at.index)))
        invariant forall j :: k <= j < |opens| ==> opens[j].v == old(opens[j].v)
        invariant forall j :: 0 <= j < |opens| ==>
          opens[j].next == old(opens[j].next) && opens[j].previous == old(opens[j].previous)
        invariant forall j :: 0 <= j < |opens| ==> opens[j].value == old(opens[j].value)
        decreases |opens| - k
      {
        up.v := InStack(At(newstack, up.v.at.index));
        assert old(Linked(k));
        up := up.next;
        k := k + 1;
      }
      forall j | 0 <= j < |opens| ensures Linked(j) {
        assert old(Linked(j));
      }
    }

    method MoveFrames(newstack: Block)
      requires Calls()
      modifies frames
      ensures Calls()
      ensures forall f :: f in frames ==>
        f.func == At(newstack, old(f.func.index)) && f.top == At(newstack, old(f.top.index))
      ensures forall f :: f in frames ==> f.trap == (old(f.trap) || f.isLua)
    {
      var c: CallInfo? := ci;
      ghost var k := 0;
      while c != null
        invariant 0 <= k <= |frames| && c == (if k < |frames| then frames[k] else null)
        invariant forall j :: 0 <= j < k ==>
          frames[j].func == At(newstack, old(frames[j].func.index)) &&
          frames[j].top == At(newstack, old(frames[j].top.index))
        invariant forall j :: 0 <= j < k ==> frames[j].trap == (old(frames[j].trap) || frames[j].isLua)
        invariant forall j :: k <= j < |frames| ==> unchanged(frames[j])
        invariant forall j :: 0 <= j < |frames| ==> frames[j].previous == old(frames[j].previous)
        decreases |frames| - k
      {
        c.top := At(newstack, c.top.index);
        c.func := At(newstack, c.func.index);
        if c.isLua {
          c.trap := true;
        }
        assert old(Called(k));
        c := c.previous;
        k := k + 1;
      }
      forall j | 0 <= j < |frames| ensures Called(j) {
        assert old(Called(j));
      }
    }

    /** Every pointer into the old stack becomes the same pointer into the new one. */
    method CorrectStack(oldstack: Block, newstack: Block)
      requires Calls() && Chain() && forall up :: up in opens ==> up.v.InStack?
      modifies this`top, opens, frames
      ensures Calls() && Chain()
      ensures oldstack == newstack ==>
        unchanged(this) && (forall up :: up in opens ==> unchanged(up)) && (forall f :: f in frames ==> unchanged(f))
      ensures forall up :: up in opens ==> up.value == old(up.value)
      ensures oldstack != newstack ==> top == At(newstack, old(top.index)) && forall up :: up in opens ==>
        up.v == InStack(At(newstack, old(up.v.at.index)))
      ensures oldstack != newstack ==> forall f :: f in frames ==>
        f.func == At(newstack, old(f.func.index)) && f.top == At(newstack, old(f.top.index))
      ensures oldstack != newstack ==> forall f :: f in frames ==> f.trap == (old(f.trap) || f.isLua)
    {
      hide Calls, Chain;
      if oldstack == newstack {
        return;
      }
      top := At(newstack, top.index);
      MoveUpvals(newstack);
      MoveFrames(newstack);
    }

    /** What is in use lies within the first `size` entries. */
    ghost predicate Fits(size: nat)
      reads this, opens, frames
    {
      && EXTRA_STACK <= size && (size <= LUAI_MAXSTACK || size == ERRORSTACKSIZE) && top.index <= size
      && (forall up :: up in opens ==> up.v.InStack? && up.v.at.index < size)
      && (forall f :: f in frames ==> f.func.index <= size && f.top.index <= size)
    }

    twostate lemma Relocated()
      requires old(Valid()) && opens == old(opens) && all == old(all) && frames == old(frames)
      requires forall up :: up in opens ==> up.v == InStack(At(stack, old(up.v.at.index)))
      requires forall up :: up in opens ==> up.value == old(up.value)
      requires forall up :: up in all && up !in opens ==> unchanged(up)
      requires forall up :: up in opens ==> old(up.v.at.index) < stacksize
      ensures Tied() && Form() == old(Form()).(contents := stack.contents)
    {
      hide Chain, Frames;
      forall k | 0 <= k < |opens| ensures OpenAt(opens[k]) && opens[k].v.at.index == old(opens[k].v.at.index) {
        assert old(OpenAt(opens[k])) && opens[k] in opens;
      }
      forall c | 0 <= c < |all| ensures all[c].value == old(all[c].value) && (all[c].v == Own || all[c] in opens) {
        assert all[c] in all;
      }
    }

    lemma FormFits(size: nat)
      requires Valid() && Fits(size)
      ensures Calls() && EXTRA_STACK <= size && (size <= LUAI_MAXSTACK || size == ERRORSTACKSIZE) && top.index <= size
      ensures forall f :: f in frames ==> f.func.block == stack && f.top.block == stack
      ensures forall up :: up in opens ==> up.v.InStack? && up.v.at.block == stack
      ensures Form().contents == stack.contents
      ensures forall k :: 0 <= k < |Form().marks| ==> Form().marks[k].level < size
      ensures forall up :: up in opens ==> up.v.InStack? && up.v.at.index < size
    {
      assert forall k :: 0 <= k < |opens| ==> OpenAt(opens[k]);
    }

    twostate lemma FramesMoved(size: nat)
      requires old(Frames() && Fits(size)) && frames == old(frames) && Calls() && stacksize == size
      requires forall f :: f in frames ==>
        f.func == At(stack, old(f.func.index)) && f.top == At(stack, old(f.top.index))
      ensures Frames()
    {
      hide Calls;
    }

    /** Gives the stack `newsize` entries, at a new address if the allocator moves it. */
    method ReallocStack(newsize: nat, moves: bool)
      requires Valid() && Fits(newsize)
      modifies `stack, `stacksize, `stackLast, `top, stack, opens, frames
      ensures Valid() && stacksize == newsize && Abs() == Resize(old(Abs()), newsize)
      ensures if moves then fresh(stack) else stack == old(stack)
      ensures top.index == old(top.index)
      ensures forall f :: f in frames ==> f.func.index == old(f.func.index) && f.top.index == old(f.top.index)
      ensures forall up :: up in opens ==> up.v.InStack? && up.v.at.index == old(up.v.at.index)
    {
      hide Calls, Chain, View, Resize, Good, Form, Tied, Frames, Fits, Framed;
      FormGood();
      FormFits(newsize);
      ghost var s := Form();
      var newstack := Reblock(stack, newsize, moves);
      CorrectStack(stack, newstack);
      stack := newstack;
      stacksize := newsize;
      stackLast := At(newstack, newsize - EXTRA_STACK);
      FramesMoved(newsize);
      Relocated();
      Resized(s, newstack.contents);
    }

    /** How far the frame of each active call reaches, innermost first. */
    ghost function Tops(): (ns: seq<nat>)
      reads `frames, frames
      ensures |ns| == |frames|
    {
      TopsOf(frames)
    }

    /** The part of the stack in use. */
    method StackInUse() returns (n: nat)
      requires Valid()
      ensures n == InUse(top.index, Tops())
    {
      hide Chain, Tied;
      var lim := top.index;
      var c: CallInfo? := ci;
      ghost var k := 0;
      assert [top.index] + Tops()[..0] == [top.index];
      assert Highest([top.index]) == top.index by { assert [top.index][..0] == []; }
      while c != null
        invariant 0 <= k <= |frames| && c == (if k < |frames| then frames[k] else null)
        invariant lim == Highest([top.index] + Tops()[..k])
        decreases |frames| - k
      {
        assert Called(k);
        ghost var before, more := [top.index] + Tops()[..k], [top.index] + Tops()[..k + 1];
        assert more[..|more| - 1] == before;
        if lim < c.top.index {
          lim := c.top.index;
        }
        c := c.previous;
        k := k + 1;
      }
      assert Tops()[..|frames|] == Tops();
      return lim + 1;
    }

    /** Whether every open upvalue points to the part in use: it is enough to look at the topmost. */
    method Covers(n: nat) returns (b: bool)
      requires Valid()
      ensures b <==> InScope(Abs(), n)
      ensures b ==> forall up :: up in opens ==> up.v.InStack? && up.v.at.index < n
    {
      hide View, SlotOf, CellOf, Good, Frames;
      FormGood();
      ScopeView(Form(), n);
      b := openupval == null || openupval.v.at.index < n;
      forall k | 0 <= k < |opens| ensures OpenAt(opens[k]) && opens[k].v.at.index == Form().marks[k].level { }
      if b {
        forall k | 0 <= k < |opens| ensures opens[k].v.at.index < n {
          assert opens[k].v.at.index <= opens[0].v.at.index;
        }
      } else {
        assert Form().marks[0].level >= n;
      }
    }

    lemma ShrunkFits(inuse: nat)
      requires Valid() && inuse == InUse(top.index, Tops()) && ShrunkSize(stacksize, inuse) < stacksize
      requires forall up :: up in opens ==> up.v.InStack? && up.v.at.index < inuse
      ensures Fits(ShrunkSize(stacksize, inuse))
    {
      hide Chain, Tied;
      var ns := [top.index] + Tops();
      assert ns[0] == top.index;
      forall f | f in frames ensures f.top.index < inuse && f.func.index < inuse {
        var k :| 0 <= k < |frames| && frames[k] == f;
        assert ns[k + 1] == Tops()[k] == f.top.index;
      }
    }

    /** Gives back what is not used, as long as no overflow is being handled.  Open upvalues lie
        in the part in use. */
    method ShrinkStack(moves: bool)
      requires Valid()
      requires forall up :: up in opens ==> up.v.InStack? && up.v.at.index < InUse(top.index, Tops())
      modifies `stack, `stacksize, `stackLast, `top, stack, opens, frames
      ensures Valid() && stacksize == ShrunkSize(old(stacksize), InUse(old(top.index), old(Tops())))
      ensures Abs() == Resize(old(Abs()), stacksize)
      ensures stack == old(stack) || fresh(stack)
      ensures top.index == old(top.index) && Tops() == old(Tops())
      ensures forall f :: f in frames ==> f.func.index == old(f.func.index) && f.top.index == old(f.top.index)
      ensures forall up :: up in opens ==> up.v.InStack? && up.v.at.index == old(up.v.at.index)
    {
      hide Tied, Chain, Frames, Abs, Fits, Resize, Highest;
      var inuse := StackInUse();
      var goodsize := inuse + inuse / 8 + 2 * EXTRA_STACK;
      if goodsize > LUAI_MAXSTACK {
        goodsize := LUAI_MAXSTACK;
      }
      if inuse <= LUAI_MAXSTACK - EXTRA_STACK && goodsize < stacksize {
        ShrunkFits(inuse);
        ReallocStack(goodsize, moves);
      } else {
        ResizeSame(Abs());
      }
    }

    /** Shrinks the stack unless a captured variable lies beyond the part in use. */
    method Trim(moves: bool)
      requires Valid()
      modifies `stack, `stacksize, `stackLast, `top, stack, opens, frames
      ensures Valid() && top.index == old(top.index) && Tops() == old(Tops())
      ensures Abs() == if InScope(old(Abs()), InUse(old(top.index), old(Tops()))) then
        Resize(old(Abs()), ShrunkSize(|old(Abs()).slots|, InUse(old(top.index), old(Tops())))) else old(Abs())
      ensures stack == old(stack) || fresh(stack)
    {
      hide Tied, Chain, Frames, Abs, Fits, Resize, Highest, InScope, ShrunkSize, InUse;
      var inuse := StackInUse();
      var covered := Covers(inuse);
      if covered { ShrinkStack(moves); }
    }

    lemma StillFits(size: nat)
      requires Valid() && stacksize <= size && (size <= LUAI_MAXSTACK || size == ERRORSTACKSIZE)
      ensures Fits(size)
    {
      forall up | up in opens ensures up.v.InStack? && up.v.at.index < size {
        ghost var k :| 0 <= k < |opens| && opens[k] == up;
        assert OpenAt(opens[k]);
      }
    }

    /** Makes room for `n` more entries, or for the error message when there can be none. */
    method GrowStack(n: nat, moves: bool) returns (ok: bool)
      requires Valid()
      modifies `stack, `stacksize, `stackLast, `top, stack, opens, frames
      ensures Valid() && stacksize == GrownSize(old(stacksize), old(top.index), n) &&
        Abs() == Resize(old(Abs()), stacksize)
      ensures ok <==> old(stacksize) <= LUAI_MAXSTACK && old(top.index) + n + EXTRA_STACK <= LUAI_MAXSTACK
      ensures if ok then top.index + n <= stackLast.index && stacksize <= LUAI_MAXSTACK else stacksize == ERRORSTACKSIZE
      ensures stack == old(stack) || fresh(stack)
      ensures top.index == old(top.index)
      ensures forall f :: f in frames ==> f.func.index == old(f.func.index) && f.top.index == old(f.top.index)
      ensures forall up :: up in opens ==> up.v.InStack? && up.v.at.index == old(up.v.at.index)
    {
      hide Tied, Chain, Frames, Abs, Fits, Resize;
      var size := stacksize;
      var newsize := 2 * size;
      if size > LUAI_MAXSTACK {
        ResizeSame(Abs());
        StillFits(size);
        FormFits(size);
        return false;
      }
      var needed := top.index + n + EXTRA_STACK;
      if newsize > LUAI_MAXSTACK {
        newsize := LUAI_MAXSTACK;
      }
      if newsize < needed {
        newsize := needed;
      }
      if newsize > LUAI_MAXSTACK {
        StillFits(ERRORSTACKSIZE);
        ReallocStack(ERRORSTACKSIZE, moves);
        return false;
      }
      StillFits(newsize);
      ReallocStack(newsize, moves);
      return true;
    }
  }

  // ---- Whole runs ----

  /** What a program does with its variables and closures; closures are numbered as made. */
  datatype Op =
    | WriteVar(slot: nat, v: Value)
    | ReadVar(slot: nat)
    | MakeClosure(slot: nat)
    | WriteUp(closure: nat, v: Value)
    | ReadUp(closure: nat)
    | CloseFrom(level: nat)
    | Grow(n: nat, moves: bool)
    | Shrink(moves: bool)
    | MoveTop(index: nat)

  /** The simple machine, with the cell of each closure; `tops` is how far the active calls reach. */
  datatype Machine = Machine(a: Simple, top: nat, tops: seq<nat>, closures: seq<nat>) {
    ghost predicate Sound() {
      Proper(a) && forall k :: 0 <= k < |closures| ==> closures[k] < |a.cells|
    }
  }

  /** One operation and what it lets the program see; an operation on nothing does nothing, nor
      does shrinking while a captured variable lies beyond the part in use. */
  function Apply(m: Machine, op: Op): (r: (Machine, seq<Value>))
    requires m.Sound()
  {
    match op
    case WriteVar(i, v) => if i < |m.a.slots| then (m.(a := WriteLocal(m.a, i, v)), []) else (m, [])
    case ReadVar(i) => if i < |m.a.slots| then (m, [ReadLocal(m.a, i)]) else (m, [])
    case MakeClosure(i) =>
      if i < |m.a.slots| then
        (m.(a := Capture(m.a, i).0, closures := m.closures + [Capture(m.a, i).1]), []) else (m, [])
    case WriteUp(k, v) => if k < |m.closures| then (m.(a := WriteCell(m.a, m.closures[k], v)), []) else (m, [])
    case ReadUp(k) => if k < |m.closures| then (m, [m.a.cells[m.closures[k]]]) else (m, [])
    case CloseFrom(level) => (m.(a := Leave(m.a, level)), [])
    case Grow(n, _) => (m.(a := Resize(m.a, GrownSize(|m.a.slots|, m.top, n))), [])
    case Shrink(_) =>
      if InScope(m.a, InUse(m.top, m.tops)) then
        (m.(a := Resize(m.a, ShrunkSize(|m.a.slots|, InUse(m.top, m.tops)))), []) else (m, [])
    case MoveTop(i) => if i <= |m.a.slots| then (m.(top := i), []) else (m, [])
  }

  lemma ApplySound(m: Machine, op: Op)
    requires m.Sound()
    ensures Apply(m, op).0.Sound()
  {
  }

  function Play(m: Machine, ops: seq<Op>): (r: (Machine, seq<Value>))
    requires m.Sound()
    ensures r.0.Sound()
    decreases |ops|
  {
    if ops == [] then (m, [])
    else
      ApplySound(m, ops[0]);
      var first := Apply(m, ops[0]);
      var rest := Play(first.0, ops[1..]);
      (rest.0, first.1 + rest.1)
  }

  /** The thread and its closures stand for the machine. */
  ghost predicate StandsFor(t: Thread, ups: seq<UpVal>, m: Machine)
    reads t, t.stack, t.opens, t.all, t.frames
  {
    && t.Valid() && m.Sound() && t.Abs() == m.a && t.top.index == m.top && t.Tops() == m.tops
    && |ups| == |m.closures|
    && forall k :: 0 <= k < |ups| ==> ups[k] in t.all && ups[k].id == m.closures[k]
  }

  lemma InAll(t: Thread)
    requires t.Valid()
    ensures |t.Abs().slots| == t.stacksize
    ensures forall k :: 0 <= k < |t.opens| ==> t.opens[k] in t.all
  {
    t.OpensInAll();
  }

  /** The fast form does and shows what one cell per variable would. */
  method Do(t: Thread, ups: seq<UpVal>, op: Op, ghost m: Machine) returns (ups': seq<UpVal>, seen: seq<Value>)
    requires StandsFor(t, ups, m)
    modifies t, t.stack, t.all, t.frames
    ensures StandsFor(t, ups', Apply(m, op).0) && seen == Apply(m, op).1
    ensures (t.stack == old(t.stack) || fresh(t.stack)) && t.frames == old(t.frames)
    ensures forall up :: up in t.all ==> up in old(t.all) || fresh(up)
  {
    hide Thread.Tied, Thread.Chain, Thread.Frames, Thread.Abs;
    hide Capture, WriteLocal, ReadLocal, Leave, Resize, WriteCell, Proper, GrownSize, InScope, InUse, ShrunkSize,
      TopsOf;
    ups', seen := ups, [];
    ApplySound(m, op);
    InAll(t);
    assert forall n: object :: n in t.opens ==> n in t.all;
    match op {
      case WriteVar(i, v) =>
        if i < t.stacksize { t.SetLocal(i, v); }
      case ReadVar(i) =>
        if i < t.stacksize {
          var v := t.GetLocal(i);
          seen := [v];
        }
      case MakeClosure(i) =>
        if i < t.stacksize {
          var up := t.FindUpval(At(t.stack, i));
          ups' := ups + [up];
        }
      case WriteUp(k, v) =>
        if k < |ups| { t.SetUpval(ups[k], v); }
      case ReadUp(k) =>
        if k < |ups| {
          var v := t.GetUpval(ups[k]);
          seen := [v];
        }
      case CloseFrom(level) => t.Close(level);
      case Grow(n, moves) => var ok := t.GrowStack(n, moves);
      case Shrink(moves) =>
        t.Trim(moves);
      case MoveTop(i) =>
        if i <= t.stacksize { t.SetTop(i); }
    }
  }

  lemma PlayOne(m: Machine, op: Op)
    requires m.Sound()
    ensures Play(m, [op]).0 == Apply(m, op).0 && Play(m, [op]).1 == Apply(m, op).1
  {
    ApplySound(m, op);
    assert [op][1..] == [];
  }

  lemma {:induction false} PlayAppend(m: Machine, ops: seq<Op>, op: Op)
    requires m.Sound()
    ensures Play(m, ops + [op]).0 == Apply(Play(m, ops).0, op).0
    ensures Play(m, ops + [op]).1 == Play(m, ops).1 + Apply(Play(m, ops).0, op).1
    decreases |ops|
  {
    if ops == [] {
      assert ops + [op] == [op];
      PlayOne(m, op);
    } else {
      ApplySound(m, ops[0]);
      assert (ops + [op])[1..] == ops[1..] + [op];
      PlayAppend(Apply(m, ops[0]).0, ops[1..], op);
    }
  }

  /** Any run on the fast form shows what the simple machine shows. */
  method Run(t: Thread, ops: seq<Op>) returns (ups: seq<UpVal>, seen: seq<Value>)
    requires t.Valid()
    modifies t, t.stack, t.all, t.frames
    ensures StandsFor(t, ups, Play(Machine(old(t.Abs()), old(t.top.index), old(t.Tops()), []), ops).0)
    ensures seen == Play(Machine(old(t.Abs()), old(t.top.index), old(t.Tops()), []), ops).1
  {
    hide Thread.Tied, Thread.Sized, Thread.Chain, Thread.Frames, Thread.Abs, Apply;
    ghost var m := Machine(t.Abs(), t.top.index, t.Tops(), []);
    ups, seen := [], [];
    var i := 0;
    while i < |ops|
      invariant 0 <= i <= |ops| && m.Sound()
      invariant StandsFor(t, ups, Play(m, ops[..i]).0) && seen == Play(m, ops[..i]).1
      invariant (t.stack == old(t.stack) || fresh(t.stack)) && t.frames == old(t.frames)
      invariant forall k :: 0 <= k < |t.all| ==> t.all[k] in old(t.all) || fresh(t.all[k])
    {
      assert forall n: object :: n in t.all ==> n in old(t.all) || fresh(n);
      assert ops[..i + 1] == ops[..i] + [ops[i]];
      PlayAppend(m, ops[..i], ops[i]);
      var out;
      ups, out := Do(t, ups, ops[i], Play(m, ops[..i]).0);
      seen := seen + out;
      i := i + 1;
    }
    assert ops[..i] == ops;
  }
}
