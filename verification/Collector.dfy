/**
 The incremental collector of `lgc.c` as a machine: the steps of a collection cycle, the
 mutator's steps between them, and the write barriers that keep the two consistent.
 */
module Collector {
  import opened CollectorHeap
  import opened CollectorInvariant
  import opened CollectorLive

  class State {
    var objs: Heap
    var color: Colors
    var dead: DeadKeys
    var gray: seq<Id>
    var grayagain: seq<Id>
    var weak: seq<Id>
    var allweak: seq<Id>
    var ephemeron: seq<Id>
    var phase: Phase
    var currentwhite: bool

    var allgc: seq<Id>
    var sweepgc: Cursor
    var next: Id

    /** The running thread, and the registry with the metatables of the basic types. */
    var main: Id
    var globals: seq<Val>

    /** Gray objects in no list while they are worked on, or kept in a list of the C stack. */
    ghost var aside: seq<Id>

    /** What was unmarked when the white last flipped, and what was freed since. */
    ghost var doomed: set<Id>
    ghost var freed: set<Id>

    ghost function Lists(): multiset<Id>
      reads `gray, `grayagain, `weak, `allweak, `ephemeron, `aside
    {
      multiset(gray) + multiset(grayagain) + multiset(weak) + multiset(allweak) + multiset(ephemeron) + multiset(aside)
    }

    ghost predicate Marking(e: set<Id>, m: set<Id>)
      reads this
    {
      Tricolor(objs, color, dead, currentwhite, Lists(), e, m)
    }

    /** A new state: the running thread, with an empty stack, and room for the globals. */
    constructor (n: nat)
      ensures Valid() && phase == Pause && objs == map[main := Object(Thread, Plain, [], [])] && |globals| == n
    {
      main := 0;
      objs := map[0 := Object(Thread, Plain, [], [])];
      color := map[0 := White(false)];
      dead, gray, grayagain, weak, allweak, ephemeron := {}, [], [], [], [], [];
      phase, currentwhite := Pause, false;
      allgc, sweepgc, next := [0], Finished, 1;
      globals := seq(n, _ => Plain);
      aside, doomed, freed := [], {}, {};
    }

    /** A white object that is not a string or a cell waits in `gray` once it is marked. */
    ghost predicate Waits(c: Colors, o: Id)
      reads `objs
    {
      o in objs && o in c && c[o].White? && !objs[o].kind.Leaf? && !objs[o].kind.Cell?
    }

    /** The roots are the running thread and one more object that waits. */
    ghost predicate OneTable(c: Colors)
      reads `objs, `main, `globals
    {
      |globals| == 1 && globals[0].Ref? && globals[0].id != main && Waits(c, main) && Waits(c, globals[0].id)
    }

    /** Marks a white object: strings and cells are done with here, others wait in `gray`. */
    method Mark(o: Id, ghost e: set<Id>, ghost m: set<Id>)
      requires Marking(e, m) && o in objs && o in color && color[o].White? && Belongs(objs, m, Ref(o))
      modifies `color, `gray
      ensures Marking(e, m) && Marks(old(color), color) && !color[o].White?
      ensures Whites(color) < Whites(old(color))
      ensures !objs[o].kind.Leaf? && !objs[o].kind.Cell? ==> color == old(color)[o := Gray] && gray == [o] + old(gray)
      decreases Whites(color), 1
    {
      hide Tricolor, Lists;
      var kind := objs[o].kind;
      if kind.Leaf? {
        MarkLeaf(o, e, m);
      } else if kind.Cell? {
        MarkCell(o, e, m);
      } else {
        MarkLater(o, e, m);
      }
    }

    method MarkLeaf(o: Id, ghost e: set<Id>, ghost m: set<Id>)
      requires Marking(e, m) && o in objs && o in color && color[o].White? && objs[o].kind.Leaf?
      modifies `color
      ensures Marking(e, m) && Marks(old(color), color) && !color[o].White?
      ensures Whites(color) < Whites(old(color)) && MarkedSet(objs, color) == MarkedSet(objs, old(color))
    {
      hide Tricolor, Lists;
      PaintLeaf(objs, color, color[o := Black], dead, currentwhite, Lists(), e, m, o);
      color := color[o := Black];
    }

    method MarkLater(o: Id, ghost e: set<Id>, ghost m: set<Id>)
      requires Marking(e, m) && o in objs && o in color && color[o].White?
      requires !objs[o].kind.Leaf? && !objs[o].kind.Cell? && o in m
      modifies `color, `gray
      ensures Marking(e, m) && Marks(old(color), color) && !color[o].White?
      ensures Whites(color) < Whites(old(color))
      ensures color == old(color)[o := Gray] && gray == [o] + old(gray)
    {
      hide Tricolor;
      PaintGray(objs, color, color[o := Gray], dead, currentwhite, Lists(), e, m, o);
      color := color[o := Gray];
      gray := [o] + gray;
      assert Lists() == old(Lists()) + multiset{o};
    }

    method MarkCell(o: Id, ghost e: set<Id>, ghost m: set<Id>)
      requires Marking(e, m) && o in objs && o in color && color[o].White? && objs[o].kind.Cell? && o in m
      modifies `color, `gray
      ensures Marking(e, m) && Marks(old(color), color) && !color[o].White?
      ensures Whites(color) < Whites(old(color))
      decreases Whites(color), 0
    {
      hide Tricolor, Lists;
      ReadsAt(objs, color, dead, currentwhite, Lists(), e, m, o);
      PaintCell(objs, color, color[o := Black], dead, currentwhite, Lists(), e, m, o);
      color := color[o := Black];
      ghost var entered := color;
      MarkValue(objs[o].slots[0], e + {o}, m);
      MarksTwice(old(color), entered, color);
      CellVisited(objs, entered, color, dead, currentwhite, Lists(), e, m, o);
    }

    method MarkValue(v: Val, ghost e: set<Id>, ghost m: set<Id>)
      requires Marking(e, m) && Exists(objs, v) && Belongs(objs, m, v)
      modifies `color, `gray
      ensures Marking(e, m) && IsMarked(color, v)
      ensures Progress(old(color), old(gray), color, gray)
      ensures v.Ref? && Waits(old(color), v.id) ==> color == old(color)[v.id := Gray] && gray == [v.id] + old(gray)
      decreases Whites(color), 2
    {
      hide Tricolor, Lists;
      Reads(objs, color, dead, currentwhite, Lists(), e, m);
      if v.Ref? && color[v.id].White? {
        Mark(v.id, e, m);
      }
    }

    method MarkSlots(vs: seq<Val>, ghost e: set<Id>, ghost m: set<Id>)
      requires Marking(e, m) && forall i :: 0 <= i < |vs| ==> Exists(objs, vs[i]) && Belongs(objs, m, vs[i])
      modifies `color, `gray
      ensures Marking(e, m) && SlotsMarked(color, vs)
      ensures Progress(old(color), old(gray), color, gray)
      ensures |vs| == 1 && vs[0].Ref? && Waits(old(color), vs[0].id) ==> gray == [vs[0].id] + old(gray)
    {
      hide Tricolor, Lists;
      var i := 0;
      while i < |vs|
        invariant 0 <= i <= |vs| && Marking(e, m) && MarkedUpTo(color, vs, i)
        invariant i == 0 ==> color == old(color) && gray == old(gray)
        invariant i == 1 && vs[0].Ref? && Waits(old(color), vs[0].id) ==> gray == [vs[0].id] + old(gray) || |vs| > 1
        invariant Progress(old(color), old(gray), color, gray)
      {
        ghost var c, g := color, gray;
        MarkValue(vs[i], e, m);
        OneMoreMarked(c, color, vs, i);
        ProgressTwice(old(color), old(gray), c, g, color, gray);
        i := i + 1;
      }
    }

    /** Declares the key of an empty entry dead if it is not marked. */
    method ClearKey(h: Id, i: nat, ghost e: set<Id>, ghost m: set<Id>)
      requires Marking(e, m) && h in objs && i < |objs[h].nodes| && objs[h].nodes[i].val == Empty
      modifies `dead
      ensures Marking(e, m) && old(dead) <= dead <= old(dead) + {(h, i as int)}
      ensures KeyMarked(color, dead, h, i, objs[h].nodes[i])
    {
      hide Tricolor, Lists;
      ReadsAt(objs, color, dead, currentwhite, Lists(), e, m, h);
      var k := objs[h].nodes[i].key;
      if (h, i as int) !in dead && k.Ref? && color[k.id].White? {
        KeyDies(objs, color, dead, currentwhite, Lists(), e, m, h, i);
        dead := dead + {(h, i as int)};
      }
    }

    // ---- Visits ----

    method StrongEntry(h: Id, i: nat, ghost e: set<Id>, ghost m: set<Id>)
      requires Marking(e, m) && h in objs && h in m && objs[h].kind == Table(Strong) && i < |objs[h].nodes|
      modifies `color, `gray, `dead
      ensures Marking(e, m) && Progress(old(color), old(gray), color, gray) && old(dead) <= dead
      ensures KeyMarked(color, dead, h, i, objs[h].nodes[i]) && IsMarked(color, objs[h].nodes[i].val)
    {
      hide Tricolor, Lists;
      var n := objs[h].nodes[i];
      if n.val == Empty {
        ClearKey(h, i, e, m);
      } else {
        ReadsAt(objs, color, dead, currentwhite, Lists(), e, m, h);
        Reads(objs, color, dead, currentwhite, Lists(), e, m);
        EntryBelongs(objs, m, h, i);
        MarkValue(n.key, e, m);
        ghost var c, g := color, gray;
        MarkValue(n.val, e, m);
        ProgressTwice(old(color), old(gray), c, g, color, gray);
        MarkedStays(c, color, n.key);
      }
    }

    method TraverseStrongTable(h: Id, ghost e: set<Id>, ghost m: set<Id>)
      requires Marking(e, m) && h in objs && h in m && objs[h].kind == Table(Strong)
      modifies `color, `gray, `dead
      ensures Marking(e, m) && Progress(old(color), old(gray), color, gray) && old(dead) <= dead
      ensures SlotsMarked(color, objs[h].slots) && NodesMarked(color, dead, h, objs[h].nodes)
    {
      hide Tricolor, Lists;
      ReadsAt(objs, color, dead, currentwhite, Lists(), e, m, h);
      Reads(objs, color, dead, currentwhite, Lists(), e, m);
      SlotsBelong(objs, m, h);
      MarkSlots(objs[h].slots, e, m);
      ghost var c0 := color;
      var i := 0;
      while i < |objs[h].nodes|
        invariant 0 <= i <= |objs[h].nodes| && Marking(e, m) && NodesUpTo(color, dead, h, objs[h].nodes, i)
        invariant Progress(old(color), old(gray), color, gray) && old(dead) <= dead && Marks(c0, color)
      {
        ghost var c, g, d := color, gray, dead;
        StrongEntry(h, i, e, m);
        OneMoreNode(c, color, d, dead, h, objs[h].nodes, i);
        ProgressTwice(old(color), old(gray), c, g, color, gray);
        MarksTwice(c0, c, color);
        i := i + 1;
      }
    }

    /** Whether a reference of a weak table can be cleared.  Strings are values: they are marked. */
    method IsCleared(v: Val, ghost e: set<Id>, ghost m: set<Id>) returns (r: bool)
      requires Marking(e, m) && Exists(objs, v)
      modifies `color
      ensures Marking(e, m) && Progress(old(color), old(gray), color, gray)
      ensures r <==> !IsMarked(color, v)
      ensures r ==> !IsLeaf(objs, v)
      ensures MarkedSet(objs, color) == MarkedSet(objs, old(color))
    {
      hide Tricolor, Lists;
      Reads(objs, color, dead, currentwhite, Lists(), e, m);
      if !v.Ref? { return false; }
      if objs[v.id].kind.Leaf? {
        if color[v.id].White? { MarkLeaf(v.id, e, m); }
        return false;
      }
      return color[v.id].White?;
    }

    method WeakEntry(h: Id, i: nat, was: bool, ghost m: set<Id>) returns (hasclears: bool)
      requires Marking({}, m) && h in objs && h in m && objs[h].kind == Table(WeakValues) && i < |objs[h].nodes|
      modifies `color, `gray, `dead
      ensures Marking({}, m) && Progress(old(color), old(gray), color, gray) && old(dead) <= dead
      ensures was ==> hasclears
      ensures KeyMarked(color, dead, h, i, objs[h].nodes[i]) && (hasclears || IsMarked(color, objs[h].nodes[i].val))
    {
      hide Tricolor, Lists;
      hasclears := was;
      var n := objs[h].nodes[i];
      if n.val == Empty {
        ClearKey(h, i, {}, m);
      } else {
        ReadsAt(objs, color, dead, currentwhite, Lists(), {}, m, h);
        Reads(objs, color, dead, currentwhite, Lists(), {}, m);
        KeyBelongs(objs, m, h, i);
        MarkValue(n.key, {}, m);
        if !hasclears {
          ghost var c, g := color, gray;
          hasclears := IsCleared(n.val, {}, m);
          ProgressTwice(old(color), old(gray), c, g, color, gray);
          MarkedStays(c, color, n.key);
        }
      }
    }

    /** Links a gray object that was in no list. */
    method LinkWeak(h: Id)
      requires aside != [] && aside[0] == h
      modifies `weak, `aside
      ensures weak == [h] + old(weak) && aside == old(aside[1..]) && Lists() == old(Lists())
    {
      assert aside == [h] + aside[1..];
      weak := [h] + weak;
      aside := aside[1..];
    }

    method LinkAllWeak(h: Id)
      requires aside != [] && aside[0] == h
      modifies `allweak, `aside
      ensures allweak == [h] + old(allweak) && aside == old(aside[1..]) && Lists() == old(Lists())
    {
      assert aside == [h] + aside[1..];
      allweak := [h] + allweak;
      aside := aside[1..];
    }

    method LinkEphemeron(h: Id)
      requires aside != [] && aside[0] == h
      modifies `ephemeron, `aside
      ensures ephemeron == [h] + old(ephemeron) && aside == old(aside[1..]) && Lists() == old(Lists())
    {
      assert aside == [h] + aside[1..];
      ephemeron := [h] + ephemeron;
      aside := aside[1..];
    }

    method LinkGrayAgain(h: Id)
      requires aside != [] && aside[0] == h
      modifies `grayagain, `aside
      ensures grayagain == [h] + old(grayagain) && aside == old(aside[1..]) && Lists() == old(Lists())
    {
      assert aside == [h] + aside[1..];
      grayagain := [h] + grayagain;
      aside := aside[1..];
    }

    method VisitWeakValues(h: Id, ghost m: set<Id>) returns (hasclears: bool)
      requires Marking({}, m) && h in objs && h in m && objs[h].kind == Table(WeakValues)
      modifies `color, `gray, `dead
      ensures Marking({}, m) && Progress(old(color), old(gray), color, gray) && old(dead) <= dead
      ensures objs[h].slots != [] ==> hasclears
      ensures WeakUpTo(color, dead, h, objs[h].nodes, |objs[h].nodes|, hasclears)
    {
      hide Tricolor, Lists;
      hasclears := |objs[h].slots| > 0;
      var i := 0;
      while i < |objs[h].nodes|
        invariant 0 <= i <= |objs[h].nodes| && Marking({}, m)
        invariant WeakUpTo(color, dead, h, objs[h].nodes, i, hasclears) && (objs[h].slots != [] ==> hasclears)
        invariant Progress(old(color), old(gray), color, gray) && old(dead) <= dead
      {
        ghost var c, g, d, was := color, gray, dead, hasclears;
        hasclears := WeakEntry(h, i, hasclears, m);
        OneMoreWeak(c, color, d, dead, h, objs[h].nodes, i, was, hasclears);
        ProgressTwice(old(color), old(gray), c, g, color, gray);
        i := i + 1;
      }
    }

    method TraverseWeakValues(h: Id, ghost m: set<Id>)
      requires Marking({}, m) && h in objs && h in m && objs[h].kind == Table(WeakValues)
      requires IsMarked(color, objs[h].meta) && aside != [] && aside[0] == h
      modifies `color, `gray, `dead, `weak, `grayagain, `aside
      ensures Marking({}, m) && Progress(old(color), old(gray), color, gray) && old(dead) <= dead
      ensures aside == old(aside[1..])
      ensures (grayagain == [h] + old(grayagain) && weak == old(weak) &&
        (phase == Atomic ==> AllMarked(objs, color, dead, h)))
           || (phase == Atomic && weak == [h] + old(weak) && grayagain == old(grayagain) &&
             WeakDone(objs, color, dead, h))
    {
      hide Tricolor, Lists, WeakUpTo, WeakDone, AllMarked, Progress;
      ghost var c, g := color, gray;
      var hasclears := VisitWeakValues(h, m);
      ProgressKeeps(c, g, color, gray, objs[h].meta);
      WeakVisited(objs, color, dead, h, hasclears);
      if phase == Atomic && hasclears {
        LinkWeak(h);
      } else {
        LinkGrayAgain(h);
      }
    }

    method EphemeronEntry(h: Id, k: nat, ghost m: set<Id>) returns (hasclears: bool, hasww: bool, marked: bool)
      requires Marking({}, m) && h in objs && h in m && objs[h].kind == Table(Ephemeron) && k < |objs[h].nodes|
      modifies `color, `gray, `dead
      ensures Marking({}, m) && Progress(old(color), old(gray), color, gray) && old(dead) <= dead
      ensures EntryDone(objs, color, dead, h, k, hasclears, hasww) && (hasww ==> hasclears)
      ensures marked ==> Whites(color) < Whites(old(color))
      ensures !marked ==> MarkedSet(objs, color) == MarkedSet(objs, old(color)) && gray == old(gray)
      ensures !marked ==> EntrySettled(objs, color, MarkedSet(objs, color), h, k)
    {
      hide Tricolor, Lists;
      hasclears, hasww, marked := false, false, false;
      var n := objs[h].nodes[k];
      ReadsAt(objs, color, dead, currentwhite, Lists(), {}, m, h);
      if n.val == Empty {
        ClearKey(h, k, {}, m);
      } else {
        hasclears := IsCleared(n.key, {}, m);
        Reads(objs, color, dead, currentwhite, Lists(), {}, m);
        if hasclears {
          hasww := n.val.Ref? && color[n.val.id].White?;
        } else if n.val.Ref? && color[n.val.id].White? {
          ValueBelongs(objs, m, h, k);
          ghost var c, g := color, gray;
          Mark(n.val.id, {}, m);
          marked := true;
          MarksTwice(old(color), c, color);
          MarkedStays(c, color, n.key);
        }
      }
    }

    method VisitEphemeron(h: Id, inv: bool, ghost m: set<Id>) returns (hasclears: bool, hasww: bool, marked: bool)
      requires Marking({}, m) && h in objs && h in m && objs[h].kind == Table(Ephemeron)
      modifies `color, `gray, `dead
      ensures Marking({}, m) && Progress(old(color), old(gray), color, gray) && old(dead) <= dead
      ensures SlotsMarked(color, objs[h].slots) && (hasww ==> hasclears)
      ensures EntriesUpTo(objs, color, dead, h, |objs[h].nodes|, inv, hasclears, hasww)
      ensures marked ==> Whites(color) < Whites(old(color))
      ensures !marked ==> MarkedSet(objs, color) == MarkedSet(objs, old(color)) && gray == old(gray)
      ensures !marked ==> Settled(objs, color, h)
    {
      hide Tricolor, Lists, EntriesUpTo, SettledUpTo, EntryDone, EntrySettled, Settled, SlotsMarked, MarkedSet;
      hasclears, hasww := false, false;
      marked := VisitArray(h, m);
      ghost var c0 := color;
      var i, n := 0, |objs[h].nodes|;
      NothingScanned(objs, color, dead, h, inv);
      while i < n
        invariant 0 <= i <= n && Marking({}, m) && (hasww ==> hasclears) && Marks(c0, color)
        invariant EntriesUpTo(objs, color, dead, h, i, inv, hasclears, hasww)
        invariant !marked ==> SettledUpTo(objs, color, h, i, inv, MarkedSet(objs, color))
        invariant Progress(old(color), old(gray), color, gray) && old(dead) <= dead
        invariant marked ==> Whites(color) < Whites(old(color))
        invariant !marked ==> MarkedSet(objs, color) == MarkedSet(objs, old(color)) && gray == old(gray)
      {
        ghost var c, g, d := color, gray, dead;
        var clears, ww, any := EphemeronEntry(h, NodeAt(i, n, inv), m);
        OneMoreEntry(objs, c, color, d, dead, h, i, inv, hasclears, clears, hasclears || clears, hasww, ww, hasww ||
          ww);
        if !marked && !any { OneMoreSettled(objs, c, color, h, i, inv, MarkedSet(objs, color)); }
        ProgressTwice(old(color), old(gray), c, g, color, gray);
        MarksTwice(c0, c, color);
        hasclears, hasww, marked := hasclears || clears, hasww || ww, marked || any;
        i := i + 1;
      }
      SlotsStay(c0, color, objs[h].slots);
      if !marked { SettledVisited(objs, color, h, inv); }
    }

    /** The array part of an ephemeron table is strong. */
    method VisitArray(h: Id, ghost m: set<Id>) returns (marked: bool)
      requires Marking({}, m) && h in objs && h in m && objs[h].kind == Table(Ephemeron)
      modifies `color, `gray
      ensures Marking({}, m) && Progress(old(color), old(gray), color, gray)
      ensures SlotsMarked(color, objs[h].slots)
      ensures marked ==> Whites(color) < Whites(old(color))
      ensures !marked ==> color == old(color) && gray == old(gray)
    {
      hide Tricolor, Lists;
      marked := false;
      ReadsAt(objs, color, dead, currentwhite, Lists(), {}, m, h);
      Reads(objs, color, dead, currentwhite, Lists(), {}, m);
      SlotsBelong(objs, m, h);
      var i := 0;
      while i < |objs[h].slots|
        invariant 0 <= i <= |objs[h].slots| && Marking({}, m) && MarkedUpTo(color, objs[h].slots, i)
        invariant Progress(old(color), old(gray), color, gray) && color.Keys == objs.Keys
        invariant marked ==> Whites(color) < Whites(old(color))
        invariant !marked ==> color == old(color) && gray == old(gray)
      {
        var v := objs[h].slots[i];
        ghost var c, g := color, gray;
        if v.Ref? && color[v.id].White? {
          marked := true;
          Mark(v.id, {}, m);
        }
        OneMoreMarked(c, color, objs[h].slots, i);
        ProgressTwice(old(color), old(gray), c, g, color, gray);
        i := i + 1;
      }
    }

    ghost predicate ListsOk()
      reads this
    {
      MarkLists(objs, color, dead, phase, grayagain, weak, allweak, ephemeron)
    }

    method TraverseEphemeron(h: Id, inv: bool, ghost m: set<Id>) returns (marked: bool)
      requires Marking({}, m) && ListsOk() && h in objs && h in m && objs[h].kind == Table(Ephemeron)
      requires IsMarked(color, objs[h].meta) && aside != [] && aside[0] == h
      modifies `color, `gray, `dead, `grayagain, `ephemeron, `allweak, `aside
      ensures Longer(old(allweak), allweak)
      ensures Marking({}, m) && ListsOk() && aside == old(aside[1..])
      ensures Grows(old(color), color) && old(dead) <= dead && Whites(color) <= Whites(old(color))
      ensures marked ==> Whites(color) < Whites(old(color))
      ensures !marked ==> MarkedSet(objs, color) == MarkedSet(objs, old(color)) && gray == old(gray)
      ensures ephemeron == old(ephemeron) ||
        (ephemeron == [h] + old(ephemeron) && (!marked ==> Settled(objs, color, h)))
    {
      hide Tricolor, Lists, EntriesUpTo, EntryDone, Settled, SlotsMarked, MarkedSet, MarkLists, EphemeronDone,
        AllWeakDone, AllMarked;
      ghost var c, g, d := color, gray, dead;
      var hasclears, hasww;
      hasclears, hasww, marked := VisitEphemeron(h, inv, m);
      ProgressKeeps(c, g, color, gray, objs[h].meta);
      EphemeronVisited(objs, color, dead, h, inv, hasclears, hasww);
      ListsStay(objs, c, color, d, dead, phase, grayagain, weak, allweak, ephemeron);
      if phase != Atomic {
        ListedAgain(objs, color, dead, phase, grayagain, weak, allweak, ephemeron, h);
        LinkGrayAgain(h);
      } else if hasww {
        ListedEphemeron(objs, color, dead, phase, grayagain, weak, allweak, ephemeron, h);
        LinkEphemeron(h);
      } else if hasclears {
        ListedAllWeak(objs, color, dead, phase, grayagain, weak, allweak, ephemeron, h);
        LinkAllWeak(h);
      } else {
        BlackenTable(h, m);
      }
    }

    method BlackenTable(h: Id, ghost m: set<Id>)
      requires Marking({}, m) && ListsOk() && h in objs && objs[h].kind.Table? && AllMarked(objs, color, dead, h)
      requires aside != [] && aside[0] == h
      modifies `color, `aside
      ensures Marking({}, m) && ListsOk() && aside == old(aside[1..])
      ensures Grows(old(color), color) && Whites(color) == Whites(old(color)) &&
        MarkedSet(objs, color) == MarkedSet(objs, old(color))
    {
      hide Tricolor, MarkLists;
      ghost var c, l := color, Lists();
      assert aside == [h] + aside[1..];
      aside := aside[1..];
      assert l == Lists() + multiset{h};
      TurnBlack(objs, c, dead, currentwhite, Lists(), m, h);
      color := color[h := Black];
      ListsStay(objs, c, color, dead, dead, phase, grayagain, weak, allweak, ephemeron);
    }

    // ---- One gray object ----

    method VisitHolder(o: Id, ghost m: set<Id>)
      requires Marking({o}, m) && ListsOk() && o in objs && o in m && objs[o].kind.Holder?
      modifies `color, `gray, `dead
      ensures Marking({}, m) && ListsOk() && Advance(old(color), old(gray), color, gray) && old(dead) <= dead
    {
      hide Tricolor, Lists, MarkLists, SlotsMarked, AllMarked;
      ghost var c0, g0 := color, gray;
      ReadsAt(objs, color, dead, currentwhite, Lists(), {o}, m, o);
      Reads(objs, color, dead, currentwhite, Lists(), {o}, m);
      MetaBelongs(objs, m, o);
      SlotsBelong(objs, m, o);
      MarkValue(objs[o].meta, {o}, m);
      ghost var c, g := color, gray;
      MarkSlots(objs[o].slots, {o}, m);
      ProgressKeeps(c, g, color, gray, objs[o].meta);
      ProgressTwice(c0, g0, c, g, color, gray);
      ProgressAdvance(c0, g0, color, gray);
      HolderVisited(objs, color, dead, o);
      VisitedAlone(objs, color, dead, currentwhite, Lists(), m, o);
      ListsStay(objs, c0, color, dead, dead, phase, grayagain, weak, allweak, ephemeron);
    }

    method VisitStrongTable(o: Id, ghost m: set<Id>)
      requires Marking({o}, m) && ListsOk() && o in objs && o in m && objs[o].kind == Table(Strong) &&
        IsMarked(color, objs[o].meta)
      modifies `color, `gray, `dead
      ensures Marking({}, m) && ListsOk() && Advance(old(color), old(gray), color, gray) && old(dead) <= dead
    {
      hide Tricolor, Lists, MarkLists, SlotsMarked, AllMarked;
      ghost var c0, g0, d0 := color, gray, dead;
      TraverseStrongTable(o, {o}, m);
      ProgressKeeps(c0, g0, color, gray, objs[o].meta);
      ProgressAdvance(c0, g0, color, gray);
      TableVisited(objs, color, dead, o);
      VisitedAlone(objs, color, dead, currentwhite, Lists(), m, o);
      ListsStay(objs, c0, color, d0, dead, phase, grayagain, weak, allweak, ephemeron);
    }

    /** Black to gray: the object is kept for later. */
    method KeepGray(o: Id, ghost m: set<Id>)
      requires Marking({o}, m) && ListsOk() && o in objs && o in color && color[o] == Black
      requires !objs[o].kind.Leaf? && !objs[o].kind.Cell?
      modifies `color, `aside
      ensures Marking({}, m) && ListsOk() && aside == [o] + old(aside) && color == old(color)[o := Gray]
      ensures Grows(old(color), color) && Whites(color) == Whites(old(color)) &&
        MarkedSet(objs, color) == MarkedSet(objs, old(color))
    {
      hide Tricolor, MarkLists;
      TurnGray(objs, color, dead, currentwhite, Lists(), m, o);
      ghost var l := Lists();
      aside := [o] + aside;
      assert Lists() == l + multiset{o};
      ListsStay(objs, color, color[o := Gray], dead, dead, phase, grayagain, weak, allweak, ephemeron);
      color := color[o := Gray];
    }

    method VisitThread(o: Id, ghost m: set<Id>)
      requires Marking({o}, m) && ListsOk() && o in objs && o in m && objs[o].kind.Thread? && o in color &&
        color[o] == Black
      modifies `color, `gray, `grayagain, `aside
      ensures Marking({}, m) && ListsOk() && aside == old(aside) && Advance(old(color), old(gray), color, gray)
    {
      hide Tricolor, Lists, MarkLists, SlotsMarked, AllMarked;
      ghost var c0, g0, again := color, gray, grayagain;
      ReadsAt(objs, color, dead, currentwhite, Lists(), {o}, m, o);
      Reads(objs, color, dead, currentwhite, Lists(), {o}, m);
      SlotsBelong(objs, m, o);
      KeepGray(o, m);
      ghost var c, g := color, gray;
      LinkGrayAgain(o);
      MarkSlots(objs[o].slots, {}, m);
      ProgressKeeps(c, g, color, gray, objs[o].meta);
      ProgressAdvance(c, g, color, gray);
      AdvanceTwice(c0, g0, c, g, color, gray);
      HolderVisited(objs, color, dead, o);
      ListsStay(objs, c, color, dead, dead, phase, again, weak, allweak, ephemeron);
      ListedAgain(objs, color, dead, phase, again, weak, allweak, ephemeron, o);
    }

    /** Tables are visited according to their mode; weak ones stay gray. */
    method VisitTable(o: Id, ghost m: set<Id>)
      requires Marking({o}, m) && ListsOk() && o in objs && o in m && objs[o].kind.Table? && o in color &&
        color[o] == Black
      modifies `color, `gray, `dead, `grayagain, `weak, `allweak, `ephemeron, `aside
      ensures Longer(old(allweak), allweak)
      ensures Marking({}, m) && ListsOk() && aside == old(aside) && Advance(old(color), old(gray), color, gray) &&
        old(dead) <= dead
      ensures objs[o].kind == Table(AllWeak) ==> o in allweak
    {
      hide Tricolor, Lists, MarkLists, SlotsMarked, AllMarked;
      ghost var c0, g0 := color, gray;
      ReadsAt(objs, color, dead, currentwhite, Lists(), {o}, m, o);
      Reads(objs, color, dead, currentwhite, Lists(), {o}, m);
      MetaBelongs(objs, m, o);
      MarkValue(objs[o].meta, {o}, m);
      ProgressAdvance(c0, g0, color, gray);
      ListsStay(objs, c0, color, dead, dead, phase, grayagain, weak, allweak, ephemeron);
      ghost var c, g := color, gray;
      if objs[o].kind.mode == Strong {
        VisitStrongTable(o, m);
      } else {
        BlackStays(c0, g0, c, g, o);
        VisitWeakTable(o, m);
      }
      AdvanceChain(c0, g0, c, g, color, gray);
    }

    method VisitWeakTable(o: Id, ghost m: set<Id>)
      requires Marking({o}, m) && ListsOk() && o in objs && o in m && objs[o].kind.Table? && objs[o].kind.mode != Strong
      requires o in color && color[o] == Black && IsMarked(color, objs[o].meta)
      modifies `color, `gray, `dead, `grayagain, `weak, `allweak, `ephemeron, `aside
      ensures Longer(old(allweak), allweak)
      ensures Marking({}, m) && ListsOk() && aside == old(aside) && Advance(old(color), old(gray), color, gray) &&
        old(dead) <= dead
      ensures objs[o].kind.mode == AllWeak ==> o in allweak
    {
      hide Tricolor, Lists, MarkLists, SlotsMarked, AllMarked, MarkedSet;
      ghost var c0, g0 := color, gray;
      KeepGray(o, m);
      MarkedStays(c0, color, objs[o].meta);
      ghost var c, g, d := color, gray, dead;
      if objs[o].kind.mode == WeakValues {
        PlaceWeakValues(o, m);
      } else if objs[o].kind.mode == Ephemeron {
        var marked := TraverseEphemeron(o, false, m);
        UnmarkedAdvance(objs, c, g, color, gray, marked);
      } else {
        AllWeakAtOnce(objs, color, dead, o);
        ListedAllWeak(objs, color, dead, phase, grayagain, weak, allweak, ephemeron, o);
        LinkAllWeak(o);
      }
      AdvanceTwice(c0, g0, c, g, color, gray);
    }

    method PlaceWeakValues(o: Id, ghost m: set<Id>)
      requires Marking({}, m) && ListsOk() && o in objs && o in m && objs[o].kind == Table(WeakValues)
      requires IsMarked(color, objs[o].meta) && aside != [] && aside[0] == o
      modifies `color, `gray, `dead, `grayagain, `weak, `aside
      ensures Marking({}, m) && ListsOk() && aside == old(aside[1..]) &&
        Advance(old(color), old(gray), color, gray) && old(dead) <= dead
    {
      hide Tricolor, Lists, MarkLists, AllMarked, WeakDone;
      ghost var c, g, d, again, wk := color, gray, dead, grayagain, weak;
      TraverseWeakValues(o, m);
      ProgressAdvance(c, g, color, gray);
      ListsStay(objs, c, color, d, dead, phase, again, wk, allweak, ephemeron);
      if weak == wk {
        ListedAgain(objs, color, dead, phase, again, wk, allweak, ephemeron, o);
      } else {
        ListedWeak(objs, color, dead, phase, again, wk, allweak, ephemeron, o);
      }
    }

    /** Visits the first object of the gray list. */
    method PropagateMark(ghost m: set<Id>)
      requires Marking({}, m) && ListsOk() && gray != []
      modifies `color, `gray, `dead, `grayagain, `weak, `allweak, `ephemeron, `aside
      ensures Longer(old(allweak), allweak)
      ensures Marking({}, m) && ListsOk() && aside == old(aside) && Grows(old(color), color) && old(dead) <= dead
      ensures Whites(color) < Whites(old(color)) || (Whites(color) == Whites(old(color)) && gray == old(gray[1..]))
      ensures old(gray[0]) in objs && objs[old(gray[0])].kind == Table(AllWeak) ==> old(gray[0]) in allweak
    {
      hide Tricolor, Lists, MarkLists;
      ghost var c0 := color;
      var o := PopGray(m);
      ghost var c, g := color, gray;
      if objs[o].kind.Table? {
        VisitTable(o, m);
      } else if objs[o].kind.Thread? {
        VisitThread(o, m);
      } else {
        VisitHolder(o, m);
      }
      AdvanceChain(c0, g, c, g, color, gray);
    }

    /** A listed table waits for nothing: it is not visited again. */
    lemma OnlyInGray()
      requires GrayListed(color, Lists()) && gray != []
      ensures gray[0] !in allweak
    {
      var others := multiset(grayagain) + multiset(weak) + multiset(allweak) + multiset(ephemeron) + multiset(aside);
      assert Lists() == multiset(gray) + others;
      FirstOnly(color, Lists(), gray, others, gray[0]);
      assert multiset(allweak)[gray[0]] <= others[gray[0]];
    }

    method PopGray(ghost m: set<Id>) returns (o: Id)
      requires Marking({}, m) && ListsOk() && gray != []
      modifies `color, `gray
      ensures Marking({o}, m) && ListsOk() && gray == old(gray[1..]) && o == old(gray[0])
      ensures Grows(old(color), color) && Whites(color) == Whites(old(color))
      ensures o in objs && o in m && o in color && color[o] == Black && !objs[o].kind.Leaf? && !objs[o].kind.Cell?
      ensures o !in allweak
    {
      hide MarkLists, Tricolor, Lists, Grows, Whites;
      o := gray[0];
      InHead(m);
      DropGray();
      Popped(objs, color, dead, currentwhite, Lists(), m, o);
      ListsStay(objs, color, color[o := Black], dead, dead, phase, grayagain, weak, allweak, ephemeron);
      color := color[o := Black];
    }

    lemma InHead(m: set<Id>)
      requires Marking({}, m) && gray != []
      ensures gray[0] !in allweak
    {
      hide Sound, OneWhite, Closed, Within, BlacksOk, KindsOk, Lists;
      OnlyInGray();
    }

    method DropGray()
      requires gray != []
      modifies `gray
      ensures gray == old(gray[1..]) && old(Lists()) == Lists() + multiset{old(gray[0])}
    {
      assert gray == [gray[0]] + gray[1..];
      gray := gray[1..];
    }

    method PropagateAll(ghost m: set<Id>)
      requires Marking({}, m) && ListsOk()
      modifies `color, `gray, `dead, `grayagain, `weak, `allweak, `ephemeron, `aside
      ensures Longer(old(allweak), allweak)
      ensures Marking({}, m) && ListsOk() && aside == old(aside) && Grows(old(color), color) && old(dead) <= dead
      ensures gray == [] && Whites(color) <= Whites(old(color))
    {
      hide Tricolor, Lists, MarkLists, Longer;
      LongerSame(allweak);
      while gray != []
        invariant Marking({}, m) && ListsOk() && aside == old(aside) && Grows(old(color), color) && old(dead) <= dead
        invariant Whites(color) <= Whites(old(color)) && Longer(old(allweak), allweak)
        decreases Whites(color), |gray|
      {
        ghost var c, listed := color, allweak;
        PropagateMark(m);
        LongerTwice(old(allweak), listed, allweak);
        GrowsTwice(old(color), c, color);
      }
    }

    // ---- Ephemeron convergence ----

    /** One pass over the ephemeron tables; the list is rebuilt on the way. */
    method ConvergePass(dir: bool, ghost m: set<Id>) returns (changed: bool)
      requires Marking({}, m) && ListsOk() && phase == Atomic && gray == [] && aside == []
      modifies `color, `gray, `dead, `grayagain, `weak, `allweak, `ephemeron, `aside
      ensures Longer(old(allweak), allweak)
      ensures Marking({}, m) && ListsOk() && gray == [] && aside == [] && Grows(old(color), color) && old(dead) <= dead
      ensures changed ==> Whites(color) < Whites(old(color))
      ensures !changed ==> Whites(color) <= Whites(old(color)) && forall h :: h in ephemeron ==> Settled(objs, color, h)
    {
      hide Tricolor, Lists, MarkLists, Settled, EphemeronDone, Longer;
      var next := TakeEphemerons(m);
      changed := false;
      LongerSame(allweak);
      while next != []
        invariant Marking({}, m) && ListsOk() && gray == [] && aside == next && Grows(old(color), color) &&
          old(dead) <= dead
        invariant Longer(old(allweak), allweak) && forall h :: h in next ==> EphemeronDone(objs, color, dead, h)
        invariant Whites(color) <= Whites(old(color)) && (changed ==> Whites(color) < Whites(old(color)))
        invariant !changed ==> forall h :: h in ephemeron ==> Settled(objs, color, h)
        decreases |next|
      {
        var w := next[0];
        ghost var c, d, eph, listed := color, dead, ephemeron, allweak;
        EphemeronReads(objs, color, dead, w);
        Reads(objs, color, dead, currentwhite, Lists(), {}, m);
        AsideListed();
        AsideInClosed(objs, color, dead, currentwhite, Lists(), m, aside, w);
        var marked := TraverseEphemeron(w, dir, m);
        ghost var c1, listed1 := color, allweak;
        LongerTwice(old(allweak), listed, listed1);
        next := next[1..];
        if marked {
          PropagateAll(m);
          LongerTwice(old(allweak), listed1, allweak);
          changed := true;
        } else if !changed {
          AllSettledStay(objs, c, color, eph);
        }
        GrowsTwice(c, c1, color);
        GrowsTwice(old(color), c, color);
        ManyEphemeronsStay(objs, c, color, d, dead, next);
      }
    }

    lemma AsideListed()
      ensures multiset(aside) <= Lists()
    {
    }

    method TakeEphemerons(ghost m: set<Id>) returns (next: seq<Id>)
      requires Marking({}, m) && ListsOk() && phase == Atomic && aside == []
      modifies `ephemeron, `aside
      ensures Marking({}, m) && ListsOk() && aside == next && ephemeron == []
      ensures forall h :: h in next ==> EphemeronDone(objs, color, dead, h)
    {
      hide Tricolor, EphemeronDone;
      ghost var l := Lists();
      next := ephemeron;
      ephemeron := [];
      aside := next;
      assert Lists() == l;
    }

    method ConvergeEphemerons(ghost m: set<Id>)
      requires Marking({}, m) && ListsOk() && phase == Atomic && gray == [] && aside == []
      modifies `color, `gray, `dead, `grayagain, `weak, `allweak, `ephemeron, `aside
      ensures Longer(old(allweak), allweak)
      ensures Marking({}, m) && ListsOk() && gray == [] && aside == [] && Grows(old(color), color) && old(dead) <= dead
      ensures forall h :: h in ephemeron ==> Settled(objs, color, h)
    {
      hide Tricolor, Lists, MarkLists, Settled, Longer;
      var changed, dir := true, false;
      LongerSame(allweak);
      while changed
        invariant Longer(old(allweak), allweak)
        invariant Marking({}, m) && ListsOk() && gray == [] && aside == [] && Grows(old(color), color) &&
          old(dead) <= dead
        invariant !changed ==> forall h :: h in ephemeron ==> Settled(objs, color, h)
        decreases Whites(color), changed
      {
        ghost var c, listed := color, allweak;
        changed := ConvergePass(dir, m);
        LongerTwice(old(allweak), listed, allweak);
        GrowsTwice(old(color), c, color);
        dir := !dir;
      }
    }

    // ---- The atomic phase ----

    /** The roots, as far as a closed set is concerned. */
    ghost predicate RootsIn(m: set<Id>)
      reads `objs, `main, `globals
    {
      main in objs && Belongs(objs, m, Ref(main)) &&
      forall i :: 0 <= i < |globals| ==> Exists(objs, globals[i]) && Belongs(objs, m, globals[i])
    }

    ghost predicate RootsMarked()
      reads `color, `main, `globals
    {
      IsMarked(color, Ref(main)) && SlotsMarked(color, globals)
    }

    method MarkRoots(ghost m: set<Id>)
      requires Marking({}, m) && ListsOk() && RootsIn(m)
      modifies `color, `gray
      ensures Marking({}, m) && ListsOk() && RootsMarked() && Grows(old(color), color)
      ensures OneTable(old(color)) ==> gray == [globals[0].id, main] + old(gray)
    {
      hide Tricolor, Lists, MarkLists, SlotsMarked;
      ghost var c0, g0 := color, gray;
      MarkValue(Ref(main), {}, m);
      ghost var c, g := color, gray;
      MarkSlots(globals, {}, m);
      ProgressKeeps(c, g, color, gray, Ref(main));
      ProgressKeeps(c0, g0, c, g, Ref(main));
      GrowsTwice(c0, c, color);
      ListsStay(objs, c0, color, dead, dead, phase, grayagain, weak, allweak, ephemeron);
    }

    /** The lists of the propagation phase, as the atomic phase takes them over. */
    method StartAtomic(ghost m: set<Id>) returns (again: seq<Id>)
      requires Marking({}, m) && ListsOk() && phase != Atomic && aside == []
      modifies `phase, `grayagain, `aside
      ensures Marking({}, m) && ListsOk() && phase == Atomic && aside == again && grayagain == []
    {
      hide Tricolor, MarkLists;
      AtomicStarts(objs, color, dead, phase, grayagain, weak, allweak, ephemeron);
      ghost var l := Lists();
      again := grayagain;
      grayagain := [];
      aside := again;
      assert Lists() == l;
      phase := Atomic;
    }

    method TakeGrayAgain(again: seq<Id>, ghost m: set<Id>)
      requires Marking({}, m) && ListsOk() && gray == [] && aside == again
      modifies `gray, `aside
      ensures Marking({}, m) && ListsOk() && gray == again && aside == []
    {
      hide Tricolor, MarkLists;
      ghost var l := Lists();
      gray := again;
      aside := [];
      assert Lists() == l;
    }

    /** All marking of the atomic phase: what is strongly reachable from the roots and from what
        was already marked, and nothing else. */
    method MarkAtomic(ghost m: set<Id>)
      requires Marking({}, m) && ListsOk() && phase != Atomic && aside == [] && RootsIn(m)
      modifies `phase, `color, `gray, `dead, `grayagain, `weak, `allweak, `ephemeron, `aside
      ensures Longer(old(allweak), allweak)
      ensures Marking({}, m) && ListsOk() && phase == Atomic && gray == [] && aside == [] && RootsMarked()
      ensures Grows(old(color), color) && old(dead) <= dead
      ensures Closed(objs, MarkedSet(objs, color)) && MarkedSet(objs, color) <= m
      ensures forall h :: h in ephemeron ==> Settled(objs, color, h)
    {
      hide Tricolor, Lists, MarkLists, SlotsMarked, Settled, Closed, Longer;
      var again := StartAtomic(m);
      MarkRoots(m);
      ghost var c := color;
      PropagateAll(m);
      GrowsTwice(old(color), c, color);
      TakeGrayAgain(again, m);
      ghost var c', listed := color, allweak;
      PropagateAll(m);
      LongerTwice(old(allweak), listed, allweak);
      ghost var listed' := allweak;
      GrowsTwice(c, c', color);
      GrowsTwice(old(color), c, color);
      ghost var c'' := color;
      ConvergeEphemerons(m);
      LongerTwice(old(allweak), listed', allweak);
      GrowsTwice(c, c'', color);
      GrowsTwice(old(color), c'', color);
      RootsStay(c, color, main, globals);
      AtomicLists();
      MarkedIsClosed(objs, color, dead, currentwhite, Lists(), m, grayagain, weak, allweak, ephemeron);
    }

    lemma AtomicLists()
      requires gray == [] && aside == []
      ensures Lists() == multiset(grayagain) + multiset(weak) + multiset(allweak) + multiset(ephemeron)
    {
    }

    // ---- Clearing weak tables ----

    method EmptySlot(h: Id, i: nat, ghost m: set<Id>)
      requires Marking({}, m) && h in objs && objs[h].kind.Table? && i < |objs[h].slots|
      modifies `objs
      ensures Marking({}, m) && objs == old(objs)[h := WithoutSlot(old(objs)[h], i)]
    {
      hide Tricolor, Lists;
      SlotEmptied(objs, color, dead, currentwhite, Lists(), m, h, i);
      objs := objs[h := WithoutSlot(objs[h], i)];
    }

    method EmptyNode(h: Id, i: nat, ghost m: set<Id>)
      requires Marking({}, m) && h in objs && objs[h].kind.Table? && i < |objs[h].nodes|
      modifies `objs
      ensures Marking({}, m) && objs == old(objs)[h := WithoutNode(old(objs)[h], i)]
    {
      hide Tricolor, Lists;
      NodeEmptied(objs, color, dead, currentwhite, Lists(), m, h, i);
      objs := objs[h := WithoutNode(objs[h], i)];
    }

    method ClearSlot(h: Id, i: nat, ghost m: set<Id>)
      requires Marking({}, m) && h in objs && objs[h].kind.Table? && i < |objs[h].slots|
      modifies `objs, `color
      ensures Marking({}, m) && Trims(old(objs), old(color), old(dead), objs, color, dead, h)
      ensures Pruned(old(objs), objs, MarkedSet(old(objs), old(color)))
      ensures i < |objs[h].slots| && IsMarked(color, objs[h].slots[i])
    {
      hide Tricolor, Lists, Pruned, PrunedObject, Marks, Shaped, Exists;
      PrunedNothing(objs, MarkedSet(objs, color));
      ReadsAt(objs, color, dead, currentwhite, Lists(), {}, m, h);
      ghost var g := gray;
      var cleared := IsCleared(objs[h].slots[i], {}, m);
      if cleared {
        OutsideMarked(objs, color, objs[h].slots[i]);
        PrunedSlot(objs, MarkedSet(objs, color), h, i);
        EmptySlot(h, i, m);
      }
    }

    method ClearNodeValue(h: Id, i: nat, ghost m: set<Id>)
      requires Marking({}, m) && h in objs && objs[h].kind.Table? && i < |objs[h].nodes|
      modifies `objs, `color, `dead
      ensures Marking({}, m) && Trims(old(objs), old(color), old(dead), objs, color, dead, h)
      ensures Pruned(old(objs), objs, MarkedSet(old(objs), old(color)))
      ensures i < |objs[h].nodes| && IsMarked(color, objs[h].nodes[i].val)
    {
      hide Tricolor, Lists, Trims, MarkedSet, Marks, Pruned, Belongs;
      PrunedNothing(objs, MarkedSet(objs, color));
      ghost var heap, c, d := objs, color, dead;
      ReadsAt(objs, color, dead, currentwhite, Lists(), {}, m, h);
      var cleared := IsCleared(objs[h].nodes[i].val, {}, m);
      if cleared {
        OutsideMarked(objs, color, objs[h].nodes[i].val);
        PrunedNode(objs, MarkedSet(objs, color), h, i);
        EmptyNode(h, i, m);
      }
      if objs[h].nodes[i].val == Empty {
        ClearKey(h, i, {}, m);
      }
      NodeTrimmed(heap, c, d, objs, color, dead, h, i);
    }

    method ClearNodeKey(h: Id, i: nat, ghost m: set<Id>)
      requires Marking({}, m) && h in objs && objs[h].kind.Table? && i < |objs[h].nodes|
      modifies `objs, `color, `dead
      ensures Marking({}, m) && Trims(old(objs), old(color), old(dead), objs, color, dead, h)
      ensures Pruned(old(objs), objs, MarkedSet(old(objs), old(color)))
      ensures i < |objs[h].nodes| && KeyMarked(color, dead, h, i, objs[h].nodes[i])
    {
      hide Tricolor, Lists, Trims, MarkedSet, Marks, Pruned, Belongs;
      PrunedNothing(objs, MarkedSet(objs, color));
      ghost var heap, c, d := objs, color, dead;
      ReadsAt(objs, color, dead, currentwhite, Lists(), {}, m, h);
      MarksNothing(objs, color);
      if (h, i as int) !in dead {
        var cleared := IsCleared(objs[h].nodes[i].key, {}, m);
        if cleared {
          OutsideMarked(objs, color, objs[h].nodes[i].key);
          PrunedNode(objs, MarkedSet(objs, color), h, i);
          EmptyNode(h, i, m);
        }
      }
      if objs[h].nodes[i].val == Empty {
        ClearKey(h, i, {}, m);
      }
      NodeTrimmed(heap, c, d, objs, color, dead, h, i);
    }

    method ClearArray(h: Id, ghost m: set<Id>)
      requires Marking({}, m) && h in objs && objs[h].kind.Table?
      modifies `objs, `color
      ensures Pruned(old(objs), objs, MarkedSet(old(objs), old(color)))
      ensures Marking({}, m) && Trims(old(objs), old(color), old(dead), objs, color, dead, h)
      ensures SlotsMarked(color, objs[h].slots)
    {
      hide Tricolor, Lists, Trims, MarkedSet, Pruned, Marks;
      PrunedNothing(objs, MarkedSet(objs, color));
      TrimsNothing(objs, color, dead, h);
      var i := 0;
      while i < |objs[h].slots|
        invariant Pruned(old(objs), objs, MarkedSet(old(objs), old(color)))
        invariant Marking({}, m) && Trims(old(objs), old(color), old(dead), objs, color, dead, h)
        invariant h in objs && objs[h].kind.Table? && 0 <= i <= |objs[h].slots| && MarkedUpTo(color, objs[h].slots, i)
        decreases |objs[h].slots| - i
      {
        ghost var heap, c := objs, color;
        ClearSlot(h, i, m);
        TrimRead(old(objs), old(color), old(dead), heap, c, dead, h);
        PrunedTwice(old(objs), heap, objs, MarkedSet(old(objs), old(color)));
        TrimsTwice(old(objs), old(color), old(dead), heap, c, dead, objs, color, dead, h);
        SlotsTrimmed(heap, c, dead, objs, color, dead, h, i);
        i := i + 1;
      }
    }

    /** Removes the unmarked values of a weak table. */
    method ClearTableValues(h: Id, ghost m: set<Id>)
      requires Marking({}, m) && h in objs && objs[h].kind.Table?
      modifies `objs, `color, `dead
      ensures Pruned(old(objs), objs, MarkedSet(old(objs), old(color)))
      ensures Marking({}, m) && Trims(old(objs), old(color), old(dead), objs, color, dead, h)
      ensures ValuesMarked(objs, color, h)
    {
      hide Tricolor, Lists, Trims, MarkedSet, ValuesUpTo, Pruned, Marks;
      ClearArray(h, m);
      TrimsReads(old(objs), old(color), old(dead), objs, color, dead, h);
      var i := 0;
      NoValues(objs, color, h);
      while i < |objs[h].nodes|
        invariant Pruned(old(objs), objs, MarkedSet(old(objs), old(color)))
        invariant Marking({}, m) && Trims(old(objs), old(color), old(dead), objs, color, dead, h)
        invariant h in objs && objs[h].kind.Table? && 0 <= i <= |objs[h].nodes| && SlotsMarked(color, objs[h].slots)
        invariant ValuesUpTo(objs, color, h, i)
        decreases |objs[h].nodes| - i
      {
        hide SlotsMarked;
        ghost var heap, c, d := objs, color, dead;
        ClearNodeValue(h, i, m);
        TrimRead(old(objs), old(color), old(dead), heap, c, d, h);
        PrunedTwice(old(objs), heap, objs, MarkedSet(old(objs), old(color)));
        TrimsTwice(old(objs), old(color), old(dead), heap, c, d, objs, color, dead, h);
        AllSlotsTrimmed(heap, c, d, objs, color, dead, h);
        ValuesTrimmed(heap, c, d, objs, color, dead, h, i);
        i := i + 1;
      }
      ValuesAll(objs, color, h);
    }

    /** Removes the entries of a weak table whose key is unmarked. */
    method ClearTableKeys(h: Id, ghost m: set<Id>)
      requires Marking({}, m) && h in objs && objs[h].kind.Table?
      modifies `objs, `color, `dead
      ensures Pruned(old(objs), objs, MarkedSet(old(objs), old(color)))
      ensures Marking({}, m) && Trims(old(objs), old(color), old(dead), objs, color, dead, h)
      ensures KeysMarked(objs, color, dead, h)
    {
      hide Tricolor, Lists, Trims, MarkedSet, KeysUpTo, Pruned, Marks;
      PrunedNothing(objs, MarkedSet(objs, color));
      TrimsNothing(objs, color, dead, h);
      var i := 0;
      NoKeys(objs, color, dead, h);
      while i < |objs[h].nodes|
        invariant Pruned(old(objs), objs, MarkedSet(old(objs), old(color)))
        invariant Marking({}, m) && Trims(old(objs), old(color), old(dead), objs, color, dead, h)
        invariant h in objs && objs[h].kind.Table? && 0 <= i <= |objs[h].nodes| && KeysUpTo(objs, color, dead, h, i)
        decreases |objs[h].nodes| - i
      {
        ghost var heap, c, d := objs, color, dead;
        ClearNodeKey(h, i, m);
        TrimRead(old(objs), old(color), old(dead), heap, c, d, h);
        PrunedTwice(old(objs), heap, objs, MarkedSet(old(objs), old(color)));
        TrimsTwice(old(objs), old(color), old(dead), heap, c, d, objs, color, dead, h);
        KeysTrimmed(heap, c, d, objs, color, dead, h, i);
        i := i + 1;
      }
      KeysAll(objs, color, dead, h);
    }

    ghost predicate Tables(l: seq<Id>)
      reads `objs
    {
      forall h :: h in l ==> h in objs && objs[h].kind.Table?
    }

    method ClearByValues(l: seq<Id>, ghost m: set<Id>)
      requires Marking({}, m) && Tables(l)
      modifies `objs, `color, `dead
      ensures Pruned(old(objs), objs, MarkedSet(old(objs), old(color)))
      ensures Marking({}, m) && FactsKept(old(objs), old(color), old(dead), objs, color, dead)
      ensures forall h :: h in l ==> ValuesMarked(objs, color, h)
    {
      hide Tricolor, Lists, Pruned, MarkedSet, Marks, FactsKept, ValuesMarked;
      PrunedNothing(objs, MarkedSet(objs, color));
      FactsSame(objs, color, dead);
      var i := 0;
      while i < |l|
        invariant 0 <= i <= |l| && Marking({}, m) && FactsKept(old(objs), old(color), old(dead), objs, color, dead)
        invariant Pruned(old(objs), objs, MarkedSet(old(objs), old(color)))
        invariant forall h :: h in l[..i] ==> ValuesMarked(objs, color, h)
      {
        ghost var heap, c, d := objs, color, dead;
        KeptKinds(old(objs), old(color), old(dead), objs, color, dead, l[i]);
        ClearTableValues(l[i], m);
        TrimsFacts(heap, c, d, objs, color, dead, l[i]);
        FactsRead(old(objs), old(color), old(dead), heap, c, d);
        PrunedTwice(old(objs), heap, objs, MarkedSet(old(objs), old(color)));
        FactsTwice(old(objs), old(color), old(dead), heap, c, d, objs, color, dead);
        forall h | h in l[..i + 1] ensures ValuesMarked(objs, color, h) {
          if h in l[..i] { KeptValues(heap, c, d, objs, color, dead, h); }
        }
        i := i + 1;
      }
      assert l[..i] == l;
    }

    method ClearByKeys(l: seq<Id>, ghost m: set<Id>)
      requires Marking({}, m) && Tables(l)
      modifies `objs, `color, `dead
      ensures Pruned(old(objs), objs, MarkedSet(old(objs), old(color)))
      ensures Marking({}, m) && FactsKept(old(objs), old(color), old(dead), objs, color, dead)
      ensures forall h :: h in l ==> KeysMarked(objs, color, dead, h)
    {
      hide Tricolor, Lists, Pruned, MarkedSet, Marks, FactsKept, KeysMarked;
      PrunedNothing(objs, MarkedSet(objs, color));
      FactsSame(objs, color, dead);
      var i := 0;
      while i < |l|
        invariant 0 <= i <= |l| && Marking({}, m) && FactsKept(old(objs), old(color), old(dead), objs, color, dead)
        invariant Pruned(old(objs), objs, MarkedSet(old(objs), old(color)))
        invariant forall h :: h in l[..i] ==> KeysMarked(objs, color, dead, h)
      {
        ghost var heap, c, d := objs, color, dead;
        KeptKinds(old(objs), old(color), old(dead), objs, color, dead, l[i]);
        ClearTableKeys(l[i], m);
        TrimsFacts(heap, c, d, objs, color, dead, l[i]);
        FactsRead(old(objs), old(color), old(dead), heap, c, d);
        PrunedTwice(old(objs), heap, objs, MarkedSet(old(objs), old(color)));
        FactsTwice(old(objs), old(color), old(dead), heap, c, d, objs, color, dead);
        forall h | h in l[..i + 1] ensures KeysMarked(objs, color, dead, h) {
          if h in l[..i] { KeptKeys(heap, c, d, objs, color, dead, h); }
        }
        i := i + 1;
      }
      assert l[..i] == l;
    }

    /** Every marked object, weak tables included, refers to marked objects only. */
    ghost predicate NothingDangles()
      reads `objs, `color, `dead
    {
      forall o :: o in objs && o in color && !color[o].White? ==> AllMarked(objs, color, dead, o)
    }

    method ClearWeakTables(ghost m: set<Id>)
      requires Marking({}, m) && ListsOk() && phase == Atomic && gray == [] && aside == []
      requires forall h :: h in ephemeron ==> Settled(objs, color, h)
      modifies `objs, `color, `dead
      ensures Pruned(old(objs), objs, MarkedSet(old(objs), old(color)))
      ensures Marking({}, m) && NothingDangles() && MarkedSet(objs, color) == MarkedSet(old(objs), old(color))
      ensures Marks(old(color), color) && objs.Keys == old(objs).Keys && forall x :: x in objs ==>
        objs[x].kind == old(objs)[x].kind
    {
      hide Tricolor, Lists, Pruned, FactsKept, ValuesMarked, KeysMarked, Settled, AllMarked, WeakDone, EphemeronDone,
        AllWeakDone, MarkedSet, Marks;
      ListedTables(objs, color, dead, grayagain, weak, allweak, ephemeron);
      ClearByValues(weak, m);
      ghost var heap1, c1, d1 := objs, color, dead;
      TablesKept(old(objs), old(color), old(dead), heap1, c1, d1, weak + allweak + ephemeron);
      ClearByValues(allweak, m);
      ghost var heap2, c2, d2 := objs, color, dead;
      FactsTwice(old(objs), old(color), old(dead), heap1, c1, d1, heap2, c2, d2);
      TablesKept(old(objs), old(color), old(dead), heap2, c2, d2, weak + allweak + ephemeron);
      ClearByKeys(ephemeron, m);
      ghost var heap3, c3, d3 := objs, color, dead;
      FactsTwice(old(objs), old(color), old(dead), heap2, c2, d2, heap3, c3, d3);
      TablesKept(old(objs), old(color), old(dead), heap3, c3, d3, weak + allweak + ephemeron);
      ClearByKeys(allweak, m);
      FactsTwice(old(objs), old(color), old(dead), heap3, c3, d3, objs, color, dead);
      FactsTwice(heap1, c1, d1, heap2, c2, d2, heap3, c3, d3);
      FactsTwice(heap1, c1, d1, heap3, c3, d3, objs, color, dead);
      FactsTwice(heap2, c2, d2, heap3, c3, d3, objs, color, dead);
      FactsRead(old(objs), old(color), old(dead), objs, color, dead);
      FactsRead(old(objs), old(color), old(dead), heap1, c1, d1);
      FactsRead(old(objs), old(color), old(dead), heap2, c2, d2);
      FactsRead(old(objs), old(color), old(dead), heap3, c3, d3);
      PrunedTwice(old(objs), heap1, heap2, MarkedSet(old(objs), old(color)));
      PrunedTwice(old(objs), heap2, heap3, MarkedSet(old(objs), old(color)));
      PrunedTwice(old(objs), heap3, objs, MarkedSet(old(objs), old(color)));
      ListsKept(old(objs), old(color), old(dead), objs, color, dead, grayagain, weak, allweak, ephemeron);
      forall h | h in weak ensures ValuesMarked(objs, color, h) { KeptValues(heap1, c1, d1, objs, color, dead, h); }
      forall h | h in allweak ensures ValuesMarked(objs, color, h) { KeptValues(heap2, c2, d2, objs, color, dead, h); }
      forall h | h in ephemeron ensures KeysMarked(objs, color, dead,
        h) { KeptKeys(heap3, c3, d3, objs, color, dead, h); }
      AtomicLists();
      AllCleared(objs, color, dead, currentwhite, Lists(), m, grayagain, weak, allweak, ephemeron);
    }

    // ---- The whole machine ----

    ghost predicate Steady()
      reads this
    {
      Consistent(objs, color, dead, currentwhite, main, globals) && Listed(allgc, color) && IdsOk(color, next, doomed)
    }

    ghost predicate MarkPhase(e: set<Id>)
      reads this
    {
      Marking(e, objs.Keys) && ListsOk() && aside == [] && IsMarked(color, Ref(main))
    }

    ghost predicate InPhase(e: set<Id>)
      reads this
    {
      match phase
      case Propagate => MarkPhase(e)
      case EnterAtomic => MarkPhase(e)
      case Atomic => false
      case SwpAllgc => SweepOk(allgc, color, currentwhite, sweepgc, doomed, freed) && sweepgc != At(0)
      case Pause => AllWhite(color, currentwhite) && freed == doomed && freed !! color.Keys
      case SwpEnd => AllWhite(color, currentwhite) && freed == doomed && freed !! color.Keys
      case CallFin => AllWhite(color, currentwhite) && freed == doomed && freed !! color.Keys
    }

    /** Between two steps of the mutator or the collector. */
    ghost predicate Valid()
      reads this
    {
      Steady() && InPhase({})
    }

    // ---- The sweep ----

    ghost predicate Sweeping(n: nat)
      reads this
    {
      Steady() && Accounted(color, currentwhite, doomed, freed) && n <= |allgc| &&
        SweptTo(allgc, color, currentwhite, n)
    }

    /** Sweeps at most `countin` objects from place `p` on: dead ones are freed, live ones turn
        white. */
    method SweepList(p: nat, countin: nat) returns (cur: Cursor)
      requires Sweeping(p)
      modifies `objs, `color, `allgc, `freed
      ensures Sweeping(Position(cur, allgc)) && OnlyDeadFreed(old(objs), old(color), currentwhite, objs, color)
      ensures |allgc| <= |old(allgc)|
      ensures cur.At? ==> p <= cur.i && (countin > 0 ==> |allgc| - cur.i < |old(allgc)| - p)
    {
      hide Consistent, Listed, SweptTo, Accounted, OnlyDeadFreed;
      var pos, i := p, 0;
      NothingFreed(objs, color, currentwhite);
      while pos < |allgc| && i < countin
        invariant p <= pos && Sweeping(pos) && OnlyDeadFreed(old(objs), old(color), currentwhite, objs, color)
        invariant |allgc| <= |old(allgc)| && |allgc| - pos <= |old(allgc)| - p - i
        decreases countin - i
      {
        ghost var heap, c := objs, color;
        var swept := SweepOne(pos);
        FreedTwice(old(objs), old(color), currentwhite, heap, c, objs, color);
        if swept { pos := pos + 1; }
        i := i + 1;
      }
      cur := if pos == |allgc| then Finished else At(pos);
    }

    method SweepOne(pos: nat) returns (swept: bool)
      requires Sweeping(pos) && pos < |allgc|
      modifies `objs, `color, `allgc, `freed
      ensures swept ==> Sweeping(pos + 1) && |allgc| == |old(allgc)|
      ensures !swept ==> Sweeping(pos) && |allgc| == |old(allgc)| - 1
      ensures OnlyDeadFreed(old(objs), old(color), currentwhite, objs, color)
    {
      hide Consistent, Listed, SweptTo, Accounted, OnlyDeadFreed, IdsOk, LiveObject;
      var curr := allgc[pos];
      ListedAt(objs, color, dead, currentwhite, main, globals, allgc, pos);
      if color[curr] == White(!currentwhite) {
        FreeOne(objs, color, dead, currentwhite, main, globals, curr);
        UnlinkOne(allgc, color, currentwhite, pos);
        FreeAccounted(color, currentwhite, doomed, freed, curr);
        FreedOne(objs, color, currentwhite, next, doomed, curr);
        allgc := Without(allgc, pos);
        objs := objs - {curr};
        color := color - {curr};
        freed := freed + {curr};
        swept := false;
      } else {
        WhitenOne(objs, color, dead, currentwhite, main, globals, curr);
        SweptOneMore(allgc, color, currentwhite, pos);
        WhitenAccounted(color, currentwhite, doomed, freed, curr);
        WhitenedOne(objs, color, currentwhite, next, doomed, curr);
        ListedStays(allgc, color, color[curr := White(currentwhite)]);
        color := color[curr := White(currentwhite)];
        swept := true;
      }
    }

    /** Sweeps from the head until a live object has been passed. */
    method SweepToLive() returns (cur: Cursor)
      requires Sweeping(0)
      modifies `objs, `color, `allgc, `freed
      ensures Sweeping(Position(cur, allgc)) && OnlyDeadFreed(old(objs), old(color), currentwhite, objs, color) &&
        cur != At(0)
      ensures |allgc| <= |old(allgc)|
    {
      hide Consistent, Listed, SweptTo, Accounted, OnlyDeadFreed;
      cur := SweepList(0, 1);
      while cur == At(0)
        invariant Sweeping(Position(cur, allgc)) && OnlyDeadFreed(old(objs), old(color), currentwhite, objs, color)
        invariant |allgc| <= |old(allgc)|
        decreases |allgc|, cur == At(0)
      {
        ghost var heap, c := objs, color;
        cur := SweepList(0, 1);
        FreedTwice(old(objs), old(color), currentwhite, heap, c, objs, color);
      }
    }

    // ---- The steps of a cycle ----

    lemma PauseReads()
      requires Valid() && phase == Pause
      ensures AllWhite(color, currentwhite) && freed == doomed && freed !! color.Keys
    {
    }

    method ResetLists()
      modifies `gray, `grayagain, `weak, `allweak, `ephemeron, `aside
      ensures gray == grayagain == weak == allweak == ephemeron == aside == [] && Lists() == multiset{}
    {
      gray, grayagain, weak, allweak, ephemeron, aside := [], [], [], [], [], [];
    }

    method PrepareCycle()
      requires Valid() && phase == Pause
      modifies `gray, `grayagain, `weak, `allweak, `ephemeron, `aside
      ensures Steady() && OneWhite(color, currentwhite) && aside == [] && gray == []
      ensures Marking({}, objs.Keys) && ListsOk() && RootsIn(objs.Keys)
    {
      hide Consistent, Tricolor, Listed, IdsOk, Lists, RootsIn, InPhase, AllWhite, MarkLists, OneWhite;
      PauseReads();
      WhiteReads(color, currentwhite);
      ConsistentSound(objs, color, dead, currentwhite, main, globals);
      FreshTricolor(objs, color, dead, currentwhite);
      RootsEverywhere();
      ResetLists();
      EmptyLists(objs, color, dead, phase);
    }

    /** Empties the lists and marks the roots. */
    method RestartCollection(ghost m: set<Id>)
      requires Valid() && phase == Pause && Closed(objs, m) && RootsIn(m)
      modifies `gray, `grayagain, `weak, `allweak, `ephemeron, `aside, `color
      ensures Steady() && MarkPhase({}) && Within(objs, color, m)
      ensures OneTable(old(color)) ==> gray == [globals[0].id, main]
    {
      hide Consistent, Tricolor, Listed, SlotsMarked, IdsOk, Lists, RootsIn, InPhase, MarkLists, OneWhite, Closed,
        Within, AllWhite, Sound;
      PauseReads();
      WhiteWithin(objs, color, currentwhite, m);
      PrepareCycle();
      OtherClosed(objs, color, dead, currentwhite, Lists(), {}, objs.Keys, m);
      ghost var c := color;
      MarkRoots(m);
      Reads(objs, color, dead, currentwhite, Lists(), {}, m);
      TricolorWhite(objs, color, dead, currentwhite, Lists(), {}, m);
      EverythingTricolor(objs, color, dead, currentwhite, Lists(), {}, m);
      SteadyStays(c);
    }

    /** Marking leaves everything else about the machine as it was. */
    lemma SteadyStays(c: Colors)
      requires Consistent(objs, c, dead, currentwhite, main, globals) && Listed(allgc, c) && IdsOk(c, next, doomed)
      requires OneWhite(c, currentwhite) && OneWhite(color, currentwhite) && c.Keys == color.Keys
      ensures Steady()
    {
      RecolorLive(objs, c, color, dead, currentwhite, main, globals);
      ListedStays(allgc, c, color);
    }

    lemma RootsEverywhere()
      requires Consistent(objs, color, dead, currentwhite, main, globals) && OneWhite(color, currentwhite)
      ensures RootsIn(objs.Keys)
    {
      ConsistentSound(objs, color, dead, currentwhite, main, globals);
    }

    lemma MarkReads()
      requires Valid() && (phase == Propagate || phase == EnterAtomic)
      ensures MarkPhase({}) && OneWhite(color, currentwhite) && Sound(objs, color, dead)
    {
    }

    lemma MarkDone()
      requires Steady() && MarkPhase({}) && (phase == Propagate || phase == EnterAtomic)
      ensures Valid()
    {
    }

    /** One step of the propagation phase. */
    method PropagateStep(ghost m: set<Id>)
      requires Valid() && phase == Propagate && Closed(objs, m) && Within(objs, color, m)
      modifies `phase, `color, `gray, `dead, `grayagain, `weak, `allweak, `ephemeron, `aside
      ensures Longer(old(allweak), allweak)
      ensures Valid() && Within(objs, color, m)
      ensures phase == EnterAtomic || (phase == Propagate &&
        (Whites(color) < Whites(old(color)) || (Whites(color) == Whites(old(color)) && |gray| < |old(gray)|)))
      ensures old(gray) != [] && old(gray[0]) in objs && objs[old(gray[0])].kind == Table(AllWeak) ==>
        phase == Propagate && old(gray[0]) in allweak
      ensures MarkedSet(objs, old(color)) <= MarkedSet(objs, color)
    {
      hide Consistent, Tricolor, Listed, SlotsMarked, IdsOk, Lists, InPhase, MarkLists, OneWhite, Sound, Closed, Within;
      MarkReads();
      if gray == [] {
        phase := EnterAtomic;
        PhaseOnly(objs, color, dead, grayagain, weak, allweak, ephemeron, Propagate, EnterAtomic);
        MarkDone();
      } else {
        VisitNext(m);
        MarkDone();
      }
    }

    method VisitNext(ghost m: set<Id>)
      requires Valid() && phase == Propagate && gray != [] && Closed(objs, m) && Within(objs, color, m)
      modifies `color, `gray, `dead, `grayagain, `weak, `allweak, `ephemeron, `aside
      ensures Longer(old(allweak), allweak)
      ensures Steady() && MarkPhase({}) && Within(objs, color, m)
      ensures Whites(color) < Whites(old(color)) || (Whites(color) == Whites(old(color)) && |gray| < |old(gray)|)
      ensures old(gray[0]) in objs && objs[old(gray[0])].kind == Table(AllWeak) ==> old(gray[0]) in allweak
      ensures MarkedSet(objs, old(color)) <= MarkedSet(objs, color)
    {
      hide Consistent, Tricolor, Listed, SlotsMarked, IdsOk, Lists, InPhase, MarkLists, OneWhite, Sound, Closed, Within;
      MarkReads();
      ghost var c, d := color, dead;
      OtherClosed(objs, color, dead, currentwhite, Lists(), {}, objs.Keys, m);
      PropagateMark(m);
      Reads(objs, color, dead, currentwhite, Lists(), {}, m);
      TricolorWhite(objs, color, dead, currentwhite, Lists(), {}, m);
      EverythingTricolor(objs, color, dead, currentwhite, Lists(), {}, m);
      MarkedStays(c, color, Ref(main));
      MarkedLess(objs, c, color);
      StaySteady(c, d);
    }

    lemma StaySteady(c: Colors, d: DeadKeys)
      requires Consistent(objs, c, d, currentwhite, main, globals) && Listed(allgc, c) && IdsOk(c, next, doomed)
      requires OneWhite(color, currentwhite) && OneWhite(c, currentwhite) && c.Keys == color.Keys &&
        Sound(objs, color, dead)
      ensures Steady()
    {
      ListedStays(allgc, c, color);
      ConsistentSound(objs, c, d, currentwhite, main, globals);
      SoundConsistent(objs, color, dead, currentwhite, main, globals);
    }

    /** What has to hold for the white to flip. */
    ghost predicate Cleared(m: set<Id>)
      reads this
    {
      Marking({}, m) && NothingDangles() && RootsMarked() && main in objs && objs[main].kind.Thread? &&
      Listed(allgc, color) && IdsOk(color, next, doomed)
    }

    ghost predicate MainOk()
      reads this
    {
      main in objs && objs[main].kind.Thread? && Listed(allgc, color) && IdsOk(color, next, doomed) &&
        objs.Keys == color.Keys
    }

    /** Marking, in the atomic phase: what is marked at its end, strings apart, is the least
        closed set that holds the roots and what was marked before. */
    method AtomicMark(ghost m: set<Id>) returns (ghost kept: set<Id>)
      requires Valid() && phase == EnterAtomic
      requires Closed(objs, m) && Within(objs, color, m) && RootsIn(m)
      modifies `phase, `color, `gray, `dead, `grayagain, `weak, `allweak, `ephemeron, `aside
      ensures Longer(old(allweak), allweak)
      ensures Marking({}, m) && ListsOk() && phase == Atomic && gray == [] && aside == [] && RootsMarked() && MainOk()
      ensures forall h :: h in ephemeron ==> Settled(objs, color, h)
      ensures kept == MarkedSet(objs, color) && MarkedSet(objs, old(color)) <= kept
      ensures Closed(objs, kept) && kept <= m && RootsKept(objs, kept, main, globals)
    {
      hide Consistent, Tricolor, Listed, SlotsMarked, IdsOk, Lists, InPhase, MarkLists, OneWhite, Sound, Closed,
        Within, MarkedSet, RootsIn, Grows, Settled, IsMarked;
      MarkReads();
      MainReads(objs, color, dead, currentwhite, main, globals);
      OtherClosed(objs, color, dead, currentwhite, Lists(), {}, objs.Keys, m);
      ghost var c0 := color;
      MarkAtomic(m);
      kept := MarkedSet(objs, color);
      TricolorWhite(objs, color, dead, currentwhite, Lists(), {}, m);
      RootsAreKept(objs, color, main, globals);
      MarkedGrows(objs, c0, color);
      ListedStays(allgc, c0, color);
      IdsStay(c0, color, next, doomed);
    }

    method AtomicWork(ghost m: set<Id>) returns (ghost kept: set<Id>)
      requires Valid() && phase == EnterAtomic
      requires Closed(objs, m) && Within(objs, color, m) && RootsIn(m)
      modifies `phase, `objs, `color, `gray, `dead, `grayagain, `weak, `allweak, `ephemeron, `aside
      ensures Pruned(old(objs), objs, kept)
      ensures Cleared(m) && kept == MarkedSet(objs, color) && objs.Keys == old(objs).Keys == color.Keys
      ensures MarkedSet(old(objs), old(color)) <= kept
      ensures Closed(old(objs), kept) && kept <= m && RootsKept(old(objs), kept, main, globals)
      ensures forall x :: x in objs ==> objs[x].kind == old(objs)[x].kind
    {
      hide Pruned, Tricolor, Listed, SlotsMarked, IdsOk, Lists, InPhase, MarkLists, Closed, Within, MarkedSet,
        RootsIn, RootsKept, Marks, Settled, IsMarked, Valid, NothingDangles;
      kept := AtomicMark(m);
      ghost var heap, c := objs, color;
      ClearWeakTables(m);
      RootsMore(c, color, main, globals);
      MarksKeys(c, color);
      ListedStays(allgc, c, color);
      IdsStay(c, color, next, doomed);
      MainStays(heap, objs, main);
    }

    method FlipWhite(ghost m: set<Id>)
      requires Cleared(m)
      modifies `currentwhite, `doomed, `freed
      ensures Sweeping(0) && doomed == Whites(color)
    {
      hide Tricolor, Listed, SlotsMarked, IdsOk, Lists, AllMarked, Consistent, SweptTo, Accounted;
      TricolorWhite(objs, color, dead, currentwhite, Lists(), {}, m);
      Flipped(objs, color, dead, currentwhite, main, globals);
      FlipAccounted(allgc, color, currentwhite, next, doomed);
      doomed, freed := Whites(color), {};
      currentwhite := !currentwhite;
    }

    /** The atomic phase: afterwards exactly the objects outside the least closed set, strings
        apart, are doomed, and the sweep begins. */
    method AtomicStep(ghost m: set<Id>) returns (ghost kept: set<Id>)
      requires Valid() && phase == EnterAtomic
      requires Closed(objs, m) && Within(objs, color, m) && RootsIn(m)
      modifies this
      ensures Valid() && phase == SwpAllgc && main == old(main) && globals == old(globals) && next == old(next)
      ensures MarkedSet(old(objs), old(color)) <= kept
      ensures Closed(old(objs), kept) && kept <= m && RootsKept(old(objs), kept, main, globals)
      ensures forall x :: x in old(objs) && old(objs)[x].kind != Leaf ==> (x in doomed <==> x !in kept)
      ensures forall x :: x in old(objs) && x !in objs ==> x in doomed
      ensures SameKinds(old(objs), objs) && Pruned(old(objs), objs, kept) && |allgc| <= |old(allgc)|
      ensures kept <= old(objs).Keys
    {
      hide Pruned, Tricolor, Listed, IdsOk, Lists, InPhase, Sweeping, Closed, Within, MarkedSet, RootsIn, RootsKept,
        Steady, Consistent, Cleared, NothingDangles;
      kept := AtomicWork(m);
      ghost var heap, c := objs, color;
      MarkedThere(heap, c);
      FlipWhite(m);
      KeptOrDoomed(heap, c, kept);
      ghost var c1 := color;
      EnterSweep();
      FreedDoomed(heap, c, currentwhite, objs, color);
      SweptPruned(old(objs), heap, c1, currentwhite, objs, color, kept);
      SweepKinds(old(objs), heap, c1, currentwhite, objs, color);
    }

    method EnterSweep()
      requires Sweeping(0)
      modifies `phase, `sweepgc, `objs, `color, `allgc, `freed
      ensures Valid() && phase == SwpAllgc && OnlyDeadFreed(old(objs), old(color), currentwhite, objs, color)
      ensures doomed == old(doomed) && |allgc| <= |old(allgc)|
    {
      hide Consistent, Listed, SweptTo, Accounted, OnlyDeadFreed, IdsOk;
      phase := SwpAllgc;
      sweepgc := SweepToLive();
    }

    /** How much of the list is still to be swept. */
    ghost function ToSweep(): int
      reads `sweepgc, `allgc
    {
      match sweepgc
      case Finished => 0
      case At(i) => |allgc| - i + 1
    }

    /** One step of the sweep: at most a hundred objects. */
    method SweepStep()
      requires Valid() && phase == SwpAllgc
      modifies `phase, `sweepgc, `objs, `color, `allgc, `freed
      ensures Valid() && OnlyDeadFreed(old(objs), old(color), currentwhite, objs, color)
      ensures forall x :: x in old(objs) && x !in objs ==> x in doomed
      ensures phase == SwpEnd || (phase == SwpAllgc && 0 <= ToSweep() < old(ToSweep()))
      ensures phase == SwpEnd ==> freed == doomed && freed !! objs.Keys
    {
      hide Consistent, Listed, SweptTo, Accounted, OnlyDeadFreed, IdsOk, AllWhite;
      NothingFreed(objs, color, currentwhite);
      ghost var heap, c := objs, color;
      match sweepgc {
        case At(i) =>
          sweepgc := SweepList(i, 100);
          DeadDoomed(heap, c, currentwhite, doomed, old(freed), objs, color, old(dead), main, globals);
        case Finished =>
          phase := SwpEnd;
          AllSwept(objs, allgc, color, dead, currentwhite, main, globals, doomed, freed);
      }
    }

    /** A full collection asked for while marking gives the cycle up: everything turns white
        again and nothing is freed. */
    method AbandonCycle()
      requires Valid() && (phase == Propagate || phase == EnterAtomic)
      modifies `phase, `sweepgc, `objs, `color, `allgc, `freed, `doomed
      ensures Valid() && phase == SwpAllgc && objs == old(objs)
      ensures forall x :: x in objs ==> Live(color, currentwhite, x)
    {
      hide Tricolor, Listed, IdsOk, Lists, InPhase, Consistent, SweptTo, Accounted, MarkLists, Sound, OneWhite,
        OnlyDeadFreed;
      MarkReads();
      MainReads(objs, color, dead, currentwhite, main, globals);
      NothingDoomed(allgc, color, currentwhite, next, doomed);
      doomed, freed := {}, {};
      ghost var heap, c := objs, color;
      EnterSweep();
      NoneFreed(heap, c, currentwhite, objs, color);
      AllSpared(heap, c, currentwhite, objs, color);
    }

    /** While the cycle has not come to the sweep, `m` is a closed set that holds the roots and
        whatever is marked. */
    ghost predicate Bounded(m: set<Id>)
      reads this
    {
      phase == Pause || InMarking() ==> Closed(objs, m) && Within(objs, color, m) && RootsIn(m)
    }

    /** A bound on the steps to the end of the cycle. */
    function StepsLeft(): (n: nat)
      reads this
      ensures n == 0 <==> phase == Pause
    {
      match phase
      case Pause => 0
      case CallFin => 1
      case SwpEnd => 2
      case SwpAllgc => if sweepgc.At? && sweepgc.i <= |allgc| then |allgc| - sweepgc.i + 4 else 3
      case EnterAtomic => |allgc| + 5
      case Atomic => |allgc| + 5
      case Propagate => |allgc| + 6 + |Whites(color)| * (|color| + 1) + |gray|
    }

    /** What one step of the collector does; `kept` is what it marks, if it is the atomic step. */
    twostate predicate Stepped(m: set<Id>, kept: set<Id>)
      reads this
    {
      match old(phase)
      case Pause => phase == Propagate && objs == old(objs) && Bounded(m)
      case Propagate =>
        InMarking() && objs == old(objs) && Bounded(m) && MarkedSet(objs, old(color)) <= MarkedSet(objs, color)
      case EnterAtomic =>
        phase == SwpAllgc && MarkedSet(old(objs), old(color)) <= kept <= m &&
        Closed(old(objs), kept) && RootsKept(old(objs), kept, main, globals) && Collecting(old(objs), kept)
      case SwpAllgc =>
        (phase == SwpAllgc || phase == SwpEnd) && doomed == old(doomed) &&
        OnlyDeadFreed(old(objs), old(color), currentwhite, objs, color) &&
        (forall x :: x in old(objs) && x !in objs ==> x in doomed) &&
        (phase == SwpEnd ==> freed == doomed && freed !! objs.Keys)
      case SwpEnd => phase == CallFin && objs == old(objs) && doomed == old(doomed) && freed == old(freed)
      case CallFin => phase == Pause && objs == old(objs) && doomed == old(doomed) && freed == old(freed)
      case Atomic => false
    }

    /** Since the heap was `heap` and what is in `kept` was marked, only what is outside `kept`,
        strings apart, has been freed or will be; and after the sweep all of that has gone. */
    ghost predicate Collecting(heap: Heap, kept: set<Id>)
      reads this
    {
      && SameKinds(heap, objs) && Pruned(heap, objs, kept)
      && (forall x :: x in heap && heap[x].kind != Leaf ==> (x in doomed <==> x !in kept))
      && (forall x :: x in heap && x !in objs ==> x in doomed)
      && (phase != SwpAllgc ==> freed == doomed && freed !! objs.Keys)
    }

    /** One basic step of the collector.  It comes nearer to the end of the cycle, or begins
        another; and a closed set that holds the roots is left alone. */
    method SingleStep(ghost m: set<Id>) returns (ghost kept: set<Id>)
      requires Valid() && Bounded(m)
      modifies this
      ensures Valid() && main == old(main) && globals == old(globals) && next == old(next)
      ensures Stepped(m, kept)
      ensures old(phase) != Pause ==> StepsLeft() < old(StepsLeft())
      ensures SameKinds(old(objs), objs) && (InMarking() ==> old(phase) == Pause || old(phase) == Propagate)
      ensures old(phase) == Propagate ==> InMarking() && Longer(old(allweak), allweak) && objs == old(objs)
      ensures Collected(old(objs), objs, LiveSet(color, currentwhite), main, globals)
      ensures !old(InMarking()) ==> LiveSet(color, currentwhite) == old(LiveSet(color, currentwhite))
      ensures old(InMarking()) ==> MarkedSet(old(objs), old(color)) <= LiveSet(color, currentwhite)
      ensures old(phase) == Propagate ==> MarkedSet(objs, old(color)) <= MarkedSet(objs, color)
      ensures old(phase) != EnterAtomic ==> currentwhite == old(currentwhite)
      ensures old(phase) != Pause && !old(InMarking()) ==> Spares(old(color), currentwhite, false, color)
    {
      hide Collected, LiveSet, MarkedSet, Spares, Tricolor, Listed, IdsOk, Lists, Consistent, SweptTo, Accounted,
        MarkLists, Sound, OneWhite, Closed, Within, RootsIn, InPhase, OnlyDeadFreed, AllWhite, Valid, SameKinds,
        Collecting, RootsKept, Whites;
      AllLive();
      kept := {};
      ghost var heap, c := objs, color;
      match phase {
        case Pause =>
          StartCycle(m);
          AllLive();
          NothingCollected();
        case Propagate =>
          SinglePropagate(m);
          AllLive();
          NothingCollected();
          MarkedThere(heap, c);
        case EnterAtomic =>
          kept := SingleAtomic(m);
        case SwpAllgc =>
          SingleSweep();
        case SwpEnd =>
          NothingCollected();
          WhiteStep(CallFin);
          SparesSame(color, currentwhite, false);
        case CallFin =>
          NothingCollected();
          WhiteStep(Pause);
          SparesSame(color, currentwhite, false);
        case Atomic =>
          NeverAtomic();
      }
      SameKindsSame(heap);
    }

    method SinglePropagate(ghost m: set<Id>)
      requires Valid() && phase == Propagate && Bounded(m)
      modifies `phase, `color, `gray, `dead, `grayagain, `weak, `allweak, `ephemeron, `aside
      ensures Valid() && InMarking() && Bounded(m) && StepsLeft() < old(StepsLeft())
      ensures Longer(old(allweak), allweak) && MarkedSet(objs, old(color)) <= MarkedSet(objs, color)
    {
      hide Tricolor, Listed, IdsOk, Lists, Consistent, MarkLists, Sound, OneWhite, Closed, Within, RootsIn, InPhase,
        MarkedSet, Valid, Whites;
      SweepKeys();
      ghost var c, g := color, gray;
      PropagateStep(m);
      SweepKeys();
      if phase == Propagate {
        GrayShort();
        FewerLeft(Whites(c), g, Whites(color), gray, |color|);
      }
    }

    /** How long a cycle can last at most. */
    lemma LeftBounded()
      requires Valid()
      ensures StepsLeft() <= |objs| * |objs| + 3 * |objs| + 6
    {
      hide Steady, InPhase, Valid, Whites;
      SweepKeys();
      AllListed();
      if phase == Propagate {
        GrayShort();
        WhitesThere(color);
        AtMost(|Whites(color)|, |color|);
      }
      hide StepsLeft;
      LeftIs();
    }

    lemma AllListed()
      requires Valid()
      ensures |allgc| <= |color|
    {
      hide Consistent, IdsOk, InPhase;
      forall i | 0 <= i < |allgc| ensures allgc[i] in color.Keys { assert allgc[i] in allgc; }
      DistinctFit(allgc, color.Keys);
    }

    lemma LeftIs()
      ensures phase == Propagate ==> StepsLeft() == |allgc| + 6 + |Whites(color)| * (|color| + 1) + |gray|
      ensures phase != Propagate ==> StepsLeft() <= |allgc| + 6
    {
    }

    /** No object is in the gray list twice. */
    lemma GrayShort()
      requires Valid() && phase == Propagate
      ensures |gray| <= |color|
    {
      hide Sound, OneWhite, Closed, Within, BlacksOk, KindsOk, Consistent, Listed, IdsOk, MarkLists;
      var others := multiset(grayagain) + multiset(weak) + multiset(allweak) + multiset(ephemeron) + multiset(aside);
      assert Lists() == multiset(gray) + others;
      ListedOnce(color, Lists(), gray, others);
    }

    method SingleAtomic(ghost m: set<Id>) returns (ghost kept: set<Id>)
      requires Valid() && phase == EnterAtomic && Bounded(m)
      modifies this
      ensures Valid() && phase == SwpAllgc && main == old(main) && globals == old(globals) && next == old(next)
      ensures MarkedSet(old(objs), old(color)) <= kept <= m && Closed(old(objs), kept)
      ensures RootsKept(old(objs), kept, main, globals) && Collecting(old(objs), kept)
      ensures StepsLeft() < old(StepsLeft())
      ensures SameKinds(old(objs), objs) && Collected(old(objs), objs, LiveSet(color, currentwhite), main, globals)
      ensures MarkedSet(old(objs), old(color)) <= LiveSet(color, currentwhite)
    {
      hide Pruned, LiveSet, MarkedSet, Tricolor, Listed, IdsOk, Lists, Consistent, SweptTo, Accounted, MarkLists, Sound,
        OneWhite, Closed, Within, RootsIn, RootsKept, InPhase, OnlyDeadFreed, AllWhite, SameKinds;
      ghost var heap, c, bit, d := objs, color, currentwhite, dead;
      kept := AtomicStep(m);
      SweepKeys();
      PrunedLive(heap, objs, kept, color, currentwhite, doomed, freed);
      MarkedSurvive(heap, c, kept, objs, color, currentwhite, doomed, freed);
      KeptClosed(heap, c, d, bit, main, globals, kept, objs, color, currentwhite, doomed, freed);
      LiveThere(color, currentwhite);
    }

    method SingleSweep()
      requires Valid() && phase == SwpAllgc
      modifies `phase, `sweepgc, `objs, `color, `allgc, `freed
      ensures Valid() && (phase == SwpEnd || phase == SwpAllgc) && StepsLeft() < old(StepsLeft())
      ensures phase == SwpEnd ==> freed == doomed && freed !! objs.Keys
      ensures OnlyDeadFreed(old(objs), old(color), currentwhite, objs, color)
      ensures forall x :: x in old(objs) && x !in objs ==> x in doomed
      ensures SameKinds(old(objs), objs) && Collected(old(objs), objs, LiveSet(color, currentwhite), main, globals)
      ensures LiveSet(color, currentwhite) == old(LiveSet(color, currentwhite))
      ensures Spares(old(color), currentwhite, false, color)
    {
      hide Pruned, LiveSet, Spares, Tricolor, Listed, IdsOk, Lists, Consistent, SweptTo, Accounted, MarkLists, Sound,
        OneWhite, Closed, Within, RootsIn, RootsKept, InPhase, OnlyDeadFreed, AllWhite, SameKinds;
      ghost var heap, c, f := objs, color, freed;
      SweepKeys();
      ReadyToClose();
      SweepStep();
      SweptKeys();
      SweptLive(heap, c, currentwhite, doomed, f, objs, color, freed);
      PrunedNothing(heap, LiveSet(color, currentwhite));
      SweptPruned(heap, heap, c, currentwhite, objs, color, LiveSet(color, currentwhite));
      SweepKinds(heap, heap, c, currentwhite, objs, color);
      SparesFreed(heap, c, currentwhite, objs, color);
      LiveThere(color, currentwhite);
    }

    /** Once the sweep is over everything doomed has gone. */
    lemma SweptKeys()
      requires Valid() && (phase == SwpEnd || phase == SwpAllgc)
      ensures objs.Keys == color.Keys && Accounted(color, currentwhite, doomed, freed)
    {
      hide Consistent, Listed, SweptTo, InPhase;
      SweepKeys();
      if phase == SwpEnd { IdleReads(); }
    }

    lemma ReadyToClose()
      requires Valid()
      ensures Closed(objs, LiveSet(color, currentwhite)) && RootsKept(objs, LiveSet(color, currentwhite), main, globals)
    {
      hide Consistent, InPhase;
      TakenSame(objs, color, dead, currentwhite, main, globals);
      LiveClosed(objs, color, dead, currentwhite, main, globals, objs);
    }

    /** Outside the sweep everything is live. */
    lemma AllLive()
      requires Valid()
      ensures phase != SwpAllgc ==> LiveSet(color, currentwhite) == objs.Keys
    {
      hide Tricolor, Lists, Listed, IdsOk, Consistent, MarkLists, Sound, SweepOk;
      SweepKeys();
      if InMarking() { MarkReads(); }
      if phase != SwpAllgc { EverythingLive(objs, color, currentwhite); }
    }

    lemma NothingCollected()
      requires Valid() && phase != SwpAllgc
      ensures Collected(objs, objs, LiveSet(color, currentwhite), main, globals)
    {
      hide Closed, RootsKept, Pruned, LiveSet, Valid;
      AllLive();
      ReadyToClose();
      PrunedNothing(objs, objs.Keys);
    }

    lemma SweepKeys()
      requires Valid()
      ensures objs.Keys == color.Keys && (phase == SwpAllgc ==> Accounted(color, currentwhite, doomed, freed))
    {
    }

    /** The whole heap is a closed set, when there is a single white. */
    lemma WholeHeap()
      requires Valid()
      ensures Bounded(objs.Keys)
    {
      hide Tricolor, Listed, IdsOk, Lists, Consistent, SweptTo, Accounted, MarkLists, Sound, OneWhite, Closed, Within,
        RootsIn, AllWhite;
      if phase == Propagate || phase == EnterAtomic {
        MarkReads();
        EverythingClosed(objs, color, dead);
        RootsEverywhere();
      } else if phase != SwpAllgc {
        WhiteReads(color, currentwhite);
        ConsistentSound(objs, color, dead, currentwhite, main, globals);
        EverythingClosed(objs, color, dead);
        RootsEverywhere();
      }
    }

    method StartCycle(ghost m: set<Id>)
      requires Valid() && phase == Pause && Closed(objs, m) && RootsIn(m)
      modifies `phase, `gray, `grayagain, `weak, `allweak, `ephemeron, `aside, `color
      ensures Valid() && phase == Propagate && Within(objs, color, m)
      ensures OneTable(old(color)) ==> gray == [globals[0].id, main]
    {
      hide Tricolor, Listed, IdsOk, Lists, Consistent, SweptTo, Accounted, MarkLists, Sound, OneWhite, Closed, Within,
        RootsIn, InPhase;
      RestartCollection(m);
      PhaseOnly(objs, color, dead, grayagain, weak, allweak, ephemeron, Pause, Propagate);
      phase := Propagate;
      MarkDone();
    }

    lemma NeverAtomic()
      requires Valid()
      ensures phase != Atomic
    {
    }

    /** Between the end of the sweep and the next cycle nothing happens but changes of state. */
    method WhiteStep(to: Phase)
      requires Valid() && ((phase == SwpEnd && to == CallFin) || (phase == CallFin && to == Pause))
      modifies `phase
      ensures Valid() && phase == to
    {
      hide Tricolor, Listed, IdsOk, Lists, Consistent, SweptTo, Accounted, MarkLists, AllWhite;
      phase := to;
    }

    /** Whatever the mutator can reach has not been freed, and will not be in this cycle. */
    lemma NothingReachableFreed(x: Id)
      requires Valid() && Reachable(objs, dead, main, globals, x)
      ensures x in objs && Live(color, currentwhite, x)
    {
      ReachableLive(objs, color, dead, currentwhite, main, globals, x);
    }

    // ---- The mutator ----

    /** Between a write to `o` and its barrier. */
    ghost predicate Between(o: Id)
      reads this
    {
      Steady() && InPhase({o})
    }

    predicate InMarking()
      reads `phase
    {
      phase == Propagate || phase == EnterAtomic
    }

    /** What may be written to `o`: live references, and nothing that takes the metatable of a
        listed all-weak table away from the collector. */
    ghost predicate Storable(o: Id, b: Object, dead1: DeadKeys)
      reads this
    {
      && o in objs && SameSort(objs[o].kind, b.kind) && Shaped(b)
      && LiveObject(color, dead1, currentwhite, o, b)
      && (forall x, i :: x != o ==> ((x, i) in dead1 <==> (x, i) in dead))
      && (forall i :: (o, i) in dead1 ==> 0 <= i < |b.nodes| && b.nodes[i].val == Empty)
      && (InMarking() && o in allweak ==> b.kind == Table(AllWeak) && IsMarked(color, b.meta))
    }

    /** The invariant between a write and its barrier, on the values to be stored. */
    ghost predicate StoreOk(o: Id, b: Object, dead1: DeadKeys)
      reads this
    {
      var heap := objs[o := b];
      Consistent(heap, color, dead1, currentwhite, main, globals) &&
      (InMarking() ==>
        Tricolor(heap, color, dead1, currentwhite, Lists(), {o}, heap.Keys) &&
        MarkLists(heap, color, dead1, phase, grayagain, weak, allweak, ephemeron))
    }

    lemma CanStore(o: Id, b: Object, dead1: DeadKeys)
      requires Valid() && Storable(o, b, dead1)
      ensures StoreOk(o, b, dead1)
    {
      hide Tricolor, Listed, IdsOk, Lists, Consistent, SweptTo, Accounted, MarkLists, Sound, OneWhite, LiveObject,
        Shaped, AllWhite;
      WriteConsistent(objs, color, dead, dead1, currentwhite, main, globals, o, b);
      if InMarking() {
        MarkReads();
        ConsistentSound(objs[o := b], color, dead1, currentwhite, main, globals);
        WriteTricolor(objs, color, dead, dead1, currentwhite, Lists(), o, b);
        WriteLists(objs, color, dead, dead1, phase, grayagain, weak, allweak, ephemeron, o, b);
      }
    }

    /** A write whose barrier is still to come. */
    method Store(o: Id, b: Object, dead1: DeadKeys)
      requires Valid() && Storable(o, b, dead1)
      modifies `objs, `dead
      ensures objs == old(objs)[o := b] && dead == dead1 && Between(o)
    {
      hide Tricolor, Listed, IdsOk, Lists, Consistent, SweptTo, Accounted, MarkLists, AllWhite, Storable, LiveObject;
      CanStore(o, b, dead1);
      objs := objs[o := b];
      dead := dead1;
    }

    /** What `o` may refer to that is not marked: nothing but `vs`, if it is black. */
    ghost predicate Pending(o: Id, vs: set<Val>)
      reads `objs, `color, `dead, `phase
    {
      InMarking() && o in color && color[o] == Black ==> NearlyMarked(objs, color, dead, o, vs)
    }

    lemma BetweenReads(o: Id)
      requires Between(o)
      ensures objs.Keys == color.Keys
      ensures InMarking() ==> MarkPhase({o}) && OneWhite(color, currentwhite) && Sound(objs, color, dead)
      ensures !InMarking() && phase != SwpAllgc ==> AllWhite(color, currentwhite)
    {
    }

    lemma BetweenMarks(o: Id)
      requires Steady() && MarkPhase({o}) && InMarking()
      ensures Between(o)
    {
    }

    /** Nothing is left to do for `o`. */
    lemma Settle(o: Id)
      requires Between(o) && o in objs && Pending(o, {}) && !objs[o].kind.Thread?
      ensures Valid()
    {
      hide Tricolor, Listed, IdsOk, Lists, Consistent, SweptTo, Accounted, MarkLists, Sound, OneWhite, NearlyMarked,
        AllMarked;
      BetweenReads(o);
      if InMarking() {
        if color[o] == Black {
          NearlyDone(objs, color, dead, o, {});
          VisitedAlone(objs, color, dead, currentwhite, Lists(), objs.Keys, o);
        } else {
          NotBlack(objs, color, dead, currentwhite, Lists(), objs.Keys, o);
        }
      }
    }

    /** The same for a thread, which is never black. */
    lemma SettleThread(o: Id)
      requires Between(o) && o in objs && o in color && (InMarking() ==> color[o] != Black)
      ensures Valid()
    {
      hide Tricolor, Listed, IdsOk, Lists, Consistent, SweptTo, Accounted, MarkLists, Sound, OneWhite;
      BetweenReads(o);
      if InMarking() {
        NotBlack(objs, color, dead, currentwhite, Lists(), objs.Keys, o);
      }
    }

    /** `luaC_barrier`: moves the collector forward, or sweeps the object it would hold back. */
    method Barrier(o: Id, v: Val)
      requires Between(o) && o in objs && !objs[o].kind.Thread? && Pending(o, {v}) && LiveVal(color, currentwhite, v)
      requires Live(color, currentwhite, o)
      modifies `color, `gray
      ensures Valid() && Spares(old(color), currentwhite, InMarking(), color)
    {
      hide Spares, Tricolor, Listed, IdsOk, Lists, Consistent, SweptTo, Accounted, MarkLists, Sound, OneWhite,
        NearlyMarked, AllWhite, InPhase;
      BetweenReads(o);
      if v.Ref? && color[o] == Black && color[v.id].White? {
        if InMarking() {
          MarkForward(o, v);
        } else {
          SweepObject(o);
        }
      } else {
        NothingPending(objs, color, dead, o, v);
        SparesSame(color, currentwhite, InMarking());
        Settle(o);
      }
    }

    method MarkForward(o: Id, v: Val)
      requires Between(o) && InMarking() && o in objs && o in color && !objs[o].kind.Thread? && Pending(o, {v})
      requires color[o] == Black && v.Ref? && v.id in color && color[v.id].White?
      modifies `color, `gray
      ensures Valid() && Spares(old(color), currentwhite, true, color)
    {
      hide Spares, Tricolor, Listed, IdsOk, Lists, Consistent, SweptTo, Accounted, MarkLists, Sound, OneWhite,
        NearlyMarked, InPhase;
      BetweenReads(o);
      ghost var c := color;
      Mark(v.id, {o}, objs.Keys);
      SparesMarks(c, currentwhite, color);
      MarkedStays(c, color, Ref(main));
      ListsStay(objs, c, color, dead, dead, phase, grayagain, weak, allweak, ephemeron);
      TricolorWhite(objs, color, dead, currentwhite, Lists(), {o}, objs.Keys);
      StaySteady(c, dead);
      BetweenMarks(o);
      assert {} + {v} == {v};
      NearlyStays(objs, c, color, dead, o, {}, v);
      Settle(o);
    }

    /** In the sweep, the black object is turned white as if it had been swept already. */
    method SweepObject(o: Id)
      requires Between(o) && !InMarking() && o in objs && o in color && color[o] == Black
      modifies `color
      ensures Valid() && Spares(old(color), currentwhite, InMarking(), color)
    {
      hide Spares, Tricolor, Listed, Lists, Consistent, SweptTo, Accounted, MarkLists;
      SparesOne(color, currentwhite, false, o, White(currentwhite));
      NotAllWhite(color, currentwhite, o);
      WhitenOne(objs, color, dead, currentwhite, main, globals, o);
      WhitenAccounted(color, currentwhite, doomed, freed, o);
      ListedStays(allgc, color, color[o := White(currentwhite)]);
      SweptKeeps(allgc, color, currentwhite, Position(sweepgc, allgc), o, White(currentwhite));
      color := color[o := White(currentwhite)];
    }

    /** `luaC_barrierback`: the black object becomes gray again. */
    method BarrierBack(o: Id, v: Val, ghost vs: set<Val>)
      requires Between(o) && o in objs && Pending(o, vs + {v}) && LiveVal(color, currentwhite, v)
      requires Live(color, currentwhite, o) && (objs[o].kind.Holder? || objs[o].kind.Table?)
      modifies `color, `grayagain, `aside
      ensures Between(o) && Pending(o, vs) && objs == old(objs) && Live(color, currentwhite, o)
      ensures Spares(old(color), currentwhite, InMarking(), color)
    {
      hide Spares, Tricolor, Listed, IdsOk, Lists, Consistent, SweptTo, Accounted, MarkLists, Sound, OneWhite,
        NearlyMarked, AllWhite, InPhase;
      BetweenReads(o);
      SparesSame(color, currentwhite, InMarking());
      SparesOne(color, currentwhite, InMarking(), o, Gray);
      if v.Ref? && color[o] == Black && color[v.id].White? {
        if InMarking() {
          GrayAgain(o);
        } else {
          GrayInSweep(o);
        }
      } else {
        OnePending(objs, color, dead, o, vs, v);
      }
    }

    method GrayAgain(o: Id)
      requires Between(o) && InMarking() && o in objs && o in color && color[o] == Black &&
        (objs[o].kind.Holder? || objs[o].kind.Table?)
      modifies `color, `grayagain, `aside
      ensures Between(o) && color == old(color)[o := Gray]
    {
      hide Tricolor, Listed, IdsOk, Lists, Consistent, SweptTo, Accounted, MarkLists, Sound, OneWhite, InPhase;
      BetweenReads(o);
      ghost var c := color;
      KeepGray(o, objs.Keys);
      LinkGrayAgain(o);
      MarkedStays(c, color, Ref(main));
      AgainListed(objs, color, dead, phase, grayagain, weak, allweak, ephemeron);
      TricolorWhite(objs, color, dead, currentwhite, Lists(), {}, objs.Keys);
      StaySteady(c, dead);
      ExceptMore(objs, color, dead, currentwhite, Lists(), objs.Keys, o);
      BetweenMarks(o);
    }

    method GrayInSweep(o: Id)
      requires Between(o) && !InMarking() && o in objs && o in color && color[o] == Black
      modifies `color, `grayagain
      ensures Between(o) && color == old(color)[o := Gray]
    {
      hide Tricolor, Listed, Lists, Consistent, SweptTo, Accounted, MarkLists;
      NotAllWhite(color, currentwhite, o);
      RecolorLive(objs, color, color[o := Gray], dead, currentwhite, main, globals);
      GrayAccounted(color, currentwhite, doomed, freed, o);
      ListedStays(allgc, color, color[o := Gray]);
      SweptKeeps(allgc, color, currentwhite, Position(sweepgc, allgc), o, Gray);
      color := color[o := Gray];
      grayagain := [o] + grayagain;
    }

    // ---- What the running thread does between two steps ----

    /** The values the running thread has at hand. */
    predicate OnStack(v: Val)
      requires main in objs
      reads `objs, `main
    {
      v.Ref? ==> v in objs[main].slots
    }

    /** The values it can load: those at hand, the globals, and what an object at hand refers to. */
    predicate Loadable(v: Val)
      requires main in objs
      reads `objs, `dead, `main, `globals
    {
      OnStack(v) || v in globals || exists o :: o in objs && OnStack(Ref(o)) && v.Ref? && PointsTo(objs, dead, o, v.id)
    }

    lemma StackLive(v: Val)
      requires Steady() && OnStack(v)
      ensures LiveVal(color, currentwhite, v) && (v.Ref? ==> v.id in objs)
    {
      MainLive(objs, color, dead, currentwhite, main, globals, v);
    }

    lemma LoadableLive(v: Val)
      requires Steady() && Loadable(v)
      ensures LiveVal(color, currentwhite, v)
    {
      if OnStack(v) {
        StackLive(v);
      } else if v in globals {
        var i :| 0 <= i < |globals| && globals[i] == v;
        assert LiveVal(color, currentwhite, globals[i]);
      } else {
        var o :| o in objs && OnStack(Ref(o)) && v.Ref? && PointsTo(objs, dead, o, v.id);
        StackLive(Ref(o));
        PointedLive(objs, color, dead, currentwhite, main, globals, o, v.id);
      }
    }

    /** The stack of the running thread may change to anything that can be loaded: no barrier. */
    method LoadStack(vs: seq<Val>)
      requires Valid() && forall i :: 0 <= i < |vs| ==> Loadable(vs[i])
      modifies `objs, `dead
      ensures Valid() && objs == old(objs)[main := old(objs)[main].(slots := vs)] && dead == old(dead)
    {
      forall i | 0 <= i < |vs| ensures LiveVal(color, currentwhite, vs[i]) { LoadableLive(vs[i]); }
      SetStack(vs);
    }

    lemma ThreadReads()
      requires Valid()
      ensures main in objs && main in color && (InMarking() ==> color[main] != Black) && objs[main].kind.Thread? &&
        objs[main].nodes == [] && objs[main].meta == Plain
      ensures forall i :: (main, i) !in dead
      ensures InMarking() ==> main !in allweak
    {
    }

    /** The registry and the metatables of the basic types change without a barrier. */
    method SetGlobal(i: nat, v: Val)
      requires Valid() && i < |globals| && OnStack(v)
      modifies `globals
      ensures Valid() && globals == old(globals)[i := v]
    {
      hide Tricolor, Listed, IdsOk, Lists, SweptTo, Accounted, MarkLists;
      StackLive(v);
      globals := globals[i := v];
    }

    /** A new object is current white and at the head of the list of all objects; the running
        thread gets it on its stack. */
    method NewObject(b: Object) returns (x: Id)
      requires Valid() && Shaped(b)
      requires b.meta == Plain && (forall i :: 0 <= i < |b.slots| ==> b.slots[i] == Plain) && b.nodes == []
      modifies `objs, `color, `dead, `allgc, `sweepgc, `next
      ensures Valid() && x !in old(objs) && x in objs && objs[x] == b && color[x] == White(currentwhite)
      ensures main in old(objs) &&
        objs == old(objs)[x := b][main := old(objs)[main].(slots := old(objs)[main].slots + [Ref(x)])]
      ensures color == old(color)[x := White(currentwhite)]
      ensures x == old(next) && next == x + 1 && dead == Forget(old(dead), x)
    {
      hide Valid, Shaped;
      ThreadReads();
      x := Link(b);
      var vs := objs[main].slots + [Ref(x)];
      forall i | 0 <= i < |vs| ensures LiveVal(color, currentwhite, vs[i]) {
        if i < |vs| - 1 { StackLiveToo(vs[i]); }
      }
      SetStack(vs);
    }

    lemma SweepReads()
      requires Valid() && phase == SwpAllgc
      ensures SweepOk(allgc, color, currentwhite, sweepgc, doomed, freed) && sweepgc != At(0)
    {
    }

    lemma IdleReads()
      requires Valid() && !InMarking() && phase != SwpAllgc
      ensures phase != Atomic && AllWhite(color, currentwhite) && freed == doomed && freed !! color.Keys
    {
    }

    /** The machine once `next` is linked is in the same phase as before. */
    ghost predicate LinkOk(heap: Heap, c: Colors, dead1: DeadKeys)
      reads this
    {
      Consistent(heap, c, dead1, currentwhite, main, globals) && Listed([next] + allgc, c) &&
        IdsOk(c, next + 1, doomed) &&
      if InMarking() then
        Tricolor(heap, c, dead1, currentwhite, Lists(), {}, heap.Keys) && aside == [] && IsMarked(c, Ref(main)) &&
        MarkLists(heap, c, dead1, phase, grayagain, weak, allweak, ephemeron)
      else if phase == SwpAllgc then
        SweepOk([next] + allgc, c, currentwhite, if sweepgc.At? then At(sweepgc.i + 1) else sweepgc, doomed, freed)
      else
        phase != Atomic && AllWhite(c, currentwhite) && freed == doomed && freed !! c.Keys
    }

    lemma CanLink(b: Object, dead1: DeadKeys)
      requires Valid() && Shaped(b) && dead1 == Forget(dead, next)
      requires b.meta == Plain && (forall i :: 0 <= i < |b.slots| ==> b.slots[i] == Plain) && b.nodes == []
      ensures next !in objs && LinkOk(objs[next := b], color[next := White(currentwhite)], dead1)
    {
      hide Tricolor, Listed, Lists, SweptTo, Accounted, MarkLists, Sound, OneWhite, Consistent, AllWhite, Shaped,
        InPhase, IdsOk, SweepOk;
      FreshId(objs, color, dead, currentwhite, main, globals, next, doomed);
      UnusedDead(objs, color, dead, dead1, currentwhite, main, globals, next);
      NewConsistent(objs, color, dead1, currentwhite, main, globals, next, b);
      NewListed(allgc, color, currentwhite, next);
      NewIds(color, next, doomed, currentwhite);
      if InMarking() {
        MarkReads();
        LinkMarking(b, next, dead1);
      } else if phase == SwpAllgc {
        SweepReads();
        NewSweepOk(allgc, color, currentwhite, sweepgc, doomed, freed, next);
      } else {
        IdleReads();
        NewWhite(color, currentwhite, next, doomed, freed);
      }
    }

    lemma CursorReads()
      requires Valid()
      ensures phase == SwpAllgc ==> sweepgc != At(0)
    {
    }

    method Link(b: Object) returns (x: Id)
      requires Valid() && Shaped(b)
      requires b.meta == Plain && (forall i :: 0 <= i < |b.slots| ==> b.slots[i] == Plain) && b.nodes == []
      modifies `objs, `color, `dead, `allgc, `sweepgc, `next
      ensures Valid() && x !in old(objs) && objs == old(objs)[x := b] && color == old(color)[x := White(currentwhite)]
      ensures x == old(next) && next == x + 1 && dead == Forget(old(dead), x)
    {
      hide Valid, LinkOk;
      x := next;
      CursorReads();
      CanLink(b, Forget(dead, x));
      Attach(objs[x := b], color[x := White(currentwhite)], Forget(dead, x));
    }

    method Attach(heap: Heap, c: Colors, dead1: DeadKeys)
      requires LinkOk(heap, c, dead1) && (phase == SwpAllgc ==> sweepgc != At(0))
      modifies `objs, `color, `dead, `allgc, `sweepgc, `next
      ensures Valid() && objs == heap && color == c && next == old(next) + 1 && dead == dead1
    {
      hide Tricolor, Listed, Lists, SweptTo, Accounted, MarkLists, Sound, OneWhite, Consistent, AllWhite, IdsOk,
        SweepOk, IsMarked, Valid, Steady, InPhase, MarkPhase;
      Put(heap, c, dead1);
      Attached();
    }

    /** Links `next` at the head of the list of all objects. */
    method Put(heap: Heap, c: Colors, dead1: DeadKeys)
      modifies `objs, `color, `dead, `allgc, `sweepgc, `next
      ensures objs == heap && color == c && dead == dead1 && next == old(next) + 1 && allgc == [old(next)] + old(allgc)
      ensures sweepgc == if old(sweepgc).At? then At(old(sweepgc).i + 1) else old(sweepgc)
    {
      hide *;
      objs, color, dead := heap, c, dead1;
      allgc := [next] + allgc;
      sweepgc := if sweepgc.At? then At(sweepgc.i + 1) else sweepgc;
      next := next + 1;
    }

    lemma Attached()
      requires Consistent(objs, color, dead, currentwhite, main, globals) && Listed(allgc, color) &&
        IdsOk(color, next, doomed)
      requires InMarking() ==>
        Tricolor(objs, color, dead, currentwhite, Lists(), {}, objs.Keys) && aside == [] &&
          IsMarked(color, Ref(main)) &&
        MarkLists(objs, color, dead, phase, grayagain, weak, allweak, ephemeron)
      requires phase == SwpAllgc ==> SweepOk(allgc, color, currentwhite, sweepgc, doomed, freed) && sweepgc != At(0)
      requires !InMarking() && phase != SwpAllgc ==>
        phase != Atomic && AllWhite(color, currentwhite) && freed == doomed && freed !! color.Keys
      ensures Valid()
    {
      hide Tricolor, Listed, Lists, SweptTo, Accounted, MarkLists, Sound, OneWhite, Consistent, AllWhite, IdsOk,
        SweepOk, IsMarked;
    }

    lemma LinkMarking(b: Object, x: Id, dead1: DeadKeys)
      requires MarkPhase({}) && OneWhite(color, currentwhite) && InMarking() && x !in objs && x !in color
      requires dead1 == Forget(dead, x)
      requires Consistent(objs[x := b], color[x := White(currentwhite)], dead1, currentwhite, main, globals)
      ensures Tricolor(objs[x := b], color[x := White(currentwhite)], dead1, currentwhite, Lists(), {},
        objs[x := b].Keys)
      ensures MarkLists(objs[x := b], color[x := White(currentwhite)], dead1, phase, grayagain, weak, allweak,
        ephemeron)
      ensures IsMarked(color[x := White(currentwhite)], Ref(main))
    {
      hide Tricolor, Lists, MarkLists, Sound, Consistent;
      ConsistentSound(objs[x := b], color[x := White(currentwhite)], dead1, currentwhite, main, globals);
      DeadTricolor(objs, color, dead, dead1, currentwhite, Lists(), x);
      NewTricolor(objs, color, dead1, currentwhite, Lists(), x, b);
      NewLists(objs, color, dead, dead1, phase, grayagain, weak, allweak, ephemeron, x, b, currentwhite);
    }

    method SetStack(vs: seq<Val>)
      requires Valid() && forall i :: 0 <= i < |vs| ==> LiveVal(color, currentwhite, vs[i])
      modifies `objs, `dead
      ensures Valid() && main in old(objs) && objs == old(objs)[main := old(objs)[main].(slots := vs)]
      ensures dead == old(dead)
    {
      hide Tricolor, Listed, Lists, SweptTo, Accounted, MarkLists, Sound, OneWhite, Consistent, AllWhite, InPhase,
        IdsOk;
      ThreadReads();
      Store(main, objs[main].(slots := vs), dead);
      SettleThread(main);
    }

    /** Before a write while marking: a black object has nothing white. */
    lemma BlackReads(o: Id)
      requires Valid() && o in objs && o in color
      ensures InMarking() && color[o] == Black ==>
        AllMarked(objs, color, dead, o) && !objs[o].kind.Thread? && o !in allweak
    {
      if InMarking() && color[o] == Black {
        BlackFacts(objs, color, dead, currentwhite, Lists(), objs.Keys, o);
        AllWeakInLists();
        assert multiset(allweak)[o] <= Lists()[o];
      }
    }

    lemma AllWeakInLists()
      ensures multiset(allweak) <= Lists()
    {
    }

    lemma HandReads(o: Id)
      requires Valid() && OnStack(Ref(o))
      ensures o in objs && o in color && Live(color, currentwhite, o) && Shaped(objs[o]) &&
        LiveObject(color, dead, currentwhite, o, objs[o])
      ensures forall i :: (o, i) in dead ==> 0 <= i < |objs[o].nodes| && objs[o].nodes[i].val == Empty
    {
      StackLive(Ref(o));
    }

    /** Assigns an upvalue, a user value, an array element or another thread's stack slot. */
    method SetSlot(o: Id, i: nat, v: Val, back: bool)
      requires Valid() && OnStack(Ref(o)) && OnStack(v) && o != main && o in objs && i < |objs[o].slots|
      requires back ==> objs[o].kind.Holder? || objs[o].kind.Table?
      requires objs[o].kind.Table? ==> back
      modifies `objs, `dead, `color, `gray, `grayagain, `aside
      ensures Spares(old(color), currentwhite, InMarking(), color)
      ensures Valid() && objs == old(objs)[o := old(objs)[o].(slots := old(objs)[o].slots[i := v])] && dead == old(dead)
    {
      hide Spares, Tricolor, Listed, Lists, SweptTo, Accounted, MarkLists, Sound, OneWhite, Consistent, AllWhite,
        InPhase, IdsOk, AllMarked, NearlyMarked, LiveObject, Between, Shaped;
      HandReads(o);
      BlackReads(o);
      StackLive(v);
      var b := objs[o].(slots := objs[o].slots[i := v]);
      SlotWrite(objs, color, dead, currentwhite, o, i, v);
      ListedWrite(o, b);
      Store(o, b, dead);
      if b.kind.Thread? {
        SparesSame(color, currentwhite, InMarking());
        SettleThread(o);
      } else if back {
        BackAndSettle(o, v);
      } else {
        Barrier(o, v);
      }
    }

    /** A write that leaves kind and metatable alone is no matter for the listed tables. */
    lemma ListedWrite(o: Id, b: Object)
      requires Valid() && o in objs && b.kind == objs[o].kind && b.meta == objs[o].meta
      ensures InMarking() && o in allweak ==> b.kind == Table(AllWeak) && IsMarked(color, b.meta)
    {
    }

    method BackAndSettle(o: Id, v: Val)
      requires Between(o) && o in objs && Pending(o, {v}) && LiveVal(color, currentwhite, v)
      requires Live(color, currentwhite, o) && (objs[o].kind.Holder? || objs[o].kind.Table?)
      modifies `color, `grayagain, `aside
      ensures Valid() && objs == old(objs) && Spares(old(color), currentwhite, InMarking(), color)
    {
      hide *;
      assert {} + {v} == {v};
      BarrierBack(o, v, {});
      Settle(o);
    }

    /** Assigns to a key that is there: its value, or `Empty` to remove it. */
    method SetVal(h: Id, i: nat, v: Val)
      requires Valid() && OnStack(Ref(h)) && OnStack(v) && h in objs && objs[h].kind.Table? && i < |objs[h].nodes|
      requires (h, i as int) !in dead
      modifies `objs, `dead, `color, `grayagain, `aside
      ensures Spares(old(color), currentwhite, InMarking(), color)
      ensures Valid() && dead == old(dead)
      ensures objs == old(objs)[h := WithNode(old(objs)[h], i, Node(old(objs)[h].nodes[i].key, v))]
    {
      hide Spares, Tricolor, Listed, Lists, SweptTo, Accounted, MarkLists, Sound, OneWhite, Consistent, AllWhite,
        InPhase, IdsOk, AllMarked, NearlyMarked, LiveObject, Between, Shaped;
      HandReads(h);
      BlackReads(h);
      StackLive(v);
      var n := Node(objs[h].nodes[i].key, v);
      var b := WithNode(objs[h], i, n);
      NodeRead(color, dead, currentwhite, h, objs[h], i);
      NodeWrite(objs, color, dead, dead, currentwhite, h, i, n);
      KeyKept(objs, color, dead, h, i, n);
      ListedWrite(h, b);
      Store(h, b, dead);
      BackAndSettle(h, v);
    }

    /** Inserts a new key, in an empty entry or a new one. */
    method NewKey(h: Id, i: nat, k: Val, v: Val)
      requires Valid() && OnStack(Ref(h)) && OnStack(k) && OnStack(v) && h in objs && objs[h].kind.Table?
      requires i == |objs[h].nodes| || (i < |objs[h].nodes| && objs[h].nodes[i].val == Empty)
      modifies `objs, `dead, `color, `grayagain, `aside
      ensures Spares(old(color), currentwhite, InMarking(), color)
      ensures Valid() && dead == old(dead) - {(h, i as int)}
      ensures objs == old(objs)[h := WithNode(old(objs)[h], i, Node(k, v))]
    {
      hide Spares, Tricolor, Listed, Lists, SweptTo, Accounted, MarkLists, Sound, OneWhite, Consistent, AllWhite,
        InPhase, IdsOk, AllMarked, NearlyMarked, LiveObject, Between, Shaped;
      HandReads(h);
      BlackReads(h);
      StackLive(k);
      StackLive(v);
      var b := WithNode(objs[h], i, Node(k, v));
      var dead1 := dead - {(h, i as int)};
      NodeWrite(objs, color, dead, dead1, currentwhite, h, i, Node(k, v));
      ListedWrite(h, b);
      Store(h, b, dead1);
      assert {k, v} == {v} + {k};
      BarrierBack(h, k, {v});
      ghost var c := color;
      SparesVal(old(color), currentwhite, InMarking(), color, v);
      BackAndSettle(h, v);
      SparesTwice(old(color), currentwhite, InMarking(), c, color);
    }

    /** Whether a new metatable reaches the collector: an all-weak table that was visited in
        this cycle is not visited again, and being gray it has no barrier. */
    predicate MetaSeen(o: Id, v: Val, mode: Mode)
      reads `phase, `allweak, `color
    {
      InMarking() && o in allweak ==> mode == AllWeak && IsMarked(color, v)
    }

    /** Sets a metatable, and with it the mode of a table.  The invariant survives exactly when
        the collector will see it. */
    method SetMeta(o: Id, v: Val, mode: Mode)
      requires Valid() && OnStack(Ref(o)) && OnStack(v) && o in objs && (objs[o].kind.Holder? || objs[o].kind.Table?)
      modifies `objs, `color, `gray
      ensures Valid() <==> old(MetaSeen(o, v, mode))
      ensures Spares(old(color), currentwhite, InMarking(), color)
      ensures objs == old(objs)[o := WithMeta(old(objs)[o], v, mode)]
    {
      hide Spares, Tricolor, Listed, Lists, SweptTo, Accounted, MarkLists, Sound, OneWhite, Consistent, AllWhite,
        InPhase, IdsOk, AllMarked, NearlyMarked, LiveObject, Between, Shaped, Valid, StoreOk;
      HandReads(o);
      BlackReads(o);
      StackLiveToo(v);
      var b := WithMeta(objs[o], v, mode);
      MetaWrite(objs, color, dead, currentwhite, o, v, mode);
      ghost var seen := MetaSeen(o, v, mode);
      ListedTable(o);
      if seen { CanStore(o, b, dead); }
      ghost var ok := StoreOk(o, b, dead);
      StoreMeta(o, b);
      SparesSame(color, currentwhite, InMarking());
      if color[o] == Black {
        Barrier(o, v);
      } else if seen {
        Settle(o);
      } else {
        Unseen(o);
      }
    }

    lemma StackLiveToo(v: Val)
      requires Valid() && OnStack(v)
      ensures LiveVal(color, currentwhite, v)
    {
      StackLive(v);
    }

    /** A listed table is gray. */
    lemma ListedTable(o: Id)
      requires Valid() && o in objs && o in color
      ensures InMarking() && color[o] == Black ==> o !in allweak
      ensures InMarking() && o in allweak ==> objs[o].kind.Table?
    {
      BlackReads(o);
    }

    method StoreMeta(o: Id, b: Object)
      requires Valid() && o in objs
      modifies `objs
      ensures objs == old(objs)[o := b]
      ensures old(StoreOk(o, b, dead)) ==> Between(o)
    {
      hide Tricolor, Listed, IdsOk, Lists, Consistent, SweptTo, Accounted, MarkLists, AllWhite;
      objs := objs[o := b];
    }

    lemma Unseen(o: Id)
      requires InMarking() && o in allweak && o in objs &&
        !(objs[o].kind == Table(AllWeak) && IsMarked(color, objs[o].meta))
      ensures !Valid()
    {
    }

    /** Between two cycles every closed set that holds the roots will do, and the whole heap. */
    lemma PauseClosed(m: set<Id>)
      requires Valid() && phase == Pause
      requires m == objs.Keys || (Closed(objs, m) && RootsKept(objs, m, main, globals))
      ensures Bounded(m)
    {
      hide Closed, AllWhite, Steady;
      WholeHeap();
      WhiteWithin(objs, color, currentwhite, m);
    }

    lemma PauseBounded(m: set<Id>)
      requires Valid() && phase == Pause && Closed(objs, m) && RootsIn(m)
      ensures Bounded(m)
    {
      hide Closed, RootsIn, AllWhite, Steady;
      WhiteWithin(objs, color, currentwhite, m);
    }

    /** After the atomic step the collector goes on freeing what is outside `kept`. */
    twostate lemma CollectingStays(new heap: Heap, new kept: set<Id>, new m: set<Id>, new marked: set<Id>)
      requires old(Collecting(heap, kept)) && Stepped(m, marked)
      requires old(!InMarking() && phase != Pause) && currentwhite == old(currentwhite)
      ensures Collecting(heap, kept)
    {
      hide Pruned, SameKinds, OnlyDeadFreed, Closed, RootsKept;
      if old(phase) == SwpAllgc {
        SweptPruned(heap, old(objs), old(color), currentwhite, objs, color, kept);
        SweepKinds(heap, old(objs), old(color), currentwhite, objs, color);
      }
    }

    /** The rest of a cycle without interruption.  Strings apart, what survives is the least set
        that holds the roots and what was marked before, and is closed under strong references
        and live ephemeron entries. */
    method FinishCycle(ghost m: set<Id>) returns (ghost kept: set<Id>)
      requires Valid() && InMarking() && Bounded(m)
      modifies this
      ensures Valid() && phase == Pause && main == old(main) && globals == old(globals) && next == old(next)
      ensures MarkedSet(old(objs), old(color)) <= kept
      ensures Closed(old(objs), kept) && RootsKept(old(objs), kept, main, globals) && kept <= m
      ensures forall x :: x in old(objs) && old(objs)[x].kind != Leaf ==> (x in objs <==> x in kept)
      ensures SameKinds(old(objs), objs) && Pruned(old(objs), objs, kept)
    {
      hide Pruned, Tricolor, Listed, IdsOk, Lists, Consistent, SweptTo, Accounted, MarkLists, Sound, OneWhite, Closed,
        Within, RootsIn, InPhase, OnlyDeadFreed, RootsKept, Valid, MarkedSet, SameKinds, Collected, LiveSet, Spares,
        StepsLeft;
      kept := {};
      while phase != Pause
        invariant Valid() && main == old(main) && globals == old(globals) && next == old(next)
        invariant InMarking() ==>
          objs == old(objs) && Bounded(m) && MarkedSet(objs, old(color)) <= MarkedSet(objs, color)
        invariant !InMarking() ==>
          Collecting(old(objs), kept) && MarkedSet(old(objs), old(color)) <= kept <= m &&
          Closed(old(objs), kept) && RootsKept(old(objs), kept, main, globals)
        decreases StepsLeft()
      {
        ghost var atomic, marking := phase == EnterAtomic, InMarking();
        label Before:
        ghost var marked := SingleStep(m);
        if atomic {
          kept := marked;
        } else if !marking {
          CollectingStays@Before(old(objs), kept, m, marked);
        }
      }
    }

    /** A whole cycle by single steps. */
    method FullCycle(ghost m: set<Id>) returns (ghost kept: set<Id>)
      requires Valid() && phase == Pause && Closed(objs, m) && RootsIn(m)
      modifies this
      ensures Valid() && phase == Pause && main == old(main) && globals == old(globals)
      ensures Closed(old(objs), kept) && RootsKept(old(objs), kept, main, globals) && kept <= m
      ensures Pruned(old(objs), objs, kept)
      ensures forall x :: x in old(objs) && old(objs)[x].kind != Leaf ==> (x in objs <==> x in kept)
    {
      hide Pruned, Closed, Within, RootsIn, RootsKept, Valid, SameKinds, Collected, LiveSet, Spares, MarkedSet,
        StepsLeft;
      PauseBounded(m);
      ghost var marked := SingleStep(m);
      kept := FinishCycle(m);
    }

    /** Between two cycles any table may be given any metatable there is. */
    method Adopt(o: Id, v: Val, mode: Mode)
      requires Valid() && phase == Pause && o in objs && objs[o].kind.Table? && Exists(objs, v)
      modifies `objs
      ensures Valid() && objs == old(objs)[o := WithMeta(old(objs)[o], v, mode)]
    {
      hide Tricolor, Listed, Lists, SweptTo, Accounted, MarkLists, Sound, OneWhite, AllMarked, NearlyMarked,
        LiveObject, Between, Shaped;
      WhiteReads(color, currentwhite);
      MetaWrite(objs, color, dead, currentwhite, o, v, mode);
      var b := WithMeta(objs[o], v, mode);
      CanStore(o, b, dead);
      StoreMeta(o, b);
      Settle(o);
    }
  }
}
