/**
 The timers of `timer.c` on top of the pointer heap, with the handle flags and the count of
 active handles of `uv-common.h`.
 */
module Timers {
  import opened Common
  import opened PointerHeap

  const MAX_TIME: nat := 0xFFFF_FFFF_FFFF_FFFF
  const INT_MAX: nat := 0x7FFF_FFFF

  /** What a timer is compared by, and the handle its node is embedded in. */
  datatype Rank = Rank(timeout: nat, startId: nat, owner: nat)

  function TimerLessThan(a: Rank, b: Rank): bool {
    if a.timeout < b.timeout then true
    else if b.timeout < a.timeout then false
    else if a.startId < b.startId then true
    else false
  }

  lemma TimersOrdered()
    ensures StrictWeak(TimerLessThan)
  {
  }

  datatype Handle = Handle(active: bool, ref: bool, closing: bool, hasCb: bool, repeat: nat)

  /** How many of the first handles keep the loop alive. */
  ghost function Counting(hs: seq<Handle>): nat {
    if hs == [] then 0 else Counting(hs[..|hs| - 1]) + if hs[|hs| - 1].active && hs[|hs| - 1].ref then 1 else 0
  }

  ghost function One(h: Handle): int { if h.active && h.ref then 1 else 0 }

  lemma {:induction false} CountingChange(hs: seq<Handle>, i: nat, h: Handle)
    requires i < |hs|
    ensures Counting(hs[i := h]) == Counting(hs) - One(hs[i]) + One(h)
  {
    var last := |hs| - 1;
    if i == last {
      assert hs[i := h][..last] == hs[..last];
    } else {
      CountingChange(hs[..last], i, h);
      assert hs[i := h][..last] == hs[..last][i := h];
    }
  }

  /** The deadline, clamped to the largest time there is. */
  function Deadline(time: nat, timeout: nat): nat {
    if time + timeout > MAX_TIME then MAX_TIME else time + timeout
  }

  /** A positive timeout lies in the future exactly when time has not reached its end. */
  lemma DeadlineLater(time: nat, timeout: nat)
    requires time <= MAX_TIME && timeout >= 1
    ensures Deadline(time, timeout) > time <==> time < MAX_TIME
  {
  }

  /** That is the sum in 64 bits, or all ones if the sum wrapped around. */
  lemma DeadlineWraps(time: nat, timeout: nat)
    requires time < 0x1_0000_0000_0000_0000 && timeout < 0x1_0000_0000_0000_0000
    ensures
      var clamped := (time + timeout) % 0x1_0000_0000_0000_0000;
      Deadline(time, timeout) == if clamped < timeout then 0xFFFF_FFFF_FFFF_FFFF else clamped
  {
    if time + timeout >= 0x1_0000_0000_0000_0000 {
      assert (time + timeout) % 0x1_0000_0000_0000_0000 == time + timeout - 0x1_0000_0000_0000_0000;
    }
  }

  /** What a callback may do. */
  datatype Action =
    | Start(h: nat, timeout: nat, repeat: nat)
    | Stop(s: nat)
    | Again(a: nat)
    | SetRepeat(r: nat, every: nat)
    | Reference(f: nat)
    | Unreference(u: nat)
    | Close(c: nat)
  {
    function Target(): nat {
      match this
      case Start(h, _, _) => h
      case Stop(h) => h
      case Again(h) => h
      case SetRepeat(h, _) => h
      case Reference(h) => h
      case Unreference(h) => h
      case Close(h) => h
    }
  }

  /** A timer's handle, and whether the timer's time has come. */
  datatype Timer = Timer(handle: Handle, due: bool)

  /** What an action makes of the timer it is aimed at. */
  function After(a: Action, t: Timer, time: nat): Timer {
    var h := t.handle;
    match a
    case Start(_, timeout, repeat) =>
      if h.closing then t
      else Timer(h.(active := true, hasCb := true, repeat := repeat), Deadline(time, timeout) <= time)
    case Stop(_) => Timer(h.(active := false), false)
    case Again(_) =>
      if !h.hasCb || h.repeat == 0 then t
      else if h.closing then Timer(h.(active := false), false)
      else Timer(h.(active := true), Deadline(time, h.repeat) <= time)
    case SetRepeat(_, every) => Timer(h.(repeat := every), t.due)
    case Reference(_) => Timer(h.(ref := true), t.due)
    case Unreference(_) => Timer(h.(ref := false), t.due)
    case Close(_) => Timer(h.(active := false, closing := true), false)
  }

  function AfterAll(acts: seq<Action>, t: Timer, time: nat): Timer {
    if acts == [] then t else After(acts[|acts| - 1], AfterAll(acts[..|acts| - 1], t, time), time)
  }

  /** A timer's turn, and what its callback does to its own handle. */
  function Round(acts: seq<Action>, t: Timer, time: nat): Timer {
    AfterAll(acts, After(Again(0), After(Stop(0), t, time), time), time)
  }

  /** A due timer that is due again after its turn, and after the next one.  From then on it is
      always due again: the first round settles its interval. */
  predicate Recurs(acts: seq<Action>, t: Timer, time: nat) {
    t.due && Round(acts, t, time).due && Round(acts, Round(acts, t, time), time).due
  }

  predicate Running(t: Timer) {
    t.due ==> t.handle.hasCb && !t.handle.closing
  }

  /** The interval that some actions set, if they do. */
  function IntervalSet(acts: seq<Action>): Option<nat> {
    if acts == [] then None else
    match acts[|acts| - 1]
    case Start(_, _, repeat) => Some(repeat)
    case SetRepeat(_, every) => Some(every)
    case _ => IntervalSet(acts[..|acts| - 1])
  }

  /** A timer that is due after some actions was not closed by them, and has the interval set. */
  lemma {:induction false} IntervalSettles(acts: seq<Action>, t: Timer, time: nat)
    requires t.handle.hasCb && !t.handle.closing
    ensures var s := AfterAll(acts, t, time);
      s.handle.hasCb && (s.handle.closing ==> !s.due) &&
      (!s.handle.closing ==>
        s.handle.repeat == if IntervalSet(acts).None? then t.handle.repeat else IntervalSet(acts).value)
  {
    if acts != [] { IntervalSettles(acts[..|acts| - 1], t, time); }
  }

  /** But for the reference flag two timers are in the same state. */
  predicate Alike(t: Timer, s: Timer) {
    t.handle.hasCb && s.handle.hasCb && t.handle.closing == s.handle.closing && t.handle.repeat == s.handle.repeat &&
    t.handle.active == s.handle.active && t.due == s.due
  }

  lemma AlikeAfter(a: Action, t: Timer, s: Timer, time: nat)
    requires Alike(t, s)
    ensures Alike(After(a, t, time), After(a, s, time))
  {
    hide Deadline;
    match a
    case Start(_, _, _) =>
    case Stop(_) =>
    case Again(_) =>
    case SetRepeat(_, _) =>
    case Reference(_) =>
    case Unreference(_) =>
    case Close(_) =>
  }

  lemma {:induction false} AlikeAfterAll(acts: seq<Action>, t: Timer, s: Timer, time: nat)
    requires Alike(t, s)
    ensures Alike(AfterAll(acts, t, time), AfterAll(acts, s, time))
  {
    hide After, Alike;
    if acts != [] {
      AlikeAfterAll(acts[..|acts| - 1], t, s, time);
      AlikeAfter(acts[|acts| - 1], AfterAll(acts[..|acts| - 1], t, time), AfterAll(acts[..|acts| - 1], s, time), time);
    }
  }

  /** Once a timer is due after two rounds it is due after every round. */
  lemma RecursOn(acts: seq<Action>, t: Timer, time: nat)
    requires Recurs(acts, t, time) && Running(t)
    ensures Running(Round(acts, t, time)) && Recurs(acts, Round(acts, t, time), time)
  {
    hide AfterAll, IntervalSet;
    var t1 := Round(acts, t, time);
    var begun := After(Again(0), After(Stop(0), t, time), time);
    var begun1 := After(Again(0), After(Stop(0), t1, time), time);
    IntervalSettles(acts, begun, time);
    IntervalSettles(acts, begun1, time);
    var t2 := Round(acts, t1, time);
    AlikeAfterAll(acts, begun1, After(Again(0), After(Stop(0), t2, time), time), time);
  }

  lemma RunsOn(acts: seq<Action>, t: Timer, time: nat)
    requires t.due && Running(t)
    ensures Running(Round(acts, t, time))
  {
    hide AfterAll, IntervalSet;
    IntervalSettles(acts, After(Again(0), After(Stop(0), t, time), time), time);
  }

  /** A callback that does nothing, or restarts its timer by `uv_timer_again`, goes on for ever
      exactly at the end of time and if the timer repeats; one that starts its timer anew, exactly
      if the deadline is not in the future; one that stops or closes it, never. */
  lemma RecursExactly(h: nat, timeout: nat, repeat: nat, t: Timer, time: nat)
    requires t.due && Running(t) && time <= MAX_TIME
    ensures Recurs([], t, time) <==> t.handle.repeat > 0 && time == MAX_TIME
    ensures Recurs([Again(h)], t, time) <==> t.handle.repeat > 0 && time == MAX_TIME
    ensures Recurs([Start(h, timeout, repeat)], t, time) <==> timeout == 0 || time == MAX_TIME
    ensures !Recurs([Stop(h)], t, time) && !Recurs([Close(h)], t, time)
  {
    hide After, Round;
    QuietRounds(t, time);
    if Round([], t, time).due { QuietRounds(Round([], t, time), time); }
    OneRound(Again(h), t, time);
    if Round([Again(h)], t, time).due { OneRound(Again(h), Round([Again(h)], t, time), time); }
    OneRound(Start(h, timeout, repeat), t, time);
    var start := Start(h, timeout, repeat);
    if Round([start], t, time).due { OneRound(start, Round([start], t, time), time); }
    OneRound(Stop(h), t, time);
    OneRound(Close(h), t, time);
  }

  lemma QuietRounds(t: Timer, time: nat)
    requires t.due && Running(t) && time <= MAX_TIME
    ensures var s := Round([], t, time);
      s.handle.repeat == t.handle.repeat && Running(s) && (s.due <==> t.handle.repeat > 0 && time == MAX_TIME)
  {
  }

  lemma OneRound(a: Action, t: Timer, time: nat)
    requires t.due && Running(t) && time <= MAX_TIME
    ensures var s := Round([a], t, time);
      Running(s) &&
      (a.Again? ==> s.handle.repeat == t.handle.repeat && (s.due <==> t.handle.repeat > 0 && time == MAX_TIME)) &&
      (a.Start? ==> (s.due <==> a.timeout == 0 || time == MAX_TIME)) && (a.Stop? || a.Close? ==> !s.due)
  {
    AfterOne(a, After(Again(0), After(Stop(0), t, time), time), time);
  }

  lemma AfterOne(a: Action, t: Timer, time: nat)
    ensures AfterAll([a], t, time) == After(a, t, time)
  {
    hide After;
    var one := [a];
    assert one[..|one| - 1] == [] && one[|one| - 1] == a;
    assert AfterAll([], t, time) == t;
  }

  lemma {:induction false} NoneCounted(hs: seq<Handle>)
    requires forall i :: 0 <= i < |hs| ==> !hs[i].active
    ensures Counting(hs) == 0
  {
    if hs != [] { NoneCounted(hs[..|hs| - 1]); }
  }

  method MakeNodes(n: nat) returns (ns: seq<Node<Rank>>)
    ensures |ns| == n && Distinct(ns) && fresh(ns) && forall i :: 0 <= i < n ==> ns[i].key.owner == i
  {
    ns := [];
    for i := 0 to n
      invariant |ns| == i && Distinct(ns) && fresh(ns) && forall j :: 0 <= j < i ==> ns[j].key.owner == j
    {
      var node := new Node(Rank(0, 0, i));
      ns := ns + [node];
    }
  }

  type Ranks = map<Node<Rank>, Rank>

  ghost function KeyMap(nodes: seq<Node<Rank>>): Ranks
    reads nodes
  {
    map n | n in nodes :: n.key
  }

  /** Each node belongs to its handle. */
  ghost predicate Owned(nodes: seq<Node<Rank>>, keys: Ranks) {
    Distinct(nodes) && forall i :: 0 <= i < |nodes| ==> nodes[i] in keys && keys[nodes[i]].owner == i
  }

  /** The active flag says whether the node is in the heap. */
  ghost predicate Flagged(hs: seq<Handle>, nodes: seq<Node<Rank>>, heap: set<Node<Rank>>) {
    && |hs| == |nodes| && heap <= Nodes(nodes)
    && (forall i :: 0 <= i < |nodes| ==> (hs[i].active <==> nodes[i] in heap))
    && (forall i :: 0 <= i < |hs| && hs[i].active ==> hs[i].hasCb && !hs[i].closing)
  }

  /** Starts are numbered: no two timers in the heap have the same number. */
  ghost predicate Numbered(heap: set<Node<Rank>>, keys: Ranks, counter: nat) {
    (forall n :: n in heap ==> n in keys && keys[n].startId < counter) &&
    (forall n, m :: n in heap && m in heap && n != m ==> n in keys && m in keys && keys[n].startId != keys[m].startId)
  }

  lemma NumberedLess(heap: set<Node<Rank>>, keys: Ranks, counter: nat, n: Node<Rank>)
    requires Numbered(heap, keys, counter)
    ensures Numbered(heap - {n}, keys, counter)
  {
  }

  lemma NumberedMore(heap: set<Node<Rank>>, keys: Ranks, counter: nat, n: Node<Rank>, rank: Rank)
    requires Numbered(heap, keys, counter) && n !in heap && rank.startId == counter
    ensures Numbered(heap + {n}, keys[n := rank], counter + 1)
  {
  }

  lemma OwnedKept(nodes: seq<Node<Rank>>, keys: Ranks, h: nat, rank: Rank)
    requires Owned(nodes, keys) && h < |nodes| && rank.owner == h
    ensures Owned(nodes, keys[nodes[h] := rank])
  {
  }

  lemma SameKeys(nodes: seq<Node<Rank>>, keys: Ranks)
    requires keys.Keys == Nodes(nodes) && forall n :: n in nodes ==> n in keys && n.key == keys[n]
    ensures KeyMap(nodes) == keys
  {
    assert forall n :: n in nodes <==> n in Nodes(nodes);
  }

  lemma Unflagged(hs: seq<Handle>, nodes: seq<Node<Rank>>, heap: set<Node<Rank>>, h: nat, handle: Handle)
    requires Flagged(hs, nodes, heap) && Distinct(nodes) && h < |hs| && handle == hs[h].(active := false)
    ensures Flagged(hs[h := handle], nodes, heap - {nodes[h]})
  {
  }

  lemma HeapNodes(hs: seq<Handle>, nodes: seq<Node<Rank>>, ns: seq<Node<Rank>>)
    requires Flagged(hs, nodes, Nodes(ns))
    ensures |hs| == |nodes| && forall n: object :: n in ns ==> n in nodes
    ensures forall i :: 0 <= i < |ns| ==> ns[i] in nodes
    ensures forall i :: 0 <= i < |hs| && hs[i].active ==> nodes[i] in ns
  {
    forall n | n in ns ensures n in nodes {
      assert n in Nodes(ns) && n in Nodes(nodes);
    }
  }

  /** The deadlines in the heap. */
  ghost function RanksOf(heap: set<Node<Rank>>, keys: Ranks): set<Rank> {
    set n | n in heap && n in keys :: keys[n]
  }

  lemma OwnedDistinct(nodes: seq<Node<Rank>>, keys: Ranks)
    requires Owned(nodes, keys)
    ensures Distinct(nodes)
  {
  }

  lemma NotThere(hs: seq<Handle>, nodes: seq<Node<Rank>>, heap: set<Node<Rank>>, h: nat)
    requires Flagged(hs, nodes, heap) && h < |hs| && !hs[h].active
    ensures heap - {nodes[h]} == heap && hs[h := hs[h].(active := false)] == hs
  {
  }

  lemma SameHandle(hs: seq<Handle>, h: nat, hs': seq<Handle>, repeat: nat)
    requires h < |hs| &&
      hs' == hs[h := hs[h].(active := false)][h := hs[h].(active := true, hasCb := true, repeat := repeat)]
    ensures hs' == hs[h := hs[h].(active := true, hasCb := true, repeat := repeat)]
  {
  }

  lemma Idle(hs: seq<Handle>, nodes: seq<Node<Rank>>, heap: set<Node<Rank>>, ns: seq<Node<Rank>>, h: nat)
    requires Flagged(hs, nodes, heap) && h < |hs| && !hs[h].active && heap == Nodes(ns)
    ensures nodes[h] !in heap && nodes[h] !in ns && h < |nodes|
  {
    assert forall n :: n in ns ==> n in Nodes(ns);
  }

  lemma Flagging(hs: seq<Handle>, nodes: seq<Node<Rank>>, heap: set<Node<Rank>>, h: nat, handle: Handle)
    requires Flagged(hs, nodes, heap) && Distinct(nodes) && h < |hs| && handle.active && handle.hasCb && !handle.closing
    ensures Flagged(hs[h := handle], nodes, heap + {nodes[h]})
  {
  }

  class Loop {
    const nodes: seq<Node<Rank>>
    const queue: Heap<Rank>
    var handles: seq<Handle>
    var time: nat
    var timerCounter: nat
    var activeHandles: int

    /** Active handles of other kinds. */
    ghost const others: int

    ghost predicate Valid()
      reads this, queue, nodes, queue.ns
    {
      && queue.Valid() && queue.lt == TimerLessThan && time <= MAX_TIME
      && Owned(nodes, KeyMap(nodes)) && Flagged(handles, nodes, Nodes(queue.ns))
      && Numbered(Nodes(queue.ns), KeyMap(nodes), timerCounter)
      && activeHandles == others + Counting(handles)
    }

    /** A loop with `n` handles, none of them started. */
    constructor (n: nat, now: nat, active: int)
      requires now <= MAX_TIME
      ensures Valid() && |handles| == n && time == now && queue.ns == [] && activeHandles == active
      ensures fresh(queue) && fresh(nodes) && forall i :: 0 <= i < n ==>
        handles[i] == Handle(false, true, false, false, 0)
    {
      var q := new Heap<Rank>(TimerLessThan);
      var ns := MakeNodes(n);
      nodes := ns;
      queue := q;
      handles := seq(n, _ => Handle(false, true, false, false, 0));
      time, timerCounter, activeHandles, others := now, 0, active, active;
      new;
      TimersOrdered();
      NoneCounted(handles);
    }

    /** Stops a timer: its node leaves the heap and it counts no more. */
    method TimerStop(h: nat)
      requires Valid() && h < |handles|
      modifies this`handles, this`activeHandles, queue, nodes
      ensures Valid() && handles == old(handles)[h := old(handles)[h].(active := false)]
      ensures Nodes(queue.ns) == old(Nodes(queue.ns)) - {nodes[h]} && KeyMap(nodes) == old(KeyMap(nodes))
    {
      hide Linked, InHeapOrder, Keys, StrictWeak, Flagged, Distinct, Owned, Numbered, KeyMap;
      ghost var heap, keys := Nodes(queue.ns), KeyMap(nodes);
      OwnedDistinct(nodes, keys);
      HeapNodes(handles, nodes, queue.ns);
      Unflagged(handles, nodes, heap, h, handles[h].(active := false));
      NumberedLess(heap, keys, timerCounter, nodes[h]);
      CountingChange(handles, h, handles[h].(active := false));
      if !handles[h].active {
        NotThere(handles, nodes, heap, h);
        return;
      }
      Dequeue(h);
      HandleStop(h);
    }

    method Dequeue(h: nat)
      requires queue.Valid() && h < |nodes| && nodes[h] in queue.ns && forall n :: n in queue.ns ==> n in nodes
      modifies queue, nodes
      ensures queue.Valid() && Nodes(queue.ns) == old(Nodes(queue.ns)) - {nodes[h]} &&
        KeyMap(nodes) == old(KeyMap(nodes))
    {
      assert forall n: object :: n in queue.ns ==> n in nodes;
      assert forall i :: 0 <= i < |queue.ns| ==> queue.ns[i] in nodes;
      queue.Remove(nodes[h]);
    }

    method Enqueue(h: nat, rank: Rank)
      requires queue.Valid() && h < |nodes| && nodes[h] !in queue.ns && forall n :: n in queue.ns ==> n in nodes
      modifies queue, nodes
      ensures queue.Valid() && Nodes(queue.ns) == old(Nodes(queue.ns)) + {nodes[h]}
      ensures KeyMap(nodes) == old(KeyMap(nodes))[nodes[h] := rank]
    {
      assert forall n: object :: n in queue.ns ==> n in nodes;
      assert forall i :: 0 <= i < |queue.ns| ==> queue.ns[i] in nodes;
      nodes[h].key := rank;
      queue.Insert(nodes[h]);
    }

    method HandleStop(h: nat)
      requires h < |handles|
      modifies this`handles, this`activeHandles
      ensures handles == old(handles)[h := old(handles)[h].(active := false)]
      ensures activeHandles == old(activeHandles) - One(old(handles)[h])
    {
      if !handles[h].active { return; }
      handles := handles[h := handles[h].(active := false)];
      if handles[h].ref { activeHandles := activeHandles - 1; }
    }

    method HandleStart(h: nat)
      requires h < |handles|
      modifies this`handles, this`activeHandles
      ensures handles == old(handles)[h := old(handles)[h].(active := true)]
      ensures activeHandles == old(activeHandles) - One(old(handles)[h]) + One(handles[h])
    {
      if handles[h].active { return; }
      handles := handles[h := handles[h].(active := true)];
      if handles[h].ref { activeHandles := activeHandles + 1; }
    }

    /** Starts or restarts a timer. */
    method TimerStart(h: nat, cb: bool, timeout: nat, repeat: nat) returns (ok: bool)
      requires Valid() && h < |handles|
      modifies this`handles, this`activeHandles, this`timerCounter, queue, nodes
      ensures Valid() && |handles| == |old(handles)|
      ensures ok <==> !old(handles)[h].closing && cb
      ensures !ok ==> handles == old(handles) && timerCounter == old(timerCounter)
      ensures !ok ==> Nodes(queue.ns) == old(Nodes(queue.ns)) && KeyMap(nodes) == old(KeyMap(nodes))
      ensures ok ==>
        KeyMap(nodes) == old(KeyMap(nodes))[nodes[h] := Rank(Deadline(time, timeout), old(timerCounter), h)]
      ensures ok ==> Nodes(queue.ns) == old(Nodes(queue.ns)) + {nodes[h]} && timerCounter == old(timerCounter) + 1
      ensures ok ==> handles == old(handles)[h := old(handles)[h].(active := true, hasCb := true, repeat := repeat)]
    {
      hide Linked, InHeapOrder, Keys, StrictWeak, Flagged, Distinct, Numbered, Owned, KeyMap;
      if handles[h].closing || !cb { return false; }
      ghost var hs0 := handles;
      TimerStop(h);
      Arm(h, Rank(Deadline(time, timeout), timerCounter, h), repeat);
      SameHandle(hs0, h, handles, repeat);
      return true;
    }

    /** Enters a stopped timer into the heap under a new rank. */
    method Arm(h: nat, rank: Rank, repeat: nat)
      requires Valid() && h < |handles| && !handles[h].active && !handles[h].closing
      requires rank.startId == timerCounter && rank.owner == h
      modifies this`handles, this`activeHandles, this`timerCounter, queue, nodes
      ensures Valid() && KeyMap(nodes) == old(KeyMap(nodes))[nodes[h] := rank] && timerCounter == old(timerCounter) + 1
      ensures Nodes(queue.ns) == old(Nodes(queue.ns)) + {nodes[h]}
      ensures handles == old(handles)[h := old(handles)[h].(active := true, hasCb := true, repeat := repeat)]
    {
      hide Linked, InHeapOrder, Keys, StrictWeak, Flagged, Distinct, Numbered, Owned, KeyMap;
      ghost var heap, hs0, keys := Nodes(queue.ns), handles, KeyMap(nodes);
      OwnedDistinct(nodes, keys);
      HeapNodes(handles, nodes, queue.ns);
      Idle(handles, nodes, heap, queue.ns, h);
      NumberedMore(heap, keys, timerCounter, nodes[h], rank);
      OwnedKept(nodes, keys, h, rank);
      Flagging(hs0, nodes, heap, h, hs0[h].(active := true, hasCb := true, repeat := repeat));
      CountingChange(hs0, h, hs0[h].(active := true, hasCb := true, repeat := repeat));
      timerCounter := timerCounter + 1;
      handles := handles[h := handles[h].(hasCb := true, repeat := repeat)];
      Enqueue(h, rank);
      HandleStart(h);
      assert handles == hs0[h := hs0[h].(active := true, hasCb := true, repeat := repeat)];
    }

    /** Restarts a repeating timer; the interval is also its timeout. */
    method TimerAgain(h: nat) returns (ok: bool)
      requires Valid() && h < |handles|
      modifies this`handles, this`activeHandles, this`timerCounter, queue, nodes
      ensures Valid() && |handles| == |old(handles)| && ok == old(handles)[h].hasCb
      ensures !ok || old(handles)[h].repeat == 0 ==> handles == old(handles) && timerCounter == old(timerCounter)
      ensures !ok || old(handles)[h].repeat == 0 ==>
        Nodes(queue.ns) == old(Nodes(queue.ns)) && KeyMap(nodes) == old(KeyMap(nodes))
      ensures ok && old(handles)[h].repeat > 0 && !old(handles)[h].closing ==>
        Nodes(queue.ns) == old(Nodes(queue.ns)) + {nodes[h]}
      ensures ok && old(handles)[h].repeat > 0 && !old(handles)[h].closing ==>
        && KeyMap(nodes) == old(KeyMap(nodes))[nodes[h] := Rank(Deadline(time, old(handles)[h].repeat),
          old(timerCounter), h)]
        && handles == old(handles)[h := old(handles)[h].(active := true)]
      ensures ok && old(handles)[h].repeat > 0 && old(handles)[h].closing ==>
        && Nodes(queue.ns) == old(Nodes(queue.ns)) - {nodes[h]} && KeyMap(nodes) == old(KeyMap(nodes))
        && handles == old(handles)[h := old(handles)[h].(active := false)]
    {
      hide Linked, InHeapOrder, Keys, StrictWeak, Flagged, Distinct, Numbered, Owned, KeyMap;
      if !handles[h].hasCb { return false; }
      if handles[h].repeat > 0 {
        HeapNodes(handles, nodes, queue.ns);
        TimerStop(h);
        ghost var heap := Nodes(queue.ns);
        var started := TimerStart(h, true, handles[h].repeat, handles[h].repeat);
        assert heap == old(Nodes(queue.ns)) - {nodes[h]};
      }
      return true;
    }

    method SetRepeat(h: nat, every: nat)
      requires Valid() && h < |handles|
      modifies this`handles
      ensures Valid() && handles == old(handles)[h := old(handles)[h].(repeat := every)]
    {
      hide Distinct, Numbered, Owned, KeyMap;
      CountingChange(handles, h, handles[h].(repeat := every));
      handles := handles[h := handles[h].(repeat := every)];
    }

    method HandleRef(h: nat)
      requires Valid() && h < |handles|
      modifies this`handles, this`activeHandles
      ensures Valid() && handles == old(handles)[h := old(handles)[h].(ref := true)]
    {
      hide Distinct, Numbered, Owned, KeyMap;
      CountingChange(handles, h, handles[h].(ref := true));
      if handles[h].ref { assert handles[h := handles[h].(ref := true)] == handles; return; }
      handles := handles[h := handles[h].(ref := true)];
      if handles[h].closing { return; }
      if handles[h].active { activeHandles := activeHandles + 1; }
    }

    method HandleUnref(h: nat)
      requires Valid() && h < |handles|
      modifies this`handles, this`activeHandles
      ensures Valid() && handles == old(handles)[h := old(handles)[h].(ref := false)]
    {
      hide Distinct, Numbered, Owned, KeyMap;
      CountingChange(handles, h, handles[h].(ref := false));
      if !handles[h].ref { assert handles[h := handles[h].(ref := false)] == handles; return; }
      handles := handles[h := handles[h].(ref := false)];
      if handles[h].closing { return; }
      if handles[h].active { activeHandles := activeHandles - 1; }
    }

    /** Closing a handle stops it for good. */
    method Close(h: nat)
      requires Valid() && h < |handles|
      modifies this`handles, this`activeHandles, queue, nodes
      ensures Valid() && handles == old(handles)[h := old(handles)[h].(active := false, closing := true)]
      ensures Nodes(queue.ns) == old(Nodes(queue.ns)) - {nodes[h]} && KeyMap(nodes) == old(KeyMap(nodes))
    {
      hide Linked, InHeapOrder, Keys, StrictWeak, Distinct, Numbered, Owned, KeyMap, Counting, Nodes;
      TimerStop(h);
      CountingChange(handles, h, handles[h].(closing := true));
      handles := handles[h := handles[h].(closing := true)];
    }

    /** How long the loop may wait: -1 for ever, never past the nearest deadline, and as long as
        an `int` can say. */
    method NextTimeout() returns (wait: int)
      requires Valid()
      ensures wait == -1 <==> queue.ns == []
      ensures forall n :: n in queue.ns ==> 0 <= wait && (wait == 0 || time + wait <= n.key.timeout)
      ensures queue.ns != [] ==> exists n :: n in queue.ns && wait == Wait(time, n.key.timeout)
      ensures wait == 0 ==> exists n :: n in queue.ns && n.key.timeout <= time
      ensures wait > 0 && wait != 2147483647 ==> exists n :: n in queue.ns && n.key.timeout == time + wait
    {
      hide Linked, InHeapOrder, Keys, StrictWeak, Flagged, Distinct, Numbered, Owned, KeyMap;
      forall n | n in queue.ns ensures queue.min != null && queue.min in queue.ns &&
        !TimerLessThan(n.key, queue.min.key) {
        queue.MinIsLeast(n);
      }
      if queue.min == null {
        return -1;
      }
      assert queue.min == queue.ns[0];
      if queue.min.key.timeout <= time { return 0; }
      var diff := queue.min.key.timeout - time;
      if diff > INT_MAX { diff := INT_MAX; }
      return diff;
    }

    ghost function TimerAt(h: nat): Timer
      requires h < |handles| == |nodes|
      reads this, queue, nodes, queue.ns
    {
      Timer(handles[h], nodes[h] in Due(Nodes(queue.ns), KeyMap(nodes), time))
    }

    /** One thing a callback does. */
    method Act(a: Action)
      requires Valid() && a.Target() < |handles|
      modifies this`handles, this`activeHandles, this`timerCounter, queue, nodes
      ensures Valid() && |handles| == |old(handles)| == |nodes|
      ensures forall i :: 0 <= i < |handles| && i != a.Target() ==> handles[i] == old(handles)[i]
      ensures TimerAt(a.Target()) == After(a, old(TimerAt(a.Target())), time)
      ensures Shifted(a, old(TimerAt(a.Target())), old(Nodes(queue.ns)), old(KeyMap(nodes)), Nodes(queue.ns),
        KeyMap(nodes), nodes[a.Target()])
    {
      hide Linked, InHeapOrder, Keys, StrictWeak, Flagged, Distinct, Numbered, Owned, KeyMap, Due;
      ghost var heap, keys, hs, t := Nodes(queue.ns), KeyMap(nodes), handles, a.Target();
      AllNodes(handles, nodes, heap);
      ghost var n := nodes[t];
      ghost var counter := timerCounter;
      DueActive(handles, nodes, heap, keys, time, t);
      Away(heap, keys, time, n);
      match a {
        case Start(h, timeout, repeat) =>
          var started := TimerStart(h, true, timeout, repeat);
          Armed(heap, keys, time, n, Rank(Deadline(time, timeout), counter, h));
        case Stop(h) =>
          TimerStop(h);
        case Again(h) =>
          var again := TimerAgain(h);
          Armed(heap, keys, time, n, Rank(Deadline(time, hs[h].repeat), counter, h));
        case SetRepeat(h, every) =>
          SetRepeat(h, every);
        case Reference(h) =>
          HandleRef(h);
        case Unreference(h) =>
          HandleUnref(h);
        case Close(h) =>
          Close(h);
      }
    }

    /** The same as long as time has not reached its end, and a timer that is started gets a
        timeout of at least one. */
    method Perform(a: Action)
      requires Valid() && time < MAX_TIME && (a.Start? ==> a.timeout >= 1)
      modifies this`handles, this`activeHandles, this`timerCounter, queue, nodes
      ensures Valid() && |handles| == |old(handles)|
      ensures Fewer(time, old(Nodes(queue.ns)), old(KeyMap(nodes)), Nodes(queue.ns), KeyMap(nodes))
      ensures Obeys([a], time, old(Nodes(queue.ns)), old(KeyMap(nodes)), old(handles), Nodes(queue.ns), KeyMap(nodes),
        handles)
    {
      hide Linked, InHeapOrder, Keys, StrictWeak, Flagged, Distinct, Numbered, Owned, KeyMap, Changed, Fewer, Due,
        Obeys, ObeysAt, After, Shifted;
      ghost var heap, keys, hs := Nodes(queue.ns), KeyMap(nodes), handles;
      AllNodes(handles, nodes, heap);
      if a.Target() >= |handles| {
        FewerSame(time, heap, keys);
        MissObeys(a, time, nodes, heap, keys, handles);
        return;
      }
      ghost var t := TimerAt(a.Target());
      DueActive(handles, nodes, heap, keys, time, a.Target());
      Act(a);
      ShiftedChanged(a, t, time, heap, keys, Nodes(queue.ns), KeyMap(nodes), nodes[a.Target()]);
      if t.due { AfterObeys(a, t, hs, handles, time); }
      ActObeys(a, time, nodes, heap, keys, hs, Nodes(queue.ns), KeyMap(nodes), handles);
      ChangedFewer(time, heap, keys, Nodes(queue.ns), KeyMap(nodes), nodes[a.Target()]);
    }

    /** A callback is whatever it does. */
    method Callback(script: seq<Action>)
      requires Valid() && time < MAX_TIME && Restrained(script)
      modifies this`handles, this`activeHandles, this`timerCounter, queue, nodes
      ensures Valid() && |handles| == |old(handles)|
      ensures Fewer(time, old(Nodes(queue.ns)), old(KeyMap(nodes)), Nodes(queue.ns), KeyMap(nodes))
      ensures Obeys(script, time, old(Nodes(queue.ns)), old(KeyMap(nodes)), old(handles), Nodes(queue.ns),
        KeyMap(nodes), handles)
    {
      hide Linked, InHeapOrder, Keys, StrictWeak, Flagged, Distinct, Numbered, Owned, KeyMap, Changed, Fewer, Due,
        Obeys;
      FewerSame(time, Nodes(queue.ns), KeyMap(nodes));
      AllNodes(handles, nodes, Nodes(queue.ns));
      ObeysNothing(time, Nodes(queue.ns), KeyMap(nodes), nodes, handles);
      assert script[..0] == [];
      for i := 0 to |script|
        invariant Valid() && |handles| == |old(handles)|
        invariant Fewer(time, old(Nodes(queue.ns)), old(KeyMap(nodes)), Nodes(queue.ns), KeyMap(nodes))
        invariant Obeys(script[..i], time, old(Nodes(queue.ns)), old(KeyMap(nodes)), old(handles), Nodes(queue.ns),
          KeyMap(nodes), handles)
      {
        ghost var heap, keys, hs := Nodes(queue.ns), KeyMap(nodes), handles;
        Perform(script[i]);
        ObeysTwice(script[..i], [script[i]], time, old(Nodes(queue.ns)), old(KeyMap(nodes)), old(handles), heap, keys,
          hs,
          Nodes(queue.ns), KeyMap(nodes), handles);
        assert script[..i] + [script[i]] == script[..i + 1];
        FewerTwice(time, old(Nodes(queue.ns)), old(KeyMap(nodes)), heap, keys, Nodes(queue.ns), KeyMap(nodes));
      }
      assert script[..|script|] == script;
    }

    /** What is known of the node at the root. */
    lemma MinReads(node: Node<Rank>)
      requires Valid() && queue.min == node
      ensures node.key.owner < |handles| == |nodes| && nodes[node.key.owner] == node
      ensures node in Nodes(queue.ns) && node in KeyMap(nodes) && KeyMap(nodes)[node] == node.key
      ensures forall m :: m in Nodes(queue.ns) ==> m in KeyMap(nodes) && !TimerLessThan(KeyMap(nodes)[m], node.key)
    {
      assert node == queue.ns[0] && node in Nodes(queue.ns);
      HeapNodes(handles, nodes, queue.ns);
      forall m | m in Nodes(queue.ns) ensures m in KeyMap(nodes) && !TimerLessThan(KeyMap(nodes)[m], node.key) {
        queue.MinIsLeast(m);
        assert m in queue.ns && m in nodes;
      }
      var i :| 0 <= i < |nodes| && nodes[i] == node;
      assert KeyMap(nodes)[nodes[i]].owner == i;
    }

    lemma NothingDue()
      requires Valid() && (queue.min == null || queue.min.key.timeout > time)
      ensures Due(Nodes(queue.ns), KeyMap(nodes), time) == {}
    {
      if queue.min == null {
        assert queue.ns == [];
      } else {
        MinReads(queue.min);
      }
    }

    /** The timer at the root has its turn: it is stopped, and started again if it repeats. */
    method Turn() returns (rank: Rank)
      requires Valid() && queue.min != null && queue.min.key.timeout <= time
      modifies this`handles, this`activeHandles, this`timerCounter, queue, nodes
      ensures rank == old(queue.min.key) && rank.owner < |handles| == |old(handles)|
      ensures Valid() && nodes[rank.owner] == old(queue.min) && old(handles)[rank.owner].hasCb
      ensures !old(handles)[rank.owner].closing && handles[rank.owner] == old(handles)[rank.owner].(active :=
        old(handles)[rank.owner].repeat > 0)
      ensures forall i :: 0 <= i < |handles| && i != rank.owner ==> handles[i] == old(handles)[i]
      ensures if old(handles)[rank.owner].repeat > 0 then
          && Nodes(queue.ns) == old(Nodes(queue.ns))
          && KeyMap(nodes) == old(KeyMap(nodes))[nodes[rank.owner] := Rank(Deadline(time,
            old(handles)[rank.owner].repeat), old(timerCounter), rank.owner)]
        else
          Nodes(queue.ns) == old(Nodes(queue.ns)) - {nodes[rank.owner]} && KeyMap(nodes) == old(KeyMap(nodes))
    {
      hide Linked, InHeapOrder, Keys, StrictWeak, Flagged, Distinct, Numbered, Owned, KeyMap;
      rank := queue.min.key;
      ghost var heap, node := Nodes(queue.ns), queue.min;
      MinReads(queue.min);
      DueActive(handles, nodes, heap, KeyMap(nodes), time, rank.owner);
      DueMin(heap, KeyMap(nodes), time, node);
      TimerStop(rank.owner);
      var again := TimerAgain(rank.owner);
      assert node in heap ==> heap - {node} + {node} == heap;
    }

    ghost function Timers(): (ts: seq<Timer>)
      requires |handles| == |nodes|
      reads this, queue, nodes, queue.ns
      ensures |ts| == |handles|
    {
      TimersOf(handles, nodes, Nodes(queue.ns), KeyMap(nodes), time)
    }

    /** A callback that acts on the timer's own handle. */
    method OwnCallback(acts: seq<Action>, h: nat)
      requires Valid() && h < |handles| && forall i :: 0 <= i < |acts| ==> acts[i].Target() == h
      modifies this`handles, this`activeHandles, this`timerCounter, queue, nodes
      ensures Valid() && |handles| == |old(handles)| == |nodes|
      ensures Timers() == old(Timers())[h := AfterAll(acts, old(Timers())[h], time)]
    {
      hide Linked, InHeapOrder, Keys, StrictWeak, Flagged, Distinct, Numbered, Owned, KeyMap, Due, After, Shifted;
      AllNodes(handles, nodes, Nodes(queue.ns));
      ghost var ts := Timers();
      assert acts[..0] == [];
      for i := 0 to |acts|
        invariant Valid() && |handles| == |old(handles)| == |nodes|
        invariant Timers() == ts[h := AfterAll(acts[..i], ts[h], time)]
      {
        ghost var heap, keys, hs := Nodes(queue.ns), KeyMap(nodes), handles;
        OwnedDistinct(nodes, keys);
        Act(acts[i]);
        OthersStay(acts[i], TimersOf(hs, nodes, heap, keys, time)[h], time, nodes, heap, keys, hs, Nodes(queue.ns),
          KeyMap(nodes), handles, h);
        AfterMore(acts, i, ts[h], time);
      }
      assert acts[..|acts|] == acts;
    }

    /** A due timer's turn, with its callback. */
    method OwnTurn(acts: seq<seq<Action>>) returns (h: nat)
      requires Valid() && queue.min != null && queue.min.key.timeout <= time && |acts| == |handles| && OwnScripts(acts)
      modifies this`handles, this`activeHandles, this`timerCounter, queue, nodes
      ensures h < |handles| == |old(handles)| == |nodes| && Valid()
      ensures old(Timers())[h].due && Timers() == old(Timers())[h := Round(acts[h], old(Timers())[h], time)]
    {
      hide Linked, InHeapOrder, Keys, StrictWeak, Flagged, Distinct, Numbered, Owned, KeyMap, Due, Shifted, AfterAll;
      ghost var heap, keys, hs := Nodes(queue.ns), KeyMap(nodes), handles;
      MinReads(queue.min);
      DueMin(heap, keys, time, queue.min);
      OwnedDistinct(nodes, keys);
      ghost var n := queue.min;
      var rank := Turn();
      h := rank.owner;
      AllNodes(handles, nodes, Nodes(queue.ns));
      Away(heap, keys, time, n);
      if hs[h].repeat > 0 { Armed(heap, keys, time, n, KeyMap(nodes)[n]); }
      TurnedDue(time, nodes, heap, keys, hs, Nodes(queue.ns), KeyMap(nodes), handles, h);
      OwnCallback(acts[h], h);
    }

    /** The loop of `uv__run_timers` with callbacks that act on their own timer, cut off after `k`
        turns.  It is cut off, however large `k`, exactly when some due timer is due again after its
        turn and after the one that follows; otherwise no timer has more than two turns. */
    method Turns(acts: seq<seq<Action>>, k: nat) returns (n: nat)
      requires Valid() && |acts| == |handles| && OwnScripts(acts)
      modifies this`handles, this`activeHandles, this`timerCounter, queue, nodes
      ensures Valid() && n <= k && |old(handles)| == |handles| == |nodes|
      ensures old(SomeRecurs(acts, Timers(), time)) ==>
        n == k && queue.min != null && queue.min.key.timeout <= time && SomeRecurs(acts, Timers(), time)
      ensures !old(SomeRecurs(acts, Timers(), time)) && k >= 2 * |acts| ==>
        n <= 2 * |acts| && (queue.min == null || queue.min.key.timeout > time)
    {
      hide Linked, InHeapOrder, Keys, StrictWeak, Flagged, Distinct, Numbered, Owned, KeyMap, Due, Recurs, Round,
        Timers;
      n := 0;
      AllNodes(handles, nodes, Nodes(queue.ns));
      AllRunning();
      ghost var recurs, most := SomeRecurs(acts, Timers(), time), TurnsLeft(acts, Timers(), time);
      while n < k && queue.min != null && queue.min.key.timeout <= time
        invariant Valid() && n <= k && |old(handles)| == |handles| == |nodes|
        invariant SomeRecurs(acts, Timers(), time) == recurs
        invariant !recurs ==> TurnsLeft(acts, Timers(), time) + n <= most
        decreases k - n
      {
        ghost var ts := Timers();
        AllRunning();
        var h := OwnTurn(acts);
        OneTurn(acts, ts, h, Timers(), time);
        n := n + 1;
      }
      RootDue();
      AllRunning();
      if recurs { RecursDue(acts, Timers(), time); }
    }

    lemma AllRunning()
      requires Valid()
      ensures |handles| == |nodes| && AreRunning(Timers())
    {
      hide Linked, InHeapOrder, Keys, StrictWeak, Numbered, Owned;
      forall h | 0 <= h < |handles| ensures Running(Timers()[h]) {
        DueActive(handles, nodes, Nodes(queue.ns), KeyMap(nodes), time, h);
      }
    }

    /** The loop goes on while some timer is due. */
    lemma RootDue()
      requires Valid()
      ensures |handles| == |nodes|
      ensures (queue.min == null || queue.min.key.timeout > time) <==> forall t :: t in Timers() ==> !t.due
    {
      hide Linked, InHeapOrder, Keys, StrictWeak, Flagged, Distinct, Numbered, Owned, KeyMap, Due;
      AllNodes(handles, nodes, Nodes(queue.ns));
      if queue.min == null || queue.min.key.timeout > time {
        NothingDue();
      } else {
        MinReads(queue.min);
        DueMin(Nodes(queue.ns), KeyMap(nodes), time, queue.min);
        assert Timers()[queue.min.key.owner].due;
      }
    }

    /** `uv_update_time`; the clock goes on. */
    method UpdateTime(now: nat)
      requires Valid() && time <= now <= MAX_TIME
      modifies `time
      ensures Valid() && time == now
    {
      time := now;
    }

    /** Fires what is due.  `script` is what each callback does, in the order they are called.
        Exactly those timers fire that no callback called before their turn has taken off it. */
    method RunTimers(script: seq<seq<Action>>) returns (fired: seq<Rank>)
      requires Valid() && time < MAX_TIME && forall i :: 0 <= i < |script| ==> Restrained(script[i])
      modifies this`handles, this`activeHandles, this`timerCounter, queue, nodes
      ensures Valid() && Due(Nodes(queue.ns), KeyMap(nodes), time) == {}
      ensures InTurn(fired)
      ensures forall r :: r in fired ==>
        r in RanksOf(old(Due(Nodes(queue.ns), KeyMap(nodes), time)), old(KeyMap(nodes)))
      ensures FiredExactly(script, old(Due(Nodes(queue.ns), KeyMap(nodes), time)), old(KeyMap(nodes)), old(handles),
        fired)
    {
      hide Linked, InHeapOrder, Keys, StrictWeak, Flagged, Distinct, Numbered, Owned, KeyMap, Changed, Fewer, Due,
        Obeys, Progress, Turnwise;
      fired := [];
      ghost var heap0, keys0, counter0, hs0 := Nodes(queue.ns), KeyMap(nodes), timerCounter, handles;
      ProgressStart(time, heap0, keys0);
      AllNodes(handles, nodes, heap0);
      TurnwiseStart(script, time, heap0, keys0, nodes, hs0);
      while queue.min != null && queue.min.key.timeout <= time
        invariant Valid() && time == old(time) && |handles| == |old(handles)|
        invariant Progress(time, heap0, keys0, Nodes(queue.ns), KeyMap(nodes), fired)
        invariant Turnwise(script, time, heap0, keys0, hs0, Nodes(queue.ns), KeyMap(nodes), handles, fired)
        decreases |Due(Nodes(queue.ns), KeyMap(nodes), time)|
      {
        ghost var heap, keys, counter, hs := Nodes(queue.ns), KeyMap(nodes), timerCounter, handles;
        ghost var node: Node<Rank> := queue.min;
        MinReads(node);
        DueMin(heap, keys, time, node);
        AllNodes(handles, nodes, heap);
        var rank := Turn();
        ghost var heap1, keys1, hs1 := Nodes(queue.ns), KeyMap(nodes), handles;
        TurnFewer(time, nodes, heap, keys, hs, heap1, keys1, hs1, rank);
        Callback(if |fired| < |script| then script[|fired|] else []);
        FewerTwice(time, heap - {node}, keys, heap1, keys1, Nodes(queue.ns), KeyMap(nodes));
        FiredOne(time, heap0, keys0, counter0, heap, keys, counter, Nodes(queue.ns), KeyMap(nodes), fired, node);
        TurnwiseStep(script, time, heap0, keys0, hs0, counter0, heap, keys, hs, counter, heap1, keys1, hs1,
          Nodes(queue.ns), KeyMap(nodes), handles, fired, node);
        fired := fired + [rank];
      }
      NothingDue();
      ProgressEnd(time, heap0, keys0, Nodes(queue.ns), KeyMap(nodes), fired);
      TurnwiseEnd(script, time, heap0, keys0, hs0, Nodes(queue.ns), KeyMap(nodes), handles, fired);
    }
  }

  /** Each callback acts on its own timer. */
  predicate OwnScripts(acts: seq<seq<Action>>) {
    forall h, i :: 0 <= h < |acts| && 0 <= i < |acts[h]| ==> acts[h][i].Target() == h
  }

  ghost function TimersOf(hs: seq<Handle>, nodes: seq<Node<Rank>>, heap: set<Node<Rank>>, keys: Ranks,
      time: nat): (ts: seq<Timer>)
    requires |hs| == |nodes|
    ensures |ts| == |hs|
  {
    seq(|hs|, i requires 0 <= i < |hs| => Timer(hs[i], nodes[i] in Due(heap, keys, time)))
  }

  ghost predicate AreRunning(ts: seq<Timer>) {
    forall h :: 0 <= h < |ts| ==> Running(ts[h])
  }

  ghost predicate SomeRecurs(acts: seq<seq<Action>>, ts: seq<Timer>, time: nat) {
    exists h :: 0 <= h < |acts| == |ts| && Recurs(acts[h], ts[h], time)
  }

  /** How many turns a timer has, if it does not recur. */
  function TurnsOf(acts: seq<Action>, t: Timer, time: nat): nat {
    if !t.due then 0 else if !Round(acts, t, time).due then 1 else 2
  }

  function TurnsLeft(acts: seq<seq<Action>>, ts: seq<Timer>, time: nat): (n: nat)
    requires |acts| == |ts|
    ensures n <= 2 * |ts| && (n == 0 ==> forall t :: t in ts ==> !t.due)
  {
    var last := |ts| - 1;
    if ts == [] then 0 else TurnsLeft(acts[..last], ts[..last], time) + TurnsOf(acts[last], ts[last], time)
  }

  lemma {:induction false} TurnTaken(acts: seq<seq<Action>>, ts: seq<Timer>, h: nat, t: Timer, time: nat)
    requires h < |acts| == |ts|
    ensures TurnsLeft(acts, ts[h := t], time) - TurnsOf(acts[h], t, time) ==
      TurnsLeft(acts, ts, time) - TurnsOf(acts[h], ts[h], time)
  {
    hide TurnsOf;
    var last := |ts| - 1;
    if h == last {
      assert ts[h := t][..last] == ts[..last];
    } else {
      TurnTaken(acts[..last], ts[..last], h, t, time);
      assert ts[h := t][..last] == ts[..last][h := t];
    }
  }

  /** A turn changes nothing about whether some timer recurs; if none does, it is one of few. */
  lemma OneTurn(acts: seq<seq<Action>>, ts: seq<Timer>, h: nat, ts': seq<Timer>, time: nat)
    requires h < |acts| == |ts| && ts[h].due && ts' == ts[h := Round(acts[h], ts[h], time)] && AreRunning(ts)
    ensures SomeRecurs(acts, ts', time) == SomeRecurs(acts, ts, time)
    ensures !SomeRecurs(acts, ts, time) ==> TurnsLeft(acts, ts', time) < TurnsLeft(acts, ts, time)
  {
    hide Round, TurnsLeft;
    TurnTaken(acts, ts, h, ts'[h], time);
    if i :| 0 <= i < |ts| && Recurs(acts[i], ts[i], time) {
      if i == h { RecursOn(acts[h], ts[h], time); }
      assert Recurs(acts[i], ts'[i], time);
    }
    if i :| 0 <= i < |ts| && Recurs(acts[i], ts'[i], time) {
      assert Recurs(acts[i], ts[i], time);
    }
    if !SomeRecurs(acts, ts, time) { assert !Recurs(acts[h], ts[h], time); }
  }

  lemma RecursDue(acts: seq<seq<Action>>, ts: seq<Timer>, time: nat)
    requires SomeRecurs(acts, ts, time)
    ensures exists t :: t in ts && t.due
  {
    var h :| 0 <= h < |acts| == |ts| && Recurs(acts[h], ts[h], time);
    assert ts[h] in ts;
  }

  /** Whether an action enters the timer it is aimed at into the heap. */
  predicate Arms(a: Action, t: Timer) {
    !t.handle.closing && (a.Start? || (a.Again? && t.handle.hasCb && t.handle.repeat > 0))
  }

  /** The node of the timer that an action is aimed at stays, leaves or enters under a new rank. */
  ghost predicate Shifted(a: Action, t: Timer, heap: set<Node<Rank>>, keys: Ranks, heap': set<Node<Rank>>, keys': Ranks,
      n: Node<Rank>) {
    (heap' == heap && keys' == keys) || (heap' == heap - {n} && keys' == keys) ||
    (Arms(a, t) && heap' == heap + {n} && n in keys' && keys' == keys[n := keys'[n]])
  }

  lemma Armed(heap: set<Node<Rank>>, keys: Ranks, time: nat, n: Node<Rank>, rank: Rank)
    ensures n in Due(heap + {n}, keys[n := rank], time) <==> rank.timeout <= time
    ensures n in heap ==> (n in Due(heap, keys[n := rank], time) <==> rank.timeout <= time)
  {
  }

  lemma AfterMore(acts: seq<Action>, i: nat, t: Timer, time: nat)
    requires i < |acts|
    ensures AfterAll(acts[..i + 1], t, time) == After(acts[i], AfterAll(acts[..i], t, time), time)
  {
    var more := acts[..i + 1];
    assert more[..|more| - 1] == acts[..i];
  }

  /** What is aimed at one timer leaves the others alone. */
  lemma OthersStay(a: Action, t: Timer, time: nat, nodes: seq<Node<Rank>>, heap: set<Node<Rank>>, keys: Ranks,
      hs: seq<Handle>, heap': set<Node<Rank>>, keys': Ranks, hs': seq<Handle>, h: nat)
    requires h < |hs| == |hs'| == |nodes| && Distinct(nodes)
    requires forall i :: 0 <= i < |hs| && i != h ==> hs'[i] == hs[i]
    requires Shifted(a, t, heap, keys, heap', keys', nodes[h])
    ensures TimersOf(hs', nodes, heap', keys', time) ==
      TimersOf(hs, nodes, heap, keys, time)[h := Timer(hs'[h], nodes[h] in Due(heap', keys', time))]
  {
    forall i | 0 <= i < |nodes| && i != h
      ensures nodes[i] in Due(heap', keys', time) <==> nodes[i] in Due(heap, keys, time)
    {
      assert nodes[i] != nodes[h];
    }
  }

  /** A timer's turn is `uv_timer_stop` and `uv_timer_again`. */
  lemma TurnedDue(time: nat, nodes: seq<Node<Rank>>, heap: set<Node<Rank>>, keys: Ranks, hs: seq<Handle>,
      heap': set<Node<Rank>>, keys': Ranks, hs': seq<Handle>, h: nat)
    requires h < |hs| == |hs'| == |nodes| && Distinct(nodes) && nodes[h] in heap
    requires forall i :: 0 <= i < |hs| && i != h ==> hs'[i] == hs[i]
    requires hs[h].hasCb && !hs[h].closing && hs'[h] == hs[h].(active := hs[h].repeat > 0)
    requires if hs[h].repeat > 0 then heap' == heap && nodes[h] in keys' && keys' == keys[nodes[h] := keys'[nodes[h]]]
      else heap' == heap - {nodes[h]} && keys' == keys
    requires nodes[h] in Due(heap', keys', time) <==> hs[h].repeat > 0 && Deadline(time, hs[h].repeat) <= time
    ensures var ts := TimersOf(hs, nodes, heap, keys, time);
      TimersOf(hs', nodes, heap', keys', time) == ts[h := After(Again(0), After(Stop(0), ts[h], time), time)]
  {
    var t := Timer(hs[h], true);
    assert heap + {nodes[h]} == heap;
    OthersStay(Start(0, 0, 0), t, time, nodes, heap, keys, hs, heap', keys', hs', h);
  }

  /** A restrained action enters a timer with a deadline in the future. */
  lemma ShiftedChanged(a: Action, t: Timer, time: nat, heap: set<Node<Rank>>, keys: Ranks, heap': set<Node<Rank>>,
      keys': Ranks, n: Node<Rank>)
    requires Shifted(a, t, heap, keys, heap', keys', n) && time < MAX_TIME && (a.Start? ==> a.timeout >= 1)
    requires n in Due(heap', keys', time) <==> After(a, t, time).due
    ensures Changed(time, heap, keys, heap', keys', n)
  {
    if Arms(a, t) {
      DeadlineLater(time, if a.Start? then a.timeout else t.handle.repeat);
      assert n !in Due(heap', keys', time);
    }
  }

  /** A due timer keeps its turn unless the action disarms it. */
  lemma AfterObeys(a: Action, t: Timer, hs: seq<Handle>, hs': seq<Handle>, time: nat)
    requires a.Target() < |hs| == |hs'| && t.due && Running(t) && time < MAX_TIME && (a.Start? ==> a.timeout >= 1)
    requires t.handle == hs[a.Target()] && hs'[a.Target()] == After(a, t, time).handle
    ensures ObeysAt([a], a.Target(), hs, hs', After(a, t, time).due)
  {
    var h := a.Target();
    SurvivesOne(a, h, hs[h].repeat);
    if a.Start? { DeadlineLater(time, a.timeout); }
    if a.Again? && t.handle.repeat > 0 { DeadlineLater(time, t.handle.repeat); }
  }

  /** The timers in the heap whose time has come. */
  ghost function Due(heap: set<Node<Rank>>, keys: Ranks, time: nat): set<Node<Rank>> {
    set n | n in heap && n in keys && keys[n].timeout <= time
  }

  /** Nothing became due, and what is still due has not changed. */
  ghost predicate Fewer(time: nat, heap: set<Node<Rank>>, keys: Ranks, heap': set<Node<Rank>>, keys': Ranks) {
    Due(heap', keys', time) <= Due(heap, keys, time) && forall n :: n in Due(heap', keys', time) ==>
      n in keys && n in keys' && keys'[n] == keys[n]
  }

  predicate Restrained(script: seq<Action>) {
    forall i :: 0 <= i < |script| ==> (script[i].Start? ==> script[i].timeout >= 1)
  }

  /** Does `a` take a due timer of handle `h`, with interval `repeat`, off its turn? */
  predicate Disarms(a: Action, h: nat, repeat: nat) {
    a.Target() == h && (a.Start? || a.Stop? || a.Close? || (a.Again? && repeat > 0))
  }

  function Interval(a: Action, h: nat, repeat: nat): nat {
    if a.SetRepeat? && a.r == h then a.every else repeat
  }

  /** A due timer of handle `h` keeps its turn through all of `acts`. */
  predicate Survives(acts: seq<Action>, h: nat, repeat: nat)
    decreases |acts|
  {
    acts != [] ==> !Disarms(acts[0], h, repeat) && Survives(acts[1..], h, Interval(acts[0], h, repeat))
  }

  function IntervalAfter(acts: seq<Action>, h: nat, repeat: nat): nat
    decreases |acts|
  {
    if acts == [] then repeat else IntervalAfter(acts[1..], h, Interval(acts[0], h, repeat))
  }

  lemma SurvivesOne(a: Action, h: nat, repeat: nat)
    ensures Survives([a], h, repeat) == !Disarms(a, h, repeat)
    ensures IntervalAfter([a], h, repeat) == Interval(a, h, repeat)
  {
    var one := [a];
    assert one[1..] == [];
  }

  lemma {:induction false} SurvivesJoin(x: seq<Action>, y: seq<Action>, h: nat, repeat: nat)
    ensures Survives(x + y, h, repeat) == (Survives(x, h, repeat) && Survives(y, h, IntervalAfter(x, h, repeat)))
    ensures IntervalAfter(x + y, h, repeat) == IntervalAfter(y, h, IntervalAfter(x, h, repeat))
    decreases |x|
  {
    if x == [] {
      assert x + y == y;
    } else {
      assert (x + y)[1..] == x[1..] + y;
      SurvivesJoin(x[1..], y, h, Interval(x[0], h, repeat));
    }
  }

  /** Actions on other handles take nobody off its turn. */
  lemma {:induction false} Untouched(acts: seq<Action>, h: nat, repeat: nat)
    requires forall i :: 0 <= i < |acts| ==> acts[i].Target() != h
    ensures Survives(acts, h, repeat)
    decreases |acts|
  {
    if acts != [] { Untouched(acts[1..], h, Interval(acts[0], h, repeat)); }
  }

  /** What the callback of the `i`-th timer to fire does. */
  function ScriptAt(script: seq<seq<Action>>, i: nat): seq<Action> {
    if i < |script| then script[i] else []
  }

  /** All that the first `n` callbacks do. */
  function Flat(script: seq<seq<Action>>, n: nat): seq<Action> {
    if n == 0 then [] else Flat(script, n - 1) + ScriptAt(script, n - 1)
  }

  /** How many of the timers fired come before `r`. */
  function Before(fired: seq<Rank>, r: Rank): (n: nat)
    ensures n <= |fired|
  {
    if fired == [] then 0 else Before(fired[..|fired| - 1], r) + if TimerLessThan(fired[|fired| - 1], r) then 1 else 0
  }

  lemma BeforeMore(fired: seq<Rank>, rank: Rank, r: Rank)
    ensures Before(fired + [rank], r) == Before(fired, r) + if TimerLessThan(rank, r) then 1 else 0
  {
    assert (fired + [rank])[..|fired|] == fired;
  }

  /** Whether a timer that was due is still due, and with what interval. */
  predicate ObeysAt(acts: seq<Action>, h: nat, hs: seq<Handle>, hs': seq<Handle>, still: bool) {
    && h < |hs| == |hs'| && (still <==> Survives(acts, h, hs[h].repeat))
    && (still ==> hs'[h].repeat == IntervalAfter(acts, h, hs[h].repeat))
  }

  /** Of the timers that were due, exactly those that survive `acts` are due still. */
  ghost predicate Obeys(acts: seq<Action>, time: nat, heap: set<Node<Rank>>, keys: Ranks, hs: seq<Handle>,
                        heap': set<Node<Rank>>, keys': Ranks, hs': seq<Handle>)
  {
    && |hs'| == |hs|
    && forall n :: n in Due(heap, keys, time) ==>
      n in keys && ObeysAt(acts, keys[n].owner, hs, hs', n in Due(heap', keys', time))
  }

  lemma ObeysNothing(time: nat, heap: set<Node<Rank>>, keys: Ranks, nodes: seq<Node<Rank>>, hs: seq<Handle>)
    requires Owned(nodes, keys) && heap <= Nodes(nodes) && |hs| == |nodes|
    ensures Obeys([], time, heap, keys, hs, heap, keys, hs)
  {
    forall n | n in Due(heap, keys, time) ensures n in keys && ObeysAt([], keys[n].owner, hs, hs, true) {
      OwnerOf(nodes, keys, n);
    }
  }

  lemma OwnerOf(nodes: seq<Node<Rank>>, keys: Ranks, n: Node<Rank>)
    requires Owned(nodes, keys) && n in Nodes(nodes)
    ensures n in keys && keys[n].owner < |nodes| && nodes[keys[n].owner] == n
  {
    var i :| 0 <= i < |nodes| && nodes[i] == n;
    assert nodes[i] in keys && keys[nodes[i]].owner == i;
  }

  lemma ObeysTwice(x: seq<Action>, y: seq<Action>, time: nat, heap: set<Node<Rank>>, keys: Ranks, hs: seq<Handle>,
                   heap': set<Node<Rank>>, keys': Ranks, hs': seq<Handle>, heap'': set<Node<Rank>>, keys'': Ranks,
                     hs'': seq<Handle>)
    requires Obeys(x, time, heap, keys, hs, heap', keys', hs') && Fewer(time, heap, keys, heap', keys')
    requires Obeys(y, time, heap', keys', hs', heap'', keys'', hs'') && Fewer(time, heap', keys', heap'', keys'')
    ensures Obeys(x + y, time, heap, keys, hs, heap'', keys'', hs'')
  {
    hide Survives, IntervalAfter, Due;
    forall n | n in Due(heap, keys, time)
      ensures n in keys && ObeysAt(x + y, keys[n].owner, hs, hs'', n in Due(heap'', keys'', time))
    {
      var h := keys[n].owner;
      assert ObeysAt(x, h, hs, hs', n in Due(heap', keys', time));
      SurvivesJoin(x, y, h, hs[h].repeat);
      if n in Due(heap', keys', time) {
        assert ObeysAt(y, keys'[n].owner, hs', hs'', n in Due(heap'', keys'', time));
      }
    }
  }

  /** An action obeys when it does so at its target; it touches no other timer. */
  lemma ActObeys(a: Action, time: nat, nodes: seq<Node<Rank>>, heap: set<Node<Rank>>, keys: Ranks, hs: seq<Handle>,
                 heap': set<Node<Rank>>, keys': Ranks, hs': seq<Handle>)
    requires Owned(nodes, keys) && heap <= Nodes(nodes) && |hs| == |nodes| == |hs'| && a.Target() < |hs|
    requires forall i :: 0 <= i < |hs| && i != a.Target() ==> hs'[i] == hs[i]
    requires Changed(time, heap, keys, heap', keys', nodes[a.Target()])
    requires nodes[a.Target()] in Due(heap, keys, time) ==>
               ObeysAt([a], a.Target(), hs, hs', nodes[a.Target()] in Due(heap', keys', time))
    ensures Obeys([a], time, heap, keys, hs, heap', keys', hs')
  {
    hide Survives, IntervalAfter;
    forall n | n in Due(heap, keys, time)
      ensures n in keys && ObeysAt([a], keys[n].owner, hs, hs', n in Due(heap', keys', time))
    {
      OwnerOf(nodes, keys, n);
      SurvivesOne(a, keys[n].owner, hs[keys[n].owner].repeat);
    }
  }

  lemma AllNodes(hs: seq<Handle>, nodes: seq<Node<Rank>>, heap: set<Node<Rank>>)
    requires Flagged(hs, nodes, heap)
    ensures heap <= Nodes(nodes) && |hs| == |nodes|
  {
  }

  /** The handle of a due timer is active. */
  lemma DueActive(hs: seq<Handle>, nodes: seq<Node<Rank>>, heap: set<Node<Rank>>, keys: Ranks, time: nat, t: nat)
    requires Flagged(hs, nodes, heap) && t < |hs|
    ensures t < |nodes| && heap <= Nodes(nodes)
    ensures nodes[t] in Due(heap, keys, time) ==> hs[t].active && hs[t].hasCb && !hs[t].closing
  {
  }

  lemma Away(heap: set<Node<Rank>>, keys: Ranks, time: nat, n: Node<Rank>)
    ensures n !in Due(heap - {n}, keys, time)
  {
  }

  lemma MissObeys(a: Action, time: nat, nodes: seq<Node<Rank>>, heap: set<Node<Rank>>, keys: Ranks, hs: seq<Handle>)
    requires Owned(nodes, keys) && heap <= Nodes(nodes) && |hs| == |nodes| <= a.Target()
    ensures Obeys([a], time, heap, keys, hs, heap, keys, hs)
  {
    hide Survives, IntervalAfter;
    forall n | n in Due(heap, keys, time) ensures n in keys && ObeysAt([a], keys[n].owner, hs, hs, true) {
      OwnerOf(nodes, keys, n);
      SurvivesOne(a, keys[n].owner, hs[keys[n].owner].repeat);
    }
  }

  /** In order of deadline, and of two with the same deadline the one started first comes first;
      so each at most once. */
  ghost predicate InTurn(fired: seq<Rank>) {
    forall i, j :: 0 <= i < j < |fired| ==>
      fired[i].timeout < fired[j].timeout ||
      (fired[i].timeout == fired[j].timeout && fired[i].startId < fired[j].startId)
  }

  lemma FewerSame(time: nat, heap: set<Node<Rank>>, keys: Ranks)
    ensures Fewer(time, heap, keys, heap, keys)
  {
  }

  lemma FewerTwice(time: nat, heap: set<Node<Rank>>, keys: Ranks, heap': set<Node<Rank>>, keys': Ranks,
      heap'': set<Node<Rank>>, keys'': Ranks)
    requires Fewer(time, heap, keys, heap', keys') && Fewer(time, heap', keys', heap'', keys'')
    ensures Fewer(time, heap, keys, heap'', keys'')
  {
  }

  lemma ChangedFewer(time: nat, heap: set<Node<Rank>>, keys: Ranks, heap': set<Node<Rank>>, keys': Ranks, n: Node<Rank>)
    requires Changed(time, heap, keys, heap', keys', n) && time < MAX_TIME
    ensures Fewer(time, heap, keys, heap', keys')
  {
  }

  /** Half-way through a run: what is still due was due from the start and comes after all that has fired. */
  ghost predicate Progress(time: nat, heap0: set<Node<Rank>>, keys0: Ranks, heap: set<Node<Rank>>, keys: Ranks,
      fired: seq<Rank>) {
    && Fewer(time, heap0, keys0, heap, keys) && InTurn(fired)
    && (forall i, n :: 0 <= i < |fired| && n in Due(heap, keys, time) ==> n in keys && TimerLessThan(fired[i], keys[n]))
    && (forall r :: r in fired ==> r in RanksOf(Due(heap0, keys0, time), keys0))
  }

  /** The timers that fire are exactly those that survive what is done before their turn. */
  ghost predicate FiredExactly(script: seq<seq<Action>>, due: set<Node<Rank>>, keys: Ranks, hs: seq<Handle>,
      fired: seq<Rank>) {
    forall n :: n in due ==> n in keys && FiredRight(script, keys[n], hs, fired)
  }

  predicate FiredRight(script: seq<seq<Action>>, r: Rank, hs: seq<Handle>, fired: seq<Rank>) {
    r.owner < |hs| && (r in fired <==> Survives(Flat(script, Before(fired, r)), r.owner, hs[r.owner].repeat))
  }

  /** A timer that was due at first is due still, having survived so far, or its case is settled. */
  predicate Settled(script: seq<seq<Action>>, r: Rank, hs0: seq<Handle>, hs: seq<Handle>, fired: seq<Rank>,
      still: bool) {
    && r.owner < |hs0| == |hs|
    && (still ==>
      r !in fired && Before(fired, r) == |fired| && Survives(Flat(script, |fired|), r.owner, hs0[r.owner].repeat)
                  && hs[r.owner].repeat == IntervalAfter(Flat(script, |fired|), r.owner, hs0[r.owner].repeat))
    && (!still ==> FiredRight(script, r, hs0, fired))
  }

  ghost predicate Turnwise(script: seq<seq<Action>>, time: nat, heap0: set<Node<Rank>>, keys0: Ranks, hs0: seq<Handle>,
                           heap: set<Node<Rank>>, keys: Ranks, hs: seq<Handle>, fired: seq<Rank>)
  {
    forall n :: n in Due(heap0, keys0, time) ==>
      n in keys0 && Settled(script, keys0[n], hs0, hs, fired, n in Due(heap, keys, time))
  }

  lemma TurnwiseStart(script: seq<seq<Action>>, time: nat, heap: set<Node<Rank>>, keys: Ranks, nodes: seq<Node<Rank>>,
      hs: seq<Handle>)
    requires Owned(nodes, keys) && heap <= Nodes(nodes) && |hs| == |nodes|
    ensures Turnwise(script, time, heap, keys, hs, heap, keys, hs, [])
  {
    forall n | n in Due(heap, keys, time) ensures n in keys && Settled(script, keys[n], hs, hs, [], true) {
      OwnerOf(nodes, keys, n);
    }
  }

  /** The turn of one timer leaves the others that are due as they are. */
  lemma TurnFewer(time: nat, nodes: seq<Node<Rank>>, heap: set<Node<Rank>>, keys: Ranks, hs: seq<Handle>,
                  heap1: set<Node<Rank>>, keys1: Ranks, hs1: seq<Handle>, rank: Rank)
    requires rank.owner < |nodes| == |hs| == |hs1| && nodes[rank.owner] in heap && time <= MAX_TIME
    requires time < MAX_TIME || hs[rank.owner].repeat == 0
    requires hs1[rank.owner].repeat == hs[rank.owner].repeat && forall i :: 0 <= i < |hs| && i != rank.owner ==>
      hs1[i] == hs[i]
    requires if hs[rank.owner].repeat > 0 then
        heap1 == heap &&
          exists id :: keys1 == keys[nodes[rank.owner] := Rank(Deadline(time, hs[rank.owner].repeat), id, rank.owner)]
      else heap1 == heap - {nodes[rank.owner]} && keys1 == keys
    ensures Due(heap1, keys1, time) == Due(heap, keys, time) - {nodes[rank.owner]}
    ensures Fewer(time, heap - {nodes[rank.owner]}, keys, heap1, keys1)
    ensures forall n :: n in Due(heap1, keys1, time) ==> n in keys1 && n in keys && keys1[n] == keys[n]
    ensures forall i :: 0 <= i < |hs| ==> hs1[i].repeat == hs[i].repeat
  {
    if hs[rank.owner].repeat > 0 { DeadlineLater(time, hs[rank.owner].repeat); }
  }

  lemma NoTies(heap: set<Node<Rank>>, keys: Ranks, counter: nat, n: Node<Rank>, m: Node<Rank>)
    requires Numbered(heap, keys, counter) && n in heap && m in heap && n != m && !TimerLessThan(keys[m], keys[n])
    ensures TimerLessThan(keys[n], keys[m]) && keys[n] != keys[m]
  {
  }

  /** The least deadline has fired; its callback may have taken others off their turn. */
  lemma FiredOne(time: nat, heap0: set<Node<Rank>>, keys0: Ranks, counter0: nat, heap: set<Node<Rank>>, keys: Ranks,
      counter: nat,
                 heap': set<Node<Rank>>, keys': Ranks, fired: seq<Rank>, node: Node<Rank>)
    requires Progress(time, heap0, keys0, heap, keys, fired)
    requires Numbered(heap0, keys0, counter0) && Numbered(heap, keys, counter) && node in Due(heap, keys, time)
    requires forall m :: m in heap ==> m in keys && !TimerLessThan(keys[m], keys[node])
    requires Fewer(time, heap - {node}, keys, heap', keys')
    ensures Progress(time, heap0, keys0, heap', keys', fired + [keys[node]])
    ensures |Due(heap', keys', time)| < |Due(heap, keys, time)|
  {
    var due, due', fired', rank := Due(heap, keys, time), Due(heap', keys', time), fired + [keys[node]], keys[node];
    assert Due(heap - {node}, keys, time) == due - {node};
    assert due' <= due - {node} && node in Due(heap0, keys0, time) && keys0[node] == rank;
    Smaller(due', due, node);
    forall i, j | 0 <= i < j < |fired'| ensures fired'[i].timeout < fired'[j].timeout ||
      (fired'[i].timeout == fired'[j].timeout && fired'[i].startId < fired'[j].startId) {
      if j == |fired| { assert TimerLessThan(fired[i], keys[node]); }
    }
    forall i, n | 0 <= i < |fired'| && n in due' ensures n in keys' && TimerLessThan(fired'[i], keys'[n]) {
      assert n in due && keys'[n] == keys[n];
      if i == |fired| { NoTies(heap, keys, counter, node, n); } else { assert TimerLessThan(fired[i], keys[n]); }
    }
    assert rank in RanksOf(Due(heap0, keys0, time), keys0);
  }

  /** What is not taken off its turn by some actions is not by the first of them. */
  lemma FlatMore(script: seq<seq<Action>>, n: nat, h: nat, repeat: nat)
    ensures Flat(script, n + 1) == Flat(script, n) + ScriptAt(script, n)
    ensures Survives(Flat(script, n + 1), h, repeat) ==
      (Survives(Flat(script, n), h, repeat) &&
        Survives(ScriptAt(script, n), h, IntervalAfter(Flat(script, n), h, repeat)))
    ensures IntervalAfter(Flat(script, n + 1), h, repeat) == IntervalAfter(ScriptAt(script, n), h,
      IntervalAfter(Flat(script, n), h, repeat))
  {
    SurvivesJoin(Flat(script, n), ScriptAt(script, n), h, repeat);
  }

  /** A timer that is due and not the one that fires. */
  lemma SettledDue(script: seq<seq<Action>>, r: Rank, rank: Rank, hs0: seq<Handle>, hs: seq<Handle>, hs1: seq<Handle>,
      hs': seq<Handle>,
                   fired: seq<Rank>, still: bool)
    requires Settled(script, r, hs0, hs, fired, true) && TimerLessThan(rank, r) && r != rank
    requires |hs1| == |hs| && hs1[r.owner].repeat == hs[r.owner].repeat &&
      ObeysAt(ScriptAt(script, |fired|), r.owner, hs1, hs', still)
    ensures Settled(script, r, hs0, hs', fired + [rank], still)
  {
    hide Flat, Survives, IntervalAfter, Before;
    BeforeMore(fired, rank, r);
    FlatMore(script, |fired|, r.owner, hs0[r.owner].repeat);
  }

  /** The timer that fires. */
  lemma SettledFired(script: seq<seq<Action>>, rank: Rank, hs0: seq<Handle>, hs: seq<Handle>, hs': seq<Handle>,
      fired: seq<Rank>)
    requires Settled(script, rank, hs0, hs, fired, true) && |hs'| == |hs|
    ensures Settled(script, rank, hs0, hs', fired + [rank], false)
  {
    hide Flat, Survives, IntervalAfter, Before;
    BeforeMore(fired, rank, rank);
  }

  /** A timer whose case was settled. */
  lemma SettledPast(script: seq<seq<Action>>, r: Rank, rank: Rank, hs0: seq<Handle>, hs: seq<Handle>,
      hs': seq<Handle>, fired: seq<Rank>)
    requires Settled(script, r, hs0, hs, fired, false) && |hs'| == |hs| && r != rank
    requires forall i :: 0 <= i < |fired| ==> TimerLessThan(fired[i], rank)
    ensures Settled(script, r, hs0, hs', fired + [rank], false)
  {
    hide Flat, Survives, IntervalAfter, Before;
    BeforeMore(fired, rank, r);
    FlatMore(script, Before(fired, r), r.owner, hs0[r.owner].repeat);
    if r in fired {
      var i :| 0 <= i < |fired| && fired[i] == r;
      assert TimerLessThan(fired[i], rank);
    }
  }

  lemma TurnwiseStep(script: seq<seq<Action>>, time: nat, heap0: set<Node<Rank>>, keys0: Ranks, hs0: seq<Handle>,
      counter0: nat,
                     heap: set<Node<Rank>>, keys: Ranks, hs: seq<Handle>, counter: nat,
                     heap1: set<Node<Rank>>, keys1: Ranks, hs1: seq<Handle>,
                     heap': set<Node<Rank>>, keys': Ranks, hs': seq<Handle>, fired: seq<Rank>, node: Node<Rank>)
    requires Progress(time, heap0, keys0, heap, keys, fired) &&
      Turnwise(script, time, heap0, keys0, hs0, heap, keys, hs, fired)
    requires Numbered(heap0, keys0, counter0) && Numbered(heap, keys, counter) && node in Due(heap, keys, time)
    requires forall m :: m in heap ==> m in keys && !TimerLessThan(keys[m], keys[node])
    requires Due(heap1, keys1, time) == Due(heap, keys, time) - {node} && |hs1| == |hs| == |hs'|
    requires forall n :: n in Due(heap1, keys1, time) ==> n in keys1 && n in keys && keys1[n] == keys[n]
    requires forall i :: 0 <= i < |hs| ==> hs1[i].repeat == hs[i].repeat
    requires Fewer(time, heap1, keys1, heap', keys') &&
      Obeys(ScriptAt(script, |fired|), time, heap1, keys1, hs1, heap', keys', hs')
    ensures Turnwise(script, time, heap0, keys0, hs0, heap', keys', hs', fired + [keys[node]])
  {
    hide Settled, ObeysAt;
    var due, due', rank := Due(heap, keys, time), Due(heap', keys', time), keys[node];
    assert node in Due(heap0, keys0, time) && keys0[node] == rank;
    forall n | n in Due(heap0, keys0, time) ensures n in keys0 &&
      Settled(script, keys0[n], hs0, hs', fired + [rank], n in due') {
      assert Settled(script, keys0[n], hs0, hs, fired, n in due);
      if n == node {
        SettledFired(script, rank, hs0, hs, hs', fired);
      } else {
        Different(heap0, keys0, counter0, n, node);
        if n in due {
          NoTies(heap, keys, counter, node, n);
          assert ObeysAt(ScriptAt(script, |fired|), keys1[n].owner, hs1, hs', n in due');
          OwnerKnown(script, keys0[n], hs0, hs, fired, true);
          SettledDue(script, keys0[n], rank, hs0, hs, hs1, hs', fired, n in due');
        } else {
          assert forall i :: 0 <= i < |fired| ==> TimerLessThan(fired[i], keys[node]);
          SettledPast(script, keys0[n], rank, hs0, hs, hs', fired);
        }
      }
    }
  }

  lemma OwnerKnown(script: seq<seq<Action>>, r: Rank, hs0: seq<Handle>, hs: seq<Handle>, fired: seq<Rank>, still: bool)
    requires Settled(script, r, hs0, hs, fired, still)
    ensures r.owner < |hs|
  {
  }

  lemma TurnwiseEnd(script: seq<seq<Action>>, time: nat, heap0: set<Node<Rank>>, keys0: Ranks, hs0: seq<Handle>,
                    heap: set<Node<Rank>>, keys: Ranks, hs: seq<Handle>, fired: seq<Rank>)
    requires Turnwise(script, time, heap0, keys0, hs0, heap, keys, hs, fired) && Due(heap, keys, time) == {}
    ensures FiredExactly(script, Due(heap0, keys0, time), keys0, hs0, fired)
  {
    hide FiredRight;
    forall n | n in Due(heap0, keys0, time) ensures n in keys0 && FiredRight(script, keys0[n], hs0, fired) {
      assert Settled(script, keys0[n], hs0, hs, fired, n in Due(heap, keys, time));
    }
  }

  lemma DueMin(heap: set<Node<Rank>>, keys: Ranks, time: nat, node: Node<Rank>)
    requires node in heap && node in keys && keys[node].timeout <= time
    ensures node in Due(heap, keys, time)
  {
  }

  lemma Smaller(a: set<Node<Rank>>, b: set<Node<Rank>>, n: Node<Rank>)
    requires a <= b - {n} && n in b
    ensures |a| < |b|
  {
    Subset(a, b - {n});
  }

  lemma {:induction false} Subset(a: set<Node<Rank>>, b: set<Node<Rank>>)
    requires a <= b
    ensures |a| <= |b|
  {
    if a != {} {
      var n :| n in a;
      Subset(a - {n}, b - {n});
    }
  }

  lemma Different(heap: set<Node<Rank>>, keys: Ranks, counter: nat, n: Node<Rank>, m: Node<Rank>)
    requires Numbered(heap, keys, counter) && n in heap && m in heap && n != m
    ensures keys[n] != keys[m]
  {
  }

  lemma ProgressEnd(time: nat, heap0: set<Node<Rank>>, keys0: Ranks, heap: set<Node<Rank>>, keys: Ranks,
      fired: seq<Rank>)
    requires Progress(time, heap0, keys0, heap, keys, fired)
    ensures InTurn(fired) && forall r :: r in fired ==> r in RanksOf(Due(heap0, keys0, time), keys0)
  {
  }

  lemma ProgressStart(time: nat, heap: set<Node<Rank>>, keys: Ranks)
    ensures Progress(time, heap, keys, heap, keys, [])
  {
  }

  /** When no callback acts on a handle, its timer fires if it is due. */
  lemma UntouchedFires(script: seq<seq<Action>>, due: set<Node<Rank>>, keys: Ranks, hs: seq<Handle>, fired: seq<Rank>,
      n: Node<Rank>)
    requires FiredExactly(script, due, keys, hs, fired) && n in due
    requires n in keys && forall i, k :: 0 <= i < |script| && 0 <= k < |script[i]| ==>
      script[i][k].Target() != keys[n].owner
    ensures keys[n] in fired
  {
    var r := keys[n];
    assert FiredRight(script, r, hs, fired);
    FlatTargets(script, Before(fired, r), r.owner);
    Untouched(Flat(script, Before(fired, r)), r.owner, hs[r.owner].repeat);
  }

  /** Of two timers with the same deadline that no callback acts on, the one started first fires
      first. */
  lemma StartedFirst(script: seq<seq<Action>>, due: set<Node<Rank>>, keys: Ranks, hs: seq<Handle>, fired: seq<Rank>,
      n: Node<Rank>, m: Node<Rank>) returns (i: nat, j: nat)
    requires FiredExactly(script, due, keys, hs, fired) && InTurn(fired) && n in due && m in due
    requires n in keys && m in keys && keys[n].timeout == keys[m].timeout && keys[n].startId < keys[m].startId
    requires forall i, k :: 0 <= i < |script| && 0 <= k < |script[i]| ==>
      script[i][k].Target() != keys[n].owner && script[i][k].Target() != keys[m].owner
    ensures i < j < |fired| && fired[i] == keys[n] && fired[j] == keys[m]
  {
    UntouchedFires(script, due, keys, hs, fired, n);
    UntouchedFires(script, due, keys, hs, fired, m);
    i :| 0 <= i < |fired| && fired[i] == keys[n];
    j :| 0 <= j < |fired| && fired[j] == keys[m];
  }

  lemma {:induction false} FlatTargets(script: seq<seq<Action>>, n: nat, h: nat)
    requires forall i, k :: 0 <= i < |script| && 0 <= k < |script[i]| ==> script[i][k].Target() != h
    ensures forall k :: 0 <= k < |Flat(script, n)| ==> Flat(script, n)[k].Target() != h
  {
    if n > 0 { FlatTargets(script, n - 1, h); }
  }

  function Wait(time: nat, deadline: nat): nat {
    if deadline <= time then 0 else if deadline - time > INT_MAX then INT_MAX else deadline - time
  }

  /** One timer may have left the heap, or entered it with a deadline in the future. */
  ghost predicate Changed(time: nat, heap: set<Node<Rank>>, keys: Ranks,
      heap': set<Node<Rank>>, keys': Ranks, n: Node<Rank>)
  {
    (heap' == heap && keys' == keys) || (heap' == heap - {n} && keys' == keys) ||
    (heap' == heap + {n} && exists r: Rank :: keys' == keys[n := r] && (time < MAX_TIME ==> r.timeout > time))
  }

  /** Two timers are started, one after the other, with one deadline.  Once it has come the first
      fires before the second. */
  method FirstStartedFiresFirst(l: Loop, g: nat, h: nat, timeout: nat, every: nat, now: nat)
    returns (fired: seq<Rank>, ghost i: nat, ghost j: nat)
    requires l.Valid() && g < |l.handles| && h < |l.handles| && g != h
    requires !l.handles[g].closing && !l.handles[h].closing
    requires l.time + timeout <= now < MAX_TIME
    modifies l, l.queue, l.nodes
    ensures l.Valid() && i < j < |fired| && fired[i].owner == g && fired[j].owner == h
    ensures fired[i].timeout == fired[j].timeout == old(l.time) + timeout
  {
    hide Linked, InHeapOrder, Keys, StrictWeak, Distinct, Numbered, Owned, FiredExactly, InTurn;
    AllNodes(l.handles, l.nodes, Nodes(l.queue.ns));
    var ok := l.TimerStart(g, true, timeout, every);
    ok := l.TimerStart(h, true, timeout, every);
    l.UpdateTime(now);
    ghost var due, keys, hs := Due(Nodes(l.queue.ns), KeyMap(l.nodes), l.time), KeyMap(l.nodes), l.handles;
    OwnedDistinct(l.nodes, keys);
    DistinctAt(l.nodes, g, h);
    fired := l.RunTimers([]);
    i, j := StartedFirst([], due, keys, hs, fired, l.nodes[g], l.nodes[h]);
  }

  lemma DistinctAt(nodes: seq<Node<Rank>>, g: nat, h: nat)
    requires Distinct(nodes) && g < |nodes| && h < |nodes| && g != h
    ensures nodes[g] != nodes[h]
  {
  }

  lemma OneRecurs(acts: seq<Action>, ts: seq<Timer>, time: nat)
    requires |ts| == 1 && Recurs(acts, ts[0], time)
    ensures SomeRecurs([acts], ts, time)
  {
    hide Recurs;
    assert Recurs([acts][0], ts[0], time);
  }

  /** A one-shot timer whose callback starts it again with a timeout of 0 keeps the loop going for
      any number of turns. */
  method SpinsOnZero(k: nat) returns (l: Loop, n: nat)
    ensures fresh(l) && l.Valid() && l.time == 100 && |l.handles| == 1 == |l.nodes|
    ensures SomeRecurs([[Start(0, 0, 0)]], l.Timers(), l.time)
    ensures n == k && l.queue.min != null && l.queue.min.key.timeout <= l.time
  {
    hide Linked, InHeapOrder, Keys, StrictWeak, Flagged, Distinct, Numbered, Owned, KeyMap, Due, Recurs, SomeRecurs;
    l := new Loop(1, 100, 0);
    AllNodes(l.handles, l.nodes, Nodes(l.queue.ns));
    l.Act(Start(0, 0, 0));
    RecursExactly(0, 0, 0, l.Timers()[0], l.time);
    OneRecurs([Start(0, 0, 0)], l.Timers(), l.time);
    n := l.Turns([[Start(0, 0, 0)]], k);
  }

  /** So does a repeating timer at the end of time, whose callback does nothing. */
  method SpinsAtTheEnd(k: nat) returns (l: Loop, n: nat)
    ensures fresh(l) && l.Valid() && l.time == MAX_TIME && |l.handles| == 1 == |l.nodes|
    ensures SomeRecurs([[]], l.Timers(), l.time)
    ensures n == k && l.queue.min != null && l.queue.min.key.timeout <= l.time
  {
    hide Linked, InHeapOrder, Keys, StrictWeak, Flagged, Distinct, Numbered, Owned, KeyMap, Due, Recurs, SomeRecurs;
    l := new Loop(1, MAX_TIME, 0);
    AllNodes(l.handles, l.nodes, Nodes(l.queue.ns));
    l.Act(Start(0, 0, 1));
    RecursExactly(0, 0, 0, l.Timers()[0], l.time);
    OneRecurs([], l.Timers(), l.time);
    n := l.Turns([[]], k);
  }
}
