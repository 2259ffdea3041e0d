/**
 The libuv thread pool as a state machine.  Workers, the loop threads that submit
 and cancel requests, and the delivery of results interleave freely; each step is
 what happens between two lock operations.  The pool's mutex may be held by one
 worker across several steps.
 */
module ThreadPool {
  import opened Common

  /** A node of the work queue: a request, or one of the two messages. */
  datatype Item = Req(id: nat) | RunSlow | ExitMsg

  /** Where a worker is. */
  datatype Pc =
    | Start(slow: bool)               // about to lock the mutex (after slow work, if `slow`)
    | Top                             // holds the mutex, at the head of its loop
    | Blocked                         // waits on the condition
    | Woken                           // signalled, about to lock the mutex again
    | Taken(id: nat, slow: bool)      // has a request, about to call its work function
    | Running(id: nat, slow: bool)    // inside the work function
    | Exited

  /** The `work` field of a request: the caller's function, NULL, or `uv__cancelled`. */
  datatype Work = Function | Null | CancelledMark

  datatype Status = Ok | Cancelled

  /** Where a request is; only for stating properties, no step looks at it. */
  datatype Place =
    | InWork
    | InSlow
    | AtWorker(t: nat)
    | Cancelling(l: nat)
    | InLoop(l: nat)
    | InLocal(l: nat)
    | Delivered

  /** `linked` is what `QUEUE_EMPTY` on the request's own node denies. */
  datatype Request = Request(loop: nat, slow: bool, work: Work, linked: bool,
                             place: Place, started: bool, done: Option<Status>)

  /** A loop: finished requests, those being delivered, and a cancellation between
      its two critical sections. */
  datatype Loop = Loop(wq: seq<nat>, local: seq<nat>, cancelling: Option<nat>)

  datatype State = State(
    workers: seq<Pc>,
    holder: Option<nat>,
    wq: seq<Item>,
    slowq: seq<nat>,
    runSlowLinked: bool,
    idle: int,
    slowRunning: int,
    exiting: bool,
    loops: seq<Loop>,
    reqs: map<nat, Request>,
    aborted: bool)

  datatype Step =
    | Lock(t: nat)
    | Iterate(t: nat, wake: nat)
    | Spurious(t: nat)
    | Call(t: nat)
    | Finish(t: nat)
    | Submit(id: nat, l: nat, slow: bool, wake: nat)
    | CancelStart(id: nat)
    | CancelFinish(l: nat)
    | Collect(l: nat)
    | Deliver(l: nat)
    | PostExit(wake: nat)

  function Init(nthreads: nat, nloops: nat): State
    requires nthreads > 0
  {
    State(seq(nthreads, _ => Start(false)), None, [], [], false, 0, 0, false,
          seq(nloops, _ => Loop([], [], None)), map[], false)
  }

  function Threshold(s: State): int {
    (|s.workers| + 1) / 2
  }

  /** No work, or only slow work and already enough of that running. */
  predicate MustWait(s: State) {
    s.wq == [] || (s.wq == [RunSlow] && s.slowRunning >= Threshold(s))
  }

  predicate IsBlocked(s: State, t: nat) {
    t < |s.workers| && s.workers[t].Blocked?
  }

  /** Signalling the condition wakes one blocked worker, if there is one. */
  ghost predicate CanSignal(s: State, wake: nat) {
    IsBlocked(s, wake) || forall t :: !IsBlocked(s, t)
  }

  function Signal(s: State, wake: nat): State {
    if IsBlocked(s, wake) then s.(workers := s.workers[wake := Woken]) else s
  }

  function SignalIfIdle(s: State, wake: nat): State {
    if s.idle > 0 then Signal(s, wake) else s
  }

  function Remove<T(==)>(q: seq<T>, x: T): seq<T> {
    if q == [] then [] else if q[0] == x then q[1..] else [q[0]] + Remove(q[1..], x)
  }

  ghost predicate Enabled(s: State, e: Step) {
    match e
    case Lock(t) => t < |s.workers| && (s.workers[t].Start? || s.workers[t].Woken?) && s.holder.None?
    case Iterate(t, wake) => t < |s.workers| && s.workers[t].Top? && s.holder == Some(t) && CanSignal(s, wake)
    case Spurious(t) => IsBlocked(s, t)
    case Call(t) => t < |s.workers| && s.workers[t].Taken? && s.workers[t].id in s.reqs
    case Finish(t) =>
      t < |s.workers| && s.workers[t].Running? && s.workers[t].id in s.reqs && s.reqs[s.workers[t].id].loop < |s.loops|
    case Submit(id, l, _, wake) =>
      id !in s.reqs && l < |s.loops| && s.loops[l].cancelling.None? && s.holder.None? && CanSignal(s, wake)
    case CancelStart(id) =>
      && id in s.reqs && !s.reqs[id].place.Delivered? && s.holder.None?
      && s.reqs[id].loop < |s.loops| && s.loops[s.reqs[id].loop].cancelling.None?
    case CancelFinish(l) => l < |s.loops| && s.loops[l].cancelling.Some? && s.loops[l].cancelling.value in s.reqs
    case Collect(l) => l < |s.loops| && s.loops[l].local == [] && s.loops[l].cancelling.None?
    case Deliver(l) =>
      l < |s.loops| && s.loops[l].local != [] && s.loops[l].cancelling.None? && s.loops[l].local[0] in s.reqs
    case PostExit(wake) => !s.exiting && s.holder.None? && CanSignal(s, wake)
  }

  function AfterLock(s: State, t: nat): State
    requires t < |s.workers|
  {
    var s1 := s.(holder := Some(t), workers := s.workers[t := Top]);
    match s.workers[t]
    case Start(slow) => if slow then s1.(slowRunning := s.slowRunning - 1) else s1
    case _ => s1.(idle := s.idle - 1)
  }

  /** One iteration of the worker's loop, with the mutex held. */
  function AfterIterate(s: State, t: nat, wake: nat): State
    requires t < |s.workers|
  {
    if MustWait(s) then
      s.(idle := s.idle + 1, workers := s.workers[t := Blocked], holder := None)
    else
      match s.wq[0]
      case ExitMsg =>
        Signal(s, wake).(workers := Signal(s, wake).workers[t := Exited], holder := None)
      case Req(id) =>
        Take(s.(wq := s.wq[1..]), t, id, false)
      case RunSlow =>
        var s1 := s.(wq := s.wq[1..], runSlowLinked := false);
        if s.slowRunning >= Threshold(s) then
          s1.(wq := s1.wq + [RunSlow], runSlowLinked := true)
        else if s.slowq == [] then s1
        else
          var id := s.slowq[0];
          var s2 := s1.(slowRunning := s.slowRunning + 1, slowq := s.slowq[1..]);
          var s3 := if s2.slowq != [] then
            SignalIfIdle(s2.(wq := s2.wq + [RunSlow], runSlowLinked := true), wake) else s2;
          Take(s3, t, id, true)
  }

  /** The request leaves the queues, its node linked to itself, and the mutex is released. */
  function Take(s: State, t: nat, id: nat, slow: bool): State
    requires t < |s.workers|
  {
    s.(workers := s.workers[t := Taken(id, slow)], holder := None,
       reqs := if id in s.reqs then s.reqs[id := s.reqs[id].(linked := false, place := AtWorker(t))] else s.reqs)
  }

  function AfterCall(s: State, t: nat): State
    requires t < |s.workers| && s.workers[t].Taken? && s.workers[t].id in s.reqs
  {
    var id, slow := s.workers[t].id, s.workers[t].slow;
    if s.reqs[id].work != Function then s.(aborted := true)
    else s.(workers := s.workers[t := Running(id, slow)], reqs := s.reqs[id := s.reqs[id].(started := true)])
  }

  /** The finished request goes to its loop. */
  function AfterFinish(s: State, t: nat): State
    requires t < |s.workers| && s.workers[t].Running? && s.workers[t].id in s.reqs
    requires s.reqs[s.workers[t].id].loop < |s.loops|
  {
    var id := s.workers[t].id;
    var l := s.reqs[id].loop;
    s.(workers := s.workers[t := Start(s.workers[t].slow)],
       reqs := s.reqs[id := s.reqs[id].(work := Null, linked := true, place := InLoop(l))],
       loops := s.loops[l := s.loops[l].(wq := s.loops[l].wq + [id])])
  }

  function AfterSubmit(s: State, id: nat, l: nat, slow: bool, wake: nat): State {
    var s1 := s.(reqs := s.reqs[id := Request(l, slow, Function, true, if slow then InSlow else InWork, false, None)]);
    if slow then
      var s2 := s1.(slowq := s1.slowq + [id]);
      if s2.runSlowLinked then s2
      else SignalIfIdle(s2.(wq := s2.wq + [RunSlow], runSlowLinked := true), wake)
    else SignalIfIdle(s1.(wq := s1.wq + [Req(id)]), wake)
  }

  /** A request can be cancelled while its node is in some queue and its work is not done. */
  predicate CanCancel(r: Request) {
    r.linked && r.work != Null
  }

  /** First critical section of a cancellation: the node leaves whatever queue it is
      in.  A request that cannot be cancelled is left alone (the call returns EBUSY). */
  function AfterCancelStart(s: State, id: nat): State
    requires id in s.reqs && s.reqs[id].loop < |s.loops|
  {
    var r := s.reqs[id];
    var lp := s.loops[r.loop];
    if !CanCancel(r) then s
    else s.(wq := Remove(s.wq, Req(id)), slowq := Remove(s.slowq, id),
            loops := s.loops[r.loop := Loop(Remove(lp.wq, id), Remove(lp.local, id), Some(id))],
            reqs := s.reqs[id := r.(place := Cancelling(r.loop))])
  }

  function AfterCancelFinish(s: State, l: nat): State
    requires l < |s.loops| && s.loops[l].cancelling.Some? && s.loops[l].cancelling.value in s.reqs
  {
    var id := s.loops[l].cancelling.value;
    s.(loops := s.loops[l := s.loops[l].(wq := s.loops[l].wq + [id], cancelling := None)],
       reqs := s.reqs[id := s.reqs[id].(work := CancelledMark, linked := true, place := InLoop(l))])
  }

  /** The loop takes the whole queue of finished requests. */
  function AfterCollect(s: State, l: nat): State
    requires l < |s.loops|
  {
    s.(loops := s.loops[l := s.loops[l].(wq := [], local := s.loops[l].wq)],
       reqs := map id | id in s.reqs ::
                 if s.reqs[id].place == InLoop(l) then s.reqs[id].(place := InLocal(l)) else s.reqs[id])
  }

  /** The callback of the first request runs. */
  function AfterDeliver(s: State, l: nat): State
    requires l < |s.loops| && s.loops[l].local != [] && s.loops[l].local[0] in s.reqs
  {
    var id := s.loops[l].local[0];
    var status := if s.reqs[id].work == CancelledMark then Cancelled else Ok;
    s.(loops := s.loops[l := s.loops[l].(local := s.loops[l].local[1..])],
       reqs := s.reqs[id := s.reqs[id].(place := Delivered, done := Some(status))])
  }

  function AfterPostExit(s: State, wake: nat): State {
    SignalIfIdle(s.(wq := s.wq + [ExitMsg], exiting := true), wake)
  }

  ghost function Apply(s: State, e: Step): State
    requires Enabled(s, e)
  {
    match e
    case Lock(t) => AfterLock(s, t)
    case Iterate(t, wake) => AfterIterate(s, t, wake)
    case Spurious(t) => Signal(s, t)
    case Call(t) => AfterCall(s, t)
    case Finish(t) => AfterFinish(s, t)
    case Submit(id, l, slow, wake) => AfterSubmit(s, id, l, slow, wake)
    case CancelStart(id) => AfterCancelStart(s, id)
    case CancelFinish(l) => AfterCancelFinish(s, l)
    case Collect(l) => AfterCollect(s, l)
    case Deliver(l) => AfterDeliver(s, l)
    case PostExit(wake) => AfterPostExit(s, wake)
  }

  /** `s` is reached from `s0` by the steps `es`, each enabled in turn. */
  ghost predicate Run(s0: State, es: seq<Step>, s: State)
    decreases |es|
  {
    if es == [] then s == s0
    else Enabled(s0, es[0]) && Run(Apply(s0, es[0]), es[1..], s)
  }

  ghost predicate Reachable(s: State) {
    exists n: nat, m: nat, es: seq<Step> :: n > 0 && Run(Init(n, m), es, s)
  }

  // ---------- Invariant ----------

  ghost predicate NoDup<T>(q: seq<T>) {
    forall i, j :: 0 <= i < j < |q| ==> q[i] != q[j]
  }

  /** Request `id` really is where `p` says. */
  ghost predicate Holds(s: State, id: nat, p: Place) {
    match p
    case InWork => Req(id) in s.wq
    case InSlow => id in s.slowq
    case AtWorker(t) => t < |s.workers| && (s.workers[t].Taken? || s.workers[t].Running?) && s.workers[t].id == id
    case Cancelling(l) => l < |s.loops| && s.loops[l].cancelling == Some(id)
    case InLoop(l) => l < |s.loops| && id in s.loops[l].wq
    case InLocal(l) => l < |s.loops| && id in s.loops[l].local
    case Delivered => id in s.reqs && s.reqs[id].done.Some?
  }

  /** A request is where its record says, and nowhere else. */
  ghost predicate Placed(s: State) {
    forall id, p :: Holds(s, id, p) <==> id in s.reqs && s.reqs[id].place == p
  }

  ghost predicate QueuesOK(s: State) {
    && NoDup(s.wq) && NoDup(s.slowq)
    && forall l :: 0 <= l < |s.loops| ==> NoDup(s.loops[l].wq) && NoDup(s.loops[l].local)
  }

  /** What the fields of a request are, place by place. */
  ghost predicate RequestOK(s: State, r: Request) {
    && r.loop < |s.loops|
    && (r.done.Some? <==> r.place.Delivered?)
    && match r.place
       case InWork => !r.slow && r.linked && r.work == Function && !r.started
       case InSlow => r.slow && r.linked && r.work == Function && !r.started
       case AtWorker(t) => !r.linked && r.work == Function && t < |s.workers| && (r.started <==> s.workers[t].Running?)
       case Cancelling(l) => l == r.loop && r.linked && r.work != Null && !r.started
       case InLoop(l) => l == r.loop && r.linked && FinishedOK(r)
       case InLocal(l) => l == r.loop && r.linked && FinishedOK(r)
       case Delivered => FinishedOK(r) && r.done == Some(if r.work == CancelledMark then Cancelled else Ok)
  }

  ghost predicate FinishedOK(r: Request) {
    if r.started then r.work == Null else r.work == CancelledMark
  }

  ghost predicate RequestsOK(s: State) {
    forall id :: id in s.reqs ==> RequestOK(s, s.reqs[id])
  }

  predicate IsSlow(p: Pc) {
    (p.Start? && p.slow) || (p.Taken? && p.slow) || (p.Running? && p.slow)
  }

  predicate IsIdle(p: Pc) {
    p.Blocked? || p.Woken?
  }

  function CountSlow(ws: seq<Pc>): nat {
    if ws == [] then 0 else CountSlow(ws[..|ws| - 1]) + if IsSlow(ws[|ws| - 1]) then 1 else 0
  }

  function CountIdle(ws: seq<Pc>): nat {
    if ws == [] then 0 else CountIdle(ws[..|ws| - 1]) + if IsIdle(ws[|ws| - 1]) then 1 else 0
  }

  ghost predicate CountersOK(s: State) {
    && |s.workers| > 0
    && s.slowRunning == CountSlow(s.workers) <= Threshold(s)
    && s.idle == CountIdle(s.workers)
  }

  /** The slow-work message is queued exactly when its node says so, and whenever slow
      work is pending. */
  ghost predicate MessagesOK(s: State) {
    && (s.runSlowLinked <==> RunSlow in s.wq)
    && (s.slowq != [] ==> RunSlow in s.wq)
    && (s.exiting <==> ExitMsg in s.wq)
  }

  ghost predicate MutexOK(s: State) {
    forall t :: 0 <= t < |s.workers| ==> (s.workers[t].Top? <==> s.holder == Some(t))
  }

  ghost predicate AllAsleep(s: State) {
    forall t :: 0 <= t < |s.workers| ==> s.workers[t].Blocked? || s.workers[t].Exited?
  }

  /** Workers are never all asleep (or gone) while there is something for them to do. */
  ghost predicate AwakeOK(s: State) {
    AllAsleep(s) && (exists t :: IsBlocked(s, t)) ==> MustWait(s)
  }

  ghost predicate Inv(s: State) {
    Safe(s) && AwakeOK(s)
  }

  ghost predicate Safe(s: State) {
    && Placed(s) && QueuesOK(s) && RequestsOK(s)
    && CountersOK(s) && MessagesOK(s) && MutexOK(s)
    && !s.aborted
  }

  // ---------- Counting ----------

  function Bit(b: bool): nat { if b then 1 else 0 }

  lemma {:induction false} CountUpdate(ws: seq<Pc>, t: nat, p: Pc)
    requires t < |ws|
    ensures CountSlow(ws[t := p]) + Bit(IsSlow(ws[t])) == CountSlow(ws) + Bit(IsSlow(p))
    ensures CountIdle(ws[t := p]) + Bit(IsIdle(ws[t])) == CountIdle(ws) + Bit(IsIdle(p))
  {
    var n := |ws| - 1;
    if t < n {
      assert ws[t := p][..n] == ws[..n][t := p];
      CountUpdate(ws[..n], t, p);
    } else {
      assert ws[t := p][..n] == ws[..n];
    }
  }

  lemma {:induction false} CountSome(ws: seq<Pc>, t: nat)
    requires t < |ws|
    ensures IsSlow(ws[t]) ==> CountSlow(ws) > 0
    ensures IsIdle(ws[t]) ==> CountIdle(ws) > 0
  {
    if t < |ws| - 1 { CountSome(ws[..|ws| - 1], t); }
  }

  lemma {:induction false} CountNoSlow(ws: seq<Pc>)
    requires forall t :: 0 <= t < |ws| ==> !IsSlow(ws[t])
    ensures CountSlow(ws) == 0
  {
    if ws != [] { CountNoSlow(ws[..|ws| - 1]); }
  }

  lemma {:induction false} RemoveElems<T>(q: seq<T>, x: T)
    requires NoDup(q)
    ensures NoDup(Remove(q, x))
    ensures forall y :: y in Remove(q, x) <==> y in q && y != x
    ensures x !in q ==> Remove(q, x) == q
  {
    if q != [] && q[0] != x {
      RemoveElems(q[1..], x);
      forall y ensures y in Remove(q, x) <==> y in q && y != x {
        assert y in q <==> y == q[0] || y in q[1..];
      }
      var r := Remove(q[1..], x);
      forall i, j | 0 <= i < j < |r| + 1 ensures Remove(q, x)[i] != Remove(q, x)[j] {
        if i == 0 { assert r[j - 1] in r; }
      }
    } else if q != [] {
      forall y ensures y in q[1..] <==> y in q && y != x {
        assert y in q <==> y == q[0] || y in q[1..];
      }
    }
  }

  lemma NoDupAppend<T>(q: seq<T>, x: T)
    requires NoDup(q) && x !in q
    ensures NoDup(q + [x])
    ensures forall y :: y in q + [x] <==> y in q || y == x
  {
  }

  lemma NoDupTail<T>(q: seq<T>)
    requires NoDup(q) && q != []
    ensures NoDup(q[1..])
    ensures forall y :: y in q[1..] <==> y in q && y != q[0]
  {
    forall y ensures y in q[1..] <==> y in q && y != q[0] {
      assert y in q <==> y == q[0] || y in q[1..];
    }
  }

  // ---------- Steps keep the invariant ----------

  lemma InitInv(nthreads: nat, nloops: nat)
    requires nthreads > 0
    ensures Inv(Init(nthreads, nloops))
  {
    var s := Init(nthreads, nloops);
    CountNoSlow(s.workers);
    NoIdleAtStart(s.workers);
    assert s.workers[0] == Start(false);
    forall id, p ensures !Holds(s, id, p) { }
  }

  lemma {:induction false} NoIdleAtStart(ws: seq<Pc>)
    requires forall t :: 0 <= t < |ws| ==> ws[t] == Start(false)
    ensures CountIdle(ws) == 0
  {
    if ws != [] { NoIdleAtStart(ws[..|ws| - 1]); }
  }

  /** Only the workers' program points differ, and none that holds a request or the mutex. */
  lemma PlacedKept(s: State, s': State)
    requires Placed(s)
    requires s'.reqs == s.reqs && s'.slowq == s.slowq && s'.loops == s.loops && |s'.workers| == |s.workers|
    requires forall id :: Req(id) in s'.wq <==> Req(id) in s.wq
    requires forall t :: 0 <= t < |s.workers| && s'.workers[t] != s.workers[t] ==>
               !s.workers[t].Taken? && !s.workers[t].Running? && !s'.workers[t].Taken? && !s'.workers[t].Running?
    ensures Placed(s')
  {
    forall id, p ensures Holds(s', id, p) <==> id in s'.reqs && s'.reqs[id].place == p {
      assert Holds(s', id, p) <==> Holds(s, id, p);
    }
  }

  lemma LockKeeps(s: State, t: nat)
    requires Inv(s) && Enabled(s, Lock(t))
    ensures Inv(AfterLock(s, t))
  {
    var s' := AfterLock(s, t);
    CountUpdate(s.workers, t, Top);
    PlacedKept(s, s');
    forall id | id in s'.reqs ensures RequestOK(s', s'.reqs[id]) { assert RequestOK(s, s.reqs[id]); }
    assert s'.workers[t].Top?;
  }

  lemma SignalSafe(s: State, wake: nat)
    requires Safe(s)
    ensures Safe(Signal(s, wake))
  {
    if IsBlocked(s, wake) {
      var s' := Signal(s, wake);
      CountUpdate(s.workers, wake, Woken);
      PlacedKept(s, s');
      forall id | id in s'.reqs ensures RequestOK(s', s'.reqs[id]) { assert RequestOK(s, s.reqs[id]); }
    }
  }

  lemma SameBlocked(s: State, s': State)
    requires s'.workers == s.workers
    ensures forall t :: IsBlocked(s', t) <==> IsBlocked(s, t)
    ensures forall wake :: CanSignal(s, wake) ==> CanSignal(s', wake)
  {
    assert forall t :: IsBlocked(s', t) <==> IsBlocked(s, t);
  }

  /** Signalling whenever someone is idle keeps the pool from oversleeping. */
  lemma SignalIfIdleInv(s: State, wake: nat)
    requires Safe(s) && CanSignal(s, wake)
    ensures Inv(SignalIfIdle(s, wake))
  {
    SignalSafe(s, wake);
    var s' := SignalIfIdle(s, wake);
    if t :| IsBlocked(s', t) {
      CountSome(s'.workers, t);
      assert IsBlocked(s, t);
      CountSome(s.workers, t);
      assert s'.workers[wake].Woken?;
    }
  }

  lemma SpuriousKeeps(s: State, t: nat)
    requires Inv(s) && IsBlocked(s, t)
    ensures Inv(Signal(s, t))
  {
    SignalSafe(s, t);
    assert Signal(s, t).workers[t].Woken?;
  }

  /** Goes to sleep, or leaves. */
  lemma IterateWaits(s: State, t: nat, wake: nat)
    requires Inv(s) && Enabled(s, Iterate(t, wake)) && MustWait(s)
    ensures Inv(AfterIterate(s, t, wake))
  {
    var s' := AfterIterate(s, t, wake);
    CountUpdate(s.workers, t, Blocked);
    PlacedKept(s, s');
    forall id | id in s'.reqs ensures RequestOK(s', s'.reqs[id]) { assert RequestOK(s, s.reqs[id]); }
  }

  /** A worker that is in the loop leaves for good. */
  lemma ExitSafe(s: State, t: nat)
    requires Safe(s) && t < |s.workers| && s.workers[t].Top? && s.holder == Some(t)
    ensures Safe(s.(workers := s.workers[t := Exited], holder := None))
  {
    var s' := s.(workers := s.workers[t := Exited], holder := None);
    CountUpdate(s.workers, t, Exited);
    PlacedKept(s, s');
    forall id | id in s'.reqs ensures RequestOK(s', s'.reqs[id]) { assert RequestOK(s, s.reqs[id]); }
  }

  lemma IterateExits(s: State, t: nat, wake: nat)
    requires Inv(s) && Enabled(s, Iterate(t, wake)) && !MustWait(s) && s.wq[0].ExitMsg?
    ensures Inv(AfterIterate(s, t, wake))
  {
    hide Safe, Placed, QueuesOK, RequestsOK, CountersOK, MessagesOK, MutexOK, CountSlow, CountIdle;
    var s' := AfterIterate(s, t, wake);
    SignalSafe(s, wake);
    ExitSafe(Signal(s, wake), t);
    if b :| IsBlocked(s', b) {
      assert IsBlocked(s, b);
      assert s'.workers[wake].Woken?;
    }
  }

  /** What a worker finds when it takes request `id`, which has just left the queue it was in. */
  ghost predicate Takeable(s0: State, s: State, t: nat, id: nat, slow: bool) {
    && t < |s0.workers| && s0.workers[t].Top? && s0.holder == Some(t)
    && id in s0.reqs && s0.reqs[id].place == (if slow then InSlow else InWork)
    && |s.workers| == |s0.workers| && s.workers[t] == Top && s.holder == s0.holder
    && s.reqs == s0.reqs && s.loops == s0.loops && s.aborted == s0.aborted
    && (forall x :: Req(x) in s.wq <==> Req(x) in s0.wq && (slow || x != id))
    && (forall x :: x in s.slowq <==> x in s0.slowq && (!slow || x != id))
    && (forall u :: 0 <= u < |s.workers| && s.workers[u] != s0.workers[u] ==>
      s0.workers[u].Blocked? && s.workers[u].Woken?)
  }

  lemma TakePlaced(s0: State, s: State, t: nat, id: nat, slow: bool)
    requires Safe(s0) && Takeable(s0, s, t, id, slow)
    ensures Placed(Take(s, t, id, slow))
  {
    var s' := Take(s, t, id, slow);
    forall x, p ensures Holds(s', x, p) <==> x in s'.reqs && s'.reqs[x].place == p {
      assert Holds(s0, x, p) <==> x in s0.reqs && s0.reqs[x].place == p;
      if p.AtWorker? && p.t == t {
        assert Holds(s0, id, p) <==> s0.reqs[id].place == p;
      }
    }
  }

  lemma TakeRequests(s0: State, s: State, t: nat, id: nat, slow: bool)
    requires Safe(s0) && Takeable(s0, s, t, id, slow)
    ensures RequestsOK(Take(s, t, id, slow))
  {
    var s' := Take(s, t, id, slow);
    forall x | x in s'.reqs ensures RequestOK(s', s'.reqs[x]) {
      assert RequestOK(s0, s0.reqs[x]);
      assert Holds(s0, x, s0.reqs[x].place);
    }
  }

  /** A worker takes request `id`. */
  lemma TakeKeeps(s0: State, s: State, t: nat, id: nat, slow: bool)
    requires Safe(s0) && Takeable(s0, s, t, id, slow) && QueuesOK(s) && MessagesOK(s)
    requires s.idle == CountIdle(s.workers)
    requires s.slowRunning == CountSlow(s.workers) + Bit(slow) <= Threshold(s)
    ensures Inv(Take(s, t, id, slow))
  {
    hide Placed, RequestsOK, NoDup, CountSlow, CountIdle;
    CountUpdate(s.workers, t, Taken(id, slow));
    TakePlaced(s0, s, t, id, slow);
    TakeRequests(s0, s, t, id, slow);
    assert Take(s, t, id, slow).workers[t].Taken?;
  }

  lemma IterateTakes(s: State, t: nat, wake: nat)
    requires Inv(s) && Enabled(s, Iterate(t, wake)) && !MustWait(s) && s.wq[0].Req?
    ensures Inv(AfterIterate(s, t, wake))
  {
    var id := s.wq[0].id;
    assert Holds(s, id, InWork);
    NoDupTail(s.wq);
    TakeKeeps(s, s.(wq := s.wq[1..]), t, id, false);
  }

  /** The slow-work message is re-queued behind the other work, or dropped because
      everything it announced was cancelled. */
  lemma IterateSkips(s: State, t: nat, wake: nat)
    requires Inv(s) && Enabled(s, Iterate(t, wake)) && !MustWait(s) && s.wq[0].RunSlow?
    requires s.slowRunning >= Threshold(s) || s.slowq == []
    ensures Inv(AfterIterate(s, t, wake))
  {
    var s' := AfterIterate(s, t, wake);
    NoDupTail(s.wq);
    if s.slowRunning >= Threshold(s) { NoDupAppend(s.wq[1..], RunSlow); }
    PlacedKept(s, s');
    forall id | id in s'.reqs ensures RequestOK(s', s'.reqs[id]) { assert RequestOK(s, s.reqs[id]); }
    assert s'.workers[t].Top?;
  }

  lemma IterateTakesSlow(s: State, t: nat, wake: nat)
    requires Inv(s) && Enabled(s, Iterate(t, wake)) && !MustWait(s) && s.wq[0].RunSlow?
    requires s.slowRunning < Threshold(s) && s.slowq != []
    ensures Inv(AfterIterate(s, t, wake))
  {
    hide RequestsOK, AwakeOK, CountSlow, CountIdle;
    var id := s.slowq[0];
    assert Holds(s, id, InSlow);
    NoDupTail(s.wq);
    NoDupTail(s.slowq);
    if s.slowq[1..] == [] {
      TakeLastSlow(s, t, id, s.wq[1..], s.slowq[1..]);
    } else {
      NoDupAppend(s.wq[1..], RunSlow);
      var s3 := s.(wq := s.wq[1..] + [RunSlow], runSlowLinked := true, slowRunning := s.slowRunning + 1,
        slowq := s.slowq[1..]);
      SlowSignalled(s, s3, t, wake, id);
    }
  }

  /** `t` takes the only slow request left: no more slow work to announce. */
  lemma TakeLastSlow(s: State, t: nat, id: nat, wq: seq<Item>, slowq: seq<nat>)
    requires Inv(s) && t < |s.workers| && s.workers[t].Top? && s.holder == Some(t)
    requires s.slowRunning < Threshold(s) && id in s.reqs && s.reqs[id].place == InSlow
    requires NoDup(wq) && forall x :: x in wq <==> x in s.wq && x != RunSlow
    requires slowq == [] && forall x :: x in s.slowq ==> x == id
    ensures Inv(Take(s.(wq := wq, runSlowLinked := false, slowRunning := s.slowRunning + 1, slowq := slowq), t, id,
      true))
  {
    hide RequestsOK, AwakeOK, Placed, CountSlow, CountIdle;
    TakeKeeps(s, s.(wq := wq, runSlowLinked := false, slowRunning := s.slowRunning + 1, slowq := slowq), t, id, true);
  }

  /** More slow work was announced, and somebody idle told about it, before `t` takes its own. */
  lemma SlowSignalled(s: State, s3: State, t: nat, wake: nat, id: nat)
    requires Inv(s) && Enabled(s, Iterate(t, wake))
    requires s.slowRunning < Threshold(s) && s.slowq != [] && id == s.slowq[0]
    requires id in s.reqs && s.reqs[id].place == InSlow
    requires s3 == s.(wq := s3.wq, runSlowLinked := true, slowRunning := s.slowRunning + 1, slowq := s.slowq[1..])
    requires NoDup(s3.wq) && NoDup(s3.slowq) && RunSlow in s3.wq && (ExitMsg in s3.wq <==> ExitMsg in s.wq)
    requires forall x :: Req(x) in s3.wq <==> Req(x) in s.wq
    requires forall x :: x in s3.slowq <==> x in s.slowq && x != id
    ensures Inv(Take(SignalIfIdle(s3, wake), t, id, true))
  {
    if IsBlocked(s, wake) { CountUpdate(s.workers, wake, Woken); }
    TakeKeeps(s, SignalIfIdle(s3, wake), t, id, true);
  }

  lemma IterateKeeps(s: State, t: nat, wake: nat)
    requires Inv(s) && Enabled(s, Iterate(t, wake))
    ensures Inv(AfterIterate(s, t, wake))
  {
    if MustWait(s) {
      IterateWaits(s, t, wake);
    } else if s.wq[0].ExitMsg? {
      IterateExits(s, t, wake);
    } else if s.wq[0].Req? {
      IterateTakes(s, t, wake);
    } else if s.slowRunning >= Threshold(s) || s.slowq == [] {
      IterateSkips(s, t, wake);
    } else {
      IterateTakesSlow(s, t, wake);
    }
  }

  lemma CallKeeps(s: State, t: nat)
    requires Inv(s) && Enabled(s, Call(t))
    ensures Inv(AfterCall(s, t))
  {
    var s' := AfterCall(s, t);
    var id := s.workers[t].id;
    assert Holds(s, id, AtWorker(t));
    CountUpdate(s.workers, t, Running(id, s.workers[t].slow));
    forall x, p ensures Holds(s', x, p) <==> x in s'.reqs && s'.reqs[x].place == p {
      assert Holds(s', x, p) <==> Holds(s, x, p);
    }
    forall x | x in s'.reqs ensures RequestOK(s', s'.reqs[x]) {
      assert RequestOK(s, s.reqs[x]);
      assert Holds(s, x, s.reqs[x].place);
    }
    assert s'.workers[t].Running?;
  }

  lemma FinishKeeps(s: State, t: nat)
    requires Inv(s) && Enabled(s, Finish(t))
    ensures Inv(AfterFinish(s, t))
  {
    hide CountIdle, CountSlow;
    var s' := AfterFinish(s, t);
    var id := s.workers[t].id;
    var l := s.reqs[id].loop;
    assert Holds(s, id, AtWorker(t));
    assert !Holds(s, id, InLoop(l));
    CountUpdate(s.workers, t, Start(s.workers[t].slow));
    NoDupAppend(s.loops[l].wq, id);
    forall x, p ensures Holds(s', x, p) <==> x in s'.reqs && s'.reqs[x].place == p {
      assert Holds(s, x, p) <==> x in s.reqs && s.reqs[x].place == p;
    }
    forall x | x in s'.reqs ensures RequestOK(s', s'.reqs[x]) {
      assert RequestOK(s, s.reqs[x]);
      assert Holds(s, x, s.reqs[x].place);
    }
    assert s'.workers[t].Start?;
  }

  lemma SubmitKeeps(s: State, id: nat, l: nat, slow: bool, wake: nat)
    requires Inv(s) && Enabled(s, Submit(id, l, slow, wake))
    ensures Inv(AfterSubmit(s, id, l, slow, wake))
  {
    assert !Holds(s, id, InWork) && !Holds(s, id, InSlow);
    var s1 := s.(reqs := s.reqs[id := Request(l, slow, Function, true, if slow then InSlow else InWork, false, None)]);
    if slow {
      NoDupAppend(s.slowq, id);
      NoDupAppend2(s.wq, RunSlow);
      var s2 := s1.(slowq := s1.slowq + [id]);
      var s3 := s2.(wq := s2.wq + [RunSlow], runSlowLinked := true);
      SameBlocked(s, s2);
      SameBlocked(s, s3);
      if s2.runSlowLinked {
        SubmitSafe(s, s2, id, l, slow);
      } else {
        SubmitSafe(s, s3, id, l, slow);
        SignalIfIdleInv(s3, wake);
      }
    } else {
      var s2 := s1.(wq := s1.wq + [Req(id)]);
      NoDupAppend(s.wq, Req(id));
      SameBlocked(s, s2);
      SubmitSafe(s, s2, id, l, slow);
      SignalIfIdleInv(s2, wake);
    }
  }

  lemma NoDupAppend2<T>(q: seq<T>, x: T)
    requires NoDup(q)
    ensures x !in q ==> NoDup(q + [x])
    ensures forall y :: y in q + [x] <==> y in q || y == x
  {
  }

  lemma SubmitSafe(s: State, s': State, id: nat, l: nat, slow: bool)
    requires Safe(s) && id !in s.reqs && l < |s.loops|
    requires s' == s.(wq := s'.wq, slowq := s'.slowq, runSlowLinked := s'.runSlowLinked, reqs := s'.reqs)
    requires s'.reqs == s.reqs[id := Request(l, slow, Function, true, if slow then InSlow else InWork, false, None)]
    requires forall x :: Req(x) in s'.wq <==> Req(x) in s.wq || (!slow && x == id)
    requires forall x :: x in s'.slowq <==> x in s.slowq || (slow && x == id)
    requires QueuesOK(s') && MessagesOK(s')
    ensures Safe(s')
  {
    forall x, p ensures Holds(s', x, p) <==> x in s'.reqs && s'.reqs[x].place == p {
      assert Holds(s, x, p) <==> x in s.reqs && s.reqs[x].place == p;
    }
    forall x | x in s'.reqs ensures RequestOK(s', s'.reqs[x]) {
      if x != id { assert RequestOK(s, s.reqs[x]); }
    }
  }

  lemma PostExitKeeps(s: State, wake: nat)
    requires Inv(s) && Enabled(s, PostExit(wake))
    ensures Inv(AfterPostExit(s, wake))
  {
    var s1 := s.(wq := s.wq + [ExitMsg], exiting := true);
    NoDupAppend(s.wq, ExitMsg);
    PlacedKept(s, s1);
    forall id | id in s1.reqs ensures RequestOK(s1, s1.reqs[id]) { assert RequestOK(s, s.reqs[id]); }
    SameBlocked(s, s1);
    SignalIfIdleInv(s1, wake);
  }

  /** Unlinking a request takes it out of the one queue it is in. */
  lemma CancelRemoves(s: State, id: nat)
    requires Inv(s) && Enabled(s, CancelStart(id)) && CanCancel(s.reqs[id])
    ensures var s' := AfterCancelStart(s, id); QueuesOK(s') && MessagesOK(s') && (MustWait(s) ==> MustWait(s'))
    ensures forall x :: x in Remove(s.wq, Req(id)) <==> x in s.wq && x != Req(id)
    ensures forall x :: x in Remove(s.slowq, id) <==> x in s.slowq && x != id
    ensures var lp := s.loops[s.reqs[id].loop];
      && (forall x :: x in Remove(lp.wq, id) <==> x in lp.wq && x != id)
      && (forall x :: x in Remove(lp.local, id) <==> x in lp.local && x != id)
  {
    hide Placed, RequestsOK, CountersOK, MutexOK, Remove;
    var l := s.reqs[id].loop;
    RemoveElems(s.wq, Req(id));
    RemoveElems(s.slowq, id);
    RemoveElems(s.loops[l].wq, id);
    RemoveElems(s.loops[l].local, id);
  }

  lemma CancelStartKeeps(s: State, id: nat)
    requires Inv(s) && Enabled(s, CancelStart(id))
    ensures Inv(AfterCancelStart(s, id))
  {
    hide Remove;
    var s' := AfterCancelStart(s, id);
    var r := s.reqs[id];
    if CanCancel(r) {
      CancelRemoves(s, id);
      hide QueuesOK, MessagesOK, MustWait;
      assert RequestOK(s, r);
      assert Holds(s, id, r.place);
      forall x, p ensures Holds(s', x, p) <==> x in s'.reqs && s'.reqs[x].place == p {
        assert Holds(s, x, p) <==> x in s.reqs && s.reqs[x].place == p;
      }
      forall x | x in s'.reqs ensures RequestOK(s', s'.reqs[x]) {
        assert RequestOK(s, s.reqs[x]);
      }
      assert forall t :: IsBlocked(s', t) <==> IsBlocked(s, t);
    }
  }

  lemma CancelFinishKeeps(s: State, l: nat)
    requires Inv(s) && Enabled(s, CancelFinish(l))
    ensures Inv(AfterCancelFinish(s, l))
  {
    var s' := AfterCancelFinish(s, l);
    var id := s.loops[l].cancelling.value;
    assert Holds(s, id, Cancelling(l));
    assert !Holds(s, id, InLoop(l));
    assert RequestOK(s, s.reqs[id]);
    NoDupAppend(s.loops[l].wq, id);
    forall x, p ensures Holds(s', x, p) <==> x in s'.reqs && s'.reqs[x].place == p {
      assert Holds(s, x, p) <==> x in s.reqs && s.reqs[x].place == p;
    }
    forall x | x in s'.reqs ensures RequestOK(s', s'.reqs[x]) {
      assert RequestOK(s, s.reqs[x]);
    }
    assert forall t :: IsBlocked(s', t) <==> IsBlocked(s, t);
  }

  lemma CollectKeeps(s: State, l: nat)
    requires Inv(s) && Enabled(s, Collect(l))
    ensures Inv(AfterCollect(s, l))
  {
    var s' := AfterCollect(s, l);
    forall x, p ensures Holds(s', x, p) <==> x in s'.reqs && s'.reqs[x].place == p {
      assert Holds(s, x, p) <==> x in s.reqs && s.reqs[x].place == p;
      assert Holds(s, x, InLoop(l)) <==> x in s.reqs && s.reqs[x].place == InLoop(l);
    }
    forall x | x in s'.reqs ensures RequestOK(s', s'.reqs[x]) {
      assert RequestOK(s, s.reqs[x]);
    }
    assert forall t :: IsBlocked(s', t) <==> IsBlocked(s, t);
  }

  lemma DeliverKeeps(s: State, l: nat)
    requires Inv(s) && Enabled(s, Deliver(l))
    ensures Inv(AfterDeliver(s, l))
  {
    var s' := AfterDeliver(s, l);
    var id := s.loops[l].local[0];
    assert Holds(s, id, InLocal(l));
    NoDupTail(s.loops[l].local);
    forall x, p ensures Holds(s', x, p) <==> x in s'.reqs && s'.reqs[x].place == p {
      assert Holds(s, x, p) <==> x in s.reqs && s.reqs[x].place == p;
    }
    forall x | x in s'.reqs ensures RequestOK(s', s'.reqs[x]) {
      assert RequestOK(s, s.reqs[x]);
    }
    assert forall t :: IsBlocked(s', t) <==> IsBlocked(s, t);
  }

  /** Every step keeps the invariant. */
  lemma StepKeeps(s: State, e: Step)
    requires Inv(s) && Enabled(s, e)
    ensures Inv(Apply(s, e))
  {
    match e
    case Lock(t) => LockKeeps(s, t);
    case Iterate(t, wake) => IterateKeeps(s, t, wake);
    case Spurious(t) => SpuriousKeeps(s, t);
    case Call(t) => CallKeeps(s, t);
    case Finish(t) => FinishKeeps(s, t);
    case Submit(id, l, slow, wake) => SubmitKeeps(s, id, l, slow, wake);
    case CancelStart(id) => CancelStartKeeps(s, id);
    case CancelFinish(l) => CancelFinishKeeps(s, l);
    case Collect(l) => CollectKeeps(s, l);
    case Deliver(l) => DeliverKeeps(s, l);
    case PostExit(wake) => PostExitKeeps(s, wake);
  }

  lemma {:induction false} RunKeeps(s0: State, es: seq<Step>, s: State)
    requires Inv(s0) && Run(s0, es, s)
    ensures Inv(s)
    decreases |es|
  {
    if es != [] {
      StepKeeps(s0, es[0]);
      RunKeeps(Apply(s0, es[0]), es[1..], s);
    }
  }

  lemma ReachableInv(s: State)
    requires Reachable(s)
    ensures Inv(s)
  {
    var n: nat, m: nat, es: seq<Step> :| n > 0 && Run(Init(n, m), es, s);
    InitInv(n, m);
    RunKeeps(Init(n, m), es, s);
  }

  // ---------- What that means ----------

  /** Every submitted request is in exactly one place, and once delivered its callback
      has seen ECANCELED exactly if its work function never started. */
  lemma ExactlyOnce(s: State, id: nat)
    requires Reachable(s) && id in s.reqs
    ensures forall p, q :: Holds(s, id, p) && Holds(s, id, q) ==> p == q
    ensures exists p :: Holds(s, id, p)
    ensures QueuesOK(s)
    ensures s.reqs[id].done.Some? ==> (s.reqs[id].done == Some(Cancelled) <==> !s.reqs[id].started)
  {
    ReachableInv(s);
    assert Holds(s, id, s.reqs[id].place);
    assert RequestOK(s, s.reqs[id]);
  }

  /** A delivered request is delivered for good: no later step delivers it again,
      starts its work function or changes what its callback saw. */
  lemma {:induction false} DeliveredOnce(s0: State, es: seq<Step>, s: State, id: nat)
    requires Inv(s0) && Run(s0, es, s) && id in s0.reqs && s0.reqs[id].done.Some?
    ensures id in s.reqs && s.reqs[id].done == s0.reqs[id].done && s.reqs[id].started == s0.reqs[id].started
    decreases |es|
  {
    if es != [] {
      StepKeeps(s0, es[0]);
      DeliveredStep(s0, es[0], id);
      DeliveredOnce(Apply(s0, es[0]), es[1..], s, id);
    }
  }

  lemma DeliveredStep(s: State, e: Step, id: nat)
    requires Inv(s) && Enabled(s, e) && id in s.reqs && s.reqs[id].done.Some?
    ensures id in Apply(s, e).reqs && Apply(s, e).reqs[id] == s.reqs[id]
  {
    assert RequestOK(s, s.reqs[id]);
    match e
    case Iterate(t, wake) => DeliveredIterate(s, t, wake, id);
    case Submit(_, _, _, _) => DeliveredSubmit(s, e, id);
    case CancelStart(_) => DeliveredCancel(s, e, id);
    case CancelFinish(_) => DeliveredCancel(s, e, id);
    case Call(_) => DeliveredWorker(s, e, id);
    case Finish(_) => DeliveredWorker(s, e, id);
    case Deliver(_) => DeliveredLoop(s, e, id);
    case Collect(_) => DeliveredLoop(s, e, id);
    case _ =>
  }

  lemma DeliveredSubmit(s: State, e: Step, id: nat)
    requires Inv(s) && Enabled(s, e) && id in s.reqs && e.Submit?
    ensures id in Apply(s, e).reqs && Apply(s, e).reqs[id] == s.reqs[id]
  {
  }

  lemma DeliveredCancel(s: State, e: Step, id: nat)
    requires Inv(s) && Enabled(s, e) && id in s.reqs && s.reqs[id].place.Delivered? &&
      (e.CancelStart? || e.CancelFinish?)
    ensures id in Apply(s, e).reqs && Apply(s, e).reqs[id] == s.reqs[id]
  {
    if e.CancelFinish? { assert Holds(s, s.loops[e.l].cancelling.value, Cancelling(e.l)); }
  }

  lemma DeliveredWorker(s: State, e: Step, id: nat)
    requires Inv(s) && Enabled(s, e) && id in s.reqs && s.reqs[id].place.Delivered? && (e.Call? || e.Finish?)
    ensures id in Apply(s, e).reqs && Apply(s, e).reqs[id] == s.reqs[id]
  {
    assert Holds(s, s.workers[e.t].id, AtWorker(e.t));
  }

  lemma DeliveredLoop(s: State, e: Step, id: nat)
    requires Inv(s) && Enabled(s, e) && id in s.reqs && s.reqs[id].place.Delivered? && (e.Deliver? || e.Collect?)
    ensures id in Apply(s, e).reqs && Apply(s, e).reqs[id] == s.reqs[id]
  {
    if e.Deliver? { assert Holds(s, s.loops[e.l].local[0], InLocal(e.l)); }
  }

  lemma DeliveredIterate(s: State, t: nat, wake: nat, id: nat)
    requires Inv(s) && Enabled(s, Iterate(t, wake)) && id in s.reqs && s.reqs[id].place.Delivered?
    ensures id in AfterIterate(s, t, wake).reqs && AfterIterate(s, t, wake).reqs[id] == s.reqs[id]
  {
    if !MustWait(s) && s.wq[0].Req? { assert Holds(s, s.wq[0].id, InWork); }
    if s.slowq != [] { assert Holds(s, s.slowq[0], InSlow); }
  }

  // Counted along a run.

  ghost predicate Delivers(s: State, e: Step, id: nat) {
    e.Deliver? && e.l < |s.loops| && s.loops[e.l].local != [] && s.loops[e.l].local[0] == id
  }

  /** The step runs the work function of `id`. */
  ghost predicate Calls(s: State, e: Step, id: nat) {
    e.Call? && e.t < |s.workers| && s.workers[e.t].Taken? && s.workers[e.t].id == id && id in s.reqs &&
      s.reqs[id].work == Function
  }

  /** How many steps of a run deliver `id`, and how many run its work function. */
  ghost function Counts(s0: State, es: seq<Step>, id: nat): (nat, nat)
    decreases |es|
  {
    if es == [] || !Enabled(s0, es[0]) then (0, 0)
    else
      var (d, c) := Counts(Apply(s0, es[0]), es[1..], id);
      ((if Delivers(s0, es[0], id) then 1 else 0) + d, (if Calls(s0, es[0], id) then 1 else 0) + c)
  }

  ghost predicate IsDone(s: State, id: nat) { id in s.reqs && s.reqs[id].done.Some? }

  ghost predicate IsStarted(s: State, id: nat) { id in s.reqs && s.reqs[id].started }

  /** A step delivers a request only if it has not been delivered, and only such a step makes it
      delivered; the same for its work function. */
  lemma StepCounts(s: State, e: Step, id: nat)
    requires Inv(s) && Enabled(s, e)
    ensures IsDone(Apply(s, e), id) <==> IsDone(s, id) || Delivers(s, e, id)
    ensures IsStarted(Apply(s, e), id) <==> IsStarted(s, id) || Calls(s, e, id)
    ensures Delivers(s, e, id) ==> !IsDone(s, id)
    ensures Calls(s, e, id) ==> !IsStarted(s, id)
  {
    if e.Deliver? { assert Holds(s, s.loops[e.l].local[0], InLocal(e.l)); assert RequestOK(s,
      s.reqs[s.loops[e.l].local[0]]); }
    if e.Call? { assert Holds(s, s.workers[e.t].id, AtWorker(e.t)); assert RequestOK(s, s.reqs[s.workers[e.t].id]); }
    StepFields(s, e, id);
  }

  lemma StepFields(s: State, e: Step, id: nat)
    requires Enabled(s, e)
    ensures IsDone(Apply(s, e), id) <==> IsDone(s, id) || Delivers(s, e, id)
    ensures IsStarted(Apply(s, e), id) <==> IsStarted(s, id) || Calls(s, e, id)
  {
    hide AfterIterate, AfterSubmit, AfterPostExit, CanSignal, IsBlocked, Remove, MustWait;
    match e
    case Iterate(t, wake) => IterateFields(s, t, wake, id);
    case Submit(x, l, slow, wake) => SubmitFields(s, x, l, slow, wake, id);
    case PostExit(wake) => ExitFields(s, wake);
    case Spurious(t) => SignalFields(s, t);
    case _ =>
  }

  lemma IterateFields(s: State, t: nat, wake: nat, id: nat)
    requires Enabled(s, Iterate(t, wake))
    ensures IsDone(AfterIterate(s, t, wake), id) == IsDone(s, id) &&
      IsStarted(AfterIterate(s, t, wake), id) == IsStarted(s, id)
  {
    hide IsBlocked, CanSignal, Threshold, Signal, SignalIfIdle, Take;
    if !MustWait(s) {
      match s.wq[0]
      case ExitMsg => SignalFields(s, wake);
      case Req(x) => TakeFields(s.(wq := s.wq[1..]), t, x, false, id);
      case RunSlow =>
        if s.slowRunning < Threshold(s) && s.slowq != [] {
          var s1 := s.(wq := s.wq[1..], runSlowLinked := false);
          var s2 := s1.(slowRunning := s.slowRunning + 1, slowq := s.slowq[1..]);
          var s3 := s2.(wq := s2.wq + [RunSlow], runSlowLinked := true);
          SignalFields(s3, wake);
          TakeFields(if s2.slowq != [] then SignalIfIdle(s3, wake) else s2, t, s.slowq[0], true, id);
        }
    }
  }

  lemma SubmitFields(s: State, x: nat, l: nat, slow: bool, wake: nat, id: nat)
    requires x !in s.reqs
    ensures IsDone(AfterSubmit(s, x, l, slow, wake), id) == IsDone(s, id) &&
      IsStarted(AfterSubmit(s, x, l, slow, wake), id) == IsStarted(s, id)
  {
    hide IsBlocked, Signal, SignalIfIdle;
    var s1 := s.(reqs := s.reqs[x := Request(l, slow, Function, true, if slow then InSlow else InWork, false, None)]);
    SignalFields(s1.(wq := s1.wq + [Req(x)]), wake);
    var s2 := s1.(slowq := s1.slowq + [x]);
    SignalFields(s2.(wq := s2.wq + [RunSlow], runSlowLinked := true), wake);
  }

  lemma ExitFields(s: State, wake: nat)
    ensures AfterPostExit(s, wake).reqs == s.reqs
  {
    hide IsBlocked, Signal;
    SignalFields(s.(wq := s.wq + [ExitMsg], exiting := true), wake);
  }

  lemma TakeFields(s: State, t: nat, x: nat, slow: bool, id: nat)
    requires t < |s.workers|
    ensures IsDone(Take(s, t, x, slow), id) == IsDone(s, id) && IsStarted(Take(s, t, x, slow), id) == IsStarted(s, id)
  {
  }

  lemma SignalFields(s: State, wake: nat)
    ensures Signal(s, wake).reqs == s.reqs && |Signal(s, wake).workers| == |s.workers|
    ensures SignalIfIdle(s, wake).reqs == s.reqs && |SignalIfIdle(s, wake).workers| == |s.workers|
  {
  }

  /** Over any run from the start, no request is delivered twice and no work function runs twice:
      each has happened once if the request says so, and otherwise not at all. */
  lemma AtMostOnce(n: nat, m: nat, es: seq<Step>, s: State, id: nat)
    requires n > 0 && Run(Init(n, m), es, s)
    ensures Counts(Init(n, m), es, id).0 == if IsDone(s, id) then 1 else 0
    ensures Counts(Init(n, m), es, id).1 == if IsStarted(s, id) then 1 else 0
  {
    InitInv(n, m);
    CountedFrom(Init(n, m), es, s, id);
  }

  lemma {:induction false} CountedFrom(s0: State, es: seq<Step>, s: State, id: nat)
    requires Inv(s0) && Run(s0, es, s)
    ensures Counts(s0, es, id).0 == (if IsDone(s, id) then 1 else 0) - (if IsDone(s0, id) then 1 else 0)
    ensures Counts(s0, es, id).1 == (if IsStarted(s, id) then 1 else 0) - (if IsStarted(s0, id) then 1 else 0)
    decreases |es|
  {
    hide Inv, Enabled, Apply, Delivers, Calls, IsDone, IsStarted;
    if es != [] {
      StepKeeps(s0, es[0]);
      StepCounts(s0, es[0], id);
      CountedFrom(Apply(s0, es[0]), es[1..], s, id);
    }
  }

  /** `uv__cancelled` is never called. */
  lemma NeverAborts(s: State)
    requires Reachable(s)
    ensures !s.aborted
    ensures forall t :: 0 <= t < |s.workers| && s.workers[t].Taken? && s.workers[t].id in s.reqs ==>
              s.reqs[s.workers[t].id].work == Function
  {
    ReachableInv(s);
    forall t | 0 <= t < |s.workers| && s.workers[t].Taken? && s.workers[t].id in s.reqs
      ensures s.reqs[s.workers[t].id].work == Function
    {
      assert Holds(s, s.workers[t].id, AtWorker(t));
      assert RequestOK(s, s.reqs[s.workers[t].id]);
    }
  }

  /** Slow work never takes more than half of the pool (rounded up). */
  lemma SlowWorkBounded(s: State)
    requires Reachable(s)
    ensures s.slowRunning == CountSlow(s.workers) <= (|s.workers| + 1) / 2
    ensures s.idle == CountIdle(s.workers)
  {
    ReachableInv(s);
  }

  /** No lost wakeup: if every worker is blocked on the condition, nothing is queued. */
  lemma NothingForgotten(s: State)
    requires Reachable(s) && forall t :: 0 <= t < |s.workers| ==> s.workers[t].Blocked?
    ensures s.wq == [] && s.slowq == []
  {
    ReachableInv(s);
    CountNoSlow(s.workers);
    assert IsBlocked(s, 0);
  }

  /** Nobody is left behind: once the exit message is posted, the workers that have not
      left are never all blocked. */
  lemma ExitReachesAll(s: State)
    requires Reachable(s) && s.exiting
    ensures exists t :: 0 <= t < |s.workers| && !s.workers[t].Blocked?
    ensures AllAsleep(s) ==> forall t :: 0 <= t < |s.workers| ==> s.workers[t].Exited?
  {
    ReachableInv(s);
    assert ExitMsg in s.wq && !MustWait(s);
    forall t | 0 <= t < |s.workers| && AllAsleep(s) ensures s.workers[t].Exited? {
      assert !IsBlocked(s, t);
    }
    assert s.workers[0].Blocked? ==> IsBlocked(s, 0);
  }
}
